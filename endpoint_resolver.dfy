/** The walk over a USB configuration descriptor that picks the interface
    to read from and its bulk-IN endpoint (setup_cdc_reading). Descriptors
    are visited by their bLength until wTotalLength is consumed (USB 2.0
    section 9.6.3); an interface becomes the candidate when its class is CDC
    Data, 0x0A (section 4.5 of USB CDC 1.2), or when it declares at least
    one endpoint (USB 2.0 section 9.6.5); the first endpoint after a
    candidate that is IN and bulk (USB 2.0 section 9.6.6) wins. */
module EndpointResolver {

  import opened Wrappers
  import opened Bytes

  const InterfaceType: byte := 0x04
  const EndpointType: byte := 0x05
  const CdcDataClass: byte := 0x0A
  const DirectionIn: byte := 0x80
  const TransferTypeMask: byte := 0x03
  const BulkTransfer: byte := 0x02

  /** The byte at `i` of the descriptor image; memory past the image is not
      part of the model and reads as 0. */
  function ByteAt(config: seq<byte>, i: nat): byte
  {
    if i < |config| then config[i] else 0
  }

  /** wTotalLength, little-endian at offset 2 of the configuration descriptor. */
  function TotalLength(config: seq<byte>): nat
  {
    ByteAt(config, 2) as nat + 256 * ByteAt(config, 3) as nat
  }

  /** One descriptor as the walk sees it. */
  datatype Desc =
    | Interface(number: byte, numEndpoints: byte, interfaceClass: byte)
    | Endpoint(address: byte, attributes: byte)
    | Other

  /** The descriptor starting at `offset`. */
  function DescAt(config: seq<byte>, offset: nat): Desc
  {
    var kind := ByteAt(config, offset + 1);
    if kind == InterfaceType then
      Interface(ByteAt(config, offset + 2), ByteAt(config, offset + 4), ByteAt(config, offset + 5))
    else if kind == EndpointType then
      Endpoint(ByteAt(config, offset + 2), ByteAt(config, offset + 3))
    else Other
  }

  /** An interface the walk takes as the data interface. */
  predicate Qualifies(d: Desc)
  {
    d.Interface? && (d.interfaceClass == CdcDataClass || d.numEndpoints > 0)
  }

  predicate IsBulkIn(d: Desc)
  {
    d.Endpoint? && d.address & DirectionIn == DirectionIn &&
    d.attributes & TransferTypeMask == BulkTransfer
  }

  /** The walk from `offset` stops: it reaches wTotalLength, or it reaches a
      bulk-IN endpoint while it has a candidate interface (`cand`), and every
      descriptor it steps over before that has a non-zero bLength. A zero
      bLength on the way would make the walk spin forever; descriptors after
      the stopping point are never read. */
  predicate WalkEnds(config: seq<byte>, offset: nat, cand: bool)
    decreases TotalLength(config) - offset
  {
    offset >= TotalLength(config) ||
    (cand && IsBulkIn(DescAt(config, offset))) ||
    (ByteAt(config, offset) > 0 &&
     WalkEnds(config, offset + ByteAt(config, offset) as nat, cand || Qualifies(DescAt(config, offset))))
  }

  /** The descriptors the walk reads from `offset` on, in order, ending with
      the bulk-IN endpoint it stops at, if any. */
  function VisitedFrom(config: seq<byte>, offset: nat, cand: bool): seq<Desc>
    requires WalkEnds(config, offset, cand)
    decreases TotalLength(config) - offset
  {
    if offset >= TotalLength(config) then []
    else if cand && IsBulkIn(DescAt(config, offset)) then [DescAt(config, offset)]
    else [DescAt(config, offset)] + VisitedFrom(config, offset + ByteAt(config, offset) as nat,
                                                cand || Qualifies(DescAt(config, offset)))
  }

  /** The descriptors the walk of a configuration reads. */
  function Visited(config: seq<byte>): seq<Desc>
    requires WalkEnds(config, 0, false)
  {
    VisitedFrom(config, 0, false)
  }

  /** The number of the last qualifying interface among `ds`, if any. */
  function LastCandidate(ds: seq<Desc>): Option<byte>
  {
    if ds == [] then None
    else if Qualifies(ds[|ds| - 1]) then Some(ds[|ds| - 1].number)
    else LastCandidate(ds[..|ds| - 1])
  }

  /** Descriptor `k` is a bulk-IN endpoint that comes after some qualifying interface. */
  predicate MatchAt(ds: seq<Desc>, k: int)
  {
    0 <= k < |ds| && IsBulkIn(ds[k]) && LastCandidate(ds[..k]).Some?
  }

  /** What the walk resolves: the data interface and the IN endpoint to read. */
  datatype CdcEndpoint = CdcEndpoint(interfaceNumber: byte, address: byte)

  /** No descriptor of `ds` is a bulk-IN endpoint after a qualifying interface. */
  ghost predicate NoMatch(ds: seq<Desc>)
  {
    forall k :: 0 <= k < |ds| ==> !MatchAt(ds, k)
  }

  /** The walk's result for `config`: nothing exactly when no bulk-IN
      endpoint follows a qualifying interface; otherwise the first such
      endpoint and the most recent qualifying interface before it. */
  ghost predicate Resolves(config: seq<byte>, r: Option<CdcEndpoint>)
    requires WalkEnds(config, 0, false)
  {
    var ds := Visited(config);
    (r.None? <==> NoMatch(ds)) &&
    (r.Some? ==>
      r.value.address & DirectionIn == DirectionIn &&
      exists k :: MatchAt(ds, k) && (forall j :: 0 <= j < k ==> !MatchAt(ds, j)) &&
        ds[k].address == r.value.address && LastCandidate(ds[..k]) == Some(r.value.interfaceNumber))
  }

  /** The walk's state at `offset`: the descriptors already read (`seen`)
      followed by those still to read make up all the walk reads, the
      candidate is the last qualifying interface seen, and nothing seen
      so far matched. */
  ghost predicate WalkState(config: seq<byte>, offset: nat, candidate: Option<byte>, seen: seq<Desc>)
  {
    WalkEnds(config, offset, candidate.Some?) && WalkEnds(config, 0, false) &&
    seen + VisitedFrom(config, offset, candidate.Some?) == Visited(config) &&
    candidate == LastCandidate(seen) && NoMatch(seen)
  }

  /** The descriptor walk of setup_cdc_reading. It finds nothing exactly when
      no bulk-IN endpoint follows a qualifying interface; otherwise it returns
      the first such endpoint and the most recent qualifying interface before it. */
  method ResolveEndpoint(config: seq<byte>) returns (r: Option<CdcEndpoint>)
    requires WalkEnds(config, 0, false)
    ensures Resolves(config, r)
  {
    var total := TotalLength(config);
    var offset: nat := 0;
    var candidate: Option<byte> := None;
    ghost var seen: seq<Desc> := [];
    assert seen + Visited(config) == Visited(config);
    r := None;
    while offset < total
      invariant WalkState(config, offset, candidate, seen)
      decreases total - offset
    {
      var length := ByteAt(config, offset);
      var desc := DescAt(config, offset);
      var next := candidate;
      if desc.Interface? {
        if desc.interfaceClass == CdcDataClass || desc.numEndpoints > 0 {
          next := Some(desc.number);
        }
      } else if desc.Endpoint? && candidate.Some? {
        if desc.address & DirectionIn == DirectionIn && desc.attributes & TransferTypeMask == BulkTransfer {
          r := Some(CdcEndpoint(candidate.value, desc.address));
          WalkFound(config, offset, candidate, seen);
          return;
        }
      }
      WalkAdvance(config, offset, candidate, seen);
      seen := seen + [desc];
      candidate := next;
      offset := offset + length as nat;
    }
    WalkDone(config, offset, candidate, seen);
  }

  /** A descriptor the walk does not stop at: the state moves past it. */
  lemma WalkAdvance(config: seq<byte>, offset: nat, candidate: Option<byte>, seen: seq<Desc>)
    requires WalkState(config, offset, candidate, seen) && offset < TotalLength(config)
    requires !(candidate.Some? && IsBulkIn(DescAt(config, offset)))
    ensures ByteAt(config, offset) > 0
    ensures var d := DescAt(config, offset);
      WalkState(config, offset + ByteAt(config, offset) as nat,
                if Qualifies(d) then Some(d.number) else candidate, seen + [d])
  {
    var d := DescAt(config, offset);
    WalkStep(config, offset, candidate.Some?);
    assert seen + VisitedFrom(config, offset, candidate.Some?) ==
      (seen + [d]) + VisitedFrom(config, offset + ByteAt(config, offset) as nat, candidate.Some? || Qualifies(d));
    LastCandidateExtends(seen, d);
    MatchPrefix(seen, [d]);
    assert !MatchAt(seen + [d], |seen|);
  }

  /** A bulk-IN endpoint after a candidate: the walk's answer is resolved. */
  lemma WalkFound(config: seq<byte>, offset: nat, candidate: Option<byte>, seen: seq<Desc>)
    requires WalkState(config, offset, candidate, seen) && offset < TotalLength(config)
    requires candidate.Some? && IsBulkIn(DescAt(config, offset))
    ensures Resolves(config, Some(CdcEndpoint(candidate.value, DescAt(config, offset).address)))
  {
    var ds := Visited(config);
    assert VisitedFrom(config, offset, true) == [DescAt(config, offset)];
    FoundIsFirst(ds, seen, VisitedFrom(config, offset, true));
  }

  /** wTotalLength reached: nothing was found, and nothing matched. */
  lemma WalkDone(config: seq<byte>, offset: nat, candidate: Option<byte>, seen: seq<Desc>)
    requires WalkState(config, offset, candidate, seen) && offset >= TotalLength(config)
    ensures Resolves(config, None)
  {
    assert seen == Visited(config);
  }

  /** The endpoint at the current position matches, and none before it did. */
  lemma FoundIsFirst(ds: seq<Desc>, seen: seq<Desc>, rest: seq<Desc>)
    requires ds == seen + rest && rest != []
    requires NoMatch(seen)
    requires IsBulkIn(rest[0]) && LastCandidate(seen).Some?
    ensures MatchAt(ds, |seen|) && ds[|seen|] == rest[0] && ds[..|seen|] == seen
    ensures forall j :: 0 <= j < |seen| ==> !MatchAt(ds, j)
  {
    MatchPrefix(seen, rest);
  }

  /** Whether a descriptor matches depends only on it and those before it. */
  lemma MatchPrefix(seen: seq<Desc>, rest: seq<Desc>)
    ensures forall k :: 0 <= k < |seen| ==> (MatchAt(seen + rest, k) <==> MatchAt(seen, k))
    ensures (seen + rest)[..|seen|] == seen
  {
    var s := seen + rest;
    assert s[..|seen|] == seen;
    forall k | 0 <= k < |seen|
      ensures MatchAt(s, k) <==> MatchAt(seen, k)
    {
      assert s[..k] == seen[..k];
      assert s[k] == seen[k];
    }
  }

  lemma LastCandidateExtends(seen: seq<Desc>, d: Desc)
    ensures LastCandidate(seen + [d]) == if Qualifies(d) then Some(d.number) else LastCandidate(seen)
  {
  }

  /** One step of the walk past a descriptor it does not stop at: that
      descriptor, then the rest. */
  lemma WalkStep(config: seq<byte>, offset: nat, cand: bool)
    requires WalkEnds(config, offset, cand) && offset < TotalLength(config)
    requires !(cand && IsBulkIn(DescAt(config, offset)))
    ensures ByteAt(config, offset) > 0
    ensures WalkEnds(config, offset + ByteAt(config, offset) as nat, cand || Qualifies(DescAt(config, offset)))
    ensures VisitedFrom(config, offset, cand) ==
      [DescAt(config, offset)] +
      VisitedFrom(config, offset + ByteAt(config, offset) as nat, cand || Qualifies(DescAt(config, offset)))
  {
  }

  /** The selection rule leaves no choice: at most one result satisfies it. */
  lemma ResolvesUnique(config: seq<byte>, r1: Option<CdcEndpoint>, r2: Option<CdcEndpoint>)
    requires WalkEnds(config, 0, false)
    requires Resolves(config, r1) && Resolves(config, r2)
    ensures r1 == r2
  {
  }

  /** The configuration of a usual CDC-ACM device: a communication interface
      (class 0x02) with an interrupt-IN endpoint, then a CDC Data interface
      with a bulk-OUT and a bulk-IN endpoint, one descriptor at a time. */
  const AcmConfigHeader: seq<byte> := [9, 2, 48, 0, 2, 1, 0, 0x80, 50]  // wTotalLength 48
  const AcmCommInterface: seq<byte> := [9, 4, 0, 0, 1, 0x02, 0x02, 0x01, 0]
  const AcmNotifyEndpoint: seq<byte> := [7, 5, 0x83, 0x03, 8, 0, 16]  // interrupt IN
  const AcmDataInterface: seq<byte> := [9, 4, 1, 0, 2, 0x0A, 0x00, 0x00, 0]
  const AcmBulkOut: seq<byte> := [7, 5, 0x02, 0x02, 64, 0, 0]
  const AcmBulkIn: seq<byte> := [7, 5, 0x81, 0x02, 64, 0, 0]
  const AcmConfig: seq<byte> :=
    AcmConfigHeader + AcmCommInterface + AcmNotifyEndpoint + AcmDataInterface + AcmBulkOut + AcmBulkIn

  /** On that device the communication interface qualifies as well, having
      an endpoint, but its endpoint is not bulk and the bulk-OUT endpoint is
      not IN: the walk resolves interface 1 and endpoint 0x81. */
  lemma AcmConfigResolves()
    ensures WalkEnds(AcmConfig, 0, false)
    ensures Resolves(AcmConfig, Some(CdcEndpoint(1, 0x81)))
  {
    AcmConfigWalk();
    var ds := Visited(AcmConfig);
    assert LastCandidate(ds[..5]) == Some(1);
    assert MatchAt(ds, 5);
    assert !IsBulkIn(ds[2]) && !IsBulkIn(ds[4]);
    assert forall j :: 0 <= j < 5 ==> !MatchAt(ds, j);
  }

  /** The walk over that device reads all six descriptors. */
  lemma AcmConfigWalk()
    ensures WalkEnds(AcmConfig, 0, false)
    ensures Visited(AcmConfig) == [Other, Interface(0, 1, 0x02), Endpoint(0x83, 0x03),
                                   Interface(1, 2, 0x0A), Endpoint(0x02, 0x02), Endpoint(0x81, 0x02)]
  {
    var c := AcmConfig;
    AcmConfigDataInterface();
    assert ByteAt(c, 18) == 7 && DescAt(c, 18) == Endpoint(0x83, 0x03) && WalkEnds(c, 18, true);
    assert ByteAt(c, 9) == 9 && DescAt(c, 9) == Interface(0, 1, 0x02) && WalkEnds(c, 9, false);
    assert ByteAt(c, 0) == 9 && DescAt(c, 0) == Other && WalkEnds(c, 0, false);
    assert VisitedFrom(c, 18, true) == [Endpoint(0x83, 0x03)] + VisitedFrom(c, 25, true);
    assert VisitedFrom(c, 9, false) == [Interface(0, 1, 0x02)] + VisitedFrom(c, 18, true);
    assert VisitedFrom(c, 0, false) == [Other] + VisitedFrom(c, 9, false);
  }

  /** From the CDC Data interface at offset 25 on, with a candidate already
      found, the walk reads that interface and its two endpoints. */
  lemma AcmConfigDataInterface()
    ensures TotalLength(AcmConfig) == 48
    ensures WalkEnds(AcmConfig, 25, true)
    ensures VisitedFrom(AcmConfig, 25, true) ==
      [Interface(1, 2, 0x0A), Endpoint(0x02, 0x02), Endpoint(0x81, 0x02)]
  {
    var c := AcmConfig;
    assert |c| == 48;
    assert ByteAt(c, 2) == 48 && ByteAt(c, 3) == 0;
    assert TotalLength(c) == 48;
    assert DescAt(c, 41) == Endpoint(0x81, 0x02) && WalkEnds(c, 41, true);
    assert ByteAt(c, 34) == 7 && DescAt(c, 34) == Endpoint(0x02, 0x02) && WalkEnds(c, 34, true);
    assert ByteAt(c, 25) == 9 && DescAt(c, 25) == Interface(1, 2, 0x0A) && WalkEnds(c, 25, true);
    assert VisitedFrom(c, 41, true) == [Endpoint(0x81, 0x02)];
    assert VisitedFrom(c, 34, true) == [Endpoint(0x02, 0x02)] + VisitedFrom(c, 41, true);
    assert VisitedFrom(c, 25, true) == [Interface(1, 2, 0x0A)] + VisitedFrom(c, 34, true);
  }

  /** A configuration whose last byte, still inside wTotalLength 26, is a
      zero bLength right after the bulk-IN endpoint. */
  const EarlyStopHeader: seq<byte> := [9, 2, 26, 0, 1, 1, 0, 0x80, 50]
  const EarlyStopInterface: seq<byte> := [9, 4, 0, 0, 1, 0x0A, 0x00, 0x00, 0]
  const EarlyStopBulkIn: seq<byte> := [7, 5, 0x81, 0x02, 64, 0, 0]
  const EarlyStopConfig: seq<byte> := EarlyStopHeader + EarlyStopInterface + EarlyStopBulkIn + [0]

  /** The walk stops at the first bulk-IN endpoint and never reads the zero
      bLength after it: it resolves interface 0, endpoint 0x81. */
  lemma EarlyStopResolves()
    ensures ByteAt(EarlyStopConfig, 25) == 0 && TotalLength(EarlyStopConfig) == 26
    ensures WalkEnds(EarlyStopConfig, 0, false)
    ensures Resolves(EarlyStopConfig, Some(CdcEndpoint(0, 0x81)))
  {
    var c := EarlyStopConfig;
    assert |c| == 26;
    assert ByteAt(c, 2) == 26 && ByteAt(c, 3) == 0 && ByteAt(c, 25) == 0;
    assert TotalLength(c) == 26;
    assert DescAt(c, 18) == Endpoint(0x81, 0x02) && WalkEnds(c, 18, true);
    assert ByteAt(c, 9) == 9 && DescAt(c, 9) == Interface(0, 1, 0x0A) && WalkEnds(c, 9, false);
    assert ByteAt(c, 0) == 9 && DescAt(c, 0) == Other && WalkEnds(c, 0, false);
    assert VisitedFrom(c, 18, true) == [Endpoint(0x81, 0x02)];
    assert VisitedFrom(c, 9, false) == [Interface(0, 1, 0x0A)] + VisitedFrom(c, 18, true);
    assert VisitedFrom(c, 0, false) == [Other] + VisitedFrom(c, 9, false);
    var ds := Visited(c);
    assert ds == [Other, Interface(0, 1, 0x0A), Endpoint(0x81, 0x02)];
    assert LastCandidate(ds[..2]) == Some(0);
    assert MatchAt(ds, 2);
    assert forall j :: 0 <= j < 2 ==> !MatchAt(ds, j);
  }
}
