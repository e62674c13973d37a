/** Reassembly of the USB byte stream into text lines (the byte loop of the
    transfer callback). A persistent line buffer collects characters; a line
    feed emits the buffer as one line, a carriage return is skipped, and a
    buffer that grows past its ceiling is emitted at once with a truncation
    marker. This module holds the step as a pure function and what it
    guarantees over whole streams; the in-place loop is Logger.TransferCallback. */
module LineReassembly {

  import opened Bytes

  const LineBufferSize := 1024
  /** The buffer is emitted as soon as it holds more than this many characters. */
  const MaxLine := LineBufferSize - 10
  const TruncationMarker := " [ОБРІЗАНО]"

  const LF: byte := 0x0A
  const CR: byte := 0x0D

  /** The `(char)` cast of a received byte; the String keeps its value. */
  function ByteChar(b: byte): char
  {
    (b as int) as char
  }

  predicate IsTerminator(c: char) { c == '\n' || c == '\r' }

  /** One emitted line: its text, and whether it was cut off at the ceiling. */
  datatype Line = Line(body: string, truncated: bool)

  /** The characters that reach the line buffer: the input without its CR
      and LF bytes, in arrival order. */
  function Kept(data: seq<byte>): (s: string)
    ensures forall i :: 0 <= i < |s| ==> !IsTerminator(s[i])
  {
    if data == [] then []
    else (if data[0] == LF || data[0] == CR then [] else [ByteChar(data[0])]) + Kept(data[1..])
  }

  /** The texts of the lines, concatenated, without timestamps or markers. */
  function Bodies(lines: seq<Line>): string
  {
    if lines == [] then [] else lines[0].body + Bodies(lines[1..])
  }

  /** How many of the bytes are line feeds. */
  function CountLF(data: seq<byte>): nat
  {
    if data == [] then 0 else (if data[0] == LF then 1 else 0) + CountLF(data[1..])
  }

  /** How many of the lines were ended by a line feed rather than cut off. */
  function CountComplete(lines: seq<Line>): nat
  {
    if lines == [] then 0 else (if lines[0].truncated then 0 else 1) + CountComplete(lines[1..])
  }

  /** One byte of a completed transfer fed to the line buffer `buf`: the new
      buffer and the lines this byte emits. */
  function Step(buf: string, b: byte): (r: (string, seq<Line>))
    ensures |buf| <= MaxLine ==> |r.0| <= MaxLine
    ensures |r.1| <= 1
    ensures Bodies(r.1) + r.0 == buf + Kept([b])
  {
    if b == LF then ("", [Line(buf, false)])
    else if b == CR then (buf, [])
    else if |buf + [ByteChar(b)]| > MaxLine then ("", [Line(buf + [ByteChar(b)], true)])
    else (buf + [ByteChar(b)], [])
  }

  /** A run of bytes fed one by one: the final buffer and every emitted line, in order. */
  function Run(buf: string, data: seq<byte>): (string, seq<Line>)
    decreases |data|
  {
    if data == [] then (buf, [])
    else
      var first := Step(buf, data[0]);
      var rest := Run(first.0, data[1..]);
      (rest.0, first.1 + rest.1)
  }

  /** The message printed and logged for a line: timestamp, a space, the
      text, and the marker if the line was cut off. */
  function Render(ts: string, line: Line): string
  {
    ts + " " + line.body + (if line.truncated then TruncationMarker else "")
  }

  function RenderAll(ts: string, lines: seq<Line>): (out: seq<string>)
    ensures |out| == |lines|
    ensures forall i :: 0 <= i < |lines| ==> out[i] == Render(ts, lines[i])
  {
    seq(|lines|, i requires 0 <= i < |lines| => Render(ts, lines[i]))
  }

  lemma BodiesAppend(a: seq<Line>, b: seq<Line>)
    ensures Bodies(a + b) == Bodies(a) + Bodies(b)
  {
    if a == [] {
      assert a + b == b;
    } else {
      assert (a + b)[0] == a[0];
      assert (a + b)[1..] == a[1..] + b;
      BodiesAppend(a[1..], b);
    }
  }

  lemma KeptAppend(a: seq<byte>, b: seq<byte>)
    ensures Kept(a + b) == Kept(a) + Kept(b)
  {
    if a == [] {
      assert a + b == b;
    } else {
      assert (a + b)[0] == a[0];
      assert (a + b)[1..] == a[1..] + b;
      KeptAppend(a[1..], b);
    }
  }

  lemma CountCompleteAppend(a: seq<Line>, b: seq<Line>)
    ensures CountComplete(a + b) == CountComplete(a) + CountComplete(b)
  {
    if a == [] {
      assert a + b == b;
    } else {
      assert (a + b)[0] == a[0];
      assert (a + b)[1..] == a[1..] + b;
      CountCompleteAppend(a[1..], b);
    }
  }

  /** The buffer persists between transfers: feeding a stream in one piece
      or split at any point gives the same lines and the same final buffer. */
  lemma {:induction false} RunSplit(buf: string, xs: seq<byte>, ys: seq<byte>)
    decreases |xs|
    ensures Run(buf, xs + ys) == (Run(Run(buf, xs).0, ys).0, Run(buf, xs).1 + Run(Run(buf, xs).0, ys).1)
  {
    if xs == [] {
      assert xs + ys == ys;
      assert Run(buf, xs) == (buf, []);
      assert [] + Run(buf, ys).1 == Run(buf, ys).1;
    } else {
      assert (xs + ys)[0] == xs[0];
      assert (xs + ys)[1..] == xs[1..] + ys;
      var first := Step(buf, xs[0]);
      RunSplit(first.0, xs[1..], ys);
      var mid := Run(first.0, xs[1..]);
      var last := Run(mid.0, ys);
      assert Run(buf, xs) == (mid.0, first.1 + mid.1);
      assert Run(buf, xs + ys) == (last.0, first.1 + (mid.1 + last.1));
      assert first.1 + (mid.1 + last.1) == (first.1 + mid.1) + last.1;
    }
  }

  /** No loss, order kept: the emitted texts followed by what is still
      buffered are the previous buffer followed by the input without its CR
      and LF bytes. */
  lemma {:induction false} RunNoLoss(buf: string, data: seq<byte>)
    decreases |data|
    ensures Bodies(Run(buf, data).1) + Run(buf, data).0 == buf + Kept(data)
  {
    if data != [] {
      var first := Step(buf, data[0]);
      var rest := Run(first.0, data[1..]);
      RunNoLoss(first.0, data[1..]);
      KeptStep(data);
      NoLossCompose(buf, first.0, rest.0, first.1, rest.1, Kept([data[0]]), Kept(data[1..]));
    }
  }

  lemma NoLossCompose(buf: string, b1: string, b2: string, l1: seq<Line>, l2: seq<Line>, k1: string, k2: string)
    requires Bodies(l1) + b1 == buf + k1
    requires Bodies(l2) + b2 == b1 + k2
    ensures Bodies(l1 + l2) + b2 == buf + (k1 + k2)
  {
    BodiesAppend(l1, l2);
    calc {
      Bodies(l1 + l2) + b2;
      Bodies(l1) + (Bodies(l2) + b2);
      (Bodies(l1) + b1) + k2;
    }
  }

  lemma KeptStep(data: seq<byte>)
    requires data != []
    ensures Kept(data) == Kept([data[0]]) + Kept(data[1..])
  {
  }

  /** The buffer never exceeds its ceiling; a line ended by a line feed is at
      most the ceiling long, a cut-off line is exactly one character longer,
      and no emitted text contains a CR or LF. */
  lemma {:induction false} RunBound(buf: string, data: seq<byte>)
    requires |buf| <= MaxLine
    requires forall i :: 0 <= i < |buf| ==> !IsTerminator(buf[i])
    ensures var (b, lines) := Run(buf, data);
      |b| <= MaxLine &&
      (forall i :: 0 <= i < |b| ==> !IsTerminator(b[i])) &&
      forall l :: l in lines ==>
        (if l.truncated then |l.body| == MaxLine + 1 else |l.body| <= MaxLine) &&
        forall i :: 0 <= i < |l.body| ==> !IsTerminator(l.body[i])
    decreases |data|
  {
    if data != [] {
      var first := Step(buf, data[0]);
      assert data[0] != LF && data[0] != CR ==> !IsTerminator(ByteChar(data[0]));
      RunBound(first.0, data[1..]);
    }
  }

  /** Every line feed emits exactly one line, even on an empty buffer: the
      lines not cut off are as many as the line feeds in the input. */
  lemma {:induction false} RunCountsLineFeeds(buf: string, data: seq<byte>)
    ensures CountComplete(Run(buf, data).1) == CountLF(data)
    decreases |data|
  {
    if data != [] {
      var first := Step(buf, data[0]);
      var rest := Run(first.0, data[1..]);
      RunCountsLineFeeds(first.0, data[1..]);
      CountCompleteAppend(first.1, rest.1);
    }
  }

  /** A line feed emits exactly what was buffered before it, and leaves the
      buffer empty. */
  lemma LineFeedEmitsBuffer(buf: string, xs: seq<byte>)
    ensures Run(buf, xs + [LF]) == ("", Run(buf, xs).1 + [Line(Run(buf, xs).0, false)])
  {
    RunSplit(buf, xs, [LF]);
    var b := Run(buf, xs).0;
    assert [LF][0] == LF && [LF][1..] == [];
    assert Run(b, [LF]) == ("", [Line(b, false)] + []);
    assert [Line(b, false)] + [] == [Line(b, false)];
  }

  /** The input without its CR bytes. */
  function DropCR(data: seq<byte>): (r: seq<byte>)
    ensures |r| <= |data|
  {
    if data == [] then [] else (if data[0] == CR then [] else [data[0]]) + DropCR(data[1..])
  }

  /** Carriage returns are skipped wherever they occur: removing them from
      the input changes nothing. */
  lemma {:induction false} RunIgnoresCR(buf: string, data: seq<byte>)
    ensures Run(buf, data) == Run(buf, DropCR(data))
    decreases |data|
  {
    if data != [] {
      var first := Step(buf, data[0]);
      RunIgnoresCR(first.0, data[1..]);
      if data[0] == CR {
        assert DropCR(data) == DropCR(data[1..]);
        assert first == (buf, []);
        assert Run(buf, data) == (Run(buf, data[1..]).0, [] + Run(buf, data[1..]).1);
        assert [] + Run(buf, data[1..]).1 == Run(buf, data[1..]).1;
      } else {
        var d := DropCR(data);
        assert d == [data[0]] + DropCR(data[1..]);
        assert d[0] == data[0] && d[1..] == DropCR(data[1..]);
      }
    }
  }

  /** A stream without line terminators is cut into lines of exactly
      MaxLine + 1 characters: from a buffer of m characters, k such bytes
      give (m + k) / (MaxLine + 1) cut-off lines and leave the remainder
      buffered. */
  lemma {:induction false} RunWithoutTerminators(buf: string, data: seq<byte>)
    requires |buf| <= MaxLine
    requires forall i :: 0 <= i < |data| ==> data[i] != LF && data[i] != CR
    ensures var (b, lines) := Run(buf, data);
      |lines| == (|buf| + |data|) / (MaxLine + 1) &&
      |b| == (|buf| + |data|) % (MaxLine + 1) &&
      forall l :: l in lines ==> l.truncated
    decreases |data|
  {
    if data != [] {
      var first := Step(buf, data[0]);
      RunWithoutTerminators(first.0, data[1..]);
      if |buf| == MaxLine {
        assert |first.1| == 1 && |first.0| == 0;
        assert (|buf| + |data|) / (MaxLine + 1) == 1 + (|data| - 1) / (MaxLine + 1);
      } else {
        assert |first.1| == 0 && |first.0| == |buf| + 1;
      }
    }
  }

  /** The bytes of successive transfers, in order. */
  function Flatten(chunks: seq<seq<byte>>): seq<byte>
  {
    if chunks == [] then [] else chunks[0] + Flatten(chunks[1..])
  }

  /** Successive transfers fed one after another, each starting from the
      buffer the previous one left: the final buffer and all emitted lines. */
  function RunChunks(buf: string, chunks: seq<seq<byte>>): (string, seq<Line>)
    decreases |chunks|
  {
    if chunks == [] then (buf, [])
    else
      var first := Run(buf, chunks[0]);
      var rest := RunChunks(first.0, chunks[1..]);
      (rest.0, first.1 + rest.1)
  }

  /** How a stream is split into transfers does not matter: the transfers,
      fed one by one, give the same lines and buffer as their bytes fed as
      one stream. */
  lemma {:induction false} RunChunksIsRun(buf: string, chunks: seq<seq<byte>>)
    decreases |chunks|
    ensures RunChunks(buf, chunks) == Run(buf, Flatten(chunks))
  {
    if chunks != [] {
      var first := Run(buf, chunks[0]);
      RunChunksIsRun(first.0, chunks[1..]);
      RunSplit(buf, chunks[0], Flatten(chunks[1..]));
    }
  }
}
