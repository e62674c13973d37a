/** The logger's global state and the operations that change it: the USB
    transfer callback that feeds received bytes to the line buffer and
    forwards every emitted line to the console and the log file, the
    endpoint set-up on device attach, the log-file guard and rotation, and
    the serial command loop. The card's files are a ghost map from file name
    to its lines; whether opening a file succeeds is an input. */
module DataLogger {

  import opened Wrappers
  import opened Bytes
  import opened Formatting
  import opened LineReassembly
  import opened EndpointResolver
  import opened Commands

  /** The context value that marks transfers of the (disabled) reader task. */
  const ActiveTaskContext := 999

  datatype TransferStatus = Completed | Error | TimedOut | Canceled | Stall | NoDevice | Overflow | Skipped

  /** A finished bulk-IN transfer: its context, its status, and the bytes it
      received (actual_num_bytes of them). */
  datatype Transfer = Transfer(context: int, status: TransferStatus, received: seq<byte>)

  /** The transfers whose bytes reach the line buffer. */
  predicate Accepted(t: Transfer)
  {
    t.context != ActiveTaskContext && t.status == Completed && |t.received| > 0
  }

  const StartBanner := "=== ESP32-S3 USB Logger Started ==="
  const NewSessionBanner := "=== Новий сеанс логування ==="

  /** What a console command answers. */
  datatype Reply =
    | SetTimeReply(outcome: SetTimeOutcome)
    | CurrentTime(time: DateTime)
    | RtcMissing
    | LogStarted(name: string)
    | LogStartFailed(name: string)
    | SdMissing
    | HelpShown(logFile: Option<string>)
    | NoReply

  /** The files after appending `lines` to `name` (created if absent). */
  ghost function AppendLines(files: map<string, seq<string>>, name: string, lines: seq<string>): map<string, seq<string>>
  {
    if lines == [] then files
    else files[name := (if name in files then files[name] else []) + lines]
  }

  lemma AppendLinesTwice(files: map<string, seq<string>>, name: string, a: seq<string>, b: seq<string>)
    ensures AppendLines(AppendLines(files, name, a), name, b) == AppendLines(files, name, a + b)
  {
    if a == [] {
      assert a + b == b;
    } else if b == [] {
      assert a + b == a;
    } else {
      var once := AppendLines(files, name, a);
      assert name in once;
      var old_ := if name in files then files[name] else [];
      assert once[name] + b == old_ + (a + b);
    }
  }

  class Logger {
    var rtcWorking: bool
    var sdAvailable: bool
    var currentLogFile: string
    var lineBuffer: string
    var cdcInEndpoint: byte
    ghost var files: map<string, seq<string>>

    ghost predicate Valid()
      reads this
    {
      |lineBuffer| <= MaxLine
    }

    /** The guard of writeToSD: a card is present and a log file is set. */
    predicate Logging()
      reads this
    {
      sdAvailable && currentLogFile != ""
    }

    /** The state setup() leaves behind once the clock and the card have been
        probed: with a card, a log file named from the clock is created with
        a start banner, and forgotten again if it cannot be opened. */
    constructor (rtcWorking: bool, sdAvailable: bool, now: DateTime, openOk: bool, ghost card: map<string, seq<string>>)
      ensures Valid() && lineBuffer == "" && cdcInEndpoint == 0
      ensures this.rtcWorking == rtcWorking && this.sdAvailable == sdAvailable
      ensures sdAvailable ==> currentLogFile == (if openOk then LogFileName(rtcWorking, now) else "")
      ensures sdAvailable ==> files == (if openOk
        then card[LogFileName(rtcWorking, now) := [TimeString(rtcWorking, now) + " " + StartBanner]]
        else card)
      ensures !sdAvailable ==> currentLogFile == "" && files == card
    {
      this.rtcWorking := rtcWorking;
      this.sdAvailable := sdAvailable;
      currentLogFile := "";
      lineBuffer := "";
      cdcInEndpoint := 0;
      files := card;
      new;
      if sdAvailable {
        StartLogFile(now, openOk, StartBanner);
      }
    }

    /** Names a new log file from the clock, creates it (replacing any file
        of that name) with one banner line, and clears the name again when
        the file cannot be created. */
    method StartLogFile(now: DateTime, openOk: bool, banner: string)
      modifies this`currentLogFile, this`files
      ensures currentLogFile == if openOk then LogFileName(rtcWorking, now) else ""
      ensures files == if openOk
        then old(files)[LogFileName(rtcWorking, now) := [TimeString(rtcWorking, now) + " " + banner]]
        else old(files)
    {
      currentLogFile := LogFileName(rtcWorking, now);
      if openOk {
        files := files[currentLogFile := [TimeString(rtcWorking, now) + " " + banner]];
      } else {
        currentLogFile := "";
      }
    }

    /** writeToSD: appends the message as one line of the current log file,
        and does nothing without a card, without a log file, or when the
        file cannot be opened. */
    method WriteToSD(message: string, openOk: bool)
      modifies this`files
      ensures files == if Logging() && openOk then AppendLines(old(files), currentLogFile, [message]) else old(files)
    {
      if !sdAvailable || |currentLogFile| == 0 {
        return;
      }
      if openOk {
        files := AppendLines(files, currentLogFile, [message]);
      }
    }

    /** usb_transfer_cb. A completed transfer with data feeds its bytes, in
        order, to the line buffer; every line that emits is printed and
        written to the log file as "timestamp text" (plus the marker when cut
        off). Any transfer not from the reader task is resubmitted. */
    method TransferCallback(t: Transfer, now: DateTime, openOk: bool) returns (printed: seq<string>, resubmit: bool)
      requires Valid()
      modifies this`lineBuffer, this`files
      ensures Valid()
      ensures resubmit <==> t.context != ActiveTaskContext
      ensures !Accepted(t) ==> lineBuffer == old(lineBuffer) && printed == [] && files == old(files)
      ensures Accepted(t) ==>
        var run := Run(old(lineBuffer), t.received);
        lineBuffer == run.0 && printed == RenderAll(TimeString(rtcWorking, now), run.1)
      ensures files == if Logging() && openOk then AppendLines(old(files), currentLogFile, printed) else old(files)
    {
      printed := [];
      resubmit := false;
      if t.context != ActiveTaskContext {
        if t.status == Completed && |t.received| > 0 {
          var data := t.received;
          var ts := TimeString(rtcWorking, now);
          for i := 0 to |data|
            invariant Valid()
            invariant lineBuffer == Run(old(lineBuffer), data[..i]).0
            invariant printed == RenderAll(ts, Run(old(lineBuffer), data[..i]).1)
            invariant files == if Logging() && openOk then AppendLines(old(files), currentLogFile, printed) else old(files)
          {
            var ch := data[i];
            ghost var before := lineBuffer;
            ghost var printedBefore := printed;
            if ch == LF {
              var message := ts + " " + lineBuffer;
              assert Render(ts, Line(before, false)) == message + "" == message;
              assert RenderAll(ts, [Line(before, false)]) == [message];
              printed := printed + [message];
              WriteToSD(message, openOk);
              lineBuffer := "";
            } else if ch == CR {
              // skipped
              assert RenderAll(ts, []) == [];
              assert printed == printedBefore + [];
            } else {
              lineBuffer := lineBuffer + [ByteChar(ch)];
              if |lineBuffer| > MaxLine {
                var message := ts + " " + lineBuffer + TruncationMarker;
                assert RenderAll(ts, [Line(lineBuffer, true)]) == [message];
                printed := printed + [message];
                WriteToSD(message, openOk);
                lineBuffer := "";
              } else {
                assert RenderAll(ts, []) == [];
                assert printed == printedBefore + [];
              }
            }
            CallbackStep(old(lineBuffer), data, i, ts, before, printedBefore, lineBuffer, printed);
            AppendLinesTwice(old(files), currentLogFile, printedBefore, printed[|printedBefore|..]);
          }
          assert data[..|data|] == data;
        }
        resubmit := true;
      }
    }

    /** setup_cdc_reading's descriptor walk on device attach: the bulk-IN
        endpoint found is stored for reading; when none is found the stored
        endpoint stays as it was and the device is not read. */
    method SetupCdcReading(config: seq<byte>) returns (found: Option<CdcEndpoint>)
      requires WalkEnds(config, 0, false)
      modifies this`cdcInEndpoint
      ensures Resolves(config, found)
      ensures cdcInEndpoint == if found.Some? then found.value.address else old(cdcInEndpoint)
    {
      found := ResolveEndpoint(config);
      if found.Some? {
        cdcInEndpoint := found.value.address;
      }
    }

    /** The "newlog" command: with a card, rotates to a new log file that
        starts with a new-session banner; without one, changes nothing. */
    method RotateLog(now: DateTime, openOk: bool) returns (reply: Reply)
      modifies this`currentLogFile, this`files
      ensures !sdAvailable ==> reply == SdMissing && currentLogFile == old(currentLogFile) && files == old(files)
      ensures sdAvailable ==>
        var name := LogFileName(rtcWorking, now);
        reply == (if openOk then LogStarted(name) else LogStartFailed(name)) &&
        currentLogFile == (if openOk then name else "") &&
        files == if openOk then old(files)[name := [TimeString(rtcWorking, now) + " " + NewSessionBanner]] else old(files)
    {
      if sdAvailable {
        var name := LogFileName(rtcWorking, now);
        StartLogFile(now, openOk, NewSessionBanner);
        reply := if openOk then LogStarted(name) else LogStartFailed(name);
      } else {
        reply := SdMissing;
      }
    }

    /** One pass of loop() with a line read from the console: the command is
        recognised after trimming and answered; only "newlog" changes the
        logger's state, and "settime" reports the time the clock is set to. */
    method HandleCommand(raw: string, now: DateTime, openOk: bool) returns (reply: Reply)
      modifies this`currentLogFile, this`files
      ensures ParseCommand(raw) != NewLog ==> currentLogFile == old(currentLogFile) && files == old(files)
      ensures ParseCommand(raw).SetTime? ==> reply == SetTimeReply(SetTimeCommand(Trim(raw), rtcWorking))
      ensures ParseCommand(raw) == GetTime ==> reply == if rtcWorking then CurrentTime(now) else RtcMissing
      ensures ParseCommand(raw) == NewLog ==>
        if !sdAvailable then reply == SdMissing && currentLogFile == old(currentLogFile) && files == old(files)
        else
          var name := LogFileName(rtcWorking, now);
          reply == (if openOk then LogStarted(name) else LogStartFailed(name)) &&
          currentLogFile == (if openOk then name else "") &&
          files == if openOk then old(files)[name := [TimeString(rtcWorking, now) + " " + NewSessionBanner]] else old(files)
      ensures ParseCommand(raw) == Help ==> reply == HelpShown(if Logging() then Some(currentLogFile) else None)
      ensures ParseCommand(raw) == Unrecognised ==> reply == NoReply
    {
      var command := ParseCommand(raw);
      match command
      case SetTime(text) =>
        reply := SetTimeReply(SetTimeCommand(text, rtcWorking));
      case GetTime =>
        reply := if rtcWorking then CurrentTime(now) else RtcMissing;
      case NewLog =>
        reply := RotateLog(now, openOk);
      case Help =>
        reply := HelpShown(if Logging() then Some(currentLogFile) else None);
      case Unrecognised =>
        reply := NoReply;
    }
  }

  /** One byte of the callback's loop is one Step of the line buffer. */
  lemma CallbackStep(start: string, data: seq<byte>, i: nat, ts: string,
                     before: string, printedBefore: seq<string>, after: string, printedAfter: seq<string>)
    requires i < |data|
    requires before == Run(start, data[..i]).0
    requires printedBefore == RenderAll(ts, Run(start, data[..i]).1)
    requires after == Step(before, data[i]).0
    requires printedAfter == printedBefore + RenderAll(ts, Step(before, data[i]).1)
    ensures after == Run(start, data[..i + 1]).0
    ensures printedAfter == RenderAll(ts, Run(start, data[..i + 1]).1)
  {
    assert data[..i + 1] == data[..i] + [data[i]];
    RunSplit(start, data[..i], [data[i]]);
    assert [data[i]][1..] == [];
    assert Run(before, [data[i]]) == (Step(before, data[i]).0, Step(before, data[i]).1 + []);
    assert Step(before, data[i]).1 + [] == Step(before, data[i]).1;
  }
}
