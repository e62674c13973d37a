/** The text commands read from the serial console: recognising a command,
    and the fixed-offset field parser of "settime YYYY-MM-DD HH:MM:SS". */
module Commands {

  import opened Formatting

  /** The characters String::trim removes: space, tab, LF, VT, FF and CR. */
  predicate IsSpace(c: char) { c == ' ' || '\t' <= c <= '\r' }

  predicate AllSpace(s: string)
  {
    forall i :: 0 <= i < |s| ==> IsSpace(s[i])
  }

  /** The text after its leading white space. */
  function TrimStart(s: string): (r: string)
    ensures r == [] || !IsSpace(r[0])
    ensures |r| <= |s| && r == s[|s| - |r|..]
    ensures AllSpace(s[..|s| - |r|])
  {
    if s != [] && IsSpace(s[0]) then TrimStart(s[1..]) else s
  }

  /** The text before its trailing white space. */
  function TrimEnd(s: string): (r: string)
    ensures r == [] || !IsSpace(r[|r| - 1])
    ensures |r| <= |s| && r == s[..|r|]
    ensures AllSpace(s[|r|..])
  {
    if s != [] && IsSpace(s[|s| - 1]) then TrimEnd(s[..|s| - 1]) else s
  }

  /** How many white-space characters `s` starts with. */
  function LeadingSpaces(s: string): nat
  {
    |s| - |TrimStart(s)|
  }

  /** The command with its surrounding white space removed (String::trim):
      what is left starts and ends with a non-space character, and it is the
      text of `s` after its leading white space, with only white space after
      it. */
  function Trim(s: string): (r: string)
    ensures r == [] || (!IsSpace(r[0]) && !IsSpace(r[|r| - 1]))
    ensures LeadingSpaces(s) + |r| <= |s| && s[LeadingSpaces(s)..LeadingSpaces(s) + |r|] == r
    ensures AllSpace(s[..LeadingSpaces(s)]) && AllSpace(s[LeadingSpaces(s) + |r|..])
  {
    var t := TrimStart(s);
    var r := TrimEnd(t);
    SuffixPrefix(s, t, r);
    r
  }

  /** A prefix `r` of a suffix `t` of `s` is a slice of `s`; white space cut
      in front of `t` and behind `r` is white space around that slice. */
  lemma SuffixPrefix(s: string, t: string, r: string)
    requires |t| <= |s| && t == s[|s| - |t|..] && AllSpace(s[..|s| - |t|])
    requires |r| <= |t| && r == t[..|r|] && AllSpace(t[|r|..])
    ensures s[|s| - |t|..|s| - |t| + |r|] == r
    ensures AllSpace(s[..|s| - |t|]) && AllSpace(s[|s| - |t| + |r|..])
  {
    assert s[|s| - |t| + |r|..] == t[|r|..];
  }

  /** Leading white space in front of a text that starts with a non-space
      character is all TrimStart removes. */
  lemma {:induction false} TrimStartSpaces(front: string, t: string)
    requires AllSpace(front)
    requires t == [] || !IsSpace(t[0])
    ensures TrimStart(front + t) == t
  {
    if front == [] {
      assert front + t == t;
    } else {
      assert (front + t)[0] == front[0];
      assert (front + t)[1..] == front[1..] + t;
      TrimStartSpaces(front[1..], t);
    }
  }

  /** Trailing white space after a text that ends with a non-space
      character is all TrimEnd removes. */
  lemma {:induction false} TrimEndSpaces(t: string, back: string)
    requires AllSpace(back)
    requires t == [] || !IsSpace(t[|t| - 1])
    ensures TrimEnd(t + back) == t
  {
    if back == [] {
      assert t + back == t;
    } else {
      var n := |t + back|;
      assert (t + back)[n - 1] == back[|back| - 1];
      assert (t + back)[..n - 1] == t + back[..|back| - 1];
      TrimEndSpaces(t, back[..|back| - 1]);
    }
  }

  /** Trim gives back exactly the text between any white space around it. */
  lemma TrimSurrounded(front: string, t: string, back: string)
    requires AllSpace(front) && AllSpace(back)
    requires t == [] || (!IsSpace(t[0]) && !IsSpace(t[|t| - 1]))
    ensures Trim(front + t + back) == t
  {
    if t == [] {
      assert front + t + back == (front + back) + t;
      assert AllSpace(front + back) by {
        forall i | 0 <= i < |front + back| ensures IsSpace((front + back)[i]) {
          if i < |front| { assert (front + back)[i] == front[i]; }
          else { assert (front + back)[i] == back[i - |front|]; }
        }
      }
      TrimStartSpaces(front + back, t);
    } else {
      assert front + t + back == front + (t + back);
      assert (t + back)[0] == t[0];
      TrimStartSpaces(front, t + back);
      TrimEndSpaces(t, back);
    }
  }

  datatype Command = SetTime(text: string) | GetTime | NewLog | Help | Unrecognised

  /** Which branch of the command loop a line read from the console takes:
      "settime" is recognised as a prefix, the others only as the whole
      (trimmed) line; anything else is ignored. */
  function ParseCommand(raw: string): (c: Command)
    ensures c.SetTime? <==> "settime" <= Trim(raw)
    ensures c.SetTime? ==> c.text == Trim(raw)
    ensures c == GetTime <==> Trim(raw) == "gettime"
    ensures c == NewLog <==> Trim(raw) == "newlog"
    ensures c == Help <==> Trim(raw) == "help"
  {
    var command := Trim(raw);
    if "settime" <= command then SetTime(command)
    else if command == "gettime" then GetTime
    else if command == "newlog" then NewLog
    else if command == "help" then Help
    else Unrecognised
  }

  /** White space typed around a command does not change which command it
      is: "gettime", "newlog" and "help" are recognised with any white space
      around them, and a line starting "settime" and ending in a non-space
      character is a settime command whatever white space surrounds it. */
  lemma ParseCommandPadded(front: string, back: string, rest: string)
    requires AllSpace(front) && AllSpace(back)
    requires rest == [] || !IsSpace(rest[|rest| - 1])
    ensures ParseCommand(front + "gettime" + back) == GetTime
    ensures ParseCommand(front + "newlog" + back) == NewLog
    ensures ParseCommand(front + "help" + back) == Help
    ensures ParseCommand(front + ("settime" + rest) + back) == SetTime("settime" + rest)
  {
    WordPadded(front, "gettime", back);
    WordPadded(front, "newlog", back);
    WordPadded(front, "help", back);
    SetTimePadded(front, back, rest);
  }

  /** One of the whole-line commands with white space around it. */
  lemma WordPadded(front: string, word: string, back: string)
    requires AllSpace(front) && AllSpace(back)
    requires word == "gettime" || word == "newlog" || word == "help"
    ensures ParseCommand(front + word + back) ==
      if word == "gettime" then GetTime else if word == "newlog" then NewLog else Help
  {
    TrimSurrounded(front, word, back);
  }

  /** A settime line with white space around it. */
  lemma SetTimePadded(front: string, back: string, rest: string)
    requires AllSpace(front) && AllSpace(back)
    requires rest == [] || !IsSpace(rest[|rest| - 1])
    ensures ParseCommand(front + ("settime" + rest) + back) == SetTime("settime" + rest)
  {
    var line := "settime" + rest;
    assert line[0] == 's';
    assert line[|line| - 1] == if rest == [] then 'e' else rest[|rest| - 1];
    TrimSurrounded(front, line, back);
    assert "settime" <= line;
  }

  /** "settime " followed by the 19 characters of the date and time. */
  const SetTimeMinLength := 27

  /** The result of a settime command: which reply it gives, and the time
      the clock is set to when it is set. */
  datatype SetTimeOutcome = RtcUnavailable | FormatError | NonDigitField | Applied(time: DateTime)

  predicate DigitsAt(text: string, from: nat, to: nat)
  {
    from <= to <= |text| && AllDigits(text[from..to])
  }

  /** The six fields of "YYYY-MM-DD HH:MM:SS" are all digits; the separator
      positions are never looked at. */
  predicate DigitFields(text: string)
  {
    DigitsAt(text, 0, 4) && DigitsAt(text, 5, 7) && DigitsAt(text, 8, 10) &&
    DigitsAt(text, 11, 13) && DigitsAt(text, 14, 16) && DigitsAt(text, 17, 19)
  }

  /** Each field of `t`, printed zero-padded at its width, is the text at
      that field's offsets. */
  predicate Echoes(text: string, t: DateTime)
  {
    |text| >= 19 &&
    Pad(t.year, 4) == text[0..4] && Pad(t.month, 2) == text[5..7] && Pad(t.day, 2) == text[8..10] &&
    Pad(t.hour, 2) == text[11..13] && Pad(t.minute, 2) == text[14..16] && Pad(t.second, 2) == text[17..19]
  }

  /** The settime branch, given the trimmed command. Nothing is set without
      a clock or when the command is shorter than 27 characters; otherwise
      the fields are read at fixed offsets after the 8 characters of
      "settime ". */
  function SetTimeCommand(command: string, rtcWorking: bool): (r: SetTimeOutcome)
    ensures r == RtcUnavailable <==> !rtcWorking
    ensures r == FormatError <==> rtcWorking && |command| < SetTimeMinLength
    ensures r.Applied? <==> rtcWorking && |command| >= SetTimeMinLength && DigitFields(command[8..])
    ensures r.Applied? ==> Fits(r.time) && Echoes(command[8..], r.time)
  {
    if !rtcWorking then RtcUnavailable
    else if |command| < SetTimeMinLength then FormatError
    else
      var text := command[8..];
      if !DigitFields(text) then NonDigitField
      else
        var t := DateTime(ParseDecimal(text[0..4]), ParseDecimal(text[5..7]), ParseDecimal(text[8..10]),
                          ParseDecimal(text[11..13]), ParseDecimal(text[14..16]), ParseDecimal(text[17..19]));
        FieldsEcho(text, t);
        Applied(t)
  }

  lemma FieldEcho(s: string)
    requires AllDigits(s) && |s| >= 1
    ensures Pad(ParseDecimal(s), |s|) == s && ParseDecimal(s) < Pow10(|s|)
  {
    PadParse(s);
    FixedValueBound(s);
  }

  lemma FieldsEcho(text: string, t: DateTime)
    requires |text| >= 19 && DigitFields(text)
    requires t == DateTime(ParseDecimal(text[0..4]), ParseDecimal(text[5..7]), ParseDecimal(text[8..10]),
                           ParseDecimal(text[11..13]), ParseDecimal(text[14..16]), ParseDecimal(text[17..19]))
    ensures Fits(t) && Echoes(text, t)
  {
    FieldEcho(text[0..4]);
    FieldEcho(text[5..7]);
    FieldEcho(text[8..10]);
    FieldEcho(text[11..13]);
    FieldEcho(text[14..16]);
    FieldEcho(text[17..19]);
  }

  /** The separators "YYYY-MM-DD HH:MM:SS" has between its fields. */
  predicate IsoSeparators(text: string)
  {
    |text| >= 19 && text[4] == '-' && text[7] == '-' && text[10] == ' ' && text[13] == ':' && text[16] == ':'
  }

  /** Round trip: the line the host-side script sends for a clock reading,
      "settime " + "%Y-%m-%d %H:%M:%S" + a line feed, is recognised as
      settime and sets the clock to exactly that reading. */
  lemma SetTimeRoundTrip(t: DateTime)
    requires Fits(t)
    ensures var command := "settime " + IsoText(t);
      ParseCommand(command + "\n") == SetTime(command) &&
      SetTimeCommand(command, true) == Applied(t)
  {
    IsoTextReadBack(t);
    var command := "settime " + IsoText(t);
    var raw := command + "\n";
    assert TrimStart(raw) == raw;
    assert raw[..|raw| - 1] == command;
    assert command[|command| - 1] == IsoText(t)[18];
    assert IsDigit(IsoText(t)[18]) by { assert IsoText(t)[18] == IsoText(t)[17..19][1]; }
    assert TrimEnd(command) == command;
    assert Trim(raw) == command;
    assert command[..7] == "settime";
    var text := command[8..];
    assert text == IsoText(t);
  }

  /** When the settime text has the usual separators, the confirmation the
      device prints for the time it set, "%04d-%02d-%02d %02d:%02d:%02d",
      is exactly the text that was typed. */
  lemma SetTimeEchoesText(command: string, rtcWorking: bool)
    requires SetTimeCommand(command, rtcWorking).Applied?
    requires IsoSeparators(command[8..])
    ensures IsoText(SetTimeCommand(command, rtcWorking).time) == command[8..27]
  {
  }
}
