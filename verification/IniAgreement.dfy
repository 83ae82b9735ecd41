/** When the two line readers of the INI parser, fgets and ini_buffer_reader, show it the same file. */
module IniAgreement {
  import opened IniSyntax
  import opened IniReaders
  import IniParser

  /** The distance to the end of the first line. */
  function LineLength(text: string): (n: nat)
    ensures n <= |text| && (n < |text| ==> text[n] == '\n')
  {
    if text == [] || text[0] == '\n' then 0 else 1 + LineLength(text[1..])
  }

  lemma {:induction false} UnfinishedLine(text: string)
    requires text != [] && LineLength(text) == |text|
    ensures text[|text| - 1] != '\n'
    decreases |text|
  {
    if |text| == 1 {
    } else {
      UnfinishedLine(text[1..]);
    }
  }

  predicate NoReturns(text: string) {
    '\r' !in text
  }

  /** No line takes more than limit characters, its newline counted if it has one. */
  predicate FitLines(text: string, limit: nat)
    decreases |text|
  {
    var n := LineLength(text);
    if n < |text| then n + 1 <= limit && FitLines(text[n + 1..], limit) else n <= limit
  }

  // ----- the lines that the parser sees -----

  function Chomp(line: string): string {
    if line != [] && line[|line| - 1] == '\n' then line[..|line| - 1] else line
  }

  function Chomped(lines: seq<string>): (r: seq<string>)
    ensures |r| == |lines|
  {
    if lines == [] then [] else [Chomp(lines[0])] + Chomped(lines[1..])
  }

  lemma {:induction false} CountsOfLine(text: string, limit: nat)
    requires NoReturns(text)
    requires var n := LineLength(text); if n < |text| then n + 1 <= limit else n <= limit
    ensures var n := LineLength(text);
            BufferCount(text, limit) == n && FgetsCount(text, limit) == if n < |text| then n + 1 else n
    decreases |text|
  {
    if text == [] || text[0] == '\n' {
    } else {
      CountsOfLine(text[1..], limit - 1);
    }
  }

  /** A first line and those behind it. */
  function Cons(line: string, rest: seq<string>): seq<string> {
    [line] + rest
  }

  lemma FgetsStep(text: string, maxLine: nat)
    requires maxLine >= 2 && text != []
    ensures var n := FgetsCount(text, maxLine - 1);
            0 < n <= |text| && FgetsLines(text, maxLine) == Cons(text[..n], FgetsLines(Drop(text, n), maxLine))
  {}

  lemma BufferStep(text: string, maxLine: nat)
    requires maxLine >= 2 && text != [] && NoReturns(text)
    ensures var c := BufferCount(text, maxLine - 1);
            BufferLines(text, maxLine) == Cons(text[..c], BufferLines(Drop(text, c + 1), maxLine))
  {
    assert BufferTaken(text, maxLine) == BufferCount(text, maxLine - 1) + 1;
  }

  lemma ChompedFirst(line: string, rest: seq<string>)
    ensures Chomped(Cons(line, rest)) == Cons(Chomp(line), Chomped(rest))
  {
    assert ([line] + rest)[1..] == rest;
  }

  /** The text behind its first line. */
  function AfterLine(text: string): string {
    Drop(text, LineLength(text) + 1)
  }

  lemma FirstRead(text: string, maxLine: nat)
    requires maxLine >= 2 && text != [] && NoReturns(text) && FitLines(text, maxLine - 1)
    ensures var n := LineLength(text);
            && FgetsCount(text, maxLine - 1) == (if n < |text| then n + 1 else n)
            && BufferCount(text, maxLine - 1) == n
  {
    CountsOfLine(text, maxLine - 1);
  }

  lemma RestFits(text: string, limit: nat)
    requires text != [] && NoReturns(text) && FitLines(text, limit)
    ensures var rest := AfterLine(text);
            |rest| < |text| && NoReturns(rest) && FitLines(rest, limit)
  {}

  lemma ChompTerminated(text: string, n: nat)
    requires n < |text| && text[n] == '\n'
    ensures Chomp(text[..n + 1]) == text[..n]
  {
    var raw := text[..n + 1];
    assert raw[|raw| - 1] == '\n' && raw[..n] == text[..n];
  }

  lemma ChompUnfinished(text: string)
    requires text != [] && text[|text| - 1] != '\n'
    ensures Chomp(text[..|text|]) == text[..|text|]
  {}

  lemma RawLine(text: string)
    requires text != []
    ensures var n := LineLength(text);
            && (n < |text| ==> Chomp(text[..n + 1]) == text[..n])
            && (n == |text| ==> Chomp(text[..n]) == text[..n])
  {
    hide LineLength; hide Chomp;
    var n := LineLength(text);
    if n == |text| {
      UnfinishedLine(text);
      ChompUnfinished(text);
    } else {
      ChompTerminated(text, n);
    }
  }

  /** What fgets reads first, without its newline, is the first line, and it goes on behind it. */
  lemma FirstFromFile(text: string, maxLine: nat) returns (raw: string)
    requires maxLine >= 2 && text != [] && NoReturns(text) && FitLines(text, maxLine - 1)
    ensures FgetsLines(text, maxLine) == Cons(raw, FgetsLines(AfterLine(text), maxLine))
    ensures Chomp(raw) == text[..LineLength(text)]
  {
    hide NoReturns; hide FgetsCount; hide BufferCount; hide FgetsLines; hide FitLines; hide LineLength; hide Chomp;
    hide Drop; hide Cons;
    var n := LineLength(text);
    FirstRead(text, maxLine);
    FgetsStep(text, maxLine);
    RawLine(text);
    NothingBehind(text);
    raw := text[..FgetsCount(text, maxLine - 1)];
  }

  lemma NothingBehind(text: string)
    ensures Drop(text, |text|) == Drop(text, |text| + 1)
  {}

  lemma FirstFromBuffer(text: string, maxLine: nat)
    requires maxLine >= 2 && text != [] && NoReturns(text) && FitLines(text, maxLine - 1)
    ensures BufferLines(text, maxLine) == Cons(text[..LineLength(text)], BufferLines(AfterLine(text), maxLine))
  {
    hide NoReturns; hide BufferCount; hide BufferLines; hide FgetsCount; hide FitLines; hide LineLength; hide Drop;
    hide Cons;
    FirstRead(text, maxLine);
    BufferStep(text, maxLine);
  }

  /** If all lines fit, both readers deliver the same lines. */
  lemma {:induction false} FittingLinesAgree(text: string, maxLine: nat)
    requires maxLine >= 2 && NoReturns(text) && FitLines(text, maxLine - 1)
    ensures Chomped(FgetsLines(text, maxLine)) == BufferLines(text, maxLine)
    decreases |text|
  {
    if text == [] {
    } else {
      hide FitLines; hide FgetsLines; hide BufferLines; hide LineLength; hide AfterLine; hide Chomp;
      hide NoReturns; hide Cons;
      RestFits(text, maxLine - 1);
      var raw := FirstFromFile(text, maxLine);
      FirstFromBuffer(text, maxLine);
      FittingLinesAgree(AfterLine(text), maxLine);
      ChompedFirst(raw, FgetsLines(AfterLine(text), maxLine));
    }
  }

  // ----- and only then -----

  /** The characters of the lines, one more counted for each line. */
  function Weight(lines: seq<string>): nat {
    if lines == [] then 0 else |lines[0]| + 1 + Weight(lines[1..])
  }

  /** One if the text ends in an unfinished line. */
  function Tail(text: string): nat {
    if text != [] && text[|text| - 1] != '\n' then 1 else 0
  }

  /** One read of fgets ends behind the first newline, or at the end of the text, or at the limit. */
  lemma {:induction false} OneRead(text: string, limit: nat)
    requires text != [] && limit > 0
    ensures var n, l := FgetsCount(text, limit), LineLength(text);
            if text[n - 1] == '\n' then l == n - 1
            else l >= n && (n == |text| || n == limit)
    decreases |text|
  {
    if text[0] == '\n' {
    } else if |text| == 1 || limit == 1 {
      assert FgetsCount(text[1..], limit - 1) == 0;
    } else {
      OneRead(text[1..], limit - 1);
    }
  }

  /** What the first read tells about the fitting of lines. */
  lemma FitStep(text: string, limit: nat)
    requires text != [] && limit > 0
    ensures var n := FgetsCount(text, limit);
            && 0 < n <= |text|
            && (text[n - 1] == '\n' ==> FitLines(text, limit) == FitLines(Drop(text, n), limit))
            && (text[n - 1] != '\n' && n == |text| ==> FitLines(text, limit))
  {
    OneRead(text, limit);
    hide FgetsCount; hide LineLength;
  }

  /** What the lines of a text must weigh: its characters, one for an unfinished line, one if not all fit. */
  function Due(text: string, limit: nat): nat {
    |text| + Tail(text) + if FitLines(text, limit) then 0 else 1
  }

  lemma DueOfFirst(text: string, limit: nat)
    requires text != [] && limit > 0
    ensures var n := FgetsCount(text, limit);
            0 < n <= |text| && |Drop(text, n)| < |text| &&
            Due(text, limit) <= (if text[n - 1] == '\n' then n else n + 1) + Due(Drop(text, n), limit)
  {
    FitStep(text, limit);
    hide FgetsCount; hide FitLines; hide Tail; hide Drop;
    var n := FgetsCount(text, limit);
    DropLength(text, n);
    TailBehind(text, n);
  }

  /** What fgets delivers, weighed: a read that stops inside a line adds one. */
  lemma {:induction false} FgetsWeight(text: string, maxLine: nat)
    requires maxLine >= 2
    ensures Weight(Chomped(FgetsLines(text, maxLine))) >= Due(text, maxLine - 1)
    decreases |text|
  {
    hide FgetsCount; hide FitLines; hide FgetsLines; hide Weight; hide Chomped; hide Due; hide Drop;
    if text == [] {
      NothingDue(maxLine);
    } else {
      FirstWeight(text, maxLine);
      DueOfFirst(text, maxLine - 1);
      FgetsWeight(Drop(text, FgetsCount(text, maxLine - 1)), maxLine);
    }
  }

  lemma NothingDue(maxLine: nat)
    requires maxLine >= 2
    ensures Weight(Chomped(FgetsLines([], maxLine))) == 0 && Due([], maxLine - 1) == 0
  {}

  lemma FirstWeight(text: string, maxLine: nat)
    requires maxLine >= 2 && text != []
    ensures var n := FgetsCount(text, maxLine - 1);
            0 < n <= |text| &&
            Weight(Chomped(FgetsLines(text, maxLine)))
            == (if text[n - 1] == '\n' then n else n + 1) + Weight(Chomped(FgetsLines(Drop(text, n), maxLine)))
  {
    FgetsStep(text, maxLine);
    hide FgetsCount; hide FgetsLines; hide Cons; hide Weight; hide Chomped; hide Drop; hide Chomp;
    var n := FgetsCount(text, maxLine - 1);
    WeightOfFirst(text[..n], FgetsLines(Drop(text, n), maxLine));
    ChompLength(text, n);
  }

  lemma ChompLength(text: string, n: nat)
    requires 0 < n <= |text|
    ensures |Chomp(text[..n])| == if text[n - 1] == '\n' then n - 1 else n
  {}

  lemma DropLength(text: string, n: nat)
    requires n <= |text|
    ensures |Drop(text, n)| == |text| - n
  {}

  lemma TailBehind(text: string, n: nat)
    requires 0 < n <= |text|
    ensures n < |text| ==> Tail(Drop(text, n)) == Tail(text)
    ensures n == |text| ==> Tail(Drop(text, n)) == 0 && Tail(text) == if text[n - 1] == '\n' then 0 else 1
  {
    if n < |text| {
      TailOfRest(text, n);
    }
  }

  lemma TailOfRest(text: string, n: nat)
    requires n < |text|
    ensures Tail(text[n..]) == Tail(text)
  {
    assert text[n..][|text| - n - 1] == text[|text| - 1];
  }

  lemma WeightOfFirst(line: string, rest: seq<string>)
    ensures Weight(Chomped(Cons(line, rest))) == |Chomp(line)| + 1 + Weight(Chomped(rest))
  {
    assert ([line] + rest)[1..] == rest;
    assert ([Chomp(line)] + Chomped(rest))[1..] == Chomped(rest);
  }

  lemma WeightOfCons(line: string, rest: seq<string>)
    ensures Weight(Cons(line, rest)) == |line| + 1 + Weight(rest)
  {
    assert Cons(line, rest)[1..] == rest;
  }

  lemma StillNoReturns(text: string, n: nat)
    requires NoReturns(text)
    ensures NoReturns(Drop(text, n))
  {}

  lemma UnfinishedCount(text: string, limit: nat)
    requires text != [] && BufferCount(text, limit) == |text|
    ensures text[|text| - 1] != '\n'
  {}

  lemma DroppedTail(text: string, c: nat)
    requires text != [] && c <= |text|
    ensures c == |text| && text[|text| - 1] != '\n' ==> Drop(text, c + 1) == [] && Tail([]) + 1 == Tail(text)
    ensures c < |text| ==> |Drop(text, c + 1)| == |text| - c - 1 && Tail(Drop(text, c + 1)) <= Tail(text)
  {
    if c + 1 < |text| {
      TailOfRest(text, c + 1);
    }
  }

  /** What the buffer reader delivers, weighed: the character it drops behind every line makes up for the
    * one counted, except behind an unfinished last line. */
  lemma {:induction false} BufferWeight(text: string, maxLine: nat)
    requires maxLine >= 2 && NoReturns(text)
    ensures Weight(BufferLines(text, maxLine)) <= |text| + Tail(text)
    decreases |text|
  {
    if text == [] {
    } else {
      BufferStep(text, maxLine);
      var c := BufferCount(text, maxLine - 1);
      var rest := Drop(text, c + 1);
      WeightOfCons(text[..c], BufferLines(rest, maxLine));
      StillNoReturns(text, c + 1);
      if c == |text| {
        UnfinishedCount(text, maxLine - 1);
      }
      hide BufferCount; hide BufferLines; hide Tail; hide Cons; hide Weight; hide Drop; hide NoReturns;
      DroppedTail(text, c);
      BufferWeight(rest, maxLine);
    }
  }

  /** Without carriage returns the readers deliver the same lines if and only if every line, its newline
    * included, has at most INI_MAX_LINE - 1 characters: behind a longer one fgets goes on with the next
    * character and the buffer reader drops it. */
  lemma LinesAgreeIff(text: string, maxLine: nat)
    requires maxLine >= 2 && NoReturns(text)
    ensures Chomped(FgetsLines(text, maxLine)) == BufferLines(text, maxLine) <==> FitLines(text, maxLine - 1)
  {
    if FitLines(text, maxLine - 1) {
      FittingLinesAgree(text, maxLine);
    } else {
      FgetsWeight(text, maxLine);
      BufferWeight(text, maxLine);
    }
  }

  // ----- what the parser makes of them -----

  lemma RStripNewline(s: string)
    ensures RStrip(s + "\n") == RStrip(s)
  {
    assert (s + "\n")[..|s|] == s;
  }

  /** A newline at the end of a line makes no difference to the parser. */
  lemma NewlineIgnored(o: Options, handler: Handler, st: State, line: string)
    ensures Step(o, handler, st, line + "\n") == Step(o, handler, st, line)
  {
    hide RStrip; hide LSkip; hide SplitHeading; hide SplitPair;
    var l := line + "\n";
    assert BOM <= l <==> BOM <= line by {
      assert BOM[2] != '\n';
      if BOM <= l {
        assert l[..3][2] == BOM[2];
      }
    }
    RStripNewline(line);
    if BOM <= line {
      assert l[3..] == line[3..] + "\n";
      RStripNewline(line[3..]);
    }
  }

  lemma {:induction false} RunChomped(o: Options, stop: bool, handler: Handler, st: State, lines: seq<string>)
    ensures Run(o, stop, handler, st, lines) == Run(o, stop, handler, st, Chomped(lines))
    decreases |lines|
  {
    hide Step;
    if lines == [] {
    } else {
      var line := Chomp(lines[0]);
      assert lines[0] == line || lines[0] == line + "\n";
      NewlineIgnored(o, handler, st, line);
      RunChomped(o, stop, handler, Step(o, handler, st, line), lines[1..]);
      assert Chomped(lines)[1..] == Chomped(lines[1..]);
    }
  }

  /** On text without carriage returns whose lines fit, the buffer reader leads to the same calls, the same
    * code and the same final state as reading a file with fgets. */
  lemma ReadersAgree(o: Options, stop: bool, handler: Handler, st: State, text: string, maxLine: nat)
    requires maxLine >= 2 && NoReturns(text) && FitLines(text, maxLine - 1)
    ensures Run(o, stop, handler, st, FgetsLines(text, maxLine))
         == Run(o, stop, handler, st, BufferLines(text, maxLine))
  {
    hide Run; hide FgetsLines; hide BufferLines; hide Chomped;
    RunChomped(o, stop, handler, st, FgetsLines(text, maxLine));
    FittingLinesAgree(text, maxLine);
  }

  // ----- the two programs -----

  /** Lines that the parser's buffer can take, without NUL. */
  predicate Readable(lines: seq<string>, maxLine: nat) {
    forall i :: 0 <= i < |lines| ==> '\0' !in lines[i] && |lines[i]| < maxLine
  }

  lemma {:induction false} FgetsReadable(text: string, maxLine: nat)
    requires maxLine >= 2 && '\0' !in text
    ensures Readable(FgetsLines(text, maxLine), maxLine)
    decreases |text|
  {
    if text == [] {
    } else {
      FgetsReadable(text[FgetsCount(text, maxLine - 1)..], maxLine);
    }
  }

  lemma {:induction false} BufferReadable(text: string, maxLine: nat)
    requires maxLine >= 2 && '\0' !in text
    ensures Readable(BufferLines(text, maxLine), maxLine)
    decreases |text|
  {
    if text == [] {
    } else {
      BufferReadable(Drop(text, BufferTaken(text, maxLine)), maxLine);
    }
  }

  /** Parsing one text from a file and from a buffer: the same code and the same calls. */
  method ParseBothWays(o: Options, stop: bool, handler: Handler, text: string, maxLine: nat)
    returns (error: nat, calls: seq<Call>, error': nat, calls': seq<Call>)
    requires maxLine >= 2 && NoReturns(text) && '\0' !in text && FitLines(text, maxLine - 1)
    ensures error == error' && calls == calls'
    ensures var st := Parse(o, stop, handler, FgetsLines(text, maxLine)); error == st.error && calls == st.calls
  {
    hide Run; hide FgetsLines; hide BufferLines; hide FitLines;
    FgetsReadable(text, maxLine);
    BufferReadable(text, maxLine);
    ReadersAgree(o, stop, handler, INITIAL, text, maxLine);
    var fromFile := FgetsLines(text, maxLine);
    IniParser.NoNulToDrop(fromFile);
    error, calls := IniParser.IniParseStream(o, stop, handler, fromFile, maxLine);
    var ctx := new BufferCtx(text);
    var fromBuffer := ReadAll(ctx, maxLine);
    IniParser.NoNulToDrop(fromBuffer);
    error', calls' := IniParser.IniParseStream(o, stop, handler, fromBuffer, maxLine);
  }
}
