/** The buffer reader takes four conventions for the end of a line. */
module IniLineEnds {
  import opened IniSyntax
  import opened IniReaders
  import opened IniAgreement

  /** A newline, a carriage return, or both in either order. */
  predicate LineEnd(e: string) {
    e == "\n" || e == "\r" || e == "\r\n" || e == "\n\r"
  }

  /** The text with every newline written as e. */
  function WithEnds(text: string, e: string): string {
    if text == [] then [] else (if text[0] == '\n' then e else [text[0]]) + WithEnds(text[1..], e)
  }

  lemma FirstLetter(text: string, n: nat, behind: string)
    requires 0 < n <= |text|
    ensures text[..n] + behind == [text[0]] + (text[1..][..n - 1] + behind)
  {
    assert text[..n] == [text[0]] + text[1..][..n - 1];
  }

  lemma LetterBefore(text: string, e: string)
    requires text != [] && text[0] != '\n'
    ensures WithEnds(text, e) == [text[0]] + WithEnds(text[1..], e)
    ensures LineLength(text) == 1 + LineLength(text[1..])
  {}

  lemma EndBefore(text: string, e: string)
    requires text != [] && text[0] == '\n'
    ensures WithEnds(text, e) == e + WithEnds(text[1..], e)
    ensures LineLength(text) == 0
  {}

  /** The end of a first line of n characters, and what is behind it. */
  function Behind(text: string, n: nat, e: string): string {
    if n < |text| then e + WithEnds(text[n + 1..], e) else ""
  }

  lemma BehindOneLess(text: string, n: nat, e: string)
    requires 0 < n <= |text|
    ensures Behind(text, n, e) == Behind(text[1..], n - 1, e)
  {
    if n < |text| {
      assert text[1..][n..] == text[n + 1..];
    }
  }

  /** The first line as it is, its end, and the lines behind it. */
  lemma {:induction false} FirstWithEnds(text: string, e: string)
    ensures var n := LineLength(text); WithEnds(text, e) == text[..n] + Behind(text, n, e)
    decreases |text|
  {
    if text == [] || text[0] == '\n' {
      assert text[..0] == "";
      if text != [] {
        EndBefore(text, e);
      }
    } else {
      hide WithEnds; hide Behind; hide LineLength;
      FirstWithEnds(text[1..], e);
      var n := LineLength(text);
      LetterBefore(text, e);
      BehindOneLess(text, n, e);
      FirstLetter(text, n, Behind(text, n, e));
    }
  }

  lemma {:induction false} FirstOfRest(text: string, e: string)
    requires NoReturns(text) && LineEnd(e) && text != []
    ensures var t := WithEnds(text, e);
            t != [] && (e == "\n" ==> t[0] != '\r') && (e == "\r" ==> t[0] != '\n')
  {}

  lemma {:induction false} LineIsPlain(text: string, i: nat)
    requires NoReturns(text) && i < LineLength(text)
    ensures text[i] != '\n' && text[i] != '\r'
    decreases |text|
  {
    if i == 0 {
    } else {
      LineIsPlain(text[1..], i - 1);
    }
  }

  /** Copying stops at the first line end, or at the end of the text. */
  lemma {:induction false} CountUpTo(line: string, rest: string, limit: nat)
    requires |line| <= limit && (rest == [] || (|line| < limit && (rest[0] == '\n' || rest[0] == '\r')))
    requires forall i :: 0 <= i < |line| ==> line[i] != '\n' && line[i] != '\r'
    ensures BufferCount(line + rest, limit) == |line|
    decreases |line|
  {
    if line == [] {
      assert line + rest == rest;
    } else {
      assert (line + rest)[1..] == line[1..] + rest;
      CountUpTo(line[1..], rest, limit - 1);
    }
  }

  /** Behind a line that fits, the reader goes on behind the whole line end. */
  lemma TakenWithEnd(line: string, e: string, rest: string, num: nat)
    requires LineEnd(e) && |line| < num - 1 && BufferCount(line + (e + rest), num - 1) == |line|
    requires rest != [] ==> (e == "\n" ==> rest[0] != '\r') && (e == "\r" ==> rest[0] != '\n')
    ensures BufferTaken(line + (e + rest), num) == |line| + |e|
    ensures Drop(line + (e + rest), |line| + |e|) == rest
  {
    var t := line + (e + rest);
    assert t[|line|] == e[0] && (|line| + 1 < |t| ==> t[|line| + 1] == (e + rest)[1]);
    assert t[|line| + |e|..] == rest;
    hide BufferCount;
  }

  predicate PlainLine(line: string, num: nat) {
    |line| < num && forall i :: 0 <= i < |line| ==> line[i] != '\n' && line[i] != '\r'
  }

  /** One read: the first line, and what is left are the lines behind it. */
  lemma ReadWithEnd(line: string, e: string, rest: string, num: nat)
    requires num >= 2 && LineEnd(e) && PlainLine(line, num - 1)
    requires rest != [] ==> (e == "\n" ==> rest[0] != '\r') && (e == "\r" ==> rest[0] != '\n')
    ensures BufferLines(line + (e + rest), num) == Cons(line, BufferLines(rest, num))
  {
    hide BufferCount; hide BufferTaken; hide Drop; hide BufferLines;
    var t := line + (e + rest);
    assert e != [] && (e + rest)[0] == e[0];
    CountUpTo(line, e + rest, num - 1);
    TakenWithEnd(line, e, rest, num);
    FirstOfJoin(line, e + rest);
    BufferLinesStep(t, num);
  }

  lemma FirstOfJoin(line: string, behind: string)
    requires behind != []
    ensures line + behind != [] && (line + behind)[..|line|] == line
  {}

  lemma ReadLast(line: string, num: nat)
    requires num >= 1 && line != [] && PlainLine(line, num)
    ensures BufferLines(line, num) == Cons(line, BufferLines([], num))
  {
    assert line + "" == line == line[..|line|];
    CountUpTo(line, "", num - 1);
    BufferLinesStep(line, num);
  }

  lemma FirstIsPlain(text: string, num: nat)
    requires num >= 1 && NoReturns(text) && FitLines(text, num - 1)
    ensures var n := LineLength(text); PlainLine(text[..n], if n < |text| then num - 1 else num)
  {
    var n := LineLength(text);
    forall i | 0 <= i < n ensures text[..n][i] != '\n' && text[..n][i] != '\r' {
      LineIsPlain(text, i);
    }
  }

  /** One read of a text with such line ends. */
  lemma FirstAnyEnd(text: string, e: string, num: nat)
    requires num >= 2 && text != [] && NoReturns(text) && LineEnd(e) && FitLines(text, num - 1)
    ensures BufferLines(WithEnds(text, e), num)
         == Cons(text[..LineLength(text)], BufferLines(WithEnds(AfterLine(text), e), num))
  {
    var n := LineLength(text);
    hide BufferLines; hide WithEnds; hide FitLines; hide PlainLine; hide LineEnd; hide Cons; hide LineLength;
    FirstWithEnds(text, e);
    FirstIsPlain(text, num);
    if n < |text| {
      var rest := text[n + 1..];
      assert AfterLine(text) == rest && NoReturns(rest);
      NothingWithEnds(e);
      if rest != [] {
        FirstOfRest(rest, e);
      }
      ReadWithEnd(text[..n], e, WithEnds(rest, e), num);
    } else {
      assert text[..n] == text && text + "" == text && AfterLine(text) == [];
      NothingWithEnds(e);
      ReadLast(text, num);
    }
  }

  /** However the lines of a text end, if they fit, the buffer reader delivers the same lines. */
  lemma {:induction false} EndsReadAlike(text: string, e: string, num: nat)
    requires num >= 2 && NoReturns(text) && LineEnd(e) && FitLines(text, num - 1)
    ensures BufferLines(WithEnds(text, e), num) == BufferLines(text, num)
    decreases |text|
  {
    hide BufferLines; hide WithEnds; hide FitLines; hide NoReturns; hide AfterLine; hide LineLength; hide LineEnd;
    hide Cons;
    if text == [] {
      NothingWithEnds(e);
    } else {
      FirstAnyEnd(text, e, num);
      FirstFromBuffer(text, num);
      RestFits(text, num - 1);
      EndsReadAlike(AfterLine(text), e, num);
    }
  }

  lemma NothingWithEnds(e: string)
    ensures WithEnds([], e) == []
  {}

  /** So a buffer with any of the four line ends is parsed as the file with newlines is. */
  lemma EndsParseAlike(o: Options, stop: bool, handler: Handler, st: State, text: string, e: string, maxLine: nat)
    requires maxLine >= 2 && NoReturns(text) && LineEnd(e) && FitLines(text, maxLine - 1)
    ensures Run(o, stop, handler, st, BufferLines(WithEnds(text, e), maxLine))
         == Run(o, stop, handler, st, FgetsLines(text, maxLine))
  {
    hide Run; hide BufferLines; hide FgetsLines; hide WithEnds; hide FitLines;
    EndsReadAlike(text, e, maxLine);
    ReadersAgree(o, stop, handler, st, text, maxLine);
  }
}
