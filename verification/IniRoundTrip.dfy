/** Printing an INI file with ini_dump and parsing it again. */
module IniRoundTrip {
  import opened IniSyntax
  import opened IniReaders
  import opened IniAgreement
  import IniParser

  // ----- the printer -----

  /** The two static facts of dumper: the section last printed, and what has been printed. */
  class Dumper {
    var prevSection: string
    var output: string

    constructor ()
      ensures prevSection == "" && output == ""
    {
      prevSection, output := "", "";
    }

    /** dumper. */
    method Dump(c: Call)
      modifies this
      ensures output == old(output) + Unlines(LinesOf(old(prevSection), c))
      ensures prevSection == SectionAfter(old(prevSection), c)
    {
      if c.section != prevSection {
        output := output + (if |prevSection| > 0 then "\n" else "") + "[" + c.section + "]\n";
        prevSection := Truncate(c.section, MAX_SECTION);
      }
      output := output + c.name + " = " + c.value + "\n";
      UnlinesOfCall(old(prevSection), c);
      assert output == old(output) + TextOf(old(prevSection), c);
    }
  }

  function SectionAfter(prev: string, c: Call): string {
    if c.section != prev then Truncate(c.section, MAX_SECTION) else prev
  }

  /** The lines printed for one call: an empty line between sections, the section, the pair. */
  function LinesOf(prev: string, c: Call): seq<string> {
    (if c.section == prev then [] else (if prev == "" then [] else [""]) + ["[" + c.section + "]"]) + [PairLine(c)]
  }

  function PairLine(c: Call): string {
    c.name + " = " + c.value
  }

  function TextOf(prev: string, c: Call): string {
    (if c.section == prev then "" else (if prev == "" then "" else "\n") + "[" + c.section + "]\n")
    + c.name + " = " + c.value + "\n"
  }

  function Unlines(lines: seq<string>): string {
    if lines == [] then "" else lines[0] + "\n" + Unlines(lines[1..])
  }

  lemma UnlinesCons(line: string, rest: seq<string>)
    ensures Unlines([line] + rest) == line + "\n" + Unlines(rest)
  {
    assert ([line] + rest)[1..] == rest;
  }

  /** The text of one, two or three lines. */
  lemma UnlinesOfFew(x: string, y: string, z: string)
    ensures Unlines([z]) == z + "\n"
    ensures Unlines([y, z]) == y + "\n" + z + "\n"
    ensures Unlines([x, y, z]) == x + "\n" + y + "\n" + z + "\n"
  {
    UnlinesCons(z, []);
    UnlinesCons(y, [z]);
    UnlinesCons(x, [y, z]);
    NothingLeft();
    hide Unlines;
    assert [z] + [] == [z] && [y] + [z] == [y, z] && [x] + [y, z] == [x, y, z];
    assert z + "\n" + "" == z + "\n";
    assert y + "\n" + (z + "\n") == y + "\n" + z + "\n";
    assert x + "\n" + (y + "\n" + z + "\n") == x + "\n" + y + "\n" + z + "\n";
  }

  lemma LinesByCase(prev: string, c: Call)
    ensures var pair, head := PairLine(c), "[" + c.section + "]";
            && (c.section == prev ==> LinesOf(prev, c) == [pair])
            && (c.section != prev && prev == "" ==> LinesOf(prev, c) == [head, pair])
            && (c.section != prev && prev != "" ==> LinesOf(prev, c) == ["", head, pair])
  {}

  lemma TextByCase(prev: string, c: Call)
    ensures var pair, head := PairLine(c), "[" + c.section + "]";
            && (c.section == prev ==> TextOf(prev, c) == pair + "\n")
            && (c.section != prev && prev == "" ==> TextOf(prev, c) == head + "\n" + pair + "\n")
            && (c.section != prev && prev != "" ==> TextOf(prev, c) == "" + "\n" + head + "\n" + pair + "\n")
  {
    if c.section == prev {
      assert "" + c.name + " = " + c.value + "\n" == PairLine(c) + "\n";
    } else {
      HeadText(if prev == "" then "" else "\n", c);
    }
  }

  lemma UnlinesOfCall(prev: string, c: Call)
    ensures Unlines(LinesOf(prev, c)) == TextOf(prev, c)
  {
    hide Unlines; hide LinesOf; hide TextOf; hide PairLine;
    var pair, head := PairLine(c), "[" + c.section + "]";
    UnlinesOfFew("", head, pair);
    LinesByCase(prev, c);
    TextByCase(prev, c);
  }

  /** Joining the pieces of a printed heading and pair in either way. */
  lemma HeadText(lead: string, c: Call)
    ensures lead + ("[" + c.section + "]") + "\n" + PairLine(c) + "\n"
         == lead + "[" + c.section + "]\n" + c.name + " = " + c.value + "\n"
  {}

  function AllLines(prev: string, calls: seq<Call>): seq<string>
    decreases |calls|
  {
    if calls == [] then [] else LinesOf(prev, calls[0]) + AllLines(SectionAfter(prev, calls[0]), calls[1..])
  }

  lemma {:induction false} UnlinesAppend(a: seq<string>, b: seq<string>)
    ensures Unlines(a + b) == Unlines(a) + Unlines(b)
  {
    if a == [] {
      assert a + b == b;
    } else {
      UnlinesAppend(a[1..], b);
      assert (a + b)[1..] == a[1..] + b;
    }
  }

  lemma NothingLeft()
    ensures Unlines([]) == ""
  {}

  /** A whole trace printed by a new dumper. */
  method DumpAll(calls: seq<Call>) returns (text: string)
    ensures text == Dumped(calls)
  {
    hide Unlines; hide LinesOf; hide SectionAfter;
    var d := new Dumper();
    var i := 0;
    assert calls[0..] == calls;
    NothingLeft();
    while i < |calls|
      invariant 0 <= i <= |calls|
      invariant d.output + Unlines(AllLines(d.prevSection, calls[i..])) == Unlines(AllLines("", calls))
    {
      UnlinesAppend(LinesOf(d.prevSection, calls[i]), AllLines(SectionAfter(d.prevSection, calls[i]), calls[i + 1..]));
      assert calls[i..][1..] == calls[i + 1..];
      d.Dump(calls[i]);
      i := i + 1;
    }
    text := d.output;
  }

  // ----- what can be printed and read back -----

  predicate Plain(s: string) {
    '\n' !in s && '\0' !in s
  }

  /** No white space is followed by an inline comment prefix. */
  predicate NoComment(o: Options, s: string) {
    o.inlineComments ==> forall i :: 0 < i < |s| && IsSpace(s[i - 1]) ==> s[i] !in o.prefixes
  }

  predicate Trimmed(s: string) {
    s != [] ==> !IsSpace(s[0]) && !IsSpace(s[|s| - 1])
  }

  /** The well-formed triples, for lines of at most maxLine - 1 characters with their newline. */
  predicate WellFormed(o: Options, maxLine: nat, c: Call) {
    && Plain(c.section) && |c.section| < MAX_SECTION && |c.section| + 3 < maxLine
    && ']' !in c.section && NoComment(o, c.section)
    && Plain(c.name) && c.name != [] && Trimmed(c.name) && NoComment(o, c.name)
    && '=' !in c.name && ':' !in c.name && c.name[0] != ';' && c.name[0] != '#' && c.name[0] != '[' && !(BOM <= c.name)
    && Plain(c.value) && Trimmed(c.value) && NoComment(o, c.value)
    && (o.inlineComments && c.value != [] ==> c.value[0] !in o.prefixes)
    && |c.name| + 3 + |c.value| + 1 < maxLine
  }

  /** The handler of the round trip: it accepts everything. */
  function AcceptAll(): Handler {
    (calls: seq<Call>) => true
  }

  // ----- the scanner on printed lines -----

  /** Scanning passes over this position: it is not looked for and starts no inline comment. */
  predicate PassesAt(o: Options, s: string, chars: string, wasSpace: bool, i: nat)
    requires i < |s|
  {
    var spaceBefore := if i == 0 then wasSpace else IsSpace(s[i - 1]);
    s[i] !in chars && !(o.inlineComments && spaceBefore && s[i] in o.prefixes)
  }

  predicate Passes(o: Options, s: string, chars: string, wasSpace: bool) {
    forall i :: 0 <= i < |s| ==> PassesAt(o, s, chars, wasSpace, i)
  }

  lemma {:induction false} FindThrough(o: Options, s: string, t: string, chars: string, wasSpace: bool)
    requires Passes(o, s, chars, wasSpace)
    ensures Find(o, s + t, chars, wasSpace)
         == |s| + Find(o, t, chars, if s == [] then wasSpace else IsSpace(s[|s| - 1]))
    decreases |s|
  {
    if s == [] {
      assert s + t == t;
    } else {
      assert (s + t)[1..] == s[1..] + t && (s + t)[0] == s[0];
      assert PassesAt(o, s, chars, wasSpace, 0);
      forall i | 0 <= i < |s| - 1 ensures PassesAt(o, s[1..], chars, IsSpace(s[0]), i) {
        assert PassesAt(o, s, chars, wasSpace, i + 1);
      }
      FindThrough(o, s[1..], t, chars, IsSpace(s[0]));
    }
  }

  lemma RStripAppendSpace(s: string)
    ensures RStrip(s + " ") == RStrip(s)
  {
    assert (s + " ")[..|s|] == s;
  }

  /** The pair line without what rstrip drops: the space before an empty value. */
  function Core(c: Call): string {
    if c.value == [] then c.name + " =" else PairLine(c)
  }

  lemma PairBody(o: Options, maxLine: nat, c: Call, lineno: nat)
    requires WellFormed(o, maxLine, c)
    ensures Body(o, lineno, PairLine(c)) == (Core(c), false)
  {
    var line := PairLine(c);
    assert line[0] == c.name[0] && !IsSpace(line[0]);
    NoBom(c);
    if c.value == [] {
      RStripAppendSpace(c.name + " =");
      assert line == c.name + " =" + " ";
    } else {
      assert line[|line| - 1] == c.value[|c.value| - 1];
    }
  }

  lemma NoBom(c: Call)
    requires c.name != [] && !(BOM <= c.name)
    ensures !(BOM <= PairLine(c))
  {
    var line := PairLine(c);
    assert line[|c.name|] == ' ' && BOM[0] != ' ' && BOM[1] != ' ' && BOM[2] != ' ';
    assert |c.name| >= 3 ==> line[..3] == c.name[..3];
  }

  lemma PairSplits(o: Options, maxLine: nat, c: Call)
    requires WellFormed(o, maxLine, c)
    ensures SplitPair(o, Core(c)) == Pair(c.name, c.value)
  {
    var s, n := Core(c), c.name;
    var tail := if c.value == [] then "" else " " + c.value;
    assert s == n + (" =" + tail);
    assert Passes(o, n, "=:", false);
    hide LSkip; hide RStrip; hide Find; hide Core; hide Passes; hide ValueOf; hide PairLine;
    FindSeparator(o, n, tail);
    PairSlices(n, tail);
    RStripAppendSpace(n);
    TrimmedStays(n);
    ValueStays(o, c.value, tail);
  }

  lemma PairSlices(n: string, tail: string)
    ensures var s := n + (" =" + tail);
            |s| == |n| + 2 + |tail| && s[|n| + 1] == '=' && s[..|n| + 1] == n + " " && s[|n| + 2..] == tail
  {}

  lemma FindSeparator(o: Options, n: string, tail: string)
    requires n != [] && !IsSpace(n[|n| - 1]) && Passes(o, n, "=:", false)
    ensures Find(o, n + (" =" + tail), "=:", false) == |n| + 1
  {
    FindThrough(o, n, " =" + tail, "=:", false);
    assert (" =" + tail)[1..] == "=" + tail;
    assert Find(o, " =" + tail, "=:", false) == 1 + Find(o, "=" + tail, "=:", true);
  }

  lemma TrimmedStays(s: string)
    requires Trimmed(s)
    ensures RStrip(s) == s && LSkip(s) == s && LSkip(" " + s) == s
  {
    assert (" " + s)[1..] == s;
  }

  lemma ValueStays(o: Options, v: string, tail: string)
    requires Trimmed(v) && NoComment(o, v) && (o.inlineComments && v != [] ==> v[0] !in o.prefixes)
    requires tail == if v == [] then "" else " " + v
    ensures ValueOf(o, tail) == v
  {
    hide LSkip; hide RStrip;
    TrimmedStays(v);
    assert Passes(o, tail, "", false);
    FindThrough(o, tail, "", "", false);
    assert tail + "" == tail;
    TrimmedStays("");
  }

  lemma HeadingBody(o: Options, section: string, lineno: nat)
    ensures Body(o, lineno, "[" + section + "]") == ("[" + section + "]", false)
  {
    var s := "[" + section + "]";
    assert s[|s| - 1] == ']' && s[0] == '[' && BOM[0] != '[';
  }

  lemma HeadingSplits(o: Options, section: string)
    requires ']' !in section && NoComment(o, section)
    ensures SplitHeading(o, "[" + section + "]") == Heading(section)
  {
    var s := "[" + section + "]";
    assert s[1..] == section + "]" && s[1..1 + |section|] == section && s[1 + |section|] == ']';
    assert Passes(o, section, "]", false);
    FindThrough(o, section, "]", "]", false);
    assert Find(o, "]", "]", false) == 0 && Find(o, "]", "]", true) == 0;
  }

  // ----- steps -----

  lemma BlankStep(o: Options, st: State)
    ensures Step(o, AcceptAll(), st, "") == st.(lineno := st.lineno + 1)
  {}

  lemma HeadingStep(o: Options, maxLine: nat, c: Call, st: State)
    requires WellFormed(o, maxLine, c)
    ensures Step(o, AcceptAll(), st, "[" + c.section + "]")
         == st.(lineno := st.lineno + 1, section := c.section, prevName := [])
  {
    hide Body; hide SplitHeading; hide SplitPair;
    HeadingBody(o, c.section, st.lineno + 1);
    HeadingSplits(o, c.section);
  }

  lemma PairStep(o: Options, maxLine: nat, c: Call, st: State)
    requires WellFormed(o, maxLine, c) && st.section == c.section
    ensures var t := Step(o, AcceptAll(), st, PairLine(c));
            t.section == st.section && t.error == st.error && t.calls == st.calls + [c]
  {
    hide Body; hide SplitHeading; hide SplitPair;
    PairBody(o, maxLine, c, st.lineno + 1);
    PairSplits(o, maxLine, c);
    assert Core(c)[0] == c.name[0];
  }

  lemma {:induction false} RunAppend(o: Options, handler: Handler, st: State, a: seq<string>, b: seq<string>)
    ensures Run(o, false, handler, st, a + b) == Run(o, false, handler, Run(o, false, handler, st, a), b)
    decreases |a|
  {
    hide Step;
    if a == [] {
      assert a + b == b;
    } else {
      RunAppend(o, handler, Step(o, handler, st, a[0]), a[1..], b);
      assert (a + b)[1..] == a[1..] + b;
    }
  }

  lemma OneLine(o: Options, st: State, line: string)
    ensures Run(o, false, AcceptAll(), st, [line]) == Step(o, AcceptAll(), st, line)
  {
    hide Step;
    assert [line][1..] == [];
  }

  /** The lines of one call, read in a state whose section is the one printed before. */
  lemma CallReads(o: Options, maxLine: nat, prev: string, c: Call, st: State)
    requires WellFormed(o, maxLine, c) && st.section == prev
    ensures var t := Run(o, false, AcceptAll(), st, LinesOf(prev, c));
            t.section == SectionAfter(prev, c) && t.error == st.error && t.calls == st.calls + [c]
  {
    hide Step; hide PairLine; hide WellFormed;
    var h := AcceptAll();
    var head := "[" + c.section + "]";
    var st1, lead := st, [];
    assert lead + [PairLine(c)] == [PairLine(c)];
    if c.section != prev {
      SectionFits(o, maxLine, c);
      if prev == "" {
        lead := [head];
        OneLine(o, st, head);
        st1 := Step(o, h, st, head);
        HeadingStep(o, maxLine, c, st);
      } else {
        lead := [""] + [head];
        RunAppend(o, h, st, [""], [head]);
        OneLine(o, st, "");
        BlankStep(o, st);
        var st0 := Step(o, h, st, "");
        OneLine(o, st0, head);
        HeadingStep(o, maxLine, c, st0);
        st1 := Step(o, h, st0, head);
      }
    }
    assert LinesOf(prev, c) == lead + [PairLine(c)];
    RunAppend(o, h, st, lead, [PairLine(c)]);
    OneLine(o, st1, PairLine(c));
    PairStep(o, maxLine, c, st1);
  }

  lemma SectionFits(o: Options, maxLine: nat, c: Call)
    requires WellFormed(o, maxLine, c)
    ensures Truncate(c.section, MAX_SECTION) == c.section
  {}

  lemma {:induction false} CallsRead(o: Options, maxLine: nat, prev: string, calls: seq<Call>, st: State)
    requires (forall i :: 0 <= i < |calls| ==> WellFormed(o, maxLine, calls[i])) && st.section == prev
    ensures var t := Run(o, false, AcceptAll(), st, AllLines(prev, calls));
            t.error == st.error && t.calls == st.calls + calls
    decreases |calls|
  {
    hide Step; hide WellFormed; hide LinesOf;
    if calls == [] {
    } else {
      var lines := LinesOf(prev, calls[0]);
      var rest := AllLines(SectionAfter(prev, calls[0]), calls[1..]);
      CallReads(o, maxLine, prev, calls[0], st);
      RunAppend(o, AcceptAll(), st, lines, rest);
      CallsRead(o, maxLine, SectionAfter(prev, calls[0]), calls[1..], Run(o, false, AcceptAll(), st, lines));
      assert st.calls + [calls[0]] + calls[1..] == st.calls + calls;
    }
  }

  // ----- through fgets -----

  predicate FitLines(lines: seq<string>, maxLine: nat) {
    forall i :: 0 <= i < |lines| ==> Plain(lines[i]) && |lines[i]| + 1 < maxLine
  }

  lemma {:induction false} LinesFit(o: Options, maxLine: nat, prev: string, calls: seq<Call>)
    requires forall i :: 0 <= i < |calls| ==> WellFormed(o, maxLine, calls[i])
    ensures FitLines(AllLines(prev, calls), maxLine)
    decreases |calls|
  {
    if calls == [] {
    } else {
      LinesFit(o, maxLine, SectionAfter(prev, calls[0]), calls[1..]);
      var c := calls[0];
      assert Plain("[" + c.section + "]") && Plain(PairLine(c)) && Plain("");
      assert FitLines(LinesOf(prev, c), maxLine);
    }
  }

  lemma {:induction false} FgetsOneLine(line: string, rest: string, limit: nat)
    requires '\n' !in line && |line| < limit
    ensures FgetsCount(line + "\n" + rest, limit) == |line| + 1
    decreases |line|
  {
    var text := line + "\n" + rest;
    if line == [] {
    } else {
      assert text[1..] == line[1..] + "\n" + rest;
      FgetsOneLine(line[1..], rest, limit - 1);
    }
  }

  /** Reading printed lines with fgets is reading the lines themselves. */
  lemma {:induction false} FgetsReads(o: Options, handler: Handler, st: State, lines: seq<string>, maxLine: nat)
    requires maxLine >= 2 && FitLines(lines, maxLine)
    ensures Run(o, false, handler, st, FgetsLines(Unlines(lines), maxLine)) == Run(o, false, handler, st, lines)
    ensures forall i :: 0 <= i < |FgetsLines(Unlines(lines), maxLine)| ==>
        '\0' !in FgetsLines(Unlines(lines), maxLine)[i]
    ensures forall i :: 0 <= i < |FgetsLines(Unlines(lines), maxLine)| ==>
        |FgetsLines(Unlines(lines), maxLine)[i]| < maxLine
    decreases |lines|
  {
    hide Step;
    if lines == [] {
    } else {
      var line, rest := lines[0], Unlines(lines[1..]);
      var text := line + "\n" + rest;
      FgetsOneLine(line, rest, maxLine - 1);
      assert text[..|line| + 1] == line + "\n" && text[|line| + 1..] == rest;
      NewlineIgnored(o, handler, st, line);
      FgetsReads(o, handler, Step(o, handler, st, line), lines[1..], maxLine);
    }
  }

  /** What the dumper prints for a trace. */
  function Dumped(calls: seq<Call>): string {
    Unlines(AllLines("", calls))
  }

  /** The round trip: for every list of well-formed triples, parsing the printed file returns 0 and makes
    * exactly those handler calls, in order. */
  lemma RoundTrip(o: Options, calls: seq<Call>, maxLine: nat)
    requires maxLine >= 2 && forall i :: 0 <= i < |calls| ==> WellFormed(o, maxLine, calls[i])
    ensures var t := Parse(o, false, AcceptAll(), FgetsLines(Dumped(calls), maxLine));
            t.error == 0 && t.calls == calls
  {
    hide Step; hide WellFormed;
    LinesFit(o, maxLine, "", calls);
    CallsRead(o, maxLine, "", calls, INITIAL);
    FgetsReads(o, AcceptAll(), INITIAL, AllLines("", calls), maxLine);
  }

  /** The same for the two programs: the printer run on the triples, then the parser on its output. */
  method DumpThenParse(o: Options, calls: seq<Call>, maxLine: nat) returns (error: nat, calls': seq<Call>)
    requires maxLine >= 2 && forall i :: 0 <= i < |calls| ==> WellFormed(o, maxLine, calls[i])
    ensures error == 0 && calls' == calls
  {
    hide Step; hide WellFormed;
    var text := DumpAll(calls);
    LinesFit(o, maxLine, "", calls);
    FgetsReads(o, AcceptAll(), INITIAL, AllLines("", calls), maxLine);
    RoundTrip(o, calls, maxLine);
    var lines := FgetsLines(text, maxLine);
    IniParser.NoNulToDrop(lines);
    error, calls' := IniParser.IniParseStream(o, false, AcceptAll(), lines, maxLine);
  }
}
