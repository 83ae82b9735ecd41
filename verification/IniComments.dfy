/** White space, comments and the other ways to write the same line of an INI file. */
module IniComments {
  import opened IniSyntax
  import opened IniRoundTrip

  // ----- stripping -----

  predicate White(s: string) {
    forall i :: 0 <= i < |s| ==> IsSpace(s[i])
  }

  /** Prefix characters of inline comments are not white space. */
  predicate Sensible(o: Options) {
    forall i :: 0 <= i < |o.prefixes| ==> !IsSpace(o.prefixes[i])
  }

  lemma {:induction false} LSkipWhite(w: string, s: string)
    requires White(w)
    ensures LSkip(w + s) == LSkip(s)
    decreases |w|
  {
    if w == [] {
      assert w + s == s;
    } else {
      assert (w + s)[1..] == w[1..] + s;
      LSkipWhite(w[1..], s);
    }
  }

  lemma {:induction false} RStripWhite(s: string, w: string)
    requires White(w)
    ensures RStrip(s + w) == RStrip(s)
    decreases |w|
  {
    if w == [] {
      assert s + w == s;
    } else {
      assert (s + w)[..|s + w| - 1] == s + w[..|w| - 1];
      RStripWhite(s, w[..|w| - 1]);
    }
  }

  /** Stripping on the right does not reach behind a character that is no white space. */
  lemma {:induction false} RStripBehind(a: string, b: string)
    requires a != [] && !IsSpace(a[|a| - 1])
    ensures RStrip(a + b) == a + RStrip(b)
    decreases |b|
  {
    if b == [] {
      assert a + b == a;
    } else if IsSpace(b[|b| - 1]) {
      assert (a + b)[..|a + b| - 1] == a + b[..|b| - 1];
      RStripBehind(a, b[..|b| - 1]);
    } else {
      assert (a + b)[|a + b| - 1] == b[|b| - 1];
    }
  }

  /** The two strippings and nothing else: what is dropped is white space, what is kept neither begins with it
    * nor ends in it. */
  lemma {:induction false} StripsSpace(s: string)
    ensures var l := LSkip(s); |l| <= |s| && s == s[..|s| - |l|] + l && White(s[..|s| - |l|])
    ensures var l := LSkip(s); l != [] ==> !IsSpace(l[0])
    decreases |s|
  {
    if s != [] && IsSpace(s[0]) {
      StripsSpace(s[1..]);
      var l := LSkip(s);
      assert s[..|s| - |l|] == [s[0]] + s[1..][..|s| - 1 - |l|];
    }
  }

  lemma {:induction false} StripsSpaceBehind(s: string)
    ensures var r := RStrip(s); r <= s && White(s[|r|..]) && (r != [] ==> !IsSpace(r[|r| - 1]))
    decreases |s|
  {
    if s != [] && IsSpace(s[|s| - 1]) {
      var t := s[..|s| - 1];
      StripsSpaceBehind(t);
      var r := RStrip(s);
      assert s[|r|..] == t[|r|..] + [s[|s| - 1]];
    }
  }

  // ----- all ways to write a pair -----

  /** White space before the name, around the separator and behind the value, either separator, and behind
    * white space a comment. */
  datatype Style = Style(lead: string, before: string, sep: char, behind: string, trail: string, comment: string)

  predicate Fits(o: Options, st: Style, value: string) {
    && White(st.lead) && White(st.before) && White(st.behind) && White(st.trail)
    && (st.sep == '=' || st.sep == ':')
    && (st.comment != [] ==>
          && o.inlineComments && st.comment[0] in o.prefixes
          && (st.trail != [] || (value == [] && st.behind != [])))
  }

  /** The text behind the separator. */
  function ValueText(st: Style, value: string): string {
    st.behind + value + st.trail + st.comment
  }

  function Written(st: Style, c: Call): string {
    st.lead + c.name + st.before + [st.sep] + ValueText(st, c.value)
  }

  /** What is left of a written pair without white space at both ends. */
  function Trunk(st: Style, c: Call): string {
    c.name + st.before + [st.sep] + RStrip(ValueText(st, c.value))
  }

  lemma LSkipTrimmed(s: string)
    requires s != [] && !IsSpace(s[0])
    ensures LSkip(s) == s
  {}

  lemma WrittenBody(o: Options, maxLine: nat, c: Call, st: Style, lineno: nat)
    requires WellFormed(o, maxLine, c) && Fits(o, st, c.value)
    ensures Body(o, lineno, Written(st, c)) == (Trunk(st, c), st.lead != [])
  {
    NoBomWritten(c, st);
    TrunkStripped(st, c);
  }

  lemma TrunkStripped(st: Style, c: Call)
    requires c.name != [] && !IsSpace(c.name[0]) && White(st.lead) && !IsSpace(st.sep)
    ensures RStrip(Written(st, c)) == st.lead + Trunk(st, c)
    ensures LSkip(st.lead + Trunk(st, c)) == Trunk(st, c) && |Trunk(st, c)| > 0
  {
    var tail, head := ValueText(st, c.value), c.name + st.before + [st.sep];
    hide RStrip; hide LSkip; hide ValueText;
    assert Written(st, c) == st.lead + head + tail && (st.lead + head)[|st.lead + head| - 1] == st.sep;
    RStripBehind(st.lead + head, tail);
    LSkipWhite(st.lead, Trunk(st, c));
    assert Trunk(st, c)[0] == c.name[0];
    LSkipTrimmed(Trunk(st, c));
  }

  lemma NoBomWritten(c: Call, st: Style)
    requires c.name != [] && !(BOM <= c.name) && White(st.lead) && White(st.before) && (st.sep == '=' || st.sep == ':')
    ensures !(BOM <= Written(st, c))
  {
    var line := Written(st, c);
    if st.lead != [] {
      assert line[0] == st.lead[0] && BOM[0] != st.lead[0];
    } else {
      var next := (st.before + [st.sep])[0];
      assert line[|c.name|] == next && BOM[0] != next && BOM[1] != next && BOM[2] != next;
      assert |c.name| >= 3 ==> line[..3] == c.name[..3];
    }
  }

  /** Scanning passes over white space behind text that it passes over. */
  lemma PassesWhite(o: Options, s: string, w: string, chars: string)
    requires Sensible(o) && Passes(o, s, chars, false) && White(w)
    requires forall i :: 0 <= i < |chars| ==> !IsSpace(chars[i])
    ensures Passes(o, s + w, chars, false)
  {
    forall i | 0 <= i < |s + w| ensures PassesAt(o, s + w, chars, false, i) {
      if i < |s| {
        assert PassesAt(o, s, chars, false, i);
      } else {
        assert (s + w)[i] == w[i - |s|];
      }
    }
  }

  lemma WrittenName(o: Options, maxLine: nat, c: Call, st: Style)
    requires WellFormed(o, maxLine, c) && Fits(o, st, c.value) && Sensible(o)
    ensures SplitPair(o, Trunk(st, c)) == Pair(c.name, ValueOf(o, RStrip(ValueText(st, c.value))))
  {
    var n, rest := c.name + st.before, RStrip(ValueText(st, c.value));
    assert Passes(o, c.name, "=:", false);
    PassesWhite(o, c.name, st.before, "=:");
    RStripWhite(c.name, st.before);
    TrimmedStays(c.name);
    hide Passes; hide RStrip; hide ValueOf; hide ValueText; hide WellFormed; hide Fits;
    SplitAt(o, n, st.sep, rest);
  }

  lemma SplitAt(o: Options, n: string, sep: char, rest: string)
    requires Passes(o, n, "=:", false) && (sep == '=' || sep == ':')
    ensures SplitPair(o, n + [sep] + rest) == Pair(RStrip(n), ValueOf(o, rest))
  {
    hide Passes; hide RStrip; hide ValueOf; hide Find;
    FindThrough(o, n, [sep] + rest, "=:", false);
    FindAtOnce(o, sep, rest, if n == [] then false else IsSpace(n[|n| - 1]));
    var s := n + [sep] + rest;
    assert s == n + ([sep] + rest);
    assert s[..|n|] == n && s[|n|] == sep && s[|n| + 1..] == rest;
  }

  lemma FindAtOnce(o: Options, sep: char, rest: string, wasSpace: bool)
    requires sep == '=' || sep == ':'
    ensures Find(o, [sep] + rest, "=:", wasSpace) == 0
  {}

  lemma PlainValue(o: Options, value: string)
    requires NoComment(o, value) && (o.inlineComments && value != [] ==> value[0] !in o.prefixes)
    ensures Passes(o, value, "", false)
  {}

  lemma PassesBehind(o: Options, w: string, value: string)
    requires Sensible(o) && White(w) && Passes(o, value, "", false)
    requires o.inlineComments && value != [] ==> value[0] !in o.prefixes
    ensures Passes(o, w + value, "", false)
  {
    forall i | 0 <= i < |w + value| ensures PassesAt(o, w + value, "", false, i) {
      if i >= |w| {
        assert PassesAt(o, value, "", false, i - |w|);
      }
    }
  }

  lemma WrittenValue(o: Options, maxLine: nat, c: Call, st: Style)
    requires WellFormed(o, maxLine, c) && Fits(o, st, c.value) && Sensible(o)
    ensures ValueOf(o, RStrip(ValueText(st, c.value))) == c.value
  {
    PlainValue(o, c.value);
    hide Passes; hide RStrip; hide ValueOf;
    if st.comment == [] {
      ValueAlone(o, c.value, st);
    } else {
      ValueBeforeComment(o, c.value, st);
    }
  }

  lemma ValueAlone(o: Options, v: string, st: Style)
    requires Trimmed(v) && Passes(o, v, "", false) && (o.inlineComments && v != [] ==> v[0] !in o.prefixes)
    requires Fits(o, st, v) && Sensible(o) && st.comment == []
    ensures ValueOf(o, RStrip(ValueText(st, v))) == v
  {
    var text := st.behind + v;
    PassesBehind(o, st.behind, v);
    hide Passes; hide Find; hide RStrip; hide LSkip; hide ValueOf;
    assert ValueText(st, v) == text + st.trail;
    RStripWhite(text, st.trail);
    if v == [] {
      RStripWhite("", st.behind);
      assert "" + st.behind == text;
      NothingLeft(o);
    } else {
      RStripBehind(text, "");
      StripNothing();
      assert text + "" == text;
      FindThrough(o, text, "", "", false);
      FindNothing(o, text);
      ValueUpTo(o, text, |text|);
      assert text[..|text|] == text;
      LSkipWhite(st.behind, v);
      TrimmedStays(v);
    }
  }

  lemma ValueBeforeComment(o: Options, v: string, st: Style)
    requires Trimmed(v) && Passes(o, v, "", false) && (o.inlineComments && v != [] ==> v[0] !in o.prefixes)
    requires Fits(o, st, v) && Sensible(o) && st.comment != []
    ensures ValueOf(o, RStrip(ValueText(st, v))) == v
  {
    var n, p, junk := st.behind + v + st.trail, st.comment[0], st.comment[1..];
    PassesBehind(o, st.behind, v);
    PassesWhite(o, st.behind + v, st.trail, "");
    assert n != [] && IsSpace(n[|n| - 1]) && !IsSpace(p);
    hide Passes; hide Fits; hide RStrip; hide LSkip; hide ValueOf; hide Trimmed; hide Sensible; hide ValueText;
    CommentPieces(st, v, n, p, junk);
    RStripBehind(n + [p], junk);
    CutAtComment(o, n, p, RStrip(junk));
    BackToValue(v, st.behind, st.trail);
  }

  lemma CommentPieces(st: Style, v: string, n: string, p: char, junk: string)
    requires n == st.behind + v + st.trail && st.comment != [] && p == st.comment[0] && junk == st.comment[1..]
    ensures ValueText(st, v) == n + [p] + junk
  {
    assert [p] + junk == st.comment;
  }

  lemma CutAtComment(o: Options, n: string, p: char, rest: string)
    requires o.inlineComments && p in o.prefixes && Passes(o, n, "", false) && n != [] && IsSpace(n[|n| - 1])
    ensures ValueOf(o, n + [p] + rest) == RStrip(LSkip(n))
  {
    hide Passes; hide Find; hide RStrip; hide LSkip; hide ValueOf;
    assert n + [p] + rest == n + ([p] + rest);
    FindThrough(o, n, [p] + rest, "", false);
    FindComment(o, p, rest);
    ValueUpTo(o, n + [p] + rest, |n|);
    assert (n + [p] + rest)[..|n|] == n;
  }

  lemma BackToValue(v: string, w: string, trail: string)
    requires Trimmed(v) && White(w) && White(trail)
    ensures RStrip(LSkip(w + v + trail)) == v
  {
    hide RStrip; hide LSkip;
    assert w + v + trail == w + (v + trail);
    LSkipWhite(w, v + trail);
    TrimmedBefore(v, trail);
  }

  lemma ValueUpTo(o: Options, text: string, n: nat)
    requires n <= |text| && Find(o, text, "", false) == n && (!o.inlineComments ==> n == |text|)
    ensures ValueOf(o, text) == RStrip(LSkip(text[..n]))
  {
    hide Find;
    assert text[..|text|] == text;
  }

  lemma StripNothing()
    ensures RStrip("") == "" && LSkip("") == ""
  {}

  lemma NothingLeft(o: Options)
    ensures ValueOf(o, RStrip("")) == ""
  {}

  lemma FindNothing(o: Options, text: string)
    requires text != []
    ensures Find(o, "", "", IsSpace(text[|text| - 1])) == 0
  {}

  lemma FindComment(o: Options, p: char, rest: string)
    requires o.inlineComments && p in o.prefixes
    ensures Find(o, [p] + rest, "", true) == 0
  {}

  lemma TrimmedBefore(v: string, w: string)
    requires Trimmed(v) && White(w)
    ensures RStrip(LSkip(v + w)) == v
  {
    if v == [] {
      LSkipWhite(w, "");
      assert v + w == w + "";
    } else {
      LSkipTrimmed(v + w);
      RStripWhite(v, w);
      TrimmedStays(v);
    }
  }

  /** However a well-formed pair is written, with any white space, either separator and any comment behind it, the
    * line does exactly what the line printed by the dumper does: the same call, and the same state afterwards.
    * With lines continued, a line that begins with white space must not follow a name. */
  lemma StylesReadAlike(o: Options, maxLine: nat, handler: Handler, c: Call, style: Style, st: State)
    requires WellFormed(o, maxLine, c) && Fits(o, style, c.value) && Sensible(o)
    requires style.lead == [] || !o.multiline || st.prevName == []
    ensures Step(o, handler, st, Written(style, c)) == Step(o, handler, st, PairLine(c))
    ensures Step(o, handler, st, Written(style, c)).calls == st.calls + [Call(st.section, c.name, c.value)]
  {
    WrittenBody(o, maxLine, c, style, st.lineno + 1);
    WrittenName(o, maxLine, c, style);
    WrittenValue(o, maxLine, c, style);
    PairBody(o, maxLine, c, st.lineno + 1);
    PairSplits(o, maxLine, c);
    FirstChars(maxLine, o, c, style);
    hide Body; hide SplitPair; hide SplitHeading; hide Trunk; hide Core; hide Written; hide PairLine; hide WellFormed;
    StepOfPair(o, handler, st, Written(style, c), Trunk(style, c), style.lead != [], c);
    StepOfPair(o, handler, st, PairLine(c), Core(c), false, c);
  }

  lemma FirstChars(maxLine: nat, o: Options, c: Call, style: Style)
    requires WellFormed(o, maxLine, c)
    ensures StartsPair(Trunk(style, c)) && StartsPair(Core(c))
  {
    assert Trunk(style, c)[0] == c.name[0] && Core(c)[0] == c.name[0];
  }

  predicate StartsPair(s: string) {
    s != [] && s[0] != ';' && s[0] != '#' && s[0] != '['
  }

  lemma StepOfPair(o: Options, handler: Handler, st: State, line: string, s: string, moved: bool, c: Call)
    requires Body(o, st.lineno + 1, line) == (s, moved) && SplitPair(o, s) == Pair(c.name, c.value) && StartsPair(s)
    requires moved ==> !o.multiline || st.prevName == []
    ensures Step(o, handler, st, line)
         == Deliver(st.(lineno := st.lineno + 1, prevName := Truncate(c.name, MAX_NAME)), handler, c.name, c.value)
  {
    hide Body; hide SplitPair; hide SplitHeading;
  }

  // ----- where the scanner stops -----

  /** An inline comment starts here: a prefix character behind white space. */
  predicate CommentAt(o: Options, s: string, i: nat)
    requires i < |s|
  {
    o.inlineComments && i > 0 && IsSpace(s[i - 1]) && s[i] in o.prefixes
  }

  /** The scanner stops at the first place at which it must, and nowhere else. */
  lemma {:induction false} FindStops(o: Options, s: string, chars: string, wasSpace: bool)
    ensures var k := Find(o, s, chars, wasSpace);
            && (forall i :: 0 <= i < k ==> PassesAt(o, s, chars, wasSpace, i))
            && (k < |s| ==> !PassesAt(o, s, chars, wasSpace, k))
    decreases |s|
  {
    var k := Find(o, s, chars, wasSpace);
    if k > 0 {
      FindStops(o, s[1..], chars, IsSpace(s[0]));
      forall i | 0 <= i < k ensures PassesAt(o, s, chars, wasSpace, i) {
        if i > 0 {
          assert PassesAt(o, s[1..], chars, IsSpace(s[0]), i - 1);
        }
      }
    }
  }

  /** A looked-for character before which no inline comment starts. */
  ghost predicate Sees(o: Options, s: string, chars: string) {
    exists k :: 0 <= k < |s| && s[k] in chars && forall j :: 0 <= j < k ==> !CommentAt(o, s, j)
  }

  lemma FindSees(o: Options, s: string, chars: string)
    ensures var k := Find(o, s, chars, false); k < |s| && s[k] in chars <==> Sees(o, s, chars)
  {
    var k := Find(o, s, chars, false);
    FindStops(o, s, chars, false);
    forall i | 0 <= i < k ensures s[i] !in chars && !CommentAt(o, s, i) {
      assert PassesAt(o, s, chars, false, i);
    }
    assert k < |s| ==> s[k] in chars || CommentAt(o, s, k);
  }

  /** A name line is malformed if and only if no separator stands before its inline comment, and a section line
    * if and only if no closing bracket does. */
  lemma MalformedIff(o: Options, s: string)
    ensures SplitPair(o, s).NoPair? <==> !Sees(o, s, "=:")
    ensures s != [] ==> (SplitHeading(o, s).NoHeading? <==> !Sees(o, s[1..], "]"))
  {
    FindSees(o, s, "=:");
    if s != [] {
      FindSees(o, s[1..], "]");
    }
    hide Find; hide Sees;
  }

  // ----- comments are never delivered -----

  lemma NoCommentInside(o: Options, s: string, a: nat, b: nat)
    requires NoComment(o, s) && a <= b <= |s|
    ensures NoComment(o, s[a..b])
  {}

  lemma FoundClean(o: Options, s: string, chars: string)
    ensures var k := Find(o, s, chars, false);
            NoComment(o, s[..k]) && forall i :: 0 <= i < k ==> s[i] !in chars
  {
    var k := Find(o, s, chars, false);
    FindStops(o, s, chars, false);
    forall i | 0 <= i < k
      ensures s[i] !in chars && (o.inlineComments && i > 0 && IsSpace(s[..k][i - 1]) ==> s[..k][i] !in o.prefixes)
    {
      assert PassesAt(o, s, chars, false, i);
    }
  }

  lemma StrippedClean(o: Options, s: string)
    requires NoComment(o, s)
    ensures NoComment(o, RStrip(s)) && NoComment(o, LSkip(s))
  {
    StripsSpace(s);
    StripsSpaceBehind(s);
    var l, r := LSkip(s), RStrip(s);
    hide NoComment;
    NoCommentInside(o, s, 0, |r|);
    NoCommentInside(o, s, |s| - |l|, |s|);
    assert s[0..|r|] == r && s[|s| - |l|..|s|] == l;
  }

  lemma ValueClean(o: Options, rest: string)
    ensures NoComment(o, ValueOf(o, rest))
  {
    if o.inlineComments {
      FoundClean(o, rest, "");
      var text := rest[..Find(o, rest, "", false)];
      hide NoComment;
      StrippedClean(o, text);
      StrippedClean(o, LSkip(text));
    }
  }

  /** Neither half of a pair holds an inline comment, and the name holds no separator. */
  lemma PairClean(o: Options, s: string)
    ensures SplitPair(o, s).Pair? ==>
        var p := SplitPair(o, s);
        NoComment(o, p.name) && NoComment(o, p.value) && '=' !in p.name && ':' !in p.name
  {
    var e := Find(o, s, "=:", false);
    FoundClean(o, s, "=:");
    if e < |s| {
      StrippedClean(o, s[..e]);
      StripsSpaceBehind(s[..e]);
      ValueClean(o, s[e + 1..]);
      forall i | 0 <= i < |RStrip(s[..e])| ensures RStrip(s[..e])[i] !in "=:" {
        assert s[i] !in "=:";
      }
    }
  }

  lemma HeadingClean(o: Options, s: string)
    requires s != []
    ensures SplitHeading(o, s).Heading? ==>
        NoComment(o, SplitHeading(o, s).section) && ']' !in SplitHeading(o, s).section
  {
    var e := Find(o, s[1..], "]", false);
    FoundClean(o, s[1..], "]");
    assert e < |s| - 1 ==> s[1..][..e] == s[1..1 + e];
  }

  lemma TruncatedClean(o: Options, s: string, size: nat)
    requires NoComment(o, s) && size > 0
    ensures NoComment(o, Truncate(s, size))
  {
    var t := Truncate(s, size);
    NoCommentInside(o, s, 0, |t|);
    assert s[0..|t|] == t;
  }

  predicate CallClean(o: Options, c: Call) {
    NoComment(o, c.section) && NoComment(o, c.name) && (o.multiline || NoComment(o, c.value))
  }

  predicate Clean(o: Options, st: State) {
    && NoComment(o, st.section) && NoComment(o, st.prevName)
    && forall i :: 0 <= i < |st.calls| ==> CallClean(o, st.calls[i])
  }

  /** What a line can change of the state. */
  lemma StepShape(o: Options, handler: Handler, st: State, line: string)
    ensures var s, t := Body(o, st.lineno + 1, line).0, Step(o, handler, st, line);
            || (t.section == st.section && t.prevName == st.prevName && t.calls == st.calls)
            || (t.section == st.section && t.prevName == st.prevName
                && o.multiline && t.calls == st.calls + [Call(st.section, st.prevName, s)])
            || (s != [] && SplitHeading(o, s).Heading? && t.prevName == [] && t.calls == st.calls
                && t.section == Truncate(SplitHeading(o, s).section, MAX_SECTION))
            || (SplitPair(o, s).Pair? && t.section == st.section
                && t.prevName == Truncate(SplitPair(o, s).name, MAX_NAME)
                && t.calls == st.calls + [Call(st.section, SplitPair(o, s).name, SplitPair(o, s).value)])
  {
    hide Body; hide SplitPair; hide SplitHeading; hide Truncate;
  }

  lemma StepClean(o: Options, handler: Handler, st: State, line: string)
    requires Clean(o, st)
    ensures Clean(o, Step(o, handler, st, line))
  {
    hide Body; hide SplitPair; hide SplitHeading; hide NoComment; hide Truncate; hide Step;
    var s := Body(o, st.lineno + 1, line).0;
    StepShape(o, handler, st, line);
    PairClean(o, s);
    NothingIsClean(o);
    if s != [] {
      HeadingClean(o, s);
      if SplitHeading(o, s).Heading? {
        TruncatedClean(o, SplitHeading(o, s).section, MAX_SECTION);
      }
    }
    if SplitPair(o, s).Pair? {
      TruncatedClean(o, SplitPair(o, s).name, MAX_NAME);
    }
  }

  lemma NothingIsClean(o: Options)
    ensures NoComment(o, "")
  {}

  lemma {:induction false} RunClean(o: Options, stop: bool, handler: Handler, st: State, lines: seq<string>)
    requires Clean(o, st)
    ensures Clean(o, Run(o, stop, handler, st, lines))
    decreases |lines|
  {
    hide Step; hide Clean;
    if lines == [] {
    } else {
      StepClean(o, handler, st, lines[0]);
      RunClean(o, stop, handler, Step(o, handler, st, lines[0]), lines[1..]);
    }
  }

  /** In no file does a handler get a section or name in which white space is followed by a comment prefix, nor,
    * unless lines are continued, such a value. */
  lemma CommentsNeverDelivered(o: Options, stop: bool, handler: Handler, lines: seq<string>)
    ensures forall i :: 0 <= i < |Parse(o, stop, handler, lines).calls| ==>
        CallClean(o, Parse(o, stop, handler, lines).calls[i])
  {
    RunClean(o, stop, handler, INITIAL, lines);
  }

  // ----- the other lines -----

  lemma RStripToSolid(w: string, c: char, rest: string)
    requires White(w) && !IsSpace(c)
    ensures RStrip(w + [c] + rest) == w + [c] + RStrip(rest)
    ensures LSkip(w + [c] + RStrip(rest)) == [c] + RStrip(rest)
  {
    hide RStrip; hide LSkip;
    RStripBehind(w + [c], rest);
    assert w + [c] + RStrip(rest) == w + ([c] + RStrip(rest));
    LSkipWhite(w, [c] + RStrip(rest));
    LSkipTrimmed([c] + RStrip(rest));
  }

  /** The text of a line that begins, behind white space, with a character that is none and starts no byte order
    * mark. */
  lemma SolidBody(o: Options, lineno: nat, w: string, c: char, rest: string)
    requires White(w) && !IsSpace(c) && (w != [] || c != BOM[0])
    ensures Body(o, lineno, w + [c] + rest) == ([c] + RStrip(rest), w != [])
  {
    var line := w + [c] + rest;
    assert line[0] != BOM[0];
    RStripToSolid(w, c, rest);
    assert |[c] + RStrip(rest)| == 1 + |RStrip(rest)|;
    hide RStrip; hide LSkip;
  }

  lemma WhiteBody(o: Options, lineno: nat, w: string)
    requires White(w)
    ensures Body(o, lineno, w).0 == ""
  {
    RStripWhite("", w);
    assert "" + w == w;
    assert w != [] ==> w[0] != BOM[0];
  }

  /** A line of white space, or one that begins with a semicolon or a number sign, does nothing. */
  lemma IdleLines(o: Options, handler: Handler, st: State, w: string, c: char, rest: string)
    requires White(w) && (c == ';' || c == '#')
    ensures Step(o, handler, st, w) == st.(lineno := st.lineno + 1)
    ensures Step(o, handler, st, w + [c] + rest) == st.(lineno := st.lineno + 1)
  {
    WhiteBody(o, st.lineno + 1, w);
    SolidBody(o, st.lineno + 1, w, c, rest);
    hide Body; hide SplitPair; hide SplitHeading;
  }

  /** A section or a remembered name has at most 49 characters: what is longer is cut. */
  lemma CutAt49(s: string)
    ensures Truncate(s, MAX_SECTION) == (if |s| <= 49 then s else s[..49])
    ensures Truncate(s, MAX_NAME) == (if |s| <= 49 then s else s[..49])
  {}

  /** Anything may follow the bracket that closes a section line; of a longer section 49 characters are kept. */
  lemma BehindTheBracket(o: Options, handler: Handler, st: State, w: string, section: string, rest: string)
    requires White(w) && ']' !in section && NoComment(o, section)
    requires w == [] || !o.multiline || st.prevName == []
    ensures Step(o, handler, st, w + "[" + section + "]" + rest)
         == st.(lineno := st.lineno + 1, section := if |section| <= 49 then section else section[..49], prevName := [])
  {
    CutAt49(section);
    hide Body; hide SplitPair; hide SplitHeading; hide RStrip; hide NoComment; hide Truncate;
    HeadingTail(w, section, rest);
    SolidBody(o, st.lineno + 1, w, '[', section + "]" + rest);
    HeadingOf(o, section, RStrip(rest));
    assert ("[" + section + "]" + RStrip(rest))[0] == '[';
  }

  lemma HeadingTail(w: string, section: string, rest: string)
    ensures w + "[" + section + "]" + rest == w + "[" + (section + "]" + rest)
    ensures "[" + RStrip(section + "]" + rest) == "[" + section + "]" + RStrip(rest)
  {
    hide RStrip;
    RStripBehind(section + "]", rest);
    assert "[" + (section + "]" + RStrip(rest)) == "[" + section + "]" + RStrip(rest);
  }

  lemma HeadingOf(o: Options, section: string, rest: string)
    requires ']' !in section && NoComment(o, section)
    ensures SplitHeading(o, "[" + section + "]" + rest) == Heading(section)
  {
    var s := "[" + section + "]" + rest;
    assert Passes(o, section, "]", false);
    assert s[1..] == section + ("]" + rest) && s[1 + |section|] == ']' && s[1..1 + |section|] == section;
    hide Find; hide Passes;
    FindThrough(o, section, "]" + rest, "]", false);
    BracketFound(o, rest, if section == [] then false else IsSpace(section[|section| - 1]));
  }

  lemma BracketFound(o: Options, rest: string, wasSpace: bool)
    ensures Find(o, "]" + rest, "]", wasSpace) == 0
  {}

  /** The name that continued lines go to: the first 49 characters of the last one. */
  lemma NameRemembered(o: Options, maxLine: nat, handler: Handler, c: Call, st: State)
    requires WellFormed(o, maxLine, c)
    ensures Step(o, handler, st, PairLine(c)).prevName == if |c.name| <= 49 then c.name else c.name[..49]
  {
    CutAt49(c.name);
    PairBody(o, maxLine, c, st.lineno + 1);
    PairSplits(o, maxLine, c);
    assert StartsPair(Core(c)) by { assert Core(c)[0] == c.name[0]; }
    hide Body; hide SplitPair; hide SplitHeading; hide Core; hide PairLine; hide WellFormed; hide Truncate;
    StepOfPair(o, handler, st, PairLine(c), Core(c), false, c);
  }

  /** With lines continued, a line that begins with white space behind a name is one more value of that name,
    * whatever it holds. */
  lemma Continuation(o: Options, handler: Handler, st: State, w: string, c: char, rest: string)
    requires o.multiline && st.prevName != [] && White(w) && w != []
    requires !IsSpace(c) && c != ';' && c != '#'
    ensures Step(o, handler, st, w + [c] + rest)
         == Deliver(st.(lineno := st.lineno + 1), handler, st.prevName, [c] + RStrip(rest))
  {
    SolidBody(o, st.lineno + 1, w, c, rest);
    hide Body; hide SplitPair; hide SplitHeading;
  }

  /** A byte order mark at the start of a file changes nothing. */
  lemma MarkIgnored(o: Options, handler: Handler, line: string)
    requires o.bom && !(BOM <= line)
    ensures Step(o, handler, INITIAL, BOM + line) == Step(o, handler, INITIAL, line)
  {
    assert (BOM + line)[3..] == line && BOM <= BOM + line;
    hide SplitPair; hide SplitHeading; hide RStrip; hide LSkip;
  }
}
