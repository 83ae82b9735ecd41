/** The INI parser as it works on its line buffer: a character array that is scanned and cut in place by
  * writing NULs, proved against the string functions of IniSyntax. */
module IniParser {
  import opened IniSyntax

  const NUL := '\0'

  /** The position of the NUL that ends the C string starting at at, or the length of the buffer. */
  function EndOf(b: seq<char>, at: nat): (e: nat)
    requires at <= |b|
    ensures at <= e <= |b|
    ensures e < |b| ==> b[e] == NUL
    ensures forall i :: at <= i < e ==> b[i] != NUL
    decreases |b| - at
  {
    if at == |b| || b[at] == NUL then at else EndOf(b, at + 1)
  }

  predicate Terminated(b: seq<char>, at: nat) {
    at <= |b| && EndOf(b, at) < |b|
  }

  /** The C string that starts at a position. */
  function CString(b: seq<char>, at: nat): string
    requires at <= |b|
  {
    b[at..EndOf(b, at)]
  }

  lemma EndIs(b: seq<char>, at: nat, e: nat)
    requires at <= e < |b| && b[e] == NUL && forall i :: at <= i < e ==> b[i] != NUL
    ensures EndOf(b, at) == e
  {}

  method Strlen(b: array<char>, s: nat) returns (n: nat)
    requires Terminated(b[..], s)
    ensures s + n == EndOf(b[..], s)
  {
    n := 0;
    while b[s + n] != NUL
      invariant s + n <= EndOf(b[..], s)
      decreases b.Length - n
    {
      n := n + 1;
    }
  }

  lemma RStripLast(s: string)
    ensures RStrip(s) == if s != [] && IsSpace(s[|s| - 1]) then RStrip(s[..|s| - 1]) else s
  {}

  /** rstrip: cuts the string at s behind its last non-space character. Nothing before s and nothing
    * from the old end on is touched. */
  method RStripAt(b: array<char>, s: nat)
    requires Terminated(b[..], s)
    modifies b
    ensures Terminated(b[..], s) && CString(b[..], s) == RStrip(old(CString(b[..], s)))
    ensures EndOf(b[..], s) <= old(EndOf(b[..], s))
    ensures b[..s] == old(b[..s]) && b[old(EndOf(b[..], s))..] == old(b[EndOf(b[..], s)..])
  {
    hide IsSpace; hide RStrip;
    ghost var was := b[..];
    var n := Strlen(b, s);
    var p := s + n;
    ghost var e := p;
    while p > s && IsSpace(b[p - 1])
      invariant s <= p <= e && b[p] == NUL
      invariant b[..p] == was[..p] && b[e..] == was[e..]
      invariant RStrip(was[s..e]) == RStrip(was[s..p])
    {
      RStripLast(was[s..p]);
      assert was[s..p][..p - 1 - s] == was[s..p - 1];
      p := p - 1;
      b[p] := NUL;
      assert b[..p] == was[..p];
    }
    RStripLast(was[s..p]);
    StringEndsAt(b[..], was, s, p);
  }

  /** A buffer that agrees with another up to a NUL at p, where the other has no NUL from s on. */
  lemma StringEndsAt(b: seq<char>, was: seq<char>, s: nat, p: nat)
    requires Terminated(was, s) && s <= p <= EndOf(was, s) && |b| == |was|
    requires b[..p] == was[..p] && b[p] == NUL
    ensures EndOf(b, s) == p && CString(b, s) == was[s..p]
  {
    forall i | s <= i < p ensures b[i] != NUL {
      assert b[i] == b[..p][i] && was[i] == was[..p][i];
    }
    EndIs(b, s, p);
    assert b[s..p] == b[..p][s..] && was[s..p] == was[..p][s..];
  }

  /** lskip. */
  method LSkipAt(b: array<char>, s: nat) returns (t: nat)
    requires Terminated(b[..], s)
    ensures s <= t <= EndOf(b[..], s) && EndOf(b[..], t) == EndOf(b[..], s)
    ensures CString(b[..], t) == LSkip(CString(b[..], s))
  {
    t := s;
    ghost var e := EndOf(b[..], s);
    while b[t] != NUL && IsSpace(b[t])
      invariant s <= t <= e
      invariant LSkip(b[s..e]) == LSkip(b[t..e])
      decreases e - t
    {
      assert b[t..e][1..] == b[t + 1..e];
      t := t + 1;
    }
    EndIs(b[..], t, e);
  }

  /** find_chars_or_comment. */
  method FindAt(o: Options, b: array<char>, s: nat, chars: string) returns (p: nat)
    requires Terminated(b[..], s)
    ensures p == s + Find(o, CString(b[..], s), chars, false) <= EndOf(b[..], s)
  {
    p := s;
    var wasSpace := false;
    ghost var e := EndOf(b[..], s);
    while b[p] != NUL && b[p] !in chars && !(o.inlineComments && wasSpace && b[p] in o.prefixes)
      invariant s <= p <= e
      invariant s + Find(o, b[s..e], chars, false) == p + Find(o, b[p..e], chars, wasSpace)
      decreases e - p
    {
      assert b[p..e][1..] == b[p + 1..e];
      wasSpace := IsSpace(b[p]);
      p := p + 1;
    }
  }

  /** Writing a NUL inside a string cuts it there; what lies before it or behind its end stays. */
  method Cut(b: array<char>, s: nat, e: nat)
    requires Terminated(b[..], s) && s <= e <= EndOf(b[..], s)
    modifies b
    ensures b[..] == old(b[..])[e := NUL]
    ensures Terminated(b[..], s) && EndOf(b[..], s) == e && CString(b[..], s) == old(CString(b[..], s))[..e - s]
    ensures e < old(EndOf(b[..], s)) ==>
              Terminated(b[..], e + 1) && CString(b[..], e + 1) == old(CString(b[..], s))[e - s + 1..]
  {
    CutString(b[..], s, e);
    hide Terminated; hide EndOf; hide CString;
    b[e] := NUL;
  }

  lemma CutString(was: seq<char>, s: nat, e: nat)
    requires Terminated(was, s) && s <= e <= EndOf(was, s)
    ensures e < |was|
    ensures var now := was[e := NUL];
            && Terminated(now, s) && EndOf(now, s) == e && CString(now, s) == CString(was, s)[..e - s]
            && (e < EndOf(was, s) ==> Terminated(now, e + 1) && CString(now, e + 1) == CString(was, s)[e - s + 1..])
  {
    var now := was[e := NUL];
    StringEndsAt(now, was, s, e);
    assert was[s..e] == was[s..EndOf(was, s)][..e - s];
    if e < EndOf(was, s) {
      InnerString(was, s, e + 1);
      assert now[e + 1..] == was[e + 1..];
      SameBehind(was, now, e + 1);
    }
  }

  /** A string seen from a position inside it. */
  lemma InnerString(b: seq<char>, at: nat, p: nat)
    requires Terminated(b, at) && at <= p <= EndOf(b, at)
    ensures Terminated(b, p) && EndOf(b, p) == EndOf(b, at) && CString(b, p) == CString(b, at)[p - at..]
  {
    EndIs(b, p, EndOf(b, at));
  }

  lemma SameBehind(b: seq<char>, b': seq<char>, at: nat)
    requires |b| == |b'| && at <= |b| && b'[at..] == b[at..]
    ensures EndOf(b', at) == EndOf(b, at) && CString(b', at) == CString(b, at)
  {
    var e := EndOf(b, at);
    assert forall i :: at <= i < |b| ==> b'[i] == b'[at..][i - at] && b[i] == b[at..][i - at];
    if e < |b| {
      EndIs(b', at, e);
    }
    assert CString(b', at) == CString(b, at);
  }

  /** The value of a name line: the text is cut at an inline comment and stripped where it stands. */
  method ValueAt(o: Options, b: array<char>, start: nat) returns (text: string)
    requires Terminated(b[..], start)
    modifies b
    ensures text == ValueOf(o, old(CString(b[..], start)))
  {
    hide IsSpace; hide RStrip; hide LSkip; hide Find;
    var value := start;
    ghost var rest := CString(b[..], value);
    if o.inlineComments {
      var end := FindAt(o, b, value, "");
      if b[end] != NUL {
        Cut(b, value, end);
      } else {
        assert rest[..end - value] == rest;
      }
    }
    value := LSkipAt(b, value);
    RStripAt(b, value);
    text := ReadString(b, value);
  }

  /** The part of the loop body that takes a name line apart: the buffer is cut at the separator, and
    * both halves are read where they stand. */
  method PairAt(o: Options, b: array<char>, start: nat) returns (pair: Pair)
    requires Terminated(b[..], start)
    modifies b
    ensures pair == SplitPair(o, old(CString(b[..], start)))
  {
    hide IsSpace; hide RStrip; hide Find; hide ValueOf; hide EndOf; hide CString;
    ghost var s := CString(b[..], start);
    var end := FindAt(o, b, start, "=:");
    CharAt(b[..], start, end);
    if b[end] != '=' && b[end] != ':' {
      return NoPair;
    }
    Cut(b, start, end);
    var name, value := HalvesAt(o, b, start, end);
    pair := Pair(name, value);
  }

  /** A name and a value that stand on both sides of a NUL. */
  method HalvesAt(o: Options, b: array<char>, start: nat, end: nat) returns (name: string, value: string)
    requires Terminated(b[..], start) && EndOf(b[..], start) == end && Terminated(b[..], end + 1)
    modifies b
    ensures name == RStrip(old(CString(b[..], start)))
    ensures value == ValueOf(o, old(CString(b[..], end + 1)))
  {
    hide IsSpace; hide RStrip; hide ValueOf; hide EndOf; hide CString;
    ghost var cut := b[..];
    RStripAt(b, start);
    name := ReadString(b, start);
    assert b[..][end + 1..] == b[end..][1..] && cut[end + 1..] == cut[end..][1..];
    SameBehind(cut, b[..], end + 1);
    value := ValueAt(o, b, end + 1);
  }

  lemma CharAt(b: seq<char>, at: nat, p: nat)
    requires Terminated(b, at) && at <= p <= EndOf(b, at)
    ensures |CString(b, at)| == EndOf(b, at) - at
    ensures p < EndOf(b, at) ==> CString(b, at)[p - at] == b[p] != NUL
    ensures p == EndOf(b, at) ==> b[p] == NUL
  {}

  /** The string a handler is given. */
  method ReadString(b: array<char>, s: nat) returns (t: string)
    requires Terminated(b[..], s)
    ensures t == CString(b[..], s)
  {
    var n := Strlen(b, s);
    t := b[s..s + n];
  }

  /** The part of the loop body that reads a section line. */
  method HeadingAt(o: Options, b: array<char>, start: nat) returns (heading: Heading)
    requires Terminated(b[..], start) && start < EndOf(b[..], start)
    modifies b
    ensures heading == SplitHeading(o, old(CString(b[..], start)))
  {
    hide IsSpace; hide Find; hide CString; hide EndOf;
    ghost var s := CString(b[..], start);
    TailString(b[..], start);
    var end := FindAt(o, b, start + 1, "]");
    CharAt(b[..], start, end);
    CharAt(b[..], start + 1, end);
    ghost var e := Find(o, s[1..], "]", false);
    assert end == start + 1 + e && (e < |s| - 1 ==> b[end] == s[1 + e]);
    HeadingIs(o, s, e);
    hide SplitHeading;
    if b[end] != ']' {
      return NoHeading;
    }
    Cut(b, start + 1, end);
    var name := ReadString(b, start + 1);
    heading := Heading(name);
  }

  lemma HeadingIs(o: Options, s: string, e: nat)
    requires s != [] && e == Find(o, s[1..], "]", false)
    ensures SplitHeading(o, s) == if e < |s| - 1 && s[1 + e] == ']' then Heading(s[1..][..e]) else NoHeading
  {
    hide Find;
    assert s[1..][..e] == s[1..1 + e];
  }

  lemma TailString(b: seq<char>, at: nat)
    requires Terminated(b, at) && at < EndOf(b, at)
    ensures Terminated(b, at + 1) && EndOf(b, at + 1) == EndOf(b, at) && CString(b, at + 1) == CString(b, at)[1..]
  {
    EndIs(b, at + 1, EndOf(b, at));
  }

  /** The byte order mark test: start is 3 behind a byte order mark on the first line, 0 otherwise. */
  method SkipBom(o: Options, b: array<char>, lineno: nat) returns (start: nat)
    requires Terminated(b[..], 0)
    ensures Terminated(b[..], start)
    ensures var line := CString(b[..], 0);
            if o.bom && lineno == 1 && BOM <= line then start == 3 && CString(b[..], start) == line[3..]
            else start == 0
  {
    ghost var line := CString(b[..], 0);
    start := 0;
    BomChars(line);
    StringChars(b[..], 0);
    if o.bom && lineno == 1 && b[0] == BOM[0] && b[1] == BOM[1] && b[2] == BOM[2] {
      start := 3;
      hide CString; hide EndOf;
      TailString(b[..], 0);
      TailString(b[..], 1);
      TailString(b[..], 2);
      assert line[1..][1..][1..] == line[3..];
    }
  }

  /** The byte order mark test and the stripping at both ends; start is where the text begins. */
  method BodyAt(o: Options, b: array<char>, lineno: nat) returns (start: nat)
    requires Terminated(b[..], 0)
    modifies b
    ensures Terminated(b[..], start)
    ensures var (text, moved) := Body(o, lineno, old(CString(b[..], 0)));
            CString(b[..], start) == text && (start > 0 <==> moved)
  {
    hide RStrip; hide LSkip; hide CString; hide EndOf;
    start := SkipBom(o, b, lineno);
    RStripAt(b, start);
    var from := start;
    start := LSkipAt(b, start);
    CharAt(b[..], from, start);
    CharAt(b[..], start, start);
  }

  lemma BomChars(line: string)
    ensures BOM <= line <==> |line| >= 3 && line[0] == BOM[0] && line[1] == BOM[1] && line[2] == BOM[2]
  {}

  lemma StringChars(b: seq<char>, at: nat)
    requires Terminated(b, at)
    ensures |CString(b, at)| == EndOf(b, at) - at
    ensures forall i :: 0 <= i < |CString(b, at)| ==> CString(b, at)[i] == b[at + i] != NUL
    ensures b[EndOf(b, at)] == NUL
  {}

  /** One iteration of the line loop of ini_parse_stream, on the buffer. */
  method LineAt(o: Options, handler: Handler, b: array<char>, st0: State) returns (st: State)
    requires Terminated(b[..], 0)
    modifies b
    ensures st == Step(o, handler, st0, old(CString(b[..], 0)))
  {
    hide Body; hide SplitHeading; hide SplitPair; hide CString;
    st := st0.(lineno := st0.lineno + 1);
    var start := BodyAt(o, b, st.lineno);
    CharAt(b[..], start, start);
    if b[start] == ';' || b[start] == '#' {
      return;
    }
    if o.multiline && st.prevName != [] && b[start] != NUL && start > 0 {
      var text := ReadString(b, start);
      st := Deliver(st, handler, st.prevName, text);
    } else if b[start] == '[' {
      var heading := HeadingAt(o, b, start);
      if heading.Heading? {
        st := st.(section := Truncate(heading.section, MAX_SECTION), prevName := []);
      } else {
        st := Fail(st);
      }
    } else if b[start] != NUL {
      var pair := PairAt(o, b, start);
      if pair.Pair? {
        st := Deliver(st.(prevName := Truncate(pair.name, MAX_NAME)), handler, pair.name, pair.value);
      } else {
        st := Fail(st);
      }
    }
  }

  /** What a reader stores in the line buffer, up to the first NUL in it. */
  function UpToNul(raw: string): (s: string)
    ensures |s| <= |raw|
  {
    if raw == [] || raw[0] == NUL then [] else [raw[0]] + UpToNul(raw[1..])
  }

  function AllUpToNul(lines: seq<string>): (r: seq<string>)
    ensures |r| == |lines|
  {
    if lines == [] then [] else [UpToNul(lines[0])] + AllUpToNul(lines[1..])
  }

  lemma {:induction false} LoadedString(b: seq<char>, raw: string, at: nat)
    requires |raw| < |b| && b[..|raw|] == raw && b[|raw|] == NUL && at <= |raw|
    ensures Terminated(b, at) && CString(b, at) == UpToNul(raw[at..])
    decreases |raw| - at
  {
    if at >= |raw| {
    } else {
      assert b[at] == b[..|raw|][at] == raw[at];
      LoadedString(b, raw, at + 1);
      assert raw[at..][1..] == raw[at + 1..];
      if raw[at] != NUL {
        assert CString(b, at) == [b[at]] + CString(b, at + 1);
      }
    }
  }

  lemma {:induction false} NoNulToDrop(lines: seq<string>)
    requires forall i :: 0 <= i < |lines| ==> '\0' !in lines[i]
    ensures AllUpToNul(lines) == lines
    decreases |lines|
  {
    if lines == [] {
    } else {
      NoNulInLine(lines[0]);
      NoNulToDrop(lines[1..]);
    }
  }

  lemma {:induction false} NoNulInLine(s: string)
    requires '\0' !in s
    ensures UpToNul(s) == s
    decreases |s|
  {
    if s == [] {
    } else {
      NoNulInLine(s[1..]);
    }
  }

  /** ini_parse_stream, for the strings a reader returns one after the other: the returned error code and
    * the handler calls are those of the string-level parser. */
  method IniParseStream(o: Options, stop: bool, handler: Handler, reader: seq<string>, maxLine: nat)
    returns (error: nat, calls: seq<Call>)
    requires forall i :: 0 <= i < |reader| ==> |reader[i]| < maxLine
    ensures error == Parse(o, stop, handler, AllUpToNul(reader)).error
    ensures calls == Parse(o, stop, handler, AllUpToNul(reader)).calls
  {
    hide Step;
    var line := new char[maxLine];
    var st := INITIAL;
    var k := 0;
    AllFrom(reader, 0);
    while k < |reader|
      invariant 0 <= k <= |reader|
      invariant Parse(o, stop, handler, AllUpToNul(reader)) == Run(o, stop, handler, st, AllUpToNul(reader[k..]))
    {
      var raw := reader[k];
      forall i | 0 <= i < |raw| {
        line[i] := raw[i];
      }
      line[|raw|] := NUL;
      assert line[..][..|raw|] == raw;
      LoadedString(line[..], raw, 0);
      assert raw[0..] == raw;
      AllFrom(reader, k);
      st := LineAt(o, handler, line, st);
      k := k + 1;
      if stop && st.error != 0 {
        return st.error, st.calls;
      }
    }
    return st.error, st.calls;
  }

  lemma AllFrom(lines: seq<string>, k: nat)
    requires k <= |lines|
    ensures k < |lines| ==> AllUpToNul(lines[k..]) == [UpToNul(lines[k])] + AllUpToNul(lines[k + 1..])
    ensures lines[0..] == lines
  {
    if k < |lines| {
      assert lines[k..][1..] == lines[k + 1..];
    }
  }
}
