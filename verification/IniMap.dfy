/** INIReader: the map from section and name to value that is folded from the parser's calls. */
module IniMap {
  import opened IniSyntax

  function LowerChar(c: char): char {
    if 'A' <= c <= 'Z' then (c as int + 32) as char else c
  }

  /** ::tolower over a string. */
  function Lower(s: string): (r: string)
    ensures |r| == |s| && forall i :: 0 <= i < |s| ==> r[i] == LowerChar(s[i])
  {
    seq(|s|, i requires 0 <= i < |s| => LowerChar(s[i]))
  }

  /** The same letter in either case, or the same character. */
  predicate SameLetter(c: char, d: char) {
    || c == d
    || ('A' <= c <= 'Z' && d as int - c as int == 'a' as int - 'A' as int)
    || ('A' <= d <= 'Z' && c as int - d as int == 'a' as int - 'A' as int)
  }

  /** Equal up to the case of letters. */
  predicate SameText(s: string, t: string) {
    |s| == |t| && forall i :: 0 <= i < |s| ==> SameLetter(s[i], t[i])
  }

  /** Folding makes two texts equal if and only if they are equal up to the case of letters, and leaves no
    * capital. */
  lemma FoldsCase(s: string, t: string)
    ensures Lower(s) == Lower(t) <==> SameText(s, t)
    ensures SameText(s, Lower(s)) && forall i :: 0 <= i < |s| ==> !('A' <= Lower(s)[i] <= 'Z')
  {
    forall c: char, d: char ensures LowerChar(c) == LowerChar(d) <==> SameLetter(c, d) {}
    if SameText(s, t) {
      assert forall i :: 0 <= i < |s| ==> Lower(s)[i] == Lower(t)[i];
    } else if |s| == |t| {
      var i :| 0 <= i < |s| && !SameLetter(s[i], t[i]);
      assert Lower(s)[i] != Lower(t)[i];
    }
  }

  /** MakeKey. */
  function MakeKey(section: string, name: string): string {
    Lower(section + "=" + name)
  }

  class IniReader {
    var values: map<string, string>

    constructor ()
      ensures values == map[]
    {
      values := map[];
    }

    /** ValueHandler: the first access to values[key] makes the entry, empty; values after a nonempty one
      * are appended on a new line. */
    method ValueHandler(c: Call)
      modifies this
      ensures values == Folded(old(values), c)
    {
      var key := MakeKey(c.section, c.name);
      if key !in values {
        values := values[key := ""];
      }
      if |values[key]| > 0 {
        values := values[key := values[key] + "\n"];
      }
      values := values[key := values[key] + c.value];
    }

    /** All calls of one parse, in order. */
    method Load(calls: seq<Call>)
      modifies this
      ensures values == AllFolded(old(values), calls)
    {
      var i := 0;
      while i < |calls|
        invariant 0 <= i <= |calls| && values == AllFolded(old(values), calls[..i])
      {
        ValueHandler(calls[i]);
        assert calls[..i + 1][..i] == calls[..i];
        i := i + 1;
      }
      assert calls[..i] == calls;
    }

    function Get(section: string, name: string, defaultValue: string): string
      reads this
    {
      var key := MakeKey(section, name);
      if key in values then values[key] else defaultValue
    }
  }

  function Appended(before: string, value: string): string {
    (if |before| > 0 then before + "\n" else before) + value
  }

  function Folded(values: map<string, string>, c: Call): map<string, string> {
    var key := MakeKey(c.section, c.name);
    values[key := Appended(if key in values then values[key] else "", c.value)]
  }

  function AllFolded(values: map<string, string>, calls: seq<Call>): map<string, string> {
    if calls == [] then values else Folded(AllFolded(values, calls[..|calls| - 1]), calls[|calls| - 1])
  }

  // ----- what Get returns -----

  /** The values delivered for a section and name in any case, in file order. */
  function Delivered(calls: seq<Call>, section: string, name: string): seq<string> {
    if calls == [] then []
    else
      var c := calls[|calls| - 1];
      Delivered(calls[..|calls| - 1], section, name)
      + (if SameText(c.section, section) && SameText(c.name, name) then [c.value] else [])
  }

  function DropEmpty(vs: seq<string>): seq<string> {
    if vs != [] && vs[0] == [] then DropEmpty(vs[1..]) else vs
  }

  function JoinLines(vs: seq<string>): string {
    if vs == [] then [] else if |vs| == 1 then vs[0] else JoinLines(vs[..|vs| - 1]) + "\n" + vs[|vs| - 1]
  }

  /** The separator of a key can be found again: it is the last '=' if the name has none. */
  lemma SplitUnique(a: string, x: string, b: string, y: string)
    requires '=' !in x && '=' !in y && a + "=" + x == b + "=" + y
    ensures a == b && x == y
  {
    var k, l := a + "=" + x, b + "=" + y;
    assert k[|a|] == '=' && l[|b|] == '=';
    assert forall i :: |a| < i < |k| ==> k[i] == x[i - |a| - 1];
    assert forall i :: |b| < i < |l| ==> l[i] == y[i - |b| - 1];
    assert a == k[..|a|] && b == l[..|b|] && x == k[|a| + 1..] && y == l[|b| + 1..];
  }

  lemma KeysDoNotCollide(s1: string, n1: string, s2: string, n2: string)
    requires '=' !in n1 && '=' !in n2
    ensures MakeKey(s1, n1) == MakeKey(s2, n2) <==> SameText(s1, s2) && SameText(n1, n2)
  {
    KeyParts(s1, n1);
    KeyParts(s2, n2);
    FoldsCase(s1, s2);
    FoldsCase(n1, n2);
    if MakeKey(s1, n1) == MakeKey(s2, n2) {
      SplitUnique(Lower(s1), Lower(n1), Lower(s2), Lower(n2));
    }
  }

  lemma KeyParts(s: string, n: string)
    requires '=' !in n
    ensures MakeKey(s, n) == Lower(s) + "=" + Lower(n) && '=' !in Lower(n)
  {
    assert MakeKey(s, n) == Lower(s) + "=" + Lower(n);
    forall i | 0 <= i < |n| ensures Lower(n)[i] != '=' {
      assert n[i] != '=';
    }
  }

  lemma {:induction false} JoinOfMore(vs: seq<string>, v: string)
    ensures JoinLines(DropEmpty(vs + [v])) == Appended(JoinLines(DropEmpty(vs)), v)
    ensures DropEmpty(vs) != [] ==> |JoinLines(DropEmpty(vs))| > 0
  {
    if vs == [] {
      assert vs + [v] == [v];
    } else if vs[0] == [] {
      JoinOfMore(vs[1..], v);
      assert (vs + [v])[1..] == vs[1..] + [v];
    } else {
      assert (vs + [v])[..|vs|] == vs;
      NonemptyJoin(vs);
    }
  }

  lemma {:induction false} NonemptyJoin(vs: seq<string>)
    requires vs != [] && vs[0] != []
    ensures |JoinLines(vs)| > 0
  {
    if |vs| <= 1 {
    } else {
      NonemptyJoin(vs[..|vs| - 1]);
    }
  }

  lemma EmptyJoin()
    ensures JoinLines(DropEmpty([])) == []
  {}

  /** The entry of a key, for calls whose names have no '='. */
  lemma {:induction false} EntryIsJoin(calls: seq<Call>, section: string, name: string)
    requires '=' !in name && forall i :: 0 <= i < |calls| ==> '=' !in calls[i].name
    ensures var m, key, vs := AllFolded(map[], calls), MakeKey(section, name), Delivered(calls, section, name);
            (key in m <==> vs != []) && (key in m ==> m[key] == JoinLines(DropEmpty(vs)))
    decreases |calls|
  {
    hide MakeKey; hide SameText; hide DropEmpty; hide JoinLines; hide Appended;
    EmptyJoin();
    if calls == [] {
    } else {
      var before, c := calls[..|calls| - 1], calls[|calls| - 1];
      EntryIsJoin(before, section, name);
      KeysDoNotCollide(c.section, c.name, section, name);
      JoinOfMore(Delivered(before, section, name), c.value);
      assert Delivered(before, section, name) + [] == Delivered(before, section, name);
    }
  }

  // ----- the parser never delivers a name with '=' -----

  predicate NamesWithoutSeparator(st: State) {
    '=' !in st.prevName && forall i :: 0 <= i < |st.calls| ==> '=' !in st.calls[i].name
  }

  lemma {:induction false} FindStopsEarly(o: Options, s: string, chars: string, wasSpace: bool, c: char)
    requires c in chars
    ensures c !in s[..Find(o, s, chars, wasSpace)]
    decreases |s|
  {
    if s != [] && s[0] !in chars && !(o.inlineComments && wasSpace && s[0] in o.prefixes) {
      FindStopsEarly(o, s[1..], chars, IsSpace(s[0]), c);
      var k := Find(o, s[1..], chars, IsSpace(s[0]));
      assert s[..k + 1] == [s[0]] + s[1..][..k];
    }
  }

  lemma PairName(o: Options, s: string)
    ensures SplitPair(o, s).Pair? ==> '=' !in SplitPair(o, s).name
  {
    hide RStrip; hide ValueOf;
    FindStopsEarly(o, s, "=:", false, '=');
  }

  lemma StepKeepsNames(o: Options, handler: Handler, st: State, line: string)
    requires NamesWithoutSeparator(st)
    ensures NamesWithoutSeparator(Step(o, handler, st, line))
  {
    hide SplitHeading; hide SplitPair; hide Body;
    PairName(o, Body(o, st.lineno + 1, line).0);
  }

  lemma {:induction false} RunKeepsNames(o: Options, stop: bool, handler: Handler, st: State, lines: seq<string>)
    requires NamesWithoutSeparator(st)
    ensures NamesWithoutSeparator(Run(o, stop, handler, st, lines))
    decreases |lines|
  {
    hide Step;
    if lines == [] {
    } else {
      StepKeepsNames(o, handler, st, lines[0]);
      RunKeepsNames(o, stop, handler, Step(o, handler, st, lines[0]), lines[1..]);
    }
  }

  /** For every file: Get returns the values delivered for that section and name, whatever their case, one
    * per line in file order and without the leading empty ones; the default if nothing was delivered.
    * The name looked up must have no '='; sections may. */
  method GetAfterParse(o: Options, stop: bool, handler: Handler, lines: seq<string>, section: string, name: string,
                       defaultValue: string)
    returns (r: string)
    requires '=' !in name
    ensures var vs := Delivered(Parse(o, stop, handler, lines).calls, section, name);
            r == if vs == [] then defaultValue else JoinLines(DropEmpty(vs))
  {
    hide MakeKey; hide Step; hide SameText;
    var calls := Parse(o, stop, handler, lines).calls;
    RunKeepsNames(o, stop, handler, INITIAL, lines);
    EntryIsJoin(calls, section, name);
    var reader := new IniReader();
    reader.Load(calls);
    r := reader.Get(section, name, defaultValue);
  }
}
