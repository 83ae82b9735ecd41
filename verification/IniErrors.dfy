/** What the return code of the INI parser means, and what stopping at the first error changes. */
module IniErrors {
  import opened IniSyntax

  /** The parts of a state that the lines read later depend on, with the error code reset. */
  function Clean(st: State): State {
    st.(error := 0)
  }

  /** Does this line, met in this state, count as bad: a section line without its closing bracket, a
    * name line without a separator, or a call the handler rejects? */
  predicate Bad(o: Options, handler: Handler, st: State, line: string) {
    var (s, moved) := Body(o, st.lineno + 1, line);
    if s == [] || s[0] == ';' || s[0] == '#' then false
    else if o.multiline && st.prevName != [] && moved then !handler(st.calls + [Call(st.section, st.prevName, s)])
    else if s[0] == '[' then SplitHeading(o, s).NoHeading?
    else
      match SplitPair(o, s)
      case Pair(name, value) => !handler(st.calls + [Call(st.section, name, value)])
      case NoPair => true
  }

  /** One line: the code is set if and only if it was clear and the line is bad; nothing else depends on it. */
  lemma StepError(o: Options, handler: Handler, st: State, line: string)
    ensures var t := Step(o, handler, st, line);
            && t.lineno == st.lineno + 1
            && t.error == (if st.error == 0 && Bad(o, handler, st, line) then st.lineno + 1 else st.error)
            && st.calls <= t.calls
            && Clean(t) == Clean(Step(o, handler, Clean(st), line))
  {
    hide Body; hide SplitHeading; hide SplitPair;
  }

  /** The state after the first k lines, as it is without stopping. */
  function After(o: Options, handler: Handler, lines: seq<string>, k: nat): State
    requires k <= |lines|
  {
    if k == 0 then INITIAL else Step(o, handler, After(o, handler, lines, k - 1), lines[k - 1])
  }

  lemma {:induction false} RunFrom(o: Options, handler: Handler, lines: seq<string>, k: nat)
    requires k <= |lines|
    ensures Parse(o, false, handler, lines) == Run(o, false, handler, After(o, handler, lines, k), lines[k..])
  {
    hide Step;
    if k == 0 {
      assert lines[0..] == lines;
    } else {
      RunFrom(o, handler, lines, k - 1);
      assert lines[k - 1..][1..] == lines[k..];
    }
  }

  predicate BadAt(o: Options, handler: Handler, lines: seq<string>, k: nat)
    requires k < |lines|
  {
    Bad(o, handler, After(o, handler, lines, k), lines[k])
  }

  lemma {:induction false} CodeAfter(o: Options, handler: Handler, lines: seq<string>, k: nat)
    requires k <= |lines|
    ensures var st := After(o, handler, lines, k);
            && st.lineno == k
            && (st.error == 0 ==> forall j :: 0 <= j < k ==> !BadAt(o, handler, lines, j))
            && (st.error != 0 ==> st.error <= k && BadAt(o, handler, lines, st.error - 1)
                                  && forall j :: 0 <= j < st.error - 1 ==> !BadAt(o, handler, lines, j))
  {
    hide Step; hide Bad;
    if k == 0 {
    } else {
      CodeAfter(o, handler, lines, k - 1);
      StepError(o, handler, After(o, handler, lines, k - 1), lines[k - 1]);
    }
  }

  /** The return code is 0 exactly if no line is bad, and otherwise the number of the first bad line. */
  lemma ErrorIsFirstBadLine(o: Options, handler: Handler, lines: seq<string>)
    ensures var e := Parse(o, false, handler, lines).error;
            && (e == 0 <==> forall j :: 0 <= j < |lines| ==> !BadAt(o, handler, lines, j))
            && (e != 0 ==> e <= |lines| && BadAt(o, handler, lines, e - 1))
            && (e != 0 ==> forall j :: 0 <= j < e - 1 ==> !BadAt(o, handler, lines, j))
  {
    hide Step; hide BadAt;
    RunFrom(o, handler, lines, |lines|);
    CodeAfter(o, handler, lines, |lines|);
  }

  lemma {:induction false} ErrorSticks(o: Options, handler: Handler, st: State, lines: seq<string>)
    ensures st.calls <= Run(o, false, handler, st, lines).calls
    ensures st.error != 0 ==> Run(o, false, handler, st, lines).error == st.error
    decreases |lines|
  {
    hide Step; hide Bad;
    if lines == [] {
    } else {
      StepError(o, handler, st, lines[0]);
      ErrorSticks(o, handler, Step(o, handler, st, lines[0]), lines[1..]);
    }
  }

  /** The build that stops at the first error returns the same code, after a prefix of the same calls;
    * if there is no error, after all of them. */
  lemma {:induction false} StoppingAgrees(o: Options, handler: Handler, st: State, lines: seq<string>)
    requires st.error == 0
    ensures var a, b := Run(o, true, handler, st, lines), Run(o, false, handler, st, lines);
            a.error == b.error && a.calls <= b.calls && (a.error == 0 ==> a == b)
    decreases |lines|
  {
    hide Step;
    if lines == [] {
    } else {
      var next := Step(o, handler, st, lines[0]);
      if next.error != 0 {
        ErrorSticks(o, handler, next, lines[1..]);
      } else {
        StoppingAgrees(o, handler, next, lines[1..]);
      }
    }
  }
}
