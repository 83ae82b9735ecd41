/** The meaning of the INI parser on strings: what one line does to the parser's state, and what a
  * sequence of lines does. Strings are C strings: bytes kept as characters, without NUL. */
module IniSyntax {

  const MAX_SECTION := 50
  const MAX_NAME := 50

  /** The compile-time options: INI_ALLOW_MULTILINE, INI_ALLOW_BOM, INI_ALLOW_INLINE_COMMENTS,
    * INI_INLINE_COMMENT_PREFIXES. INI_STOP_ON_FIRST_ERROR is the parameter stop of Run and Parse. */
  datatype Options = Options(multiline: bool, bom: bool, inlineComments: bool, prefixes: string)

  const BOM: string := ['\U{EF}', '\U{BB}', '\U{BF}']

  predicate IsSpace(c: char) {
    c == ' ' || c == '\t' || c == '\n' || c == '\U{0B}' || c == '\U{0C}' || c == '\r'
  }

  function RStrip(s: string): (r: string)
    ensures r <= s
  {
    if s != [] && IsSpace(s[|s| - 1]) then RStrip(s[..|s| - 1]) else s
  }

  function LSkip(s: string): (r: string)
    ensures |r| <= |s|
  {
    if s != [] && IsSpace(s[0]) then LSkip(s[1..]) else s
  }

  /** find_chars_or_comment: the distance to the first of chars, or to an inline comment, which is a
    * prefix character after white space; the length if neither occurs. */
  function Find(o: Options, s: string, chars: string, wasSpace: bool): (k: nat)
    ensures k <= |s|
  {
    if s == [] then 0
    else if s[0] in chars then 0
    else if o.inlineComments && wasSpace && s[0] in o.prefixes then 0
    else 1 + Find(o, s[1..], chars, IsSpace(s[0]))
  }

  /** What fits in a buffer of size bytes with its final NUL. */
  function Truncate(s: string, size: nat): (t: string)
    requires size > 0
    ensures t <= s && |t| == if |s| < size then |s| else size - 1
  {
    if |s| < size then s else s[..size - 1]
  }

  // ----- one line -----

  datatype Call = Call(section: string, name: string, value: string)

  /** The handler may decide on everything it has been given so far, the current call included. */
  type Handler = seq<Call> -> bool

  /** The parser between two lines; error is 0 or the number of the first bad line. */
  datatype State = State(section: string, prevName: string, lineno: nat, error: nat, calls: seq<Call>)

  const INITIAL := State([], [], 0, 0, [])

  function Fail(st: State): State {
    if st.error == 0 then st.(error := st.lineno) else st
  }

  function Deliver(st: State, handler: Handler, name: string, value: string): State {
    var calls := st.calls + [Call(st.section, name, value)];
    var st' := st.(calls := calls);
    if handler(calls) then st' else Fail(st')
  }

  /** What a name line splits into, if it has a separator. */
  datatype Pair = NoPair | Pair(name: string, value: string)

  function SplitPair(o: Options, s: string): Pair {
    var e := Find(o, s, "=:", false);
    if e < |s| && (s[e] == '=' || s[e] == ':') then
      Pair(RStrip(s[..e]), ValueOf(o, s[e + 1..]))
    else NoPair
  }

  /** What is left of the text behind the separator. */
  function ValueOf(o: Options, rest: string): string {
    var text := if o.inlineComments then rest[..Find(o, rest, "", false)] else rest;
    RStrip(LSkip(text))
  }

  /** The name of a section line, without its closing bracket. */
  datatype Heading = NoHeading | Heading(section: string)

  function SplitHeading(o: Options, s: string): Heading
    requires s != []
  {
    var e := Find(o, s[1..], "]", false);
    if e < |s| - 1 && s[1 + e] == ']' then Heading(s[1..1 + e]) else NoHeading
  }

  /** A line stripped at both ends; moved tells that something was dropped on the left. */
  function Body(o: Options, lineno: nat, line: string): (string, bool) {
    var hasBom := o.bom && lineno == 1 && BOM <= line;
    var text := RStrip(if hasBom then line[3..] else line);
    (LSkip(text), hasBom || |LSkip(text)| < |text|)
  }

  /** One iteration of the line loop. */
  function Step(o: Options, handler: Handler, st0: State, line: string): State {
    var st := st0.(lineno := st0.lineno + 1);
    var (s, moved) := Body(o, st.lineno, line);
    if s == [] || s[0] == ';' || s[0] == '#' then st
    else if o.multiline && st.prevName != [] && moved then Deliver(st, handler, st.prevName, s)
    else if s[0] == '[' then
      match SplitHeading(o, s)
      case Heading(name) => st.(section := Truncate(name, MAX_SECTION), prevName := [])
      case NoHeading => Fail(st)
    else
      match SplitPair(o, s)
      case Pair(name, value) => Deliver(st.(prevName := Truncate(name, MAX_NAME)), handler, name, value)
      case NoPair => Fail(st)
  }

  // ----- all lines -----

  function Run(o: Options, stop: bool, handler: Handler, st: State, lines: seq<string>): State
    decreases |lines|
  {
    if lines == [] then st
    else
      var next := Step(o, handler, st, lines[0]);
      if stop && next.error != 0 then next else Run(o, stop, handler, next, lines[1..])
  }

  function Parse(o: Options, stop: bool, handler: Handler, lines: seq<string>): State {
    Run(o, stop, handler, INITIAL, lines)
  }
}
