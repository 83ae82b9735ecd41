/** What the shares of the input lines and of their compression classes add up to. */
module Shares {
  import opened LineTable
  import opened Allotment

  // ----- the blocks of all lines together -----

  /** The blocks written if every unique block of the first n lines is written with all its copies. */
  function Written(lines: seq<Line>, n: nat): real
    requires n <= |lines|
  {
    if n == 0 then 0.0
    else Written(lines, n - 1) + Copied(lines[n - 1])
  }

  function Copied(l: Line): real {
    l.nrBlocks as real * (l.nrCopies + 1) as real
  }

  function Percents(input: seq<InputLine>, n: nat): real
    requires n <= |input|
  {
    if n == 0 then 0.0 else Percents(input, n - 1) + input[n - 1].percent
  }

  /** A line that asks for less than one unique block. */
  predicate Lifted(blocks: nat, l: InputLine) {
    blocks as real * l.percent < (l.nrCopies + 1) as real * 100.0
  }

  /** What giving such lines one block adds at most. */
  function Excess(blocks: nat, input: seq<InputLine>, n: nat): real
    requires n <= |input|
  {
    if n == 0 then 0.0
    else
      Excess(blocks, input, n - 1)
      + if Lifted(blocks, input[n - 1]) then (input[n - 1].nrCopies + 1) as real else 0.0
  }

  /** What rounding down loses at most. */
  function Lost(input: seq<InputLine>, n: nat): real
    requires n <= |input|
  {
    if n == 0 then 0.0 else Lost(input, n - 1) + (input[n - 1].nrCopies + 1) as real
  }

  predicate FromInput(blocks: nat, input: seq<InputLine>, lines: seq<Line>) {
    && |lines| == |input|
    && forall i :: 0 <= i < |input| ==>
         && input[i].Valid() && lines[i].nrCopies == input[i].nrCopies
         && IsShare(blocks, input[i].percent, input[i].nrCopies, lines[i].nrBlocks)
  }

  /** One line writes what it asks for, up to rounding and to the rule that it has at least one block. */
  lemma ShareOfLine(blocks: nat, i: InputLine, l: Line)
    requires i.Valid() && l.nrCopies == i.nrCopies && IsShare(blocks, i.percent, i.nrCopies, l.nrBlocks)
    ensures var part, unit := Times(blocks as real, i.percent), (i.nrCopies + 1) as real;
            && part - unit * 100.0 <= Copied(l) * 100.0
            && Copied(l) * 100.0 <= part + if Lifted(blocks, i) then unit * 100.0 else 0.0
  {
    var n, unit := l.nrBlocks as real, (i.nrCopies + 1) as real;
    assert Times(blocks as real, i.percent) >= 0.0;
    assert n * (unit * 100.0) == n * unit * 100.0;
    assert (n + 1.0) * (unit * 100.0) == n * unit * 100.0 + unit * 100.0;
  }

  lemma {:induction false} SharesUpTo(blocks: nat, input: seq<InputLine>, lines: seq<Line>, n: nat)
    requires FromInput(blocks, input, lines) && n <= |input|
    ensures Times(blocks as real, Percents(input, n)) - Lost(input, n) * 100.0 <= Written(lines, n) * 100.0
    ensures Written(lines, n) * 100.0 <= Times(blocks as real, Percents(input, n)) + Excess(blocks, input, n) * 100.0
    decreases n
  {
    hide Times; hide Copied; hide Lifted; hide IsShare;
    if n == 0 {
      Nothing(blocks as real);
    } else {
      SharesUpTo(blocks, input, lines, n - 1);
      ShareOfLine(blocks, input[n - 1], lines[n - 1]);
      Distribute(blocks as real, Percents(input, n - 1), input[n - 1].percent);
    }
  }

  lemma Nothing(b: real)
    ensures Times(b, 0.0) == 0.0
  {}

  lemma Distribute(b: real, x: real, y: real)
    ensures Times(b, x + y) == Times(b, x) + Times(b, y)
  {}

  /** With percentages that sum to at most 100, all blocks with all their copies are no more than the blocks to
    * generate, plus one block with its copies for each line that asks for less than that. With percentages that
    * sum to 100 they are no less either, but for less than one block with its copies per line. */
  lemma SharesConserve(blocks: nat, input: seq<InputLine>, lines: seq<Line>)
    requires FromInput(blocks, input, lines)
    ensures Percents(input, |input|) <= 100.0 ==>
        Written(lines, |lines|) <= blocks as real + Excess(blocks, input, |input|)
    ensures Percents(input, |input|) >= 100.0 ==> Written(lines, |lines|) >= blocks as real - Lost(input, |input|)
  {
    hide Times;
    SharesUpTo(blocks, input, lines, |input|);
    Hundred(blocks as real);
    AtMost(blocks as real, Percents(input, |input|), 100.0);
    AtMost(blocks as real, 100.0, Percents(input, |input|));
  }

  lemma AtMost(b: real, x: real, y: real)
    requires b >= 0.0
    ensures x <= y ==> Times(b, x) <= Times(b, y)
  {}

  lemma Hundred(b: real)
    ensures Times(b, 100.0) == b * 100.0
  {}

  // ----- the blocks of the compression classes of one line -----

  predicate Usable(l: Line) {
    l.nrBlocks >= 1 && |l.compression| >= 10 && forall i :: 0 <= i < 10 ==> l.compression[i] >= 0.0
  }

  /** The last block that the first i classes cover, if it is not behind the end of the line. */
  function Last(l: Line, i: nat): int
    requires i <= |l.compression|
  {
    (Times(l.nrBlocks as real, Cumulated(l.compression, i)) / 100.0).Floor
  }

  lemma LastIs(l: Line, i: nat)
    requires i <= |l.compression|
    ensures var k := Last(l, i);
            k as real * 100.0 <= Times(l.nrBlocks as real, Cumulated(l.compression, i)) < (k + 1) as real * 100.0
  {
    hide Times;
  }

  lemma RatioTimes(r: real, n: real, x: real)
    requires n > 0.0
    ensures r / n * 100.0 <= x <==> r * 100.0 <= Times(n, x)
  {
    var q := r / n;
    assert q * n == r;
    TimesGrows(x, q * 100.0, n);
    assert Times(q * 100.0, n) == r * 100.0;
    assert Times(x, n) == Times(n, x);
  }

  lemma CoversIff(l: Line, r: int, i: nat)
    requires l.nrBlocks >= 1 && i < |l.compression|
    ensures Covers(l, r, i) <==> r <= Last(l, i + 1)
  {
    hide Times;
    RatioTimes(r as real, l.nrBlocks as real, Cumulated(l.compression, i + 1));
    LastIs(l, i + 1);
    hide Last; hide Cumulated;
    Bounded(r, Last(l, i + 1), Times(l.nrBlocks as real, Cumulated(l.compression, i + 1)));
  }

  lemma Bounded(r: int, k: int, x: real)
    requires k as real * 100.0 <= x < (k + 1) as real * 100.0
    ensures r as real * 100.0 <= x <==> r <= k
  {}

  lemma LastStep(l: Line, i: nat)
    requires Usable(l) && i < 10
    ensures Last(l, i) <= Last(l, i + 1)
    ensures var d := (Last(l, i + 1) - Last(l, i)) as real * 100.0;
            Times(l.nrBlocks as real, l.compression[i]) - 100.0 < d
                < Times(l.nrBlocks as real, l.compression[i]) + 100.0
  {
    var n, c := l.nrBlocks as real, l.compression[i];
    LastIs(l, i);
    LastIs(l, i + 1);
    Distribute(n, Cumulated(l.compression, i), c);
    assert Times(n, c) >= 0.0;
    hide Times; hide Last;
    assert Cumulated(l.compression, i + 1) == Cumulated(l.compression, i) + c;
    hide Cumulated;
  }

  lemma {:induction false} LastGrows(l: Line, i: nat, j: nat)
    requires Usable(l) && i <= j <= 10
    ensures Last(l, i) <= Last(l, j)
    decreases j
  {
    hide Last;
    if i == j {
    } else {
      LastGrows(l, i, j - 1);
      LastStep(l, j - 1);
    }
  }

  /** The classes follow each other along the line: class i is the stretch from behind the last block that the
    * classes before it cover up to the last one that it covers; the last class takes all the rest. */
  lemma ClassInterval(l: Line, r: int, i: nat)
    requires Usable(l) && 1 <= r <= l.nrBlocks && i < 10
    ensures ClassFrom(l, r, 0) == i <==> Last(l, i) < r && (i == 9 || r <= Last(l, i + 1))
  {
    hide Last; hide Covers;
    var k := ClassFrom(l, r, 0);
    CoversIff(l, r, k);
    if k > 0 {
      CoversIff(l, r, k - 1);
    } else {
      NothingCovered(l);
    }
    if i < k {
      LastGrows(l, i + 1, k);
    } else if k < i {
      LastGrows(l, k + 1, i);
    }
  }

  lemma NothingCovered(l: Line)
    requires Usable(l)
    ensures Last(l, 0) == 0
  {
    Nothing(l.nrBlocks as real);
  }

  /** The blocks of a line that are in class i. */
  function ClassIds(l: Line, i: nat): (ids: set<nat>)
    requires Usable(l)
    ensures forall r :: r in ids <==> 1 <= r <= l.nrBlocks && ClassFrom(l, r, 0) == i
  {
    set r | r in Interval(0, l.nrBlocks) && ClassFrom(l, r, 0) == i
  }

  lemma ClassIsInterval(l: Line, i: nat)
    requires Usable(l) && Last(l, 10) == l.nrBlocks && i < 10
    ensures 0 <= Last(l, i) <= Last(l, i + 1) && ClassIds(l, i) == Interval(Last(l, i), Last(l, i + 1))
  {
    LastGrows(l, 0, i);
    LastGrows(l, i, i + 1);
    LastGrows(l, i + 1, 10);
    NothingCovered(l);
    hide Last; hide Cumulated; hide Times; hide Usable; hide ClassFrom;
    var s := Interval(Last(l, i), Last(l, i + 1));
    forall r: nat ensures r in ClassIds(l, i) <==> r in s {
      if 1 <= r <= l.nrBlocks {
        ClassInterval(l, r, i);
      }
    }
  }

  /** If the percentages of a line sum to 100, every class has its percentage of the blocks, to within one. */
  lemma ClassGetsItsShare(l: Line, i: nat)
    requires Usable(l) && Cumulated(l.compression, 10) == 100.0 && i < 10
    ensures l.nrBlocks as real * l.compression[i] - 100.0 < |ClassIds(l, i)| as real * 100.0
                < l.nrBlocks as real * l.compression[i] + 100.0
  {
    AllCovered(l);
    ClassIsInterval(l, i);
    LastStep(l, i);
    TimesIs(l.nrBlocks as real, l.compression[i]);
    hide Last; hide Cumulated; hide Times; hide ClassIds;
    assert |ClassIds(l, i)| == Last(l, i + 1) - Last(l, i);
  }

  lemma AllCovered(l: Line)
    requires Usable(l) && Cumulated(l.compression, 10) == 100.0
    ensures Last(l, 10) == l.nrBlocks
  {
    Hundred(l.nrBlocks as real);
    hide Times;
  }
}
