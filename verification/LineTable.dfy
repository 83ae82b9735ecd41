/** The line table of the content generator: which input line a block id belongs to, its compression
  * index, and which of the 100 models it uses. */
module LineTable {

  /** One line of the duplicates distribution file. */
  datatype InputLine = InputLine(nrCopies: nat, percent: real, compression: seq<real>)
  {
    predicate Valid() { percent >= 0.0 && |compression| >= 10 }
  }

  datatype Line = Line(nrCopies: nat, nrBlocks: nat, nrBase: nat, compression: seq<real>)

  // ----- reading the table -----

  /** The lines cover consecutive stretches of ids, each nonempty, from id 1 on. */
  predicate Chained(lines: seq<Line>) {
    && (|lines| > 0 ==> lines[0].nrBase == 0)
    && (forall i :: 0 <= i < |lines| ==> lines[i].nrBlocks >= 1 && |lines[i].compression| >= 10)
    && (forall i :: 0 < i < |lines| ==> lines[i].nrBase == lines[i - 1].nrBase + lines[i - 1].nrBlocks)
  }

  /** The number of unique blocks: ids run from 1 to Total. */
  function Total(lines: seq<Line>): nat {
    if lines == [] then 0 else lines[|lines| - 1].nrBase + lines[|lines| - 1].nrBlocks
  }

  /** The part of the blocks to generate that an input line asks for, as a number of unique blocks. */
  function Portion(blocksToGenerate: nat, l: InputLine): (share: real)
    requires l.Valid()
    ensures share >= 0.0
  {
    ShareNonnegative(blocksToGenerate as real, l.percent / 100.0, (l.nrCopies + 1) as real);
    PerCopy(blocksToGenerate as real, l.percent, (l.nrCopies + 1) as real)
  }

  function PerCopy(blocks: real, percent: real, written: real): real
    requires written > 0.0
  {
    blocks * (percent / 100.0) / written
  }

  /** How many blocks an input line contributes: its portion, rounded down, but at least one. */
  function Share(blocksToGenerate: nat, l: InputLine): (n: nat)
    requires l.Valid()
    ensures n >= 1
  {
    var share := Portion(blocksToGenerate, l);
    if share.Floor == 0 then 1 else share.Floor
  }

  /** n blocks, each to be written nrCopies + 1 times, are the part of the blocks to generate that a line asks
    * for with its percentage, rounded down to a whole n; a line whose part is less than one block gets one. */
  predicate IsShare(blocksToGenerate: nat, percent: real, nrCopies: nat, n: nat) {
    var part, unit := blocksToGenerate as real * percent, (nrCopies + 1) as real * 100.0;
    if part < unit then n == 1 else n as real * unit <= part < (n + 1) as real * unit
  }

  lemma ShareIsShare(blocksToGenerate: nat, l: InputLine)
    requires l.Valid()
    ensures IsShare(blocksToGenerate, l.percent, l.nrCopies, Share(blocksToGenerate, l))
  {
    hide IsShare; hide Times; hide Portion;
    var unit := (l.nrCopies + 1) as real * 100.0;
    var n := Share(blocksToGenerate, l);
    PortionTimes(blocksToGenerate, l);
    OneTimes(unit);
    RoundedDown(Portion(blocksToGenerate, l), unit, n);
    ShareFrom(blocksToGenerate, l.percent, l.nrCopies, n, unit);
  }

  // Products of reals are kept behind a name where only their order matters.

  function Times(x: real, y: real): real { x * y }

  lemma TimesIs(x: real, y: real)
    ensures Times(x, y) == x * y
  {}

  lemma OneTimes(u: real)
    ensures Times(1.0, u) == u
  {}

  lemma TimesGrows(x: real, y: real, u: real)
    requires u > 0.0
    ensures x < y <==> Times(x, u) < Times(y, u)
  {}

  lemma PerCopyTimes(b: real, p: real, c: real)
    requires c > 0.0
    ensures Times(PerCopy(b, p, c), c * 100.0) == Times(b, p)
  {
    var x := PerCopy(b, p, c);
    assert x * c == b * (p / 100.0);
  }

  lemma PortionTimes(blocks: nat, l: InputLine)
    requires l.Valid()
    ensures Times(Portion(blocks, l), (l.nrCopies + 1) as real * 100.0) == Times(blocks as real, l.percent)
  {
    hide Times; hide PerCopy;
    PerCopyTimes(blocks as real, l.percent, (l.nrCopies + 1) as real);
  }

  lemma RoundedDown(share: real, unit: real, n: int)
    requires share >= 0.0 && unit > 0.0 && n == if share.Floor == 0 then 1 else share.Floor
    ensures if Times(share, unit) < Times(1.0, unit) then n == 1
            else Times(n as real, unit) <= Times(share, unit) < Times((n + 1) as real, unit)
  {
    hide Times;
    TimesGrows(share, 1.0, unit);
    TimesGrows(share, n as real, unit);
    TimesGrows(share, (n + 1) as real, unit);
  }

  lemma ShareFrom(blocks: nat, percent: real, nrCopies: nat, n: nat, unit: real)
    requires unit == (nrCopies + 1) as real * 100.0
    requires if Times(blocks as real, percent) < unit then n == 1
             else Times(n as real, unit) <= Times(blocks as real, percent) < Times((n + 1) as real, unit)
    ensures IsShare(blocks, percent, nrCopies, n)
  {
    hide Times;
    TimesIs(blocks as real, percent);
    TimesIs(n as real, unit);
    TimesIs((n + 1) as real, unit);
  }

  lemma ShareNonnegative(x: real, y: real, z: real)
    requires x >= 0.0 && y >= 0.0 && z > 0.0
    ensures x * y / z >= 0.0
  {
    assert x * y >= 0.0;
  }

  /** The block count of the last line without copies; 0 if there is none. */
  function LastZero(lines: seq<Line>): nat {
    if lines == [] then 0
    else
      var l := lines[|lines| - 1];
      if l.nrCopies == 0 then l.nrBlocks else LastZero(lines[..|lines| - 1])
  }

  /** Line k has no copies, and all later lines have some. */
  predicate IsLastZero(lines: seq<Line>, k: nat)
    requires k < |lines|
  {
    lines[k].nrCopies == 0 && forall i :: k < i < |lines| ==> lines[i].nrCopies > 0
  }

  lemma {:induction false} LastZeroIs(lines: seq<Line>, k: nat)
    requires k < |lines| && IsLastZero(lines, k)
    ensures LastZero(lines) == lines[k].nrBlocks
    decreases |lines|
  {
    if k < |lines| - 1 {
      LastZeroIs(lines[..|lines| - 1], k);
    }
  }

  lemma NextZero(lines: seq<Line>, l: Line)
    ensures LastZero(lines + [l]) == if l.nrCopies == 0 then l.nrBlocks else LastZero(lines)
  {
    assert (lines + [l])[..|lines|] == lines;
  }

  lemma NoLines()
    ensures LastZero([]) == 0
  {}

  /** The reading loop of Generator::initialize. */
  method ReadLines(blocksToGenerate: nat, input: seq<InputLine>)
    returns (linhas: seq<Line>, zeroCopiesBlocks: nat, total: nat)
    requires forall i :: 0 <= i < |input| ==> input[i].Valid()
    ensures |linhas| == |input| && Chained(linhas) && total == Total(linhas)
    ensures forall i :: 0 <= i < |input| ==>
              && linhas[i].nrCopies == input[i].nrCopies && linhas[i].compression == input[i].compression
              && linhas[i].nrBlocks == Share(blocksToGenerate, input[i])
              && IsShare(blocksToGenerate, input[i].percent, input[i].nrCopies, linhas[i].nrBlocks)
    ensures zeroCopiesBlocks == LastZero(linhas)
    ensures forall k :: 0 <= k < |linhas| && IsLastZero(linhas, k) ==> zeroCopiesBlocks == linhas[k].nrBlocks
    ensures ZeroLineFirst(linhas) ==> zeroCopiesBlocks == ZeroLimit(linhas)
  {
    hide LastZero; hide ZeroFrom; hide Share;
    NoLines();
    linhas, zeroCopiesBlocks, total := [], 0, 0;
    var nrBaseAux := 0;
    var i := 0;
    while i < |input|
      invariant 0 <= i <= |input| && |linhas| == i
      invariant Chained(linhas) && total == nrBaseAux == Total(linhas)
      invariant forall j :: 0 <= j < i ==>
                  && linhas[j].nrCopies == input[j].nrCopies && linhas[j].compression == input[j].compression
                  && linhas[j].nrBlocks == Share(blocksToGenerate, input[j])
      invariant zeroCopiesBlocks == LastZero(linhas)
    {
      var nrBlocks := Share(blocksToGenerate, input[i]);
      var newLine := Line(input[i].nrCopies, nrBlocks, nrBaseAux, input[i].compression);
      nrBaseAux := nrBaseAux + nrBlocks;
      if newLine.nrCopies == 0 {
        zeroCopiesBlocks := nrBlocks;
      }
      total := total + nrBlocks;
      NextZero(linhas, newLine);
      linhas := linhas + [newLine];
      i := i + 1;
    }
    if ZeroLineFirst(linhas) {
      OnlyZero(linhas);
    }
    hide IsShare; hide IsLastZero;
    forall k | 0 <= k < |linhas| && IsLastZero(linhas, k) ensures zeroCopiesBlocks == linhas[k].nrBlocks {
      LastZeroIs(linhas, k);
    }
    forall j | 0 <= j < |input|
      ensures IsShare(blocksToGenerate, input[j].percent, input[j].nrCopies, linhas[j].nrBlocks)
    {
      ShareIsShare(blocksToGenerate, input[j]);
    }
  }

  // ----- from a block id to its line -----

  predicate InLine(l: Line, id: int) {
    l.nrBase + 1 <= id <= l.nrBase + l.nrBlocks
  }

  /** The number of the first line from i on that holds the id; |lines| if there is none. */
  function LineFrom(lines: seq<Line>, id: int, i: nat): (k: nat)
    requires i <= |lines|
    ensures i <= k <= |lines|
    ensures k < |lines| ==> InLine(lines[k], id)
    ensures forall j :: i <= j < k ==> !InLine(lines[j], id)
    decreases |lines| - i
  {
    if i == |lines| then i else if InLine(lines[i], id) then i else LineFrom(lines, id, i + 1)
  }

  function LineOf(lines: seq<Line>, id: int): nat {
    LineFrom(lines, id, 0)
  }

  lemma {:induction false} BaseGrows(lines: seq<Line>, i: nat, j: nat)
    requires Chained(lines) && i < j < |lines|
    ensures lines[i].nrBase + lines[i].nrBlocks <= lines[j].nrBase
    decreases j
  {
    if i >= j - 1 {
    } else {
      BaseGrows(lines, i, j - 1);
    }
  }

  /** The lines partition 1 .. Total: an id is in exactly one line, or in none if it is out of range. */
  lemma LinesPartition(lines: seq<Line>, id: int)
    requires Chained(lines)
    ensures LineOf(lines, id) < |lines| <==> 1 <= id <= Total(lines)
    ensures forall i :: 0 <= i < |lines| && InLine(lines[i], id) ==> i == LineOf(lines, id)
  {
    var k := LineOf(lines, id);
    forall i | 0 <= i < |lines| && InLine(lines[i], id) ensures i == k {
      if k < i {
        BaseGrows(lines, k, i);
      }
    }
    if k < |lines| && k < |lines| - 1 {
      BaseGrows(lines, k, |lines| - 1);
    }
    if k == |lines| && 1 <= id <= Total(lines) {
      NoGap(lines, id, |lines| - 1);
    }
  }

  lemma {:induction false} NoGap(lines: seq<Line>, id: int, i: nat)
    requires Chained(lines) && i < |lines| && 1 <= id <= lines[i].nrBase + lines[i].nrBlocks
    ensures exists j :: 0 <= j < |lines| && InLine(lines[j], id)
    decreases i
  {
    if !InLine(lines[i], id) {
      NoGap(lines, id, i - 1);
    }
  }

  /** Block r of line k is the block with id base + r, and no other line claims that id. */
  lemma LineOfBlock(lines: seq<Line>, k: nat, r: nat)
    requires Chained(lines) && k < |lines| && 1 <= r <= lines[k].nrBlocks
    ensures LineOf(lines, lines[k].nrBase + r) == k
    ensures lines[k].nrBase + r <= Total(lines)
  {
    LinesPartition(lines, lines[k].nrBase + r);
    assert InLine(lines[k], lines[k].nrBase + r);
  }

  // ----- compression -----

  function Cumulated(c: seq<real>, i: nat): real
    requires i <= |c|
  {
    if i == 0 then 0.0 else Cumulated(c, i - 1) + c[i - 1]
  }

  function Percent(l: Line, r: int): real
    requires l.nrBlocks >= 1
  {
    r as real / l.nrBlocks as real * 100.0
  }

  predicate Covers(l: Line, r: int, i: nat)
    requires l.nrBlocks >= 1 && i < |l.compression|
  {
    Percent(l, r) <= Cumulated(l.compression, i + 1)
  }

  /** The first of the ten classes from i on whose cumulated share covers block r; 9 if none does. */
  function ClassFrom(l: Line, r: int, i: nat): (k: nat)
    requires l.nrBlocks >= 1 && |l.compression| >= 10 && i < 10
    ensures i <= k < 10
    ensures forall j :: i <= j < k ==> !Covers(l, r, j)
    ensures k < 9 ==> Covers(l, r, k)
    decreases 10 - i
  {
    if Covers(l, r, i) then i else if i == 9 then 9 else ClassFrom(l, r, i + 1)
  }

  /** giveMyCompression. */
  method GiveMyCompression(l: Line, r: int) returns (k: nat)
    requires l.nrBlocks >= 1 && |l.compression| >= 10
    ensures k == ClassFrom(l, r, 0)
  {
    var myPercent := r as real / l.nrBlocks as real * 100.0;
    var aux := 0.0;
    for i := 0 to 10
      invariant aux == Cumulated(l.compression, i)
      invariant i < 10 ==> ClassFrom(l, r, 0) == ClassFrom(l, r, i)
      invariant i == 10 ==> ClassFrom(l, r, 0) == 9
    {
      aux := aux + l.compression[i];
      if myPercent <= aux {
        return i;
      }
    }
    return 9;
  }

  /** The compression class of a block, as a function of its id alone. */
  function ClassOf(lines: seq<Line>, id: int): (k: nat)
    requires Chained(lines) && 1 <= id <= Total(lines)
    ensures k < 10
  {
    LinesPartition(lines, id);
    var l := lines[LineOf(lines, id)];
    ClassFrom(l, id - l.nrBase, 0)
  }

  /** get_block_compression_by_id: ten times the class of the block, or -1 for an id of no line. */
  method GetBlockCompressionById(lines: seq<Line>, id: int) returns (c: int)
    requires Chained(lines)
    ensures c == if 1 <= id <= Total(lines) then 10 * ClassOf(lines, id) else -1
  {
    LinesPartition(lines, id);
    for i := 0 to |lines|
      invariant LineOf(lines, id) == LineFrom(lines, id, i)
    {
      var minIdLine := lines[i].nrBase + 1;
      var maxIdLine := lines[i].nrBase + lines[i].nrBlocks;
      var idLine := id - lines[i].nrBase;
      if id >= minIdLine && id <= maxIdLine {
        var x := GiveMyCompression(lines[i], idLine);
        return x * 10;
      }
    }
    return -1;
  }

  /** The class found from the id agrees with the class the generator computed from the line and the
    * position of the block in it. */
  lemma ClassOfBlock(lines: seq<Line>, k: nat, r: nat)
    requires Chained(lines) && k < |lines| && 1 <= r <= lines[k].nrBlocks
    ensures lines[k].nrBase + r <= Total(lines)
    ensures ClassOf(lines, lines[k].nrBase + r) == ClassFrom(lines[k], r, 0)
  {
    LineOfBlock(lines, k, r);
  }

  // ----- the line without copies -----

  /** The line of blocks without copies, if any, is unique and comes first. */
  predicate ZeroLineFirst(lines: seq<Line>) {
    forall i :: 0 < i < |lines| ==> lines[i].nrCopies != 0
  }

  function ZeroFrom(lines: seq<Line>, i: nat): nat
    requires i <= |lines|
    decreases |lines| - i
  {
    if i == |lines| then 0 else if lines[i].nrCopies == 0 then lines[i].nrBlocks else ZeroFrom(lines, i + 1)
  }

  /** generate_data draws a random content id for the ids below this number: the block count of the
    * first line without copies. */
  function ZeroLimit(lines: seq<Line>): nat {
    ZeroFrom(lines, 0)
  }

  /** If only the first line can be without copies, the first such line is the last one. */
  lemma {:induction false} OnlyZero(lines: seq<Line>)
    requires ZeroLineFirst(lines)
    ensures LastZero(lines) == ZeroLimit(lines)
    decreases |lines|
  {
    if |lines| > 1 {
      var most := lines[..|lines| - 1];
      OnlyZero(most);
      if lines[0].nrCopies != 0 {
        NoZeroLine(lines, 0);
        NoZeroLine(most, 0);
      }
    } else {
      NoLines();
      assert lines[..0] == [] && ZeroFrom(lines, |lines|) == 0;
      assert LastZero(lines) == if |lines| == 1 && lines[0].nrCopies == 0 then lines[0].nrBlocks else 0;
    }
  }

  lemma {:induction false} NoZeroLine(lines: seq<Line>, i: nat)
    requires i <= |lines| && forall j :: i <= j < |lines| ==> lines[j].nrCopies != 0
    ensures ZeroFrom(lines, i) == 0
    decreases |lines| - i
  {
    if i >= |lines| {
    } else {
      NoZeroLine(lines, i + 1);
    }
  }

  /** The blocks that get a random content id lie in the line without copies; every other block of
    * that line is the one with the highest id. */
  lemma ZeroLineIds(lines: seq<Line>, id: nat)
    requires Chained(lines) && ZeroLineFirst(lines) && 1 <= id <= Total(lines)
    ensures ZeroLimit(lines) <= Total(lines)
    ensures LineOf(lines, id) < |lines|
    ensures lines[LineOf(lines, id)].nrCopies == 0 <==> id <= ZeroLimit(lines)
  {
    LinesPartition(lines, id);
    assert |lines| > 0;
    if lines[0].nrCopies == 0 {
      if |lines| > 1 {
        BaseGrows(lines, 0, |lines| - 1);
      }
      if LineOf(lines, id) > 0 {
        BaseGrows(lines, 0, LineOf(lines, id));
      }
    } else {
      NoZeroLine(lines, 0);
    }
  }
}
