/** print_elements_print: the histogram gathered into slots, its tail merged, and the rows printed. */
module Buckets {
  import opened Basics
  import opened Tallies
  import opened Slots

  // ----- sums over the slot array -----

  /** s[i] + ... + s[j - 1]. */
  function Between(s: seq<nat>, i: nat, j: nat): nat
    requires j <= |s|
    decreases j - i
  {
    if i >= j then 0 else s[i] + Between(s, i + 1, j)
  }

  lemma {:induction false} BetweenSame(s: seq<nat>, t: seq<nat>, i: nat, j: nat)
    requires j <= |s| == |t| && forall k :: i <= k < j ==> s[k] == t[k]
    ensures Between(s, i, j) == Between(t, i, j)
    decreases j - i
  {
    if i >= j {
    } else {
      BetweenSame(s, t, i + 1, j);
    }
  }

  lemma {:induction false} BetweenAdd(s: seq<nat>, i: nat, j: nat, p: nat, more: nat)
    requires i <= p < j <= |s|
    ensures Between(s[p := s[p] + more], i, j) == Between(s, i, j) + more
    decreases j - i
  {
    if i < p {
      BetweenAdd(s, i + 1, j, p, more);
    } else {
      BetweenSame(s, s[p := s[p] + more], i + 1, j);
    }
  }

  lemma {:induction false} BetweenSplit(s: seq<nat>, i: nat, m: nat, j: nat)
    requires i <= m <= j <= |s|
    ensures Between(s, i, j) == Between(s, i, m) + Between(s, m, j)
    decreases m - i
  {
    if i >= m {
    } else {
      BetweenSplit(s, i + 1, m, j);
    }
  }

  lemma {:induction false} BetweenZero(s: seq<nat>, i: nat, j: nat)
    requires j <= |s| && forall k :: i <= k < j ==> s[k] == 0
    ensures Between(s, i, j) == 0
    decreases j - i
  {
    if i >= j {
    } else {
      BetweenZero(s, i + 1, j);
    }
  }

  // ----- gathering -----

  ghost function Counts(): (nat, nat) -> nat {
    (k, c) => c
  }

  /** What counts for a slot. */
  ghost function Share(slot: nat): (nat, nat) -> nat {
    (k, c) => if PlaceOf(k) == slot then c else 0
  }

  /** The whole array holds the total of all keys, and slot 0 that of the key 0. */
  ghost predicate Complete(s: seq<nat>, db: map<nat, nat>) {
    |s| == DUPS_LEN && Between(s, 0, |s|) == Sum(db, Counts()) && s[0] == Get(db, 0)
  }

  /** Every slot holds the total of the keys that go to it. */
  ghost predicate Gathered(s: seq<nat>, db: map<nat, nat>) {
    |s| == DUPS_LEN && forall p :: 0 <= p < |s| ==> SlotHolds(s, db, p)
  }

  ghost predicate SlotHolds(s: seq<nat>, db: map<nat, nat>, p: nat)
    requires p < |s|
  {
    s[p] == Sum(db, Share(p))
  }

  lemma CompleteOne(s: seq<nat>, db: map<nat, nat>, key: nat, cont: nat, pos: nat)
    requires Complete(s, db) && key !in db && pos < |s| && (pos == 0 <==> key == 0)
    ensures Complete(s[pos := s[pos] + cont], db[key := cont])
  {
    hide Sum;
    SumPut(db, Counts(), key, cont);
    assert db - {key} == db;
    BetweenAdd(s, 0, |s|, pos, cont);
  }

  lemma GatherOne(s: seq<nat>, db: map<nat, nat>, key: nat, cont: nat)
    requires Gathered(s, db) && key !in db && PlaceOf(key) < |s|
    ensures Gathered(s[PlaceOf(key) := s[PlaceOf(key)] + cont], db[key := cont])
  {
    hide Sum; hide PlaceOf;
    var s', db' := s[PlaceOf(key) := s[PlaceOf(key)] + cont], db[key := cont];
    forall p | 0 <= p < |s| ensures SlotHolds(s', db', p) {
      assert SlotHolds(s, db, p);
      SumPut(db, Share(p), key, cont);
    }
  }

  lemma GatherNothing(s: seq<nat>)
    requires |s| == DUPS_LEN && forall p :: 0 <= p < |s| ==> s[p] == 0
    ensures Gathered(s, map[]) && Complete(s, map[])
  {
    BetweenZero(s, 0, |s|);
  }

  /** The cursor loop. */
  method Gather(db: map<nat, nat>, cursor: seq<nat>) returns (dups: array<nat>, max: nat)
    requires Visits(cursor, db) && forall k <- db :: k < TWO_64
    ensures fresh(dups) && dups.Length == DUPS_LEN && Complete(dups[..], db) && Gathered(dups[..], db)
    ensures max < dups.Length && forall p :: max < p < dups.Length ==> dups[p] == 0
    ensures NineDigitKeys(db) ==> max <= 18
  {
    hide Gathered; hide Complete; hide Restricted; hide Visits; hide PlaceOf; hide InLabel;
    dups := new nat[DUPS_LEN](i => 0);
    max := 0;
    var i := 0;
    GatherNothing(dups[..]);
    RestrictedNothing(db);
    ZeroPlace();
    while i < |cursor|
      invariant 0 <= i <= |cursor| && dups.Length == DUPS_LEN && fresh(dups)
      invariant Complete(dups[..], Restricted(db, cursor[..i]))
      invariant Gathered(dups[..], Restricted(db, cursor[..i]))
      invariant max < dups.Length && forall p :: max < p < dups.Length ==> dups[p] == 0
      invariant NineDigitKeys(db) ==> max <= 18
    {
      VisitNext(db, cursor, i);
      var key, cont := cursor[i], db[cursor[i]];
      ghost var s, seen := dups[..], Restricted(db, cursor[..i]);
      ghost var at := 0;
      if key == 0 {
        ZeroOnce(s, seen);
        dups[0] := cont;
      } else {
        var pos := Place(key);
        NineDigitPlace(key);
        max := if pos > max then pos else max;
        dups[pos] := dups[pos] + cont;
        at := pos;
      }
      assert dups[..] == s[at := s[at] + cont];
      CompleteOne(s, seen, key, cont, at);
      assert |s| == DUPS_LEN && at == PlaceOf(key);
      GatherOne(s, seen, key, cont);
      i := i + 1;
    }
    assert cursor[..i] == cursor;
    VisitedAll(db, cursor);
  }

  lemma NineDigitPlace(key: nat)
    requires key > 0
    ensures key < 1_000_000_000 ==> PlaceOf(key) <= 18
  {
    if key < 1_000_000_000 {
      NineDigits(key);
    }
  }

  lemma RestrictedNothing(db: map<nat, nat>)
    ensures Restricted(db, []) == map[]
  {}

  /** Slot 0 is still empty when the key 0 comes, so assigning to it is adding to it. */
  lemma ZeroOnce(s: seq<nat>, db: map<nat, nat>)
    requires Complete(s, db) && 0 !in db
    ensures |s| == DUPS_LEN && s[0] == 0
  {}

  lemma ZeroPlace()
    ensures PlaceOf(0) == 0
  {}

  // ----- what a gathered slot means -----

  /** All keys have at most nine digits. */
  predicate NineDigitKeys(db: map<nat, nat>) {
    forall k <- db :: k < 1_000_000_000
  }

  ghost function IntervalShare(slot: nat): (nat, nat) -> nat {
    (k, c) => if InSlot(k, slot) then c else 0
  }

  ghost function LabelShare(slot: nat): (nat, nat) -> nat {
    (k, c) => if InLabel(k, slot) then c else 0
  }

  /** If every positive key stands in its decimal interval, which PlaceInInterval decides key by key, a slot
    * holds the total of its interval. */
  lemma SlotIsInterval(s: seq<nat>, db: map<nat, nat>, p: nat)
    requires Gathered(s, db) && 0 < p < |s|
    requires forall k <- db :: k > 0 ==> InSlot(k, PlaceOf(k))
    ensures s[p] == Sum(db, IntervalShare(p))
  {
    hide Sum; hide PlaceOf; hide InSlot;
    assert SlotHolds(s, db, p);
    forall k | k in db ensures Share(p)(k, db[k]) == IntervalShare(p)(k, db[k]) {
      OnePlace(k, p);
    }
    SumSame(db, Share(p), IntervalShare(p));
  }

  lemma OnePlace(k: nat, p: nat)
    requires p > 0 && (k > 0 ==> InSlot(k, PlaceOf(k)))
    ensures InSlot(k, p) <==> PlaceOf(k) == p
  {
    hide Low; hide High; hide Digits;
    if k == 0 {
      LowPositive(p);
    } else if InSlot(k, p) {
      SlotUnique(k, p, PlaceOf(k));
    }
  }

  lemma LowPositive(p: nat)
    requires p > 0
    ensures Low(p) > 0
  {
    PowPositive((p + 1) / 2 - 1);
  }

  /** With keys of at most nine digits, every slot up to 18 holds the total of its printed label. */
  lemma SlotIsLabel(s: seq<nat>, db: map<nat, nat>, p: nat)
    requires Gathered(s, db) && 0 < p <= 18 && NineDigitKeys(db)
    ensures s[p] == Sum(db, LabelShare(p))
  {
    hide Sum; hide PlaceOf; hide InSlot; hide InLabel; hide SlotHolds;
    forall k | k in db && k > 0 ensures InSlot(k, PlaceOf(k)) {
      PlaceInInterval(k);
    }
    SlotIsInterval(s, db, p);
    forall k | k in db ensures IntervalShare(p)(k, db[k]) == LabelShare(p)(k, db[k]) {
      SlotAndLabel(k, p);
    }
    SumSame(db, IntervalShare(p), LabelShare(p));
  }

  lemma SlotAndLabel(k: nat, p: nat)
    requires 0 < p <= 18
    ensures InSlot(k, p) <==> InLabel(k, p)
  {
    hide Low; hide High; hide LabelLow; hide LabelHigh;
    LabelIsInterval(p);
  }

  // ----- merging the tail -----

  const THRESHOLD := 300

  /** The state in which the loop stops in bounds: slot i holds everything from i on, which is more than the
    * threshold while no shorter tail is; the slots above are empty, those below as they were. */
  ghost predicate TailMerged(before: seq<nat>, after: seq<nat>, max: nat, i: nat) {
    && i <= max < |before| == |after|
    && after[i] == Between(before, i, max + 1) > THRESHOLD
    && (forall j :: i < j <= max ==> Cleared(before, after, max, j))
    && (forall j :: 0 <= j < i || max < j < |before| ==> after[j] == before[j])
  }

  ghost predicate Cleared(before: seq<nat>, after: seq<nat>, max: nat, j: nat)
    requires j <= max < |before| == |after|
  {
    after[j] == 0 && Between(before, j, max + 1) <= THRESHOLD
  }

  /** The tail loop. With a total of at most the threshold it reaches slot 0 and adds to dups[-1]; this is
    * reported as inBounds == false, the state then being that of the stray access. */
  method MergeTail(dups: array<nat>, max: nat) returns (inBounds: bool, i: nat)
    requires max < dups.Length
    modifies dups
    ensures inBounds <==> Between(old(dups[..]), 0, max + 1) > THRESHOLD
    ensures inBounds ==> TailMerged(old(dups[..]), dups[..], max, i)
  {
    ghost var s := dups[..];
    i := max;
    assert Between(s, max, max + 1) == s[max] + Between(s, max + 1, max + 1);
    while dups[i] <= THRESHOLD
      invariant 0 <= i <= max
      invariant dups[i] == Between(s, i, max + 1)
      invariant forall j :: i < j <= max ==> Cleared(s, dups[..], max, j)
      invariant forall j :: 0 <= j < i || max < j < dups.Length ==> dups[j] == s[j]
      decreases i
    {
      if i == 0 {
        return false, 0;
      }
      assert Between(s, i - 1, max + 1) == s[i - 1] + Between(s, i, max + 1);
      ghost var cleared := dups[..];
      dups[i - 1] := dups[i - 1] + dups[i];
      dups[i] := 0;
      forall j | i - 1 < j <= max ensures Cleared(s, dups[..], max, j) {
        assert j > i ==> Cleared(s, cleared, max, j);
      }
      i := i - 1;
    }
    BetweenSplit(s, 0, i, max + 1);
    inBounds := true;
    assert TailMerged(s, dups[..], max, i);
  }

  /** Merging moves counts and loses none. */
  lemma TailMergePreserves(before: seq<nat>, after: seq<nat>, max: nat, i: nat)
    requires TailMerged(before, after, max, i)
    ensures Between(after, 0, |after|) == Between(before, 0, |before|)
  {
    BetweenSplit(before, 0, i, |before|);
    BetweenSplit(before, i, max + 1, |before|);
    BetweenSplit(after, 0, i, |after|);
    BetweenSplit(after, i, max + 1, |after|);
    BetweenSame(before, after, 0, i);
    BetweenSame(before, after, max + 1, |after|);
    forall j | i + 1 <= j < max + 1 ensures after[j] == 0 {
      assert Cleared(before, after, max, j);
    }
    BetweenZero(after, i + 1, max + 1);
  }

  // ----- printing -----

  ghost predicate EmptyAbove(s: seq<nat>, max: nat) {
    forall p :: max < p < |s| ==> s[p] == 0
  }

  /** A printed line "[low,high[ count". */
  datatype Row = Row(low: int, high: int, count: nat)

  /** What should be printed: the nonzero slots from i on, each under its own label. */
  function RowsFrom(s: seq<nat>, i: nat): seq<Row>
    requires i > 0
    decreases |s| - i
  {
    if i >= |s| then [] else (if s[i] != 0 then [Row(LabelLow(i), LabelHigh(i), s[i])] else []) + RowsFrom(s, i + 1)
  }

  function RowSum(rows: seq<Row>): nat {
    if rows == [] then 0 else rows[0].count + RowSum(rows[1..])
  }

  lemma {:induction false} RowsCarry(s: seq<nat>, i: nat)
    requires 0 < i <= |s|
    ensures RowSum(RowsFrom(s, i)) == Between(s, i, |s|)
    decreases |s| - i
  {
    if i >= |s| {
    } else {
      RowsCarry(s, i + 1);
      var rest := RowsFrom(s, i + 1);
      var row := Row(LabelLow(i), LabelHigh(i), s[i]);
      hide LabelLow; hide LabelHigh;
      assert ([row] + rest)[1..] == rest;
      assert [] + rest == rest;
    }
  }

  lemma LabelEnds(b: nat)
    requires b > 0
    ensures LabelLow(2 * b - 1) == Wrap(Pow(10, b - 1)) && LabelHigh(2 * b - 1) == Wrap(Pow(10, b)) / 2
    ensures LabelLow(2 * b) == Wrap(Pow(10, b)) / 2 && LabelHigh(2 * b) == Wrap(Wrap(Pow(10, b - 1)) * 10)
  {
    hide Pow; hide Wrap;
    FinalNext(b - 1);
  }

  /** The printing loop, two slots a round, with its two ints for the labels. */
  method PrintRows(dups: array<nat>) returns (rows: seq<Row>)
    requires dups.Length == DUPS_LEN
    ensures rows == RowsFrom(dups[..], 1)
  {
    hide Wrap; hide Pow; hide LabelLow; hide LabelHigh; hide RowsFrom;
    ghost var s := dups[..];
    var init, final := 1, 10;
    ghost var b := 1;
    rows := [];
    var i := 1;
    Labels();
    while i < dups.Length
      invariant i == 2 * b - 1 && i <= dups.Length + 1
      invariant init == Wrap(Pow(10, b - 1)) && final == Wrap(Pow(10, b))
      invariant rows + RowsFrom(s, i) == RowsFrom(s, 1)
    {
      LabelEnds(b);
      RowsStep(s, i, rows);
      if dups[i] != 0 {
        rows := rows + [Row(init, final / 2, dups[i])];
      }
      i := i + 1;
      RowsStep(s, i, rows);
      if i < dups.Length && dups[i] != 0 {
        rows := rows + [Row(final / 2, Wrap(init * 10), dups[i])];
      }
      i := i + 1;
      RowsStep(s, i, rows);
      FinalNext(b);
      init := final;
      final := Wrap(final * 10);
      b := b + 1;
    }
    RowsStep(s, i, rows);
  }

  lemma Labels()
    ensures Wrap(Pow(10, 0)) == 1 && Wrap(Pow(10, 1)) == 10
  {}

  lemma RowsStep(s: seq<nat>, i: nat, rows: seq<Row>)
    requires i > 0
    ensures i >= |s| ==> rows + RowsFrom(s, i) == rows
    ensures i < |s| && s[i] == 0 ==> rows + RowsFrom(s, i) == rows + RowsFrom(s, i + 1)
    ensures i < |s| && s[i] != 0 ==>
        rows + RowsFrom(s, i) == rows + [Row(LabelLow(i), LabelHigh(i), s[i])] + RowsFrom(s, i + 1)
  {
    hide LabelLow; hide LabelHigh;
    if i < |s| && s[i] != 0 {
      var row := Row(LabelLow(i), LabelHigh(i), s[i]);
      assert rows + ([row] + RowsFrom(s, i + 1)) == rows + [row] + RowsFrom(s, i + 1);
    }
  }

  // ----- the whole report -----

  lemma AllBelow(s: seq<nat>, i: nat, max: nat)
    requires i <= max + 1 <= |s| && EmptyAbove(s, max)
    ensures Between(s, i, |s|) == Between(s, i, max + 1)
  {
    BetweenSplit(s, i, max + 1, |s|);
    BetweenZero(s, max + 1, |s|);
  }

  /** The counts of the positive keys. */
  ghost function PositiveTotal(db: map<nat, nat>): int {
    Sum(db, Counts()) - Get(db, 0)
  }

  lemma PositiveSlots(db: map<nat, nat>, before: seq<nat>, max: nat)
    requires Complete(before, db) && EmptyAbove(before, max) && max < |before|
    ensures Between(before, 1, max + 1) == PositiveTotal(db)
  {
    hide Sum;
    assert Between(before, 0, |before|) == before[0] + Between(before, 1, |before|);
    AllBelow(before, 1, max);
  }

  lemma SlotsAfterMerge(before: seq<nat>, after: seq<nat>, max: nat, stop: nat)
    requires TailMerged(before, after, max, stop) && EmptyAbove(before, max)
    ensures Between(after, 1, |after|) == if stop == 0 then 0 else Between(before, 1, max + 1)
  {
    if stop == 0 {
      forall j | 1 <= j < |after| ensures after[j] == 0 {
        assert j <= max ==> Cleared(before, after, max, j);
      }
      BetweenZero(after, 1, |after|);
    } else {
      TailMergePreserves(before, after, max, stop);
      assert Between(after, 0, |after|) == after[0] + Between(after, 1, |after|);
      assert Between(before, 0, |before|) == before[0] + Between(before, 1, |before|);
      AllBelow(before, 1, max);
    }
  }

  lemma WhereItStops(before: seq<nat>, after: seq<nat>, max: nat, stop: nat)
    requires TailMerged(before, after, max, stop)
    ensures stop > 0 <==> Between(before, 1, max + 1) > THRESHOLD
  {
    if stop > 0 {
      BetweenSplit(before, 1, stop, max + 1);
    } else if max > 0 {
      assert Cleared(before, after, max, 1);
    }
  }

  /** What the printed rows account for: all positive keys if together they count more than the threshold.
    * Otherwise their counts end in slot 0, which no row prints. */
  lemma RowsAccount(db: map<nat, nat>, before: seq<nat>, after: seq<nat>, max: nat, stop: nat)
    requires Complete(before, db) && EmptyAbove(before, max) && TailMerged(before, after, max, stop)
    ensures RowSum(RowsFrom(after, 1)) == if PositiveTotal(db) > THRESHOLD then PositiveTotal(db) else 0
    ensures RowSum(RowsFrom(after, 1)) == PositiveTotal(db) <==> PositiveTotal(db) == 0 || PositiveTotal(db) > THRESHOLD
  {
    RowsCarry(after, 1);
    PositiveSlots(db, before, max);
    SlotsAfterMerge(before, after, max, stop);
    WhereItStops(before, after, max, stop);
    hide Between; hide Complete; hide PositiveTotal; hide RowsFrom; hide RowSum;
  }

  /** print_elements_print: the loop that merges the tail stays in bounds exactly when more than 300 blocks
    * are counted. Then the rows are the slots of the gathered histogram with its tail merged. */
  method PrintElements(db: map<nat, nat>, cursor: seq<nat>)
    returns (inBounds: bool, rows: seq<Row>, ghost before: seq<nat>, ghost after: seq<nat>, ghost max: nat,
             ghost stop: nat)
    requires Visits(cursor, db) && forall k <- db :: k < TWO_64
    ensures inBounds <==> Sum(db, Counts()) > 300
    ensures Complete(before, db) && Gathered(before, db) && EmptyAbove(before, max)
    ensures NineDigitKeys(db) ==> max <= 18
    ensures inBounds ==> TailMerged(before, after, max, stop) && rows == RowsFrom(after, 1)
    ensures inBounds ==> RowSum(rows) == if PositiveTotal(db) > THRESHOLD then PositiveTotal(db) else 0
  {
    hide Sum; hide RowsFrom; hide Visits; hide PositiveTotal; hide PlaceOf;
    var dups, top := Gather(db, cursor);
    before, max := dups[..], top;
    AllBelow(before, 0, max);
    var i;
    inBounds, i := MergeTail(dups, top);
    stop, after, rows := i, dups[..], [];
    if inBounds {
      rows := PrintRows(dups);
      RowsAccount(db, before, after, max, stop);
    }
  }
}
