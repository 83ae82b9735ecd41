/** The arithmetic of the bucketed histogram: powers and digit counts in C ints, and the slot of a key. */
module Slots {
  import opened Basics

  function Pow(base: int, power: nat): int {
    if power == 0 then 1 else base * Pow(base, power - 1)
  }

  // ----- 32-bit arithmetic -----

  /** The C int that a result wraps to. */
  function Wrap(x: int): (r: int)
    ensures -TWO_31 <= r < TWO_31
  {
    (x + TWO_31) % TWO_32 - TWO_31
  }

  lemma WrapKeeps(x: int)
    requires -TWO_31 <= x < TWO_31
    ensures Wrap(x) == x
  {}

  /** Multiples of 2^32 vanish. */
  lemma WrapAdds(x: int, k: int)
    ensures Wrap(x + TWO_32 * k) == Wrap(x)
  {
    assert (x + TWO_32 * k + TWO_31) % TWO_32 == (x + TWO_31) % TWO_32;
  }

  /** How many times 2^32 was dropped. */
  function Dropped(x: int): (k: int)
    ensures x == Wrap(x) + TWO_32 * k
  {
    (x + TWO_31) / TWO_32
  }

  /** Wrapping early does not change a wrapped product. */
  lemma WrapMul(x: int, y: int)
    ensures Wrap(Wrap(x) * Wrap(y)) == Wrap(x * y)
  {
    var u, v, k, l := Wrap(x), Wrap(y), Dropped(x), Dropped(y);
    var m := u * l + k * v + TWO_32 * k * l;
    Distribute(u, v, k, l);
    assert x * y == (u + TWO_32 * k) * (v + TWO_32 * l);
    hide Wrap;
    assert x * y == u * v + TWO_32 * m;
    WrapAdds(u * v, m);
  }

  lemma Distribute(u: int, v: int, k: int, l: int)
    ensures (u + TWO_32 * k) * (v + TWO_32 * l) == u * v + TWO_32 * (u * l + k * v + TWO_32 * k * l)
  {}

  lemma {:induction false} PowSquare(base: int, power: nat)
    ensures Pow(base * base, power) == Pow(base, 2 * power)
  {
    if power == 0 {
    } else {
      PowSquare(base, power - 1);
      var rest := Pow(base, 2 * power - 2);
      assert Pow(base, 2 * power) == base * (base * rest) == (base * base) * rest;
    }
  }

  /** powr: squaring and multiplying in ints gives the wrapped true power. */
  method Powr(base0: int, power0: nat) returns (result: int)
    requires -TWO_31 <= base0 < TWO_31
    ensures result == Wrap(Pow(base0, power0))
  {
    hide Wrap;
    var base, power := base0, power0;
    ghost var exactBase, exact := base0, 1;
    result := 1;
    WrapKeeps(1);
    WrapKeeps(base0);
    while power != 0
      invariant base == Wrap(exactBase) && result == Wrap(exact)
      invariant exact * Pow(exactBase, power) == Pow(base0, power0)
      decreases power
    {
      PowSquare(exactBase, power / 2);
      WrapMul(exact, exactBase);
      WrapMul(exactBase, exactBase);
      OddStep(exact, exactBase, power / 2);
      assert power == 2 * (power / 2) + power % 2;
      if power % 2 == 1 {
        result := Wrap(result * base);
        exact := exact * exactBase;
      }
      power := power / 2;
      base := Wrap(base * base);
      exactBase := exactBase * exactBase;
    }
  }

  lemma OddStep(exact: int, base: int, half: nat)
    ensures exact * Pow(base, 2 * half + 1) == exact * base * Pow(base, 2 * half)
  {
    Associate(exact, base, Pow(base, 2 * half));
  }

  lemma Associate(x: int, y: int, z: int)
    ensures x * (y * z) == x * y * z
  {}

  // ----- decimal digits -----

  function Digits(key: nat): nat {
    if key == 0 then 0 else 1 + Digits(key / 10)
  }

  /** Digits is the length of the decimal numeral. */
  lemma {:induction false} DigitsBracket(key: nat)
    requires key > 0
    ensures Digits(key) > 0 && Pow(10, Digits(key) - 1) <= key < Pow(10, Digits(key))
    decreases key
  {
    if key < 10 {
      assert Digits(key / 10) == 0 && Pow(10, 0) == 1 && Pow(10, 1) == 10;
    } else {
      DigitsBracket(key / 10);
      var d := Digits(key / 10);
      assert Pow(10, d + 1) == 10 * Pow(10, d) && Pow(10, d) == 10 * Pow(10, d - 1);
    }
  }

  lemma {:induction false} DigitsAtMost(key: nat, d: nat)
    requires key < Pow(10, d)
    ensures Digits(key) <= d
    decreases d
  {
    if key > 0 && d > 0 {
      DigitsAtMost(key / 10, d - 1);
    }
  }

  /** find_bucket. */
  method FindBucket(key0: nat) returns (bucket: nat)
    ensures bucket == Digits(key0)
  {
    var key := key0;
    bucket := 0;
    while key != 0
      invariant bucket + Digits(key) == Digits(key0)
      decreases key
    {
      key := key / 10;
      bucket := bucket + 1;
    }
  }

  // ----- slots -----

  /** The decimal interval a slot is meant for: [10^(b-1), 10^b / 2[ for slot 2b-1, [10^b / 2, 10^b[ for 2b. */
  function Low(slot: nat): int
    requires slot > 0
  {
    var b := (slot + 1) / 2;
    if slot % 2 == 1 then Pow(10, b - 1) else Pow(10, b) / 2
  }

  function High(slot: nat): int
    requires slot > 0
  {
    var b := (slot + 1) / 2;
    if slot % 2 == 1 then Pow(10, b) / 2 else Pow(10, b)
  }

  predicate InSlot(key: nat, slot: nat) {
    slot > 0 && Low(slot) <= key < High(slot)
  }

  /** The slots follow each other without a gap. */
  lemma SlotsJoin(slot: nat)
    requires slot > 0
    ensures High(slot) == Low(slot + 1) && Low(slot) < High(slot)
  {
    PowPositive((slot + 1) / 2 - 1);
    assert Pow(10, (slot + 1) / 2) == 10 * Pow(10, (slot + 1) / 2 - 1);
  }

  lemma {:induction false} PowPositive(n: nat)
    ensures Pow(10, n) > 0
  {
    if n == 0 {
    } else {
      PowPositive(n - 1);
    }
  }

  lemma {:induction false} LowGrows(p: nat, q: nat)
    requires 0 < p < q
    ensures High(p) <= Low(q)
    decreases q
  {
    SlotsJoin(p);
    if p + 1 < q {
      hide Low; hide High;
      LowGrows(p, q - 1);
      SlotsJoin(q - 1);
    } else {
      assert q == p + 1;
    }
  }

  /** No key is in the decimal intervals of two slots. */
  lemma SlotUnique(key: nat, p: nat, q: nat)
    requires InSlot(key, p) && InSlot(key, q)
    ensures p == q
  {
    hide Low; hide High;
    if p < q {
      LowGrows(p, q);
    } else if q < p {
      LowGrows(q, p);
    }
  }

  // ----- the labels that are printed -----

  /** The ends of the printed label of a slot, kept in ints: powers of ten wrapped to 32 bits. */
  function LabelLow(slot: nat): int
    requires slot > 0
  {
    var b := (slot + 1) / 2;
    if slot % 2 == 1 then Wrap(Pow(10, b - 1)) else Wrap(Pow(10, b)) / 2
  }

  function LabelHigh(slot: nat): (r: int)
    requires slot > 0
    ensures r < TWO_31
  {
    var b := (slot + 1) / 2;
    if slot % 2 == 1 then Wrap(Pow(10, b)) / 2 else Wrap(Pow(10, b))
  }

  predicate InLabel(key: nat, slot: nat) {
    slot > 0 && LabelLow(slot) <= key < LabelHigh(slot)
  }

  /** Up to slot 18 the label printed is the decimal interval. */
  lemma LabelIsInterval(slot: nat)
    requires 0 < slot <= 18
    ensures LabelLow(slot) == Low(slot) && LabelHigh(slot) == High(slot)
  {
    var b := (slot + 1) / 2;
    hide Pow; hide Wrap;
    TenPowers();
    PowGrows(b - 1, 9);
    PowGrows(b, 9);
    WrapKeeps(Pow(10, b));
    WrapKeeps(Pow(10, b - 1));
  }

  /** No key lies in the labels of two slots up to n. */
  ghost predicate LabelsDisjoint(n: nat) {
    forall key: nat, p: nat, q: nat | p <= n && q <= n && InLabel(key, p) && InLabel(key, q) :: p == q
  }

  lemma LateLabels()
    ensures LabelLow(19) == 1_000_000_000 && LabelHigh(19) == 705_032_704
    ensures LabelLow(20) == 705_032_704 && LabelHigh(20) == 1_410_065_408
    ensures LabelLow(18) == 500_000_000 && LabelHigh(18) == 1_000_000_000
    ensures LabelHigh(22) == 1_215_752_192
  {
    TenPowers();
    WrappedPowers();
    hide Pow; hide Wrap;
    WrapKeeps(1_000_000_000);
    assert (18 + 1) / 2 == 9 && (19 + 1) / 2 == 10 && (20 + 1) / 2 == 10 && (22 + 1) / 2 == 11;
  }

  lemma EarlyLabelUnique(key: nat, p: nat, q: nat)
    requires p < 20 && q < 20 && InLabel(key, p) && InLabel(key, q)
    ensures p == q
  {
    LateLabels();
    hide LabelLow; hide LabelHigh; hide Low; hide High;
    LabelIsInterval(p);
    LabelIsInterval(q);
    SlotUnique(key, p, q);
  }

  /** The labels of the slots up to n are disjoint if and only if slot 20 is not among them. */
  lemma LabelsDisjointIff(n: nat)
    ensures LabelsDisjoint(n) <==> n < 20
  {
    if n < 20 {
      hide InLabel;
      forall key: nat, p: nat, q: nat | p <= n && q <= n && InLabel(key, p) && InLabel(key, q) ensures p == q {
        EarlyLabelUnique(key, p, q);
      }
    } else {
      LateLabels();
      hide LabelLow; hide LabelHigh;
      assert InLabel(800_000_000, 18) && InLabel(800_000_000, 20);
    }
  }

  // ----- placing a key -----

  /** An int compared with an unsigned 64-bit number. */
  function AsUnsigned(x: int): int {
    if x < 0 then x + TWO_64 else x
  }

  /** An int halved: C rounds toward zero. */
  function Half(x: int): int {
    if x < 0 then -(-x / 2) else x / 2
  }

  const DUPS_LEN := 50

  lemma TenPowers()
    ensures Pow(10, 1) == 10 && Pow(10, 2) == 100 && Pow(10, 3) == 1000 && Pow(10, 4) == 10000
    ensures Pow(10, 5) == 100000 && Pow(10, 6) == 1000000 && Pow(10, 7) == 10000000
    ensures Pow(10, 8) == 100000000 && Pow(10, 9) == 1000000000 && Pow(10, 10) == 10000000000
  {
    assert Pow(10, 2) == 10 * Pow(10, 1) && Pow(10, 4) == 10 * Pow(10, 3) && Pow(10, 6) == 10 * Pow(10, 5);
    assert Pow(10, 8) == 10 * Pow(10, 7) && Pow(10, 10) == 10 * Pow(10, 9);
  }

  lemma MorePowers()
    ensures Pow(10, 11) == 100_000_000_000 && Pow(10, 12) == 1_000_000_000_000
    ensures Pow(10, 13) == 10_000_000_000_000 && Pow(10, 14) == 100_000_000_000_000
    ensures Pow(10, 15) == 1_000_000_000_000_000 && Pow(10, 16) == 10_000_000_000_000_000
    ensures Pow(10, 17) == 100_000_000_000_000_000 && Pow(10, 18) == 1_000_000_000_000_000_000
    ensures Pow(10, 19) == 10_000_000_000_000_000_000 && Pow(10, 20) == 100_000_000_000_000_000_000
    ensures Pow(10, 21) == 1_000_000_000_000_000_000_000
  {
    TenPowers();
    assert Pow(10, 12) == 10 * Pow(10, 11) && Pow(10, 11) == 10 * Pow(10, 10);
    assert Pow(10, 14) == 10 * Pow(10, 13) && Pow(10, 16) == 10 * Pow(10, 15);
    assert Pow(10, 18) == 10 * Pow(10, 17) && Pow(10, 20) == 10 * Pow(10, 19);
    assert Pow(10, 21) == 10 * Pow(10, 20);
  }

  lemma WrappedPowers()
    ensures Wrap(Pow(10, 10)) == 1_410_065_408 && Wrap(Pow(10, 11)) == 1_215_752_192
    ensures Wrap(Pow(10, 12)) == -727_379_968 && Wrap(Pow(10, 13)) == 1_316_134_912
    ensures Wrap(Pow(10, 14)) == 276_447_232 && Wrap(Pow(10, 15)) == -1_530_494_976
    ensures Wrap(Pow(10, 16)) == 1_874_919_424 && Wrap(Pow(10, 17)) == 1_569_325_056
    ensures Wrap(Pow(10, 18)) == -1_486_618_624 && Wrap(Pow(10, 19)) == -1_981_284_352
    ensures Wrap(Pow(10, 20)) == 1_661_992_960 && Wrap(Pow(10, 21)) == -559_939_584
  {
    TenPowers();
    MorePowers();
    hide Pow;
  }

  /** Where every 64-bit key goes: by its decimal interval up to nine digits, and from there on as the
    * wrapped powers have it. Slot 0 is for the key 0. */
  function PlaceOf(key: nat): nat {
    if key == 0 then 0
    else if key < 1_000_000_000 then
      if key < Pow(10, Digits(key)) / 2 then 2 * Digits(key) - 1 else 2 * Digits(key)
    else if key < 1_410_065_408 then 20
    else if key < 10_000_000_000 then 22
    else if key < 1_000_000_000_000 then 23
    else if key < 10_000_000_000_000 then 28
    else if key < 1_000_000_000_000_000 then 29
    else if key < 10_000_000_000_000_000 then 34
    else if key < 1_000_000_000_000_000_000 then 35
    else if key < 10_000_000_000_000_000_000 then 37
    else if key < 18_446_744_073_429_581_824 then 41
    else 42
  }

  /** The slot that print_elements_print chooses for a positive key. The array of 50 slots is long enough
    * for every 64-bit key, so it is never extended. */
  method Place(key: nat) returns (pos: nat)
    requires 0 < key < TWO_64
    ensures pos == PlaceOf(key) && 0 < pos < DUPS_LEN
    ensures InLabel(key, pos) <==> key < 1_410_065_408
  {
    hide Wrap; hide Pow; hide PlaceOf; hide InLabel; hide Digits;
    var bucket := FindBucket(key);
    var power := Powr(10, bucket);
    DigitsPositive(key);
    Choice(key);
    PlaceInLabel(key);
    FinalNext(bucket);
    if key >= AsUnsigned(power) {
      bucket := bucket + 1;
      power := Wrap(power * 10);
    }
    if key >= AsUnsigned(Half(power)) {
      pos := bucket * 2;
    } else {
      pos := bucket * 2 - 1;
    }
  }

  /** The two comparisons of print_elements_print, for a key with d digits. */
  function Chosen(key: nat, d: nat): int {
    var b := if key >= AsUnsigned(Wrap(Pow(10, d))) then d + 1 else d;
    if key >= AsUnsigned(Half(Wrap(Pow(10, b)))) then b * 2 else b * 2 - 1
  }

  lemma Choice(key: nat)
    requires 0 < key < TWO_64
    ensures Chosen(key, Digits(key)) == PlaceOf(key) && 0 < PlaceOf(key) < DUPS_LEN
  {
    if key < 1_000_000_000 {
      NineDigits(key);
    } else {
      var d := ManyDigits(key);
      LateChoice(key, d);
    }
  }

  /** The digit count of a key of more than nine digits. */
  lemma ManyDigits(key: nat) returns (d: nat)
    requires 1_000_000_000 <= key < TWO_64
    ensures 10 <= d <= 20 && d == Digits(key) && Pow(10, d - 1) <= key < Pow(10, d)
  {
    d := Digits(key);
    DigitsBracket(key);
    TenPowers();
    MorePowers();
    hide Pow; hide Digits;
    DigitsAtMost(key, 20);
    if d <= 9 {
      PowGrows(d, 9);
    }
  }

  lemma LateChoice(key: nat, d: nat)
    requires 1_000_000_000 <= key < TWO_64 && 10 <= d <= 20 && Pow(10, d - 1) <= key < Pow(10, d)
    ensures Chosen(key, d) == PlaceOf(key) && 0 < PlaceOf(key) < DUPS_LEN
  {
    TenPowers();
    MorePowers();
    WrappedPowers();
    hide Pow; hide Wrap;
    if d <= 15 {
      assert d == 10 || d == 11 || d == 12 || d == 13 || d == 14 || d == 15;
    } else {
      assert d == 16 || d == 17 || d == 18 || d == 19 || d == 20;
    }
  }

  lemma DigitsPositive(key: nat)
    requires key > 0
    ensures Digits(key) > 0
  {}

  /** 32-bit multiplication by ten steps from one wrapped power to the next. */
  lemma FinalNext(b: nat)
    ensures Wrap(Wrap(Pow(10, b)) * 10) == Wrap(Pow(10, b + 1))
  {
    hide Wrap;
    WrapKeeps(10);
    WrapMul(Pow(10, b), 10);
    assert Pow(10, b + 1) == 10 * Pow(10, b);
  }

  /** A key stands under a printed label that holds it if and only if it is below 10^10 mod 2^32. */
  lemma PlaceInLabel(key: nat)
    requires 0 < key < TWO_64
    ensures InLabel(key, PlaceOf(key)) <==> key < 1_410_065_408
  {
    if key < 1_000_000_000 {
      hide PlaceOf; hide Low; hide High; hide LabelLow; hide LabelHigh; hide Pow;
      PlaceInInterval(key);
      NineDigits(key);
      LabelIsInterval(PlaceOf(key));
    } else {
      LateLabels();
      hide LabelLow; hide LabelHigh;
    }
  }

  /** A key stands in its decimal interval if and only if it has at most nine digits or is in one of the
    * intervals that the wrapped powers hit by chance. */
  lemma PlaceInInterval(key: nat)
    requires 0 < key < TWO_64
    ensures InSlot(key, PlaceOf(key)) <==>
      || key < 1_000_000_000
      || 100_000_000_000 <= key < 500_000_000_000
      || 100_000_000_000_000 <= key < 500_000_000_000_000
      || 100_000_000_000_000_000 <= key < 500_000_000_000_000_000
      || 1_000_000_000_000_000_000 <= key < 5_000_000_000_000_000_000
  {
    if key < 1_000_000_000 {
      NineDigits(key);
    } else {
      LateIntervals();
      hide Low; hide High;
    }
  }

  lemma LateIntervals()
    ensures Low(20) == 5_000_000_000 && Low(22) == 50_000_000_000
    ensures Low(23) == 100_000_000_000 && High(23) == 500_000_000_000
    ensures Low(28) == 50_000_000_000_000
    ensures Low(29) == 100_000_000_000_000 && High(29) == 500_000_000_000_000
    ensures Low(34) == 50_000_000_000_000_000
    ensures Low(35) == 100_000_000_000_000_000 && High(35) == 500_000_000_000_000_000
    ensures Low(37) == 1_000_000_000_000_000_000 && High(37) == 5_000_000_000_000_000_000
    ensures Low(41) == 100_000_000_000_000_000_000 && Low(42) == 500_000_000_000_000_000_000
  {
    TenPowers();
    MorePowers();
    hide Pow;
    assert (20 + 1) / 2 == 10 && (22 + 1) / 2 == 11 && (23 + 1) / 2 == 12 && (28 + 1) / 2 == 14 && (29 + 1) / 2 == 15;
    assert (34 + 1) / 2 == 17 && (35 + 1) / 2 == 18 && (37 + 1) / 2 == 19 && (41 + 1) / 2 == 21 && (42 + 1) / 2 == 21;
  }

  /** With up to nine digits nothing wraps. */
  lemma NineDigits(key: nat)
    requires 0 < key < 1_000_000_000
    ensures Chosen(key, Digits(key)) == PlaceOf(key) && 0 < PlaceOf(key) <= 18 && InSlot(key, PlaceOf(key))
  {
    hide Pow; hide Low; hide High; hide Digits; hide Wrap;
    var d := Digits(key);
    TenPowers();
    DigitsBracket(key);
    DigitsAtMost(key, 9);
    PowGrows(d, 9);
    WrapKeeps(Pow(10, d));
    SlotEnds(d);
  }

  lemma SlotEnds(d: nat)
    requires d > 0
    ensures Low(2 * d - 1) == Pow(10, d - 1) && High(2 * d - 1) == Pow(10, d) / 2
    ensures Low(2 * d) == Pow(10, d) / 2 && High(2 * d) == Pow(10, d)
  {}

  lemma {:induction false} PowGrows(n: nat, m: nat)
    requires n <= m
    ensures 0 < Pow(10, n) <= Pow(10, m)
    decreases m
  {
    PowPositive(n);
    if n >= m {
    } else {
      PowGrows(n, m - 1);
    }
  }
}
