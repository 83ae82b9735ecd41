/** Every round of init_by_array can be undone, so the whole initialisation can, and keys that differ in one
  * word leave different states. */
module KeyMixing {
  import opened Blocks
  import opened Seeding
  import Arith

  // ----- undoing the operations of a round -----

  /** The factors are the inverses of 1664525 and 1566083941 modulo 2^32. */
  function Func1Back(y: bv32): bv32 {
    var t := 4276115653 * y;
    t ^ (t >> 27)
  }

  function Func2Back(y: bv32): bv32 {
    var t := 1786162797 * y;
    t ^ (t >> 27)
  }

  lemma Func1Is(x: bv32)
    ensures Func1(x) == (x ^ (x >> 27)) * 1664525
  {}

  lemma Func1BackPlain(x: bv32)
    ensures Func1Back((x ^ (x >> 27)) * 1664525) == x
  {}

  lemma Func1Undone(x: bv32)
    ensures Func1Back(Func1(x)) == x
  {
    hide Func1; hide Func1Back;
    Func1Is(x);
    Func1BackPlain(x);
  }

  lemma Func2Is(x: bv32)
    ensures Func2(x) == (x ^ (x >> 27)) * 1566083941
  {}

  lemma Func2BackPlain(x: bv32)
    ensures Func2Back((x ^ (x >> 27)) * 1566083941) == x
  {}

  lemma Func2Undone(x: bv32)
    ensures Func2Back(Func2(x)) == x
  {
    hide Func2; hide Func2Back;
    Func2Is(x);
    Func2BackPlain(x);
  }

  lemma AddIs(x: bv32, y: bv32)
    ensures Add32(x, y) == x + y
  {}

  lemma SubOfSum(x: bv32, y: bv32)
    ensures Sub32(x + y, y) == x
  {}

  lemma SumUndone(x: bv32, y: bv32)
    ensures Sub32(Add32(x, y), y) == x
  {
    hide Add32; hide Sub32;
    AddIs(x, y);
    SubOfSum(x, y);
  }

  lemma SubIs(x: bv32, y: bv32)
    ensures Sub32(x, y) == x - y
  {}

  lemma AddToDifference(x: bv32, y: bv32)
    ensures Add32(x - y, y) == x
  {}

  lemma DifferenceUndone(x: bv32, y: bv32)
    ensures Add32(Sub32(x, y), y) == x
  {
    hide Add32; hide Sub32;
    SubIs(x, y);
    AddToDifference(x, y);
  }

  lemma XorUndone(x: bv32, y: bv32)
    ensures Xor32(Xor32(x, y), y) == x
  {}

  // ----- the four positions of a round -----

  lemma Wraps(i: nat, x: nat, size: nat)
    requires i < size && x < size
    ensures Ahead(i, x, size) == if i + x < size then i + x else i + x - size
  {
    if i + x < size {
      Arith.DivRemainder(i + x, 0, i + x, size);
    } else {
      Arith.DivRemainder(i + x, 1, i + x - size, size);
    }
  }

  /** The position before i, i itself and the two positions behind it at which a round writes differ. */
  lemma PositionsDiffer(i: nat, size: nat)
    requires 8 <= size && i < size
    ensures var a, b, c := Ahead(i, Mid(size), size), Ahead(i, Mid(size) + Lag(size), size), Ahead(i, size - 1, size);
            i != a && i != b && i != c && a != b && a != c && b != c
  {
    Wraps(i, Mid(size), size);
    Wraps(i, Mid(size) + Lag(size), size);
    Wraps(i, size - 1, size);
  }

  /** The two distances for the state sizes of the SFMT parameter sets, in words. */
  lemma DistancesOfParameterSets()
    ensures (Lag(20), Mid(20)) == (3, 8) && (Lag(40), Mid(40)) == (5, 17) && (Lag(72), Mid(72)) == (7, 32)
    ensures (Lag(136), Mid(136)) == (7, 64) && (Lag(352), Mid(352)) == (7, 172) && (Lag(624), Mid(624)) == (11, 306)
    ensures (Lag(1392), Mid(1392)) == (11, 690) && (Lag(2696), Mid(2696)) == (11, 1342)
    ensures (Lag(4128), Mid(4128)) == (11, 2058) && (Lag(6756), Mid(6756)) == (11, 3372)
  {}

  // ----- undoing a round -----

  function UnmixAdd(w: seq<bv32>, i: nat, add: bv32): (v: seq<bv32>)
    requires 8 <= |w| && i < |w|
    ensures |v| == |w|
  {
    var size := |w|;
    var a, b, c := Ahead(i, Mid(size), size), Ahead(i, Mid(size) + Lag(size), size), Ahead(i, size - 1, size);
    var r := Sub32(w[i], add);
    var w1 := w[b := Sub32(w[b], w[i])];
    var w2 := w1[a := Sub32(w1[a], r)];
    w2[i := Xor32(Xor32(Func1Back(r), w2[c]), w2[a])]
  }

  function UnmixXor(w: seq<bv32>, i: nat): (v: seq<bv32>)
    requires 8 <= |w| < 0x8000_0000 && i < |w|
    ensures |v| == |w|
  {
    var size := |w|;
    var a, b, c := Ahead(i, Mid(size), size), Ahead(i, Mid(size) + Lag(size), size), Ahead(i, size - 1, size);
    var r := Add32(w[i], Nat32(i));
    var w1 := w[b := Xor32(w[b], w[i])];
    var w2 := w1[a := Xor32(w1[a], r)];
    w2[i := Sub32(Sub32(Func2Back(r), w2[c]), w2[a])]
  }

  lemma MixAddUndone(v: seq<bv32>, i: nat, add: bv32)
    requires 8 <= |v| && i < |v|
    ensures UnmixAdd(MixAdd(v, i, add), i, add) == v
  {
    hide Func1; hide Func1Back; hide Add32; hide Sub32; hide Xor32; hide Lag; hide Mid; hide Ahead;
    var size := |v|;
    var a, b, c := Ahead(i, Mid(size), size), Ahead(i, Mid(size) + Lag(size), size), Ahead(i, size - 1, size);
    PositionsDiffer(i, size);
    var t := Xor32(Xor32(v[i], v[a]), v[c]);
    var r := Func1(t);
    Func1Undone(t);
    SumUndone(r, add);
    SumUndone(v[a], r);
    SumUndone(v[b], Add32(r, add));
    XorUndone(Xor32(v[i], v[a]), v[c]);
    XorUndone(v[i], v[a]);
  }

  lemma MixXorUndone(v: seq<bv32>, i: nat)
    requires 8 <= |v| < 0x8000_0000 && i < |v|
    ensures UnmixXor(MixXor(v, i), i) == v
  {
    hide Func2; hide Func2Back; hide Add32; hide Sub32; hide Xor32; hide Lag; hide Mid; hide Ahead; hide Nat32;
    var size := |v|;
    var a, b, c := Ahead(i, Mid(size), size), Ahead(i, Mid(size) + Lag(size), size), Ahead(i, size - 1, size);
    PositionsDiffer(i, size);
    var t := Add32(Add32(v[i], v[a]), v[c]);
    var r := Func2(t);
    Func2Undone(t);
    DifferenceUndone(r, Nat32(i));
    XorUndone(v[a], r);
    XorUndone(v[b], Sub32(r, Nat32(i)));
    SumUndone(Add32(v[i], v[a]), v[c]);
    SumUndone(v[i], v[a]);
  }

  // ----- undoing the whole initialisation -----

  /** The words before the first j + 1 rounds of the first two loops, from the words after them. */
  function Unkey(size: nat, key: seq<bv32>, j: nat, w: seq<bv32>): (v: seq<bv32>)
    requires 8 <= size == |w| < 0x8000_0000 && |key| < 0x8000_0000
    ensures |v| == size
    decreases j
  {
    var i := j % size;
    if j == 0 then UnmixAdd(w, 0, Nat32(|key|))
    else if j <= |key| then Unkey(size, key, j - 1, UnmixAdd(w, i, Add32(key[j - 1], Nat32(i))))
    else Unkey(size, key, j - 1, UnmixAdd(w, i, Nat32(i)))
  }

  /** The words before all rounds, from the words after count rounds of adding and j of exclusive or. */
  function Unfinish(size: nat, key: seq<bv32>, count: nat, j: nat, w: seq<bv32>): (v: seq<bv32>)
    requires 8 <= size == |w| < 0x8000_0000 && |key| < 0x8000_0000
    ensures |v| == size
    decreases j
  {
    if j == 0 then Unkey(size, key, count, w)
    else Unfinish(size, key, count, j - 1, UnmixXor(w, (count + j) % size))
  }

  lemma {:induction false} KeyRoundsUndone(size: nat, key: seq<bv32>, j: nat)
    requires 8 <= size < 0x8000_0000 && |key| < 0x8000_0000
    ensures Unkey(size, key, j, KeyRounds(size, key, j)) == seq(size, _ => 0x8b8b8b8b)
    decreases j
  {
    hide MixAdd; hide UnmixAdd; hide Add32; hide Nat32;
    Arith.DivRemainder(0, 0, 0, size);
    if j == 0 {
      MixAddUndone(seq(size, _ => 0x8b8b8b8b), 0, Nat32(|key|));
    } else {
      KeyRoundsUndone(size, key, j - 1);
      MixAddUndone(KeyRounds(size, key, j - 1), j % size, Addend(key, j, j % size));
    }
  }

  lemma {:induction false} FinalRoundsUndone(size: nat, key: seq<bv32>, j: nat)
    requires 8 <= size < 0x8000_0000 && |key| < 0x8000_0000
    ensures Unfinish(size, key, Rounds(size, key), j, FinalRounds(size, key, j)) == seq(size, _ => 0x8b8b8b8b)
    decreases j
  {
    hide MixXor; hide UnmixXor; hide KeyRounds; hide Unkey; hide Rounds;
    var count := Rounds(size, key);
    if j == 0 {
      KeyRoundsUndone(size, key, count);
    } else {
      FinalRoundsUndone(size, key, j - 1);
      MixXorUndone(FinalRounds(size, key, j - 1), (count + j) % size);
    }
  }

  /** From the words that init_by_array leaves and the key, its rounds taken back one by one lead to the
    * filling that it starts from: max(|key| + 1, size) rounds of adding, the first one before the loops, and
    * size rounds of exclusive or. */
  lemma KeyUndone(size: nat, key: seq<bv32>)
    requires 8 <= size < 0x8000_0000 && |key| < 0x8000_0000
    ensures var count := (if |key| + 1 > size then |key| + 1 else size) - 1;
            Unfinish(size, key, count, size, KeyWords(size, key)) == seq(size, _ => 0x8b8b8b8b)
  {
    hide FinalRounds; hide Unfinish;
    FinalRoundsUndone(size, key, size);
  }

  // ----- keys told apart -----

  /** The keys have the same length and differ in word p alone. */
  predicate DifferAt(key: seq<bv32>, other: seq<bv32>, p: nat) {
    && |key| == |other| && p < |key| && key[p] != other[p]
    && forall q :: 0 <= q < |key| && q != p ==> key[q] == other[q]
  }

  lemma AddApart(v: seq<bv32>, w: seq<bv32>, i: nat, add: bv32)
    requires 8 <= |v| == |w| && i < |v| && v != w
    ensures MixAdd(v, i, add) != MixAdd(w, i, add)
  {
    hide MixAdd; hide UnmixAdd;
    MixAddUndone(v, i, add);
    MixAddUndone(w, i, add);
  }

  lemma AddendApart(v: seq<bv32>, i: nat, x: bv32, y: bv32, n: bv32)
    requires 8 <= |v| && i < |v| && x != y
    ensures MixAdd(v, i, Add32(x, n)) != MixAdd(v, i, Add32(y, n))
  {
    hide Func1; hide Add32; hide Xor32; hide Lag; hide Mid; hide Ahead;
    var size := |v|;
    var a, c := Ahead(i, Mid(size), size), Ahead(i, size - 1, size);
    var r := Func1(Xor32(Xor32(v[i], v[a]), v[c]));
    SumUndone(x, n);
    SumUndone(y, n);
    AddOrder(r, Add32(x, n));
    AddOrder(r, Add32(y, n));
    SumUndone(Add32(x, n), r);
    SumUndone(Add32(y, n), r);
    assert MixAdd(v, i, Add32(x, n))[i] == Add32(r, Add32(x, n));
    assert MixAdd(v, i, Add32(y, n))[i] == Add32(r, Add32(y, n));
  }

  lemma AddOrder(x: bv32, y: bv32)
    ensures Add32(x, y) == Add32(y, x)
  {}

  lemma {:induction false} KeyRoundsApart(size: nat, key: seq<bv32>, other: seq<bv32>, p: nat, j: nat)
    requires 8 <= size < 0x8000_0000 && |key| < 0x8000_0000 && DifferAt(key, other, p)
    ensures KeyRounds(size, key, j) == KeyRounds(size, other, j) <==> j <= p
    decreases j
  {
    hide MixAdd; hide Add32; hide Nat32; hide At;
    if j == 0 {
    } else {
      KeyRoundsApart(size, key, other, p, j - 1);
      var i := At(j, size);
      if j == p + 1 {
        AddendApart(KeyRounds(size, key, p), i, key[p], other[p], Nat32(i));
      } else if j > p + 1 {
        AddApart(KeyRounds(size, key, j - 1), KeyRounds(size, other, j - 1), i, Addend(key, j, i));
      }
    }
  }

  lemma {:induction false} FinalRoundsApart(size: nat, key: seq<bv32>, other: seq<bv32>, p: nat, j: nat)
    requires 8 <= size < 0x8000_0000 && |key| < 0x8000_0000 && DifferAt(key, other, p)
    ensures FinalRounds(size, key, j) != FinalRounds(size, other, j)
    decreases j
  {
    hide MixXor; hide UnmixXor; hide KeyRounds; hide At;
    if j == 0 {
      KeyRoundsApart(size, key, other, p, Rounds(size, key));
    } else {
      FinalRoundsApart(size, key, other, p, j - 1);
      var i := At(Rounds(size, key) + j, size);
      MixXorUndone(FinalRounds(size, key, j - 1), i);
      MixXorUndone(FinalRounds(size, other, j - 1), i);
    }
  }

  /** No word of a key is lost: keys that differ in one word leave different states before certification. */
  lemma KeysToldApart(n: nat, key: seq<bv32>, other: seq<bv32>, p: nat)
    requires 2 <= n < 0x2000_0000 && |key| < 0x8000_0000 && DifferAt(key, other, p)
    ensures KeyState(n, key) != KeyState(n, other)
  {
    hide FinalRounds;
    FinalRoundsApart(4 * n, key, other, p, 4 * n);
    var v, w := KeyWords(4 * n, key), KeyWords(4 * n, other);
    var k :| 0 <= k < 4 * n && v[k] != w[k];
    PackAt(n, v, k / 4);
    PackAt(n, w, k / 4);
    assert k == 4 * (k / 4) + k % 4;
  }
}
