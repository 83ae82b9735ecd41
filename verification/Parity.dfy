/** The arithmetic of period_certification: the inner product over GF(2) of a state with the parity
  * vector, the xor-shift fold that computes it, and the one-bit correction. */
module Parity {
  import opened Blocks

  predicate Odd(x: bv32) { x & 1 == 1 }

  function Half(x: bv32): bv32 { x >> 1 }

  /** The number of one bits among the low n bits of x. */
  function Ones(x: bv32, n: nat): nat
    decreases n
  {
    if n == 0 then 0 else (if Odd(x) then 1 else 0) + Ones(Half(x), n - 1)
  }

  /** Exclusive or of the low n bits of x. */
  predicate ParityOf(x: bv32, n: nat) {
    Ones(x, n) % 2 == 1
  }

  /** Inner product over GF(2) of two 128-bit vectors: is the number of positions at which both
    * have a one bit odd? */
  predicate InnerProduct(b: Block, c: Block) {
    (Ones(And32(b.u0, c.u0), 32) + Ones(And32(b.u1, c.u1), 32)
     + Ones(And32(b.u2, c.u2), 32) + Ones(And32(b.u3, c.u3), 32)) % 2 == 1
  }

  // ----- parity is linear -----

  lemma BitsOfXor(x: bv32, y: bv32)
    ensures Odd(Xor32(x, y)) == (Odd(x) != Odd(y)) && Half(Xor32(x, y)) == Xor32(Half(x), Half(y))
  {}

  lemma {:induction false} ParityIsLinear(x: bv32, y: bv32, n: nat)
    ensures ParityOf(Xor32(x, y), n) == (ParityOf(x, n) != ParityOf(y, n))
    decreases n
  {
    hide Odd; hide Half; hide Xor32;
    if n == 0 {
    } else {
      BitsOfXor(x, y);
      ParityIsLinear(Half(x), Half(y), n - 1);
      ParityStep(x, n);
      ParityStep(y, n);
      ParityStep(Xor32(x, y), n);
      hide ParityOf;
    }
  }

  lemma ParityStep(x: bv32, n: nat)
    requires n > 0
    ensures ParityOf(x, n) == (Odd(x) != ParityOf(Half(x), n - 1))
  {
    hide Odd; hide Half;
  }

  // ----- the xor-shift fold with a signed accumulator -----

  /** x >> k for a negative or nonnegative C int: copies of the sign bit come in from the left. */
  function SignedShift(x: bv32, k: bv32): bv32
    requires 0 < k < 32
  {
    if x & 0x8000_0000 == 0 then x >> k else (x >> k) | (0xffff_ffff << (32 - k))
  }

  /** x with its low n bits dropped. */
  function Dropped(x: bv32, n: nat): bv32
    decreases n
  {
    if n == 0 then x else Dropped(Half(x), n - 1)
  }

  lemma {:induction false} OnesSplit(x: bv32, m: nat, n: nat)
    ensures Ones(x, m + n) == Ones(x, m) + Ones(Dropped(x, m), n)
    decreases m
  {
    hide Odd; hide Half;
    if m == 0 {
    } else {
      OnesSplit(Half(x), m - 1, n);
    }
  }

  lemma {:induction false} DroppedTwice(x: bv32, m: nat, n: nat)
    ensures Dropped(x, m + n) == Dropped(Dropped(x, m), n)
    decreases m
  {
    hide Half;
    if m == 0 {
    } else {
      DroppedTwice(Half(x), m - 1, n);
    }
  }

  /** The fold works on 16, 8, 4, 2 and 1 bits; k is the C shift count and n the same number. */
  predicate Level(k: bv32, n: nat) {
    (k == 1 && n == 1) || (k == 2 && n == 2) || (k == 4 && n == 4) || (k == 8 && n == 8) || (k == 16 && n == 16)
  }

  /** The words whose low n bits are zero, for the n of a level. */
  predicate LowZero(x: bv32, k: bv32) {
    if k == 1 then x & 1 == 0 else if k == 2 then x & 3 == 0 else if k == 4 then x & 15 == 0
    else if k == 8 then x & 0xff == 0 else x & 0xffff == 0
  }

  lemma ShiftTwiceBy1(x: bv32)
    ensures Shr32(Shr32(x, 1), 1) == Shr32(x, 2)
  {}

  lemma ShiftTwiceBy2(x: bv32)
    ensures Shr32(Shr32(x, 2), 2) == Shr32(x, 4)
  {}

  lemma ShiftTwiceBy4(x: bv32)
    ensures Shr32(Shr32(x, 4), 4) == Shr32(x, 8)
  {}

  lemma ShiftTwiceBy8(x: bv32)
    ensures Shr32(Shr32(x, 8), 8) == Shr32(x, 16)
  {}

  lemma ShiftTwice(x: bv32, k: bv32)
    requires k == 1 || k == 2 || k == 4 || k == 8
    ensures Shr32(Shr32(x, k), k) == Shr32(x, k + k)
  {
    hide Shr32;
    ShiftTwiceBy1(x);
    ShiftTwiceBy2(x);
    ShiftTwiceBy4(x);
    ShiftTwiceBy8(x);
  }

  lemma LevelShift(x: bv32, k: bv32, n: nat)
    requires Level(k, n) && n > 1
    ensures Level(Half(k), n / 2) && n / 2 + n / 2 == n
    ensures Shr32(Shr32(x, Half(k)), Half(k)) == Shr32(x, k)
  {
    hide Shr32;
    assert (k == 2 && Half(k) == 1) || (k == 4 && Half(k) == 2)
        || (k == 8 && Half(k) == 4) || (k == 16 && Half(k) == 8);
    ShiftTwice(x, Half(k));
  }

  lemma LevelLowZero(x: bv32, k: bv32, n: nat)
    requires Level(k, n) && n > 1 && LowZero(x, k)
    ensures LowZero(x, Half(k)) && LowZero(Shr32(x, Half(k)), Half(k))
  {}

  lemma LevelOne(x: bv32)
    ensures Half(x) == Shr32(x, 1)
    ensures LowZero(x, 1) ==> !Odd(x)
  {}

  lemma {:induction false} DroppedIsShift(x: bv32, k: bv32, n: nat)
    requires Level(k, n)
    ensures Dropped(x, n) == Shr32(x, k)
    decreases n
  {
    hide Half; hide Shr32;
    if n == 1 {
      LevelOne(x);
      assert Dropped(x, 1) == Dropped(Half(x), 0);
    } else {
      LevelShift(x, k, n);
      DroppedTwice(x, n / 2, n / 2);
      DroppedIsShift(x, Half(k), n / 2);
      DroppedIsShift(Shr32(x, Half(k)), Half(k), n / 2);
    }
  }

  lemma {:induction false} NoLowOnes(x: bv32, k: bv32, n: nat)
    requires Level(k, n) && LowZero(x, k)
    ensures Ones(x, n) == 0
    decreases n
  {
    hide Half; hide Shr32; hide Odd; hide LowZero;
    if n == 1 {
      LevelOne(x);
      assert Ones(x, 1) == Ones(Half(x), 0);
    } else {
      LevelShift(x, k, n);
      LevelLowZero(x, k, n);
      OnesSplit(x, n / 2, n / 2);
      DroppedIsShift(x, Half(k), n / 2);
      NoLowOnes(x, Half(k), n / 2);
      NoLowOnes(Shr32(x, Half(k)), Half(k), n / 2);
    }
  }

  /** The copies of the sign bit do not reach the low bits that the next stage looks at. */
  lemma SignCopies(x: bv32, k: bv32, n: nat) returns (m: bv32)
    requires Level(k, n)
    ensures SignedShift(x, k) == Xor32(Shr32(x, k), m) && LowZero(m, k)
  {
    m := if x & 0x8000_0000 == 0 then 0 else 0xffff_ffff << (32 - k);
  }

  /** One stage of the fold: n bits of x ^ (x >> n) have the parity of 2n bits of x. */
  lemma FoldStage(x: bv32, k: bv32, n: nat)
    requires Level(k, n)
    ensures ParityOf(Xor32(x, SignedShift(x, k)), n) == ParityOf(x, 2 * n)
  {
    hide Half; hide Shr32; hide Odd; hide LowZero; hide Xor32; hide SignedShift; hide Dropped; hide Ones;
    var m := SignCopies(x, k, n);
    ParityIsLinear(x, SignedShift(x, k), n);
    ParityIsLinear(Shr32(x, k), m, n);
    NoLowOnes(m, k, n);
    OnesSplit(x, n, n);
    DroppedIsShift(x, k, n);
  }

  /** The loop of period_certification that folds the accumulator: afterwards bit 0 of inner is the
    * exclusive or of all 32 bits it started with. */
  method Fold(x: bv32) returns (inner: bv32)
    ensures Odd(inner) <==> ParityOf(x, 32)
  {
    hide Half; hide Odd; hide Xor32; hide SignedShift; hide Ones;
    inner := x;
    var i: bv32 := 16;
    ghost var n: nat := 16;
    while i > 0
      invariant if i == 0 then n == 0 else Level(i, n)
      invariant i > 0 ==> ParityOf(inner, 2 * n) == ParityOf(x, 32)
      invariant i == 0 ==> (Odd(inner) <==> ParityOf(x, 32))
      decreases n
    {
      FoldStage(inner, i, n);
      inner := Xor32(inner, SignedShift(inner, i));
      NextLevel(inner, i, n);
      i, n := i >> 1, n / 2;
    }
  }

  lemma NextLevel(x: bv32, i: bv32, n: nat)
    requires Level(i, n)
    ensures if n == 1 then i >> 1 == 0 else Level(i >> 1, n / 2) && 2 * (n / 2) == n
    ensures ParityOf(x, 1) == Odd(x)
  {
    assert Ones(x, 1) == (if Odd(x) then 1 else 0) + Ones(Half(x), 0);
  }

  // ----- the one-bit correction -----

  predicate OneBit(w: bv32) { w != 0 && w & (w - 1) == 0 }

  /** The lowest one bit of x, as a word (zero for zero). */
  function LowestBit(x: bv32): bv32 { x & (0 - x) }

  lemma LowestBitFacts(x: bv32)
    ensures x != 0 ==> OneBit(LowestBit(x))
    ensures And32(LowestBit(x), x) == LowestBit(x)
  {}

  lemma {:induction false} OnesOfZero(n: nat)
    ensures Ones(0, n) == 0
    decreases n
  {
    if n == 0 {
    } else {
      OnesOfZero(n - 1);
      assert !Odd(0) && Half(0) == 0;
    }
  }

  lemma OneBitHalves(w: bv32)
    requires OneBit(w)
    ensures if Odd(w) then Half(w) == 0 else OneBit(Half(w))
  {}

  lemma {:induction false} OneBitHasOneOne(w: bv32, n: nat)
    requires OneBit(w) && Dropped(w, n) == 0
    ensures Ones(w, n) == 1
    decreases n
  {
    hide Odd; hide Half; hide OneBit;
    if n == 0 {
      assert OneBit(0);
      ZeroIsNoBit();
    } else {
      OneBitHalves(w);
      OnesOfZero(n - 1);
      if !Odd(w) {
        OneBitHasOneOne(Half(w), n - 1);
      }
    }
  }

  lemma ZeroIsNoBit()
    ensures !OneBit(0)
  {}

  lemma AllBitsDropped(w: bv32)
    ensures Dropped(w, 32) == 0
  {
    hide Half; hide Dropped;
    DroppedTwice(w, 16, 16);
    DroppedIsShift(w, 16, 16);
    DroppedIsShift(Shr32(w, 16), 16, 16);
  }

  /** The block with the lowest bit of the first nonzero word of the parity vector. */
  function Correction(parity: Block): Block {
    if parity.u0 != 0 then Block(LowestBit(parity.u0), 0, 0, 0)
    else if parity.u1 != 0 then Block(0, LowestBit(parity.u1), 0, 0)
    else if parity.u2 != 0 then Block(0, 0, LowestBit(parity.u2), 0)
    else Block(0, 0, 0, LowestBit(parity.u3))
  }

  /** What period_certification makes of the first block. */
  function Certified(b: Block, parity: Block): Block {
    if InnerProduct(b, parity) then b else XorLanes(b, Correction(parity))
  }

  function OnesOfBlock(b: Block): nat {
    Ones(b.u0, 32) + Ones(b.u1, 32) + Ones(b.u2, 32) + Ones(b.u3, 32)
  }

  // The distributive law is proved on plain expressions and carried over to the named functions.

  lemma AndDistributesPlain(x: bv32, y: bv32, z: bv32)
    ensures (x ^ y) & z == (x & z) ^ (y & z)
  {}

  lemma XorIs(x: bv32, y: bv32)
    ensures Xor32(x, y) == x ^ y
  {}

  lemma AndIs(x: bv32, y: bv32)
    ensures And32(x, y) == x & y
  {}

  lemma AndDistributes(x: bv32, y: bv32, z: bv32)
    ensures And32(Xor32(x, y), z) == Xor32(And32(x, z), And32(y, z))
  {
    hide Xor32; hide And32;
    XorIs(x, y);
    AndIs(x ^ y, z);
    AndIs(x, z);
    AndIs(y, z);
    XorIs(x & z, y & z);
    AndDistributesPlain(x, y, z);
  }

  lemma LaneIsLinear(x: bv32, e: bv32, z: bv32)
    ensures ParityOf(And32(Xor32(x, e), z), 32) == (ParityOf(And32(x, z), 32) != ParityOf(And32(e, z), 32))
  {
    hide Ones; hide Xor32; hide And32;
    AndDistributes(x, e, z);
    ParityIsLinear(And32(x, z), And32(e, z), 32);
  }

  lemma InnerProductLanes(b: Block, c: Block)
    ensures InnerProduct(b, c)
        <==> ((ParityOf(And32(b.u0, c.u0), 32) != ParityOf(And32(b.u1, c.u1), 32))
           != (ParityOf(And32(b.u2, c.u2), 32) != ParityOf(And32(b.u3, c.u3), 32)))
  {
    hide Ones; hide And32;
    var o0, o1 := Ones(And32(b.u0, c.u0), 32), Ones(And32(b.u1, c.u1), 32);
    var o2, o3 := Ones(And32(b.u2, c.u2), 32), Ones(And32(b.u3, c.u3), 32);
    OddSum(o0, o1);
    OddSum(o2, o3);
    OddSum(o0 + o1, o2 + o3);
  }

  lemma OddSum(m: nat, n: nat)
    ensures (m + n) % 2 == 1 <==> (m % 2 == 1) != (n % 2 == 1)
  {}

  /** The parity that lane i contributes to an inner product. */
  predicate LaneParity(b: Block, c: Block, i: nat)
    requires i < 4
  {
    ParityOf(And32(Word(b, i), Word(c, i)), 32)
  }

  lemma InnerProductByLane(b: Block, c: Block)
    ensures InnerProduct(b, c)
        <==> ((LaneParity(b, c, 0) != LaneParity(b, c, 1)) != (LaneParity(b, c, 2) != LaneParity(b, c, 3)))
  {
    hide ParityOf; hide And32; hide InnerProduct;
    InnerProductLanes(b, c);
  }

  lemma LaneParityIsLinear(a: Block, e: Block, c: Block, i: nat)
    requires i < 4
    ensures LaneParity(XorLanes(a, e), c, i) == (LaneParity(a, c, i) != LaneParity(e, c, i))
  {
    hide ParityOf; hide And32; hide Xor32;
    LaneIsLinear(Word(a, i), Word(e, i), Word(c, i));
  }

  lemma InnerProductIsLinear(a: Block, e: Block, c: Block)
    ensures InnerProduct(XorLanes(a, e), c) == (InnerProduct(a, c) != InnerProduct(e, c))
  {
    hide InnerProduct; hide LaneParity; hide XorLanes;
    InnerProductByLane(XorLanes(a, e), c);
    InnerProductByLane(a, c);
    InnerProductByLane(e, c);
    LaneParityIsLinear(a, e, c, 0);
    LaneParityIsLinear(a, e, c, 1);
    LaneParityIsLinear(a, e, c, 2);
    LaneParityIsLinear(a, e, c, 3);
  }

  lemma LowestBitLane(x: bv32)
    requires x != 0
    ensures Ones(LowestBit(x), 32) == 1 && Ones(And32(LowestBit(x), x), 32) == 1
  {
    hide Ones; hide Dropped; hide OneBit; hide LowestBit;
    LowestBitFacts(x);
    AllBitsDropped(LowestBit(x));
    OneBitHasOneOne(LowestBit(x), 32);
  }

  lemma ZeroLane(x: bv32)
    ensures Ones(And32(0, x), 32) == 0 && Ones(0, 32) == 0
  {
    hide Ones;
    assert And32(0, x) == 0;
    OnesOfZero(32);
  }

  lemma CorrectionIsOneBit(parity: Block)
    requires parity != ZERO_BLOCK
    ensures OnesOfBlock(Correction(parity)) == 1
    ensures InnerProduct(Correction(parity), parity)
  {
    hide Ones; hide And32; hide LowestBit;
    ZeroLane(parity.u0);
    ZeroLane(parity.u1);
    ZeroLane(parity.u2);
    ZeroLane(parity.u3);
    if parity.u0 != 0 {
      LowestBitLane(parity.u0);
    } else if parity.u1 != 0 {
      LowestBitLane(parity.u1);
    } else if parity.u2 != 0 {
      LowestBitLane(parity.u2);
    } else {
      LowestBitLane(parity.u3);
    }
  }

  /** After certification the inner product with the parity vector is 1, whatever the block was;
    * the block and its certified form differ in at most one bit; certifying again changes nothing. */
  lemma CertificationHolds(b: Block, parity: Block)
    requires parity != ZERO_BLOCK
    ensures InnerProduct(Certified(b, parity), parity)
    ensures Certified(b, parity) == b || exists e :: OnesOfBlock(e) == 1 && Certified(b, parity) == XorLanes(b, e)
    ensures Certified(Certified(b, parity), parity) == Certified(b, parity)
  {
    hide Ones; hide And32; hide LowestBit; hide Xor32; hide XorLanes; hide OnesOfBlock; hide Correction;
    hide InnerProduct;
    CorrectionIsOneBit(parity);
    InnerProductIsLinear(b, Correction(parity), parity);
  }

  predicate NoneBelow(x: bv32, work: bv32) { x & (work - 1) == 0 }

  function Bit(j: bv32): bv32
    requires j <= 32
  {
    1 << j
  }

  function Twice(x: bv32): bv32 { x << 1 }

  lemma BitFound(x: bv32, j: bv32)
    requires j < 32 && NoneBelow(x, Bit(j)) && And32(Bit(j), x) != 0
    ensures Bit(j) == LowestBit(x) && x != 0
  {}

  lemma BitMissed(x: bv32, j: bv32)
    requires j < 32 && NoneBelow(x, Bit(j)) && And32(Bit(j), x) == 0
    ensures NoneBelow(x, Twice(Bit(j))) && Twice(Bit(j)) == Bit(j + 1)
  {}

  lemma BitEnds(x: bv32)
    ensures Bit(0) == 1 && NoneBelow(x, 1)
    ensures NoneBelow(x, Bit(32)) ==> x == 0
  {}

  /** The inner search loop of period_certification: the lowest one bit of a word, if it has one.
    * The machine int j is kept as a 32-bit number. */
  method FindBit(parity: bv32) returns (found: bool, work: bv32)
    ensures found <==> parity != 0
    ensures found ==> work == LowestBit(parity)
  {
    hide Bit; hide NoneBelow; hide LowestBit; hide And32; hide Twice;
    BitEnds(parity);
    work := 1;
    var j: bv32 := 0;
    while j < 32
      invariant j <= 32 && work == Bit(j) && NoneBelow(parity, work)
      decreases 32 - j
    {
      if And32(work, parity) != 0 {
        BitFound(parity, j);
        return true, work;
      }
      BitMissed(parity, j);
      work := Twice(work);
      j := j + 1;
    }
    return false, work;
  }
}
