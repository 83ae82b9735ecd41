/** The 128-bit blocks of the SFMT state, the two word layouts, and the recursion step. */
module Blocks {

  /** Builds of the generator. Little: the default layout on a little-endian host. Big: the default
    * layout on a big-endian host. Only64: words 0,1 and 2,3 of every block are exchanged, so that a
    * big-endian host can read 64-bit outputs directly. */
  datatype Layout = Little | Big | Only64

  datatype Block = Block(u0: bv32, u1: bv32, u2: bv32, u3: bv32)

  const ZERO_BLOCK := Block(0, 0, 0, 0)

  /** The constants of one SFMT-params file; n is N and n4 = 4 * n is N32, a C int. */
  datatype Params = Params(n: nat, pos1: nat, sl1: bv32, sl2: bv64, sr1: bv32, sr2: bv64, msk: Block, parity: Block)
  {
    predicate Valid() {
      && 0 < pos1 < n < 0x2000_0000
      && sl1 < 32 && sr1 < 32 && 1 <= sl2 <= 7 && 1 <= sr2 <= 7
      && parity != ZERO_BLOCK
    }
  }

  function Word(b: Block, i: nat): bv32
    requires i < 4
  {
    if i == 0 then b.u0 else if i == 1 then b.u1 else if i == 2 then b.u2 else b.u3
  }

  function PutWord(b: Block, i: nat, w: bv32): Block
    requires i < 4
  {
    if i == 0 then b.(u0 := w) else if i == 1 then b.(u1 := w) else if i == 2 then b.(u2 := w) else b.(u3 := w)
  }

  /** idxof: i ^ 1 in the ONLY64 layout. */
  function IdxOf(layout: Layout, i: nat): nat {
    if layout.Only64? then (if i % 2 == 0 then i + 1 else i - 1) else i
  }

  function SwapPairs(b: Block): Block {
    Block(b.u1, b.u0, b.u3, b.u2)
  }

  /** The stored block with its words in logical order. */
  function Logical(layout: Layout, b: Block): Block {
    if layout.Only64? then SwapPairs(b) else b
  }

  // ----- the 128-bit shifts, computed from 64-bit halves -----

  function Cat(high: bv32, low: bv32): bv64 {
    (high as bv64 << 32) | low as bv64
  }

  function Hi(x: bv64): bv32 { (x >> 32) as bv32 }

  function Lo(x: bv64): bv32 { (x & 0xffff_ffff) as bv32 }

  /** The half that loses bits to neither side, and the half that takes bits over from the other one. */
  function RightOut(h: bv64, shift: bv64): bv64
    requires 1 <= shift <= 7
  {
    h >> (shift * 8)
  }

  function RightIn(h: bv64, l: bv64, shift: bv64): bv64
    requires 1 <= shift <= 7
  {
    (l >> (shift * 8)) | (h << (64 - shift * 8))
  }

  function LeftOut(l: bv64, shift: bv64): bv64
    requires 1 <= shift <= 7
  {
    l << (shift * 8)
  }

  function LeftIn(h: bv64, l: bv64, shift: bv64): bv64
    requires 1 <= shift <= 7
  {
    (h << (shift * 8)) | (l >> (64 - shift * 8))
  }

  /** rshift128, in the word order of the layout. */
  function RShift128(layout: Layout, b: Block, shift: bv64): Block
    requires 1 <= shift <= 7
  {
    if layout.Only64? then
      var th, tl := Cat(b.u2, b.u3), Cat(b.u0, b.u1);
      var oh, ol := RightOut(th, shift), RightIn(th, tl, shift);
      Block(Hi(ol), Lo(ol), Hi(oh), Lo(oh))
    else
      var th, tl := Cat(b.u3, b.u2), Cat(b.u1, b.u0);
      var oh, ol := RightOut(th, shift), RightIn(th, tl, shift);
      Block(Lo(ol), Hi(ol), Lo(oh), Hi(oh))
  }

  /** lshift128, in the word order of the layout. */
  function LShift128(layout: Layout, b: Block, shift: bv64): Block
    requires 1 <= shift <= 7
  {
    if layout.Only64? then
      var th, tl := Cat(b.u2, b.u3), Cat(b.u0, b.u1);
      var oh, ol := LeftIn(th, tl, shift), LeftOut(tl, shift);
      Block(Hi(ol), Lo(ol), Hi(oh), Lo(oh))
    else
      var th, tl := Cat(b.u3, b.u2), Cat(b.u1, b.u0);
      var oh, ol := LeftIn(th, tl, shift), LeftOut(tl, shift);
      Block(Lo(ol), Hi(ol), Lo(oh), Hi(oh))
  }

  /** Both shift routines commute with the exchange of words. */
  lemma ShiftsAreLayoutFree(layout: Layout, b: Block, shift: bv64)
    requires 1 <= shift <= 7
    ensures Logical(layout, RShift128(layout, b, shift)) == RShift128(Little, Logical(layout, b), shift)
    ensures Logical(layout, LShift128(layout, b, shift)) == LShift128(Little, Logical(layout, b), shift)
  {
    hide Cat; hide Hi; hide Lo; hide RightOut; hide RightIn; hide LeftOut; hide LeftIn;
  }

  function Join(h: bv64, l: bv64): bv128 {
    (h as bv128 << 64) | l as bv128
  }

  /** The block as one 128-bit number, logical word 0 lowest. */
  function Wide(b: Block): bv128 {
    Four(b.u3, b.u2, b.u1, b.u0)
  }

  function Four(x3: bv32, x2: bv32, x1: bv32, x0: bv32): bv128 {
    (x3 as bv128 << 96) | (x2 as bv128 << 64) | (x1 as bv128 << 32) | x0 as bv128
  }

  lemma FourWordsPlain(x3: bv32, x2: bv32, x1: bv32, x0: bv32)
    ensures (x3 as bv128 << 96) | (x2 as bv128 << 64) | (x1 as bv128 << 32) | x0 as bv128
         == (((x3 as bv64 << 32) | x2 as bv64) as bv128 << 64) | ((x1 as bv64 << 32) | x0 as bv64) as bv128
  {}

  lemma CatIs(high: bv32, low: bv32)
    ensures Cat(high, low) == (high as bv64 << 32) | low as bv64
  {}

  lemma JoinIs(h: bv64, l: bv64)
    ensures Join(h, l) == (h as bv128 << 64) | l as bv128
  {}

  lemma FourIs(x3: bv32, x2: bv32, x1: bv32, x0: bv32)
    ensures Four(x3, x2, x1, x0) == (x3 as bv128 << 96) | (x2 as bv128 << 64) | (x1 as bv128 << 32) | x0 as bv128
  {}

  lemma FourWords(x3: bv32, x2: bv32, x1: bv32, x0: bv32)
    ensures Four(x3, x2, x1, x0) == Join(Cat(x3, x2), Cat(x1, x0))
  {
    hide Cat; hide Join; hide Four;
    FourIs(x3, x2, x1, x0);
    CatIs(x3, x2);
    CatIs(x1, x0);
    JoinIs((x3 as bv64 << 32) | x2 as bv64, (x1 as bv64 << 32) | x0 as bv64);
    FourWordsPlain(x3, x2, x1, x0);
  }

  lemma WideIsJoin(b: Block)
    ensures Wide(b) == Join(Cat(b.u3, b.u2), Cat(b.u1, b.u0))
  {
    hide Cat; hide Join; hide Four;
    FourWords(b.u3, b.u2, b.u1, b.u0);
  }

  lemma CatSplit(x: bv64)
    ensures Cat(Hi(x), Lo(x)) == x
  {}

  function Shr(x: bv128, bytes: bv64): bv128
    requires 1 <= bytes <= 7
  {
    x >> (8 * (bytes as bv128))
  }

  function Shl(x: bv128, bytes: bv64): bv128
    requires 1 <= bytes <= 7
  {
    x << (8 * (bytes as bv128))
  }

  // The two facts about shifting a 128-bit number are proved on plain expressions first and
  // carried over to the named functions one layer at a time.

  lemma ShiftRightPlain(h: bv64, l: bv64, s: bv64)
    requires 1 <= s <= 7
    ensures ((h as bv128 << 64) | l as bv128) >> (8 * (s as bv128))
         == (((h >> (s * 8)) as bv128) << 64) | (((l >> (s * 8)) | (h << (64 - s * 8))) as bv128)
  {}

  lemma ShiftRightHalves(h: bv64, l: bv64, s: bv64)
    requires 1 <= s <= 7
    ensures ((h as bv128 << 64) | l as bv128) >> (8 * (s as bv128))
         == (RightOut(h, s) as bv128 << 64) | RightIn(h, l, s) as bv128
  {
    ShiftRightPlain(h, l, s);
  }

  lemma ShiftRightNamed(h: bv64, l: bv64, s: bv64)
    requires 1 <= s <= 7
    ensures Shr((h as bv128 << 64) | l as bv128, s) == (RightOut(h, s) as bv128 << 64) | RightIn(h, l, s) as bv128
  {
    hide RightOut; hide RightIn;
    ShiftRightHalves(h, l, s);
  }

  lemma JoinShiftRight(h: bv64, l: bv64, s: bv64)
    requires 1 <= s <= 7
    ensures Shr(Join(h, l), s) == Join(RightOut(h, s), RightIn(h, l, s))
  {
    hide RightOut; hide RightIn; hide Shr;
    ShiftRightNamed(h, l, s);
  }

  lemma ShiftLeftPlain(h: bv64, l: bv64, s: bv64)
    requires 1 <= s <= 7
    ensures ((h as bv128 << 64) | l as bv128) << (8 * (s as bv128))
         == ((((h << (s * 8)) | (l >> (64 - s * 8))) as bv128) << 64) | ((l << (s * 8)) as bv128)
  {}

  lemma ShiftLeftHalves(h: bv64, l: bv64, s: bv64)
    requires 1 <= s <= 7
    ensures ((h as bv128 << 64) | l as bv128) << (8 * (s as bv128))
         == (LeftIn(h, l, s) as bv128 << 64) | LeftOut(l, s) as bv128
  {
    ShiftLeftPlain(h, l, s);
  }

  lemma ShiftLeftNamed(h: bv64, l: bv64, s: bv64)
    requires 1 <= s <= 7
    ensures Shl((h as bv128 << 64) | l as bv128, s) == (LeftIn(h, l, s) as bv128 << 64) | LeftOut(l, s) as bv128
  {
    hide LeftOut; hide LeftIn;
    ShiftLeftHalves(h, l, s);
  }

  lemma JoinShiftLeft(h: bv64, l: bv64, s: bv64)
    requires 1 <= s <= 7
    ensures Shl(Join(h, l), s) == Join(LeftIn(h, l, s), LeftOut(l, s))
  {
    hide LeftOut; hide LeftIn; hide Shl;
    ShiftLeftNamed(h, l, s);
  }

  /** The two routines are shifts of the whole 128-bit number by shift bytes, in every layout. */
  lemma ShiftsAreWide(layout: Layout, b: Block, shift: bv64)
    requires 1 <= shift <= 7
    ensures Wide(Logical(layout, RShift128(layout, b, shift))) == Shr(Wide(Logical(layout, b)), shift)
    ensures Wide(Logical(layout, LShift128(layout, b, shift))) == Shl(Wide(Logical(layout, b)), shift)
  {
    hide Cat; hide Hi; hide Lo; hide RightOut; hide RightIn; hide LeftOut; hide LeftIn; hide Join; hide Logical;
    hide Shr; hide Shl; hide Wide;
    ShiftsAreLayoutFree(layout, b, shift);
    var v := Logical(layout, b);
    var th, tl := Cat(v.u3, v.u2), Cat(v.u1, v.u0);
    CatSplit(RightOut(th, shift));
    CatSplit(RightIn(th, tl, shift));
    CatSplit(LeftIn(th, tl, shift));
    CatSplit(LeftOut(tl, shift));
    JoinShiftRight(th, tl, shift);
    JoinShiftLeft(th, tl, shift);
    WideIsJoin(v);
    WideIsJoin(Logical(layout, RShift128(layout, b, shift)));
    WideIsJoin(Logical(layout, LShift128(layout, b, shift)));
  }

  // ----- the recursion -----

  function Xor32(x: bv32, y: bv32): bv32 { x ^ y }

  function And32(x: bv32, y: bv32): bv32 { x & y }

  function Shr32(x: bv32, k: bv32): bv32
    requires k < 32
  {
    x >> k
  }

  function Shl32(x: bv32, k: bv32): bv32
    requires k < 32
  {
    x << k
  }

  /** One word of the recursion: a ^ x ^ ((b >> SR1) & msk) ^ y ^ (d << SL1). */
  function StepWord(a: bv32, x: bv32, b: bv32, msk: bv32, y: bv32, d: bv32, p: Params): bv32
    requires p.Valid()
  {
    Xor32(Xor32(Xor32(Xor32(a, x), And32(Shr32(b, p.sr1), msk)), y), Shl32(d, p.sl1))
  }

  /** do_recursion on stored blocks. The ONLY64 build uses the masks in the order 2, 1, 4, 3. */
  function DoRecursion(layout: Layout, p: Params, a: Block, b: Block, c: Block, d: Block): Block
    requires p.Valid()
  {
    var x, y := LShift128(layout, a, p.sl2), RShift128(layout, c, p.sr2);
    if layout.Only64? then
      Block(StepWord(a.u0, x.u0, b.u0, p.msk.u1, y.u0, d.u0, p), StepWord(a.u1, x.u1, b.u1, p.msk.u0, y.u1, d.u1, p),
            StepWord(a.u2, x.u2, b.u2, p.msk.u3, y.u2, d.u2, p), StepWord(a.u3, x.u3, b.u3, p.msk.u2, y.u3, d.u3, p))
    else
      Block(StepWord(a.u0, x.u0, b.u0, p.msk.u0, y.u0, d.u0, p), StepWord(a.u1, x.u1, b.u1, p.msk.u1, y.u1, d.u1, p),
            StepWord(a.u2, x.u2, b.u2, p.msk.u2, y.u2, d.u2, p), StepWord(a.u3, x.u3, b.u3, p.msk.u3, y.u3, d.u3, p))
  }

  /** Exchanging the words of all four inputs exchanges the words of the result: the ONLY64 recursion
    * is the default one seen through the exchanged layout. */
  lemma RecursionIsLayoutFree(layout: Layout, p: Params, a: Block, b: Block, c: Block, d: Block)
    requires p.Valid()
    ensures Logical(layout, DoRecursion(layout, p, a, b, c, d))
         == DoRecursion(Little, p, Logical(layout, a), Logical(layout, b), Logical(layout, c), Logical(layout, d))
  {
    hide LShift128; hide RShift128; hide StepWord;
    ShiftsAreLayoutFree(layout, a, p.sl2);
    ShiftsAreLayoutFree(layout, c, p.sr2);
  }

  /** Lane by lane exclusive or. */
  function XorLanes(a: Block, b: Block): Block {
    Block(Xor32(a.u0, b.u0), Xor32(a.u1, b.u1), Xor32(a.u2, b.u2), Xor32(a.u3, b.u3))
  }

  function XorOfThree(x: bv32, y: bv32, z: bv32): bv32 {
    x ^ y ^ z
  }

  /** One word of the recursion in plain operators. */
  predicate IsStepWord(r: bv32, a: bv32, x: bv32, b: bv32, msk: bv32, y: bv32, d: bv32, sr1: bv32, sl1: bv32)
    requires sr1 < 32 && sl1 < 32
  {
    r == XorOfThree(XorOfThree(a, x, (b >> sr1) & msk), y, d << sl1)
  }

  // The functions that name the operators, unfolded.

  lemma XorTwice(x: bv32, y: bv32, z: bv32)
    ensures Xor32(Xor32(x, y), z) == x ^ y ^ z
  {}

  lemma XorOfThreeIs(x: bv32, y: bv32, z: bv32)
    ensures XorOfThree(x, y, z) == x ^ y ^ z
  {}

  lemma XorsUnfolded(x: bv32, y: bv32, z: bv32)
    ensures Xor32(Xor32(x, y), z) == XorOfThree(x, y, z)
  {
    hide Xor32; hide XorOfThree;
    XorTwice(x, y, z);
    XorOfThreeIs(x, y, z);
  }

  lemma MaskedShift(b: bv32, k: bv32, msk: bv32)
    requires k < 32
    ensures And32(Shr32(b, k), msk) == (b >> k) & msk
  {}

  lemma LeftShift(d: bv32, k: bv32)
    requires k < 32
    ensures Shl32(d, k) == d << k
  {}

  lemma StepWordFrom(a: bv32, x: bv32, b: bv32, msk: bv32, y: bv32, d: bv32, sr1: bv32, sl1: bv32)
    requires sr1 < 32 && sl1 < 32
    ensures var r := XorOfThree(XorOfThree(a, x, And32(Shr32(b, sr1), msk)), y, Shl32(d, sl1));
            IsStepWord(r, a, x, b, msk, y, d, sr1, sl1)
  {
    hide XorOfThree; hide And32; hide Shr32; hide Shl32;
    MaskedShift(b, sr1, msk);
    LeftShift(d, sl1);
  }

  lemma StepWordIs(a: bv32, x: bv32, b: bv32, msk: bv32, y: bv32, d: bv32, p: Params)
    requires p.Valid()
    ensures IsStepWord(StepWord(a, x, b, msk, y, d, p), a, x, b, msk, y, d, p.sr1, p.sl1)
  {
    hide Xor32; hide And32; hide Shr32; hide Shl32; hide XorOfThree; hide IsStepWord;
    var right, left := And32(Shr32(b, p.sr1), msk), Shl32(d, p.sl1);
    XorsUnfolded(a, x, right);
    XorsUnfolded(XorOfThree(a, x, right), y, left);
    StepWordFrom(a, x, b, msk, y, d, p.sr1, p.sl1);
  }

  /** The recursion of every build on words in logical order: x is the first block shifted left as one
    * 128-bit number, y the third one shifted right; the words of the other two are shifted each by itself,
    * right under the mask and left. */
  lemma RecursionIsWide(layout: Layout, p: Params, a: Block, b: Block, c: Block, d: Block) returns (x: Block, y: Block)
    requires p.Valid()
    ensures Wide(x) == Shl(Wide(Logical(layout, a)), p.sl2) && Wide(y) == Shr(Wide(Logical(layout, c)), p.sr2)
    ensures var r := Logical(layout, DoRecursion(layout, p, a, b, c, d));
            var a, b, d := Logical(layout, a), Logical(layout, b), Logical(layout, d);
            && IsStepWord(r.u0, a.u0, x.u0, b.u0, p.msk.u0, y.u0, d.u0, p.sr1, p.sl1)
            && IsStepWord(r.u1, a.u1, x.u1, b.u1, p.msk.u1, y.u1, d.u1, p.sr1, p.sl1)
            && IsStepWord(r.u2, a.u2, x.u2, b.u2, p.msk.u2, y.u2, d.u2, p.sr1, p.sl1)
            && IsStepWord(r.u3, a.u3, x.u3, b.u3, p.msk.u3, y.u3, d.u3, p.sr1, p.sl1)
  {
    hide LShift128; hide RShift128; hide StepWord; hide Wide; hide Logical; hide IsStepWord; hide Shl; hide Shr;
    RecursionIsLayoutFree(layout, p, a, b, c, d);
    var va, vb, vc, vd := Logical(layout, a), Logical(layout, b), Logical(layout, c), Logical(layout, d);
    x, y := LShift128(Little, va, p.sl2), RShift128(Little, vc, p.sr2);
    LittleIsLogical(va);
    LittleIsLogical(vc);
    LittleIsLogical(x);
    LittleIsLogical(y);
    ShiftsAreWide(Little, va, p.sl2);
    ShiftsAreWide(Little, vc, p.sr2);
    StepWordIs(va.u0, x.u0, vb.u0, p.msk.u0, y.u0, vd.u0, p);
    StepWordIs(va.u1, x.u1, vb.u1, p.msk.u1, y.u1, vd.u1, p);
    StepWordIs(va.u2, x.u2, vb.u2, p.msk.u2, y.u2, vd.u2, p);
    StepWordIs(va.u3, x.u3, vb.u3, p.msk.u3, y.u3, vd.u3, p);
  }

  lemma LittleIsLogical(b: Block)
    ensures Logical(Little, b) == b
  {}
}
