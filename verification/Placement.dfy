/** genrand, and where the benchmark places its I/O requests. */
module Placement {
  import opened Basics
  import opened Blocks
  import opened Sfmt
  import Arith

  const INT64_MAX: nat := 0x7fff_ffff_ffff_ffff

  // ----- genrand -----

  /** What a call of genrand comes to: a value, the failed assertion idx % 2 == 0 of gen_rand64, or
    * no result after the given number of redraws. */
  datatype Draw = Value(v: nat) | AssertionFails | StillDrawing

  /** The bound below which a word is accepted; max is an unsigned 64-bit number. */
  function AcceptBelow(max: nat): nat
    requires max > 0
  {
    INT64_MAX / max * max
  }

  function Number(w: bv32): (n: nat)
    ensures n < TWO_32
  {
    w as nat
  }

  /** The value genrand(max) makes of an accepted word. */
  function Pick(word: nat, max: nat): (v: nat)
    requires max > 0
    ensures v < max
  {
    word % max
  }

  predicate Accepted(t: nat, max: nat)
    requires max > 0
  {
    t < AcceptBelow(max)
  }

  /** Every 32-bit word is accepted at once if and only if max fits a signed 64-bit number; above
    * that, no number at all is accepted. */
  lemma EveryWordAccepted(max: nat)
    requires max > 0
    ensures (forall t: nat | t < TWO_32 :: Accepted(t, max)) <==> max <= INT64_MAX
    ensures max > INT64_MAX ==> forall t: nat :: !Accepted(t, max)
  {
    var q, r := INT64_MAX / max, INT64_MAX % max;
    assert max * q == INT64_MAX - r && 0 <= r < max;
    if max <= INT64_MAX {
      Arith.MulBound(max, q);
      assert AcceptBelow(max) >= TWO_32;
    } else {
      assert q == 0 && AcceptBelow(max) == 0;
      assert !Accepted(0, max);
    }
  }

  /** genrand(max), given up after patience redraws. */
  method Genrand(g: Sfmt, max: nat, patience: nat) returns (d: Draw)
    requires g.Valid() && g.initialized && g.idx <= 4 * g.p.n && !g.layout.Only64?
    requires 0 < max < TWO_64
    modifies g.sfmt, g`idx
    ensures max <= INT64_MAX ==> d == Value(Number(Upcoming(old(g.Now()), 0)) % max)
    ensures max <= INT64_MAX ==> Continues(g.Now(), old(g.Now()), 1)
    ensures max > INT64_MAX ==> !d.Value?
    ensures g.idx <= 4 * g.p.n
  {
    hide Params.Valid; hide Upcoming; hide Continues; hide ViewOf; hide Number; hide Accepted;
    hide Even;
    EveryWordAccepted(max);
    var w := g.GenRand32();
    var t: nat := Number(w);
    var left := patience;
    while !Accepted(t, max)
      invariant max <= INT64_MAX ==>
          w == Upcoming(old(g.Now()), 0) && t == Number(w) && Continues(g.Now(), old(g.Now()), 1)
      invariant g.idx <= 4 * g.p.n
      decreases left
    {
      if left == 0 {
        return StillDrawing;
      }
      if !Even(g.idx) {
        return AssertionFails;
      }
      var wide := g.GenRand64();
      t := wide as nat;
      left := left - 1;
    }
    d := Value(Pick(t, max));
  }

  /** One word per draw: the k-th call of genrand returns the k-th word of the stream modulo its max. */
  method GenrandMany(g: Sfmt, maxes: seq<nat>) returns (vs: seq<nat>)
    requires g.Valid() && g.initialized && g.idx <= 4 * g.p.n && !g.layout.Only64?
    requires forall k :: 0 <= k < |maxes| ==> 0 < maxes[k] <= INT64_MAX
    modifies g.sfmt, g`idx
    ensures |vs| == |maxes|
    ensures forall k :: 0 <= k < |maxes| ==> vs[k] == Number(Upcoming(old(g.Now()), k)) % maxes[k]
    ensures Continues(g.Now(), old(g.Now()), |maxes|)
    ensures g.idx <= 4 * g.p.n
  {
    hide Params.Valid; hide Upcoming; hide Continues; hide ViewOf; hide Number;
    ContinuesByIndex(g.Now(), 0);
    vs := [];
    var i := 0;
    while i < |maxes|
      invariant 0 <= i <= |maxes| && |vs| == i && g.idx <= 4 * g.p.n
      invariant forall k :: 0 <= k < i ==> vs[k] == Number(Upcoming(old(g.Now()), k)) % maxes[k]
      invariant Continues(g.Now(), old(g.Now()), i)
    {
      ghost var before := g.Now();
      var d := Genrand(g, maxes[i], 0);
      ContinuesAt(before, old(g.Now()), i, 0);
      ContinuesTwice(g.Now(), before, old(g.Now()), 1, i);
      vs := vs + [d.v];
      i := i + 1;
    }
  }

  // ----- I/O positions -----

  datatype AccessType = Sequential | Uniform | Tpcc

  /** The fields of user_confs that placement reads. */
  datatype Conf = Conf(accessType: AccessType, rawDevice: bool, nprocs: nat, totBlocks: nat, blockSize: nat)
  {
    /** What the configuration must meet: a raw device is split into one region per process, random
      * placement needs two blocks per region, NURand needs ten blocks in all, and byte offsets are
      * unsigned 64-bit numbers. */
    predicate Valid() {
      && nprocs > 0 && blockSize > 0
      && totBlocks <= INT64_MAX && totBlocks * blockSize < TWO_64
      && Region() >= (if accessType.Sequential? then 1 else 2)
      && (accessType.Tpcc? ==> totBlocks >= 10)
    }

    /** The number of blocks one process works on. */
    function Region(): nat
      requires nprocs > 0
    {
      if rawDevice then totBlocks / nprocs else totBlocks
    }

    /** The first block of the region of a process, in its file or on the device. */
    function Base(idproc: nat): nat
      requires nprocs > 0
    {
      if rawDevice then Region() * idproc else 0
    }

    /** The byte offset of block slot of the region of a process. */
    function Offset(idproc: nat, slot: nat): nat
      requires nprocs > 0
    {
      (Base(idproc) + slot) * blockSize
    }
  }

  /** The constants A and C of NURand. */
  datatype Nurand = Nurand(a: nat, c: nat)

  method InitializeNurand(g: Sfmt, totb: nat) returns (nu: Nurand)
    requires g.Valid() && g.initialized && g.idx <= 4 * g.p.n && !g.layout.Only64?
    requires totb <= INT64_MAX
    modifies g.sfmt, g`idx
    ensures nu.a == totb / 10 && nu.c == Number(Upcoming(old(g.Now()), 0)) % (nu.a + 1) <= nu.a
    ensures Continues(g.Now(), old(g.Now()), 1) && g.idx <= 4 * g.p.n
  {
    hide Params.Valid; hide Upcoming; hide Continues; hide ViewOf; hide Number;
    var a := totb / 10;
    var d := Genrand(g, a + 1, 0);
    nu := Nurand(a, d.v);
  }

  /** The bitwise or of two unsigned numbers. */
  function BitOr(x: nat, y: nat): nat {
    if x == 0 then y
    else if y == 0 then x
    else 2 * BitOr(x / 2, y / 2) + if x % 2 == 1 || y % 2 == 1 then 1 else 0
  }

  /** Bit k of a number. */
  predicate Bit(x: nat, k: nat) {
    if k == 0 then x % 2 == 1 else Bit(x / 2, k - 1)
  }

  lemma {:induction false} NoBits(k: nat)
    ensures !Bit(0, k)
  {
    if k == 0 {
    } else {
      NoBits(k - 1);
    }
  }

  /** A number is told by its bits. */
  lemma {:induction false} BitsTell(x: nat, y: nat)
    requires forall k: nat :: Bit(x, k) <==> Bit(y, k)
    ensures x == y
    decreases x + y
  {
    assert Bit(x, 0) <==> Bit(y, 0);
    if x + y > 0 {
      forall k: nat ensures Bit(x / 2, k) <==> Bit(y / 2, k) {
        assert Bit(x, k + 1) <==> Bit(y, k + 1);
      }
      BitsTell(x / 2, y / 2);
    }
  }

  /** Bit by bit, the result is one where one of the operands is. */
  lemma {:induction false} BitOrBits(x: nat, y: nat, k: nat)
    ensures Bit(BitOr(x, y), k) <==> Bit(x, k) || Bit(y, k)
    decreases k
  {
    NoBits(k);
    if k == 0 || x == 0 || y == 0 {
    } else {
      BitOrBits(x / 2, y / 2, k - 1);
      assert BitOr(x, y) / 2 == BitOr(x / 2, y / 2);
    }
  }

  /** How many words of the stream one placement takes. */
  function WordsTaken(t: AccessType): nat {
    match t case Sequential => 0 case Uniform => 1 case Tpcc => 2
  }

  /** The block chosen inside a region of totb blocks, from the operation counter and the next two
    * words. C leaves open which genrand of the NURand expression is called first. */
  function Slot(t: AccessType, nu: Nurand, totb: nat, totOps: nat, w0: nat, w1: nat, aFirst: bool): nat
    requires totb >= (if t.Sequential? then 1 else 2) && totb <= INT64_MAX
    requires t.Tpcc? ==> 0 < nu.a <= INT64_MAX
  {
    match t
    case Sequential => totOps % totb
    case Uniform => Pick(w0, totb - 1)
    case Tpcc =>
      var wa, wy := if aFirst then w0 else w1, if aFirst then w1 else w0;
      (BitOr(Pick(wa, nu.a), Pick(wy, totb - 1)) + nu.c) % totb
  }

  /** Every slot lies in the region. */
  lemma SlotInRegion(t: AccessType, nu: Nurand, totb: nat, totOps: nat, w0: nat, w1: nat, aFirst: bool)
    requires totb >= (if t.Sequential? then 1 else 2) && totb <= INT64_MAX
    requires t.Tpcc? ==> 0 < nu.a <= INT64_MAX
    ensures Slot(t, nu, totb, totOps, w0, w1, aFirst) < totb
    ensures t.Uniform? ==> Slot(t, nu, totb, totOps, w0, w1, aFirst) < totb - 1
  {
    hide BitOr;
  }

  /** Some word makes uniform placement choose block s of its region. */
  ghost predicate UniformChooses(nu: Nurand, totb: nat, s: nat)
    requires 2 <= totb <= INT64_MAX
  {
    exists w: nat :: w < TWO_32 && Slot(Uniform, nu, totb, 0, w, 0, true) == s
  }

  /** Uniform placement can choose exactly the blocks before the last one of the region, and of these only
    * the first 2^32, because one 32-bit word is drawn. */
  lemma UniformReaches(nu: Nurand, totb: nat, s: nat)
    requires 2 <= totb <= INT64_MAX
    ensures UniformChooses(nu, totb, s) <==> s < totb - 1 && s < TWO_32
  {
    if s < totb - 1 && s < TWO_32 {
      Arith.DivRemainder(s, 0, s, totb - 1);
      assert Slot(Uniform, nu, totb, 0, s, 0, true) == s;
    } else if UniformChooses(nu, totb, s) {
      var w: nat :| w < TWO_32 && Slot(Uniform, nu, totb, 0, w, 0, true) == s;
      PickAtMost(w, totb - 1);
      assert false;
    }
  }

  lemma PickAtMost(word: nat, max: nat)
    requires max > 0
    ensures Pick(word, max) <= word
  {
    Arith.MulBound(max, word / max);
  }

  /** The block of its region that a process chooses with the generator in state now. */
  ghost function Chosen(conf: Conf, nu: Nurand, totOps: nat, now: Snapshot, aFirst: bool): (slot: nat)
    requires conf.Valid() && (conf.accessType.Tpcc? ==> 0 < nu.a <= INT64_MAX) && now.Valid()
    ensures slot < conf.Region()
  {
    RegionFits(conf);
    SlotInRegion(conf.accessType, nu, conf.Region(), totOps,
                 Number(Upcoming(now, 0)), Number(Upcoming(now, 1)), aFirst);
    Slot(conf.accessType, nu, conf.Region(), totOps, Number(Upcoming(now, 0)), Number(Upcoming(now, 1)), aFirst)
  }

  /** The offset in plain arithmetic: from the first byte of the region of the process, the block whose number
    * is the operation counter modulo the region, a word modulo one less than the region, or NURand of two
    * words, as the access type has it. */
  predicate IsPosition(conf: Conf, nu: Nurand, totOps: nat, idproc: nat, w0: nat, w1: nat, aFirst: bool, offset: nat)
    requires conf.Valid() && (conf.accessType.Tpcc? ==> 0 < nu.a)
  {
    var region := if conf.rawDevice then conf.totBlocks / conf.nprocs else conf.totBlocks;
    var base := if conf.rawDevice then region * idproc else 0;
    match conf.accessType
    case Sequential => offset == (base + totOps % region) * conf.blockSize
    case Uniform => offset == (base + w0 % (region - 1)) * conf.blockSize
    case Tpcc =>
      var x := if aFirst then BitOr(w0 % nu.a, w1 % (region - 1)) else BitOr(w1 % nu.a, w0 % (region - 1));
      offset == (base + (x + nu.c) % region) * conf.blockSize
  }

  lemma PositionOfSlot(conf: Conf, nu: Nurand, totOps: nat, idproc: nat, w0: nat, w1: nat, aFirst: bool)
    requires conf.Valid() && (conf.accessType.Tpcc? ==> 0 < nu.a <= INT64_MAX)
    ensures conf.Region() <= INT64_MAX && conf.Region() >= (if conf.accessType.Sequential? then 1 else 2)
    ensures IsPosition(conf, nu, totOps, idproc, w0, w1, aFirst,
                       conf.Offset(idproc, Slot(conf.accessType, nu, conf.Region(), totOps, w0, w1, aFirst)))
  {
    RegionFits(conf);
    hide BitOr;
  }

  /** get_ioposition: the byte offset of the next request of a process. The offset is block-aligned,
    * lies in the region of the process, and is fixed by the counter and the words drawn. */
  method GetIoPosition(conf: Conf, nu: Nurand, totOps: nat, idproc: nat, g: Sfmt, aFirst: bool) returns (offset: nat)
    requires conf.Valid() && idproc < conf.nprocs
    requires conf.accessType.Tpcc? ==> 0 < nu.a <= INT64_MAX
    requires g.Valid() && g.initialized && g.idx <= 4 * g.p.n && !g.layout.Only64?
    modifies g.sfmt, g`idx
    ensures offset == conf.Offset(idproc, Chosen(conf, nu, totOps, old(g.Now()), aFirst)) < TWO_64
    ensures IsPosition(conf, nu, totOps, idproc, Number(Upcoming(old(g.Now()), 0)), Number(Upcoming(old(g.Now()), 1)),
                       aFirst, offset)
    ensures Continues(g.Now(), old(g.Now()), WordsTaken(conf.accessType)) && g.idx <= 4 * g.p.n
  {
    hide Params.Valid; hide Upcoming; hide Continues; hide ViewOf; hide Number; hide BitOr; hide Slot; hide Conf.Base;
    hide Conf.Offset; hide Conf.Valid; hide IsPosition;
    RegionFits(conf);
    ghost var now := g.Now();
    PositionOfSlot(conf, nu, totOps, idproc, Number(Upcoming(now, 0)), Number(Upcoming(now, 1)), aFirst);
    var totalBlocks := conf.totBlocks;
    if conf.rawDevice {
      totalBlocks := totalBlocks / conf.nprocs;
    }
    var res := BlockInRegion(conf.accessType, nu, totalBlocks, totOps, g, aFirst);
    OffsetOfSlot(conf, idproc, res);
    offset := res * conf.blockSize;
    if conf.rawDevice {
      offset := totalBlocks * conf.blockSize * idproc + offset;
    }
  }

  /** The three placement functions, as block numbers. */
  method BlockInRegion(t: AccessType, nu: Nurand, totb: nat, totOps: nat, g: Sfmt, aFirst: bool) returns (res: nat)
    requires totb >= (if t.Sequential? then 1 else 2) && totb <= INT64_MAX
    requires t.Tpcc? ==> 0 < nu.a <= INT64_MAX
    requires g.Valid() && g.initialized && g.idx <= 4 * g.p.n && !g.layout.Only64?
    modifies g.sfmt, g`idx
    ensures res == Slot(t, nu, totb, totOps,
                        Number(Upcoming(old(g.Now()), 0)), Number(Upcoming(old(g.Now()), 1)), aFirst) < totb
    ensures Continues(g.Now(), old(g.Now()), WordsTaken(t)) && g.idx <= 4 * g.p.n
  {
    hide Params.Valid; hide Upcoming; hide Continues; hide ViewOf; hide Number; hide BitOr;
    ghost var now := g.Now();
    ContinuesByIndex(now, 0);
    SlotInRegion(t, nu, totb, totOps, Number(Upcoming(now, 0)), Number(Upcoming(now, 1)), aFirst);
    match t
    case Sequential =>
      res := totOps % totb;
    case Uniform =>
      var d := Genrand(g, totb - 1, 0);
      res := d.v;
    case Tpcc =>
      var first := Genrand(g, if aFirst then nu.a else totb - 1, 0);
      ghost var middle := g.Now();
      var second := Genrand(g, if aFirst then totb - 1 else nu.a, 0);
      ContinuesAt(middle, now, 1, 0);
      ContinuesTwice(g.Now(), middle, now, 1, 1);
      res := (BitOr(first.v, second.v) + nu.c) % totb;
      BitOrCommutes(first.v, second.v);
  }

  lemma {:induction false} BitOrCommutes(x: nat, y: nat)
    ensures BitOr(x, y) == BitOr(y, x)
    decreases x
  {
    if x == 0 || y == 0 {
    } else {
      BitOrCommutes(x / 2, y / 2);
    }
  }

  lemma RegionFits(conf: Conf)
    requires conf.Valid()
    ensures conf.nprocs > 0 && conf.Region() <= INT64_MAX
    ensures conf.Region() >= (if conf.accessType.Sequential? then 1 else 2)
  {
    Arith.MulBound(conf.Region(), conf.nprocs);
  }

  lemma Distribute(r: nat, b: nat, i: nat, s: nat)
    ensures r * b * i + s * b == (r * i + s) * b
  {
    assert r * b * i == r * i * b;
  }

  lemma OffsetOfSlot(conf: Conf, idproc: nat, slot: nat)
    requires conf.Valid() && idproc < conf.nprocs && slot < conf.Region()
    ensures conf.Base(idproc) + slot < conf.totBlocks && conf.Offset(idproc, slot) < TWO_64
    ensures (if conf.rawDevice then conf.Region() * conf.blockSize * idproc else 0) + slot * conf.blockSize
         == conf.Offset(idproc, slot)
  {
    RegionsInside(conf, idproc);
    Distribute(conf.Region(), conf.blockSize, idproc, slot);
    LessTimes(conf.Base(idproc) + slot, conf.totBlocks, conf.blockSize);
  }

  /** The block number that the program computes back from the offset, as offset / block_size. */
  lemma BlockOfOffset(conf: Conf, idproc: nat, slot: nat)
    requires conf.Valid() && idproc < conf.nprocs && slot < conf.Region()
    ensures conf.Offset(idproc, slot) % conf.blockSize == 0
    ensures conf.Offset(idproc, slot) / conf.blockSize == conf.Base(idproc) + slot
  {
    var k := conf.Base(idproc) + slot;
    hide Conf.Base;
    assert conf.Offset(idproc, slot) == conf.blockSize * k + 0;
    Arith.DivRemainder(conf.Offset(idproc, slot), k, 0, conf.blockSize);
  }

  lemma LessTimes(x: nat, y: nat, b: nat)
    requires x < y && 0 < b
    ensures x * b < y * b
  {}

  lemma RegionsInside(conf: Conf, idproc: nat)
    requires conf.nprocs > 0 && idproc < conf.nprocs
    ensures conf.Base(idproc) + conf.Region() <= conf.totBlocks
  {
    if conf.rawDevice {
      var r, left := conf.Region(), conf.nprocs - idproc - 1;
      assert conf.nprocs * r + conf.totBlocks % conf.nprocs == conf.totBlocks;
      assert conf.nprocs * r == r * idproc + r + r * left;
      Arith.MulBound(r, left);
    }
  }

  /** On a raw device no block belongs to the regions of two processes, and no region leaves the device. */
  lemma RegionsDisjoint(conf: Conf, p: nat, q: nat, s: nat, t: nat)
    requires conf.rawDevice && conf.nprocs > 0 && p < conf.nprocs && q < conf.nprocs && p != q
    requires s < conf.Region() && t < conf.Region()
    ensures conf.Base(p) + s != conf.Base(q) + t
    ensures conf.Base(p) + s < conf.totBlocks
  {
    RegionsInside(conf, p);
    var r := conf.Region();
    assert r * p - r * q == r * (p - q);
    Arith.MulBound(r, p - q);
  }

  // ----- sequential placement -----

  /** The block that sequential placement chooses for a counter. */
  function InOrder(totb: nat, totOps: nat): nat
    requires 0 < totb <= INT64_MAX
  {
    Slot(Sequential, Nurand(0, 0), totb, totOps, 0, 0, true)
  }

  /** It chooses every block of the region in any run of as many consecutive counter values as the region
    * has blocks, .. */
  lemma SequentialReaches(totb: nat, first: nat, s: nat) returns (k: nat)
    requires 0 < totb <= INT64_MAX && s < totb
    ensures k < totb && InOrder(totb, first + k) == s
  {
    var q, r := first / totb, first % totb;
    assert first == totb * q + r;
    if s >= r {
      k := s - r;
      Arith.DivRemainder(first + k, q, s, totb);
    } else {
      k := s - r + totb;
      assert totb * (q + 1) == totb * q + totb;
      Arith.DivRemainder(first + k, q + 1, s, totb);
    }
  }

  /** .. and each of them only once. */
  lemma SequentialOnce(totb: nat, first: nat, k: nat, l: nat)
    requires 0 < totb <= INT64_MAX && k < totb && l < totb
    ensures InOrder(totb, first + k) == InOrder(totb, first + l) ==> k == l
  {
    var a, b, s := (first + k) / totb, (first + l) / totb, (first + k) % totb;
    if s == (first + l) % totb {
      assert first + k == totb * a + s && first + l == totb * b + s;
      assert k - l == totb * (a - b);
      Arith.MulBound(totb, a - b);
    }
  }

  /** Block s of the region of a process is at one of these offsets. */
  ghost predicate VisitedAt(conf: Conf, idproc: nat, offsets: seq<nat>, s: nat)
    requires conf.nprocs > 0
  {
    exists k :: 0 <= k < |offsets| && offsets[k] == conf.Offset(idproc, s)
  }

  /** One sweep: as many sequential requests in a row as the region has blocks, the counter growing by one,
    * go to every block of the region, to each exactly once, and draw no random number. */
  method SequentialSweep(conf: Conf, nu: Nurand, first: nat, idproc: nat, g: Sfmt, aFirst: bool)
    returns (offsets: seq<nat>)
    requires conf.Valid() && idproc < conf.nprocs && conf.accessType.Sequential?
    requires g.Valid() && g.initialized && g.idx <= 4 * g.p.n && !g.layout.Only64?
    modifies g.sfmt, g`idx
    ensures |offsets| == conf.Region()
    ensures forall s :: 0 <= s < conf.Region() ==> VisitedAt(conf, idproc, offsets, s)
    ensures forall k, l :: 0 <= k < |offsets| && 0 <= l < |offsets| && offsets[k] == offsets[l] ==> k == l
    ensures Continues(g.Now(), old(g.Now()), 0) && g.idx <= 4 * g.p.n
  {
    hide Params.Valid; hide Upcoming; hide Continues; hide ViewOf; hide Number; hide Conf.Base; hide Conf.Offset;
    hide Conf.Valid; hide IsPosition; hide InOrder; hide Slot;
    RegionFits(conf);
    ContinuesByIndex(g.Now(), 0);
    var region := if conf.rawDevice then conf.totBlocks / conf.nprocs else conf.totBlocks;
    offsets := [];
    var k := 0;
    while k < region
      invariant 0 <= k == |offsets| <= region && g.idx <= 4 * g.p.n
      invariant forall j :: 0 <= j < k ==> offsets[j] == conf.Offset(idproc, InOrder(region, first + j))
      invariant Continues(g.Now(), old(g.Now()), 0)
    {
      ghost var before := g.Now();
      var offset := GetIoPosition(conf, nu, first + k, idproc, g, aFirst);
      ChosenInOrder(conf, nu, first + k, before, aFirst);
      ContinuesTwice(g.Now(), before, old(g.Now()), 0, 0);
      offsets := offsets + [offset];
      k := k + 1;
    }
    SweepVisits(conf, first, idproc, offsets);
  }

  lemma ChosenInOrder(conf: Conf, nu: Nurand, totOps: nat, now: Snapshot, aFirst: bool)
    requires conf.Valid() && conf.accessType.Sequential? && now.Valid()
    ensures conf.nprocs > 0 && 0 < conf.Region() <= INT64_MAX
    ensures Chosen(conf, nu, totOps, now, aFirst) == InOrder(conf.Region(), totOps)
    ensures WordsTaken(conf.accessType) == 0
  {
    RegionFits(conf);
  }

  lemma SweepVisits(conf: Conf, first: nat, idproc: nat, offsets: seq<nat>)
    requires conf.Valid() && idproc < conf.nprocs && 0 < conf.Region() <= INT64_MAX && |offsets| == conf.Region()
    requires forall j :: 0 <= j < |offsets| ==> offsets[j] == conf.Offset(idproc, InOrder(conf.Region(), first + j))
    ensures forall s :: 0 <= s < conf.Region() ==> VisitedAt(conf, idproc, offsets, s)
    ensures forall k, l :: 0 <= k < |offsets| && 0 <= l < |offsets| && offsets[k] == offsets[l] ==> k == l
  {
    hide Conf.Offset; hide Conf.Valid; hide InOrder;
    var region := conf.Region();
    forall s | 0 <= s < region ensures VisitedAt(conf, idproc, offsets, s) {
      var k := SequentialReaches(region, first, s);
      assert offsets[k] == conf.Offset(idproc, s);
    }
    forall k, l | 0 <= k < |offsets| && 0 <= l < |offsets| && offsets[k] == offsets[l] ensures k == l {
      InOrderBelow(region, first + k);
      InOrderBelow(region, first + l);
      BlockOfOffset(conf, idproc, InOrder(region, first + k));
      BlockOfOffset(conf, idproc, InOrder(region, first + l));
      SequentialOnce(region, first, k, l);
    }
  }

  lemma InOrderBelow(totb: nat, totOps: nat)
    requires 0 < totb <= INT64_MAX
    ensures InOrder(totb, totOps) < totb
  {}
}
