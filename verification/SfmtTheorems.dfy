/** What the SFMT routines promise together: bulk output equals sequential output, the three builds
  * produce one stream, and initialisation always leaves a certified state. */
module SfmtTheorems {
  import opened Blocks
  import opened Parity
  import opened Seeding
  import opened Sfmt

  /** Both generators have the same words still to come, whatever their stored states are. */
  ghost predicate SameFuture(a: Sfmt, b: Sfmt)
    requires a.Valid() && b.Valid()
    reads a, a.sfmt, b, b.sfmt
  {
    Continues(a.Now(), b.Now(), 0)
  }

  ghost predicate Apart(a: Sfmt, b: Sfmt)
    reads a, b
  {
    a != b && a.sfmt != b.sfmt
  }

  /** n calls of gen_rand32. */
  method Draw32(g: Sfmt, n: nat) returns (xs: seq<bv32>)
    requires g.Valid() && g.initialized && g.idx <= 4 * g.p.n && !g.layout.Only64?
    modifies g.sfmt, g`idx
    ensures |xs| == n && forall k :: 0 <= k < n ==> xs[k] == Upcoming(old(g.Now()), k)
    ensures Continues(g.Now(), old(g.Now()), n)
    ensures g.idx <= 4 * g.p.n
  {
    hide Stream; hide Upcoming; hide Continues; hide Cat; hide ViewOf;
    ContinuesByIndex(g.Now(), 0);
    xs := [];
    var i := 0;
    while i < n
      invariant 0 <= i <= n && |xs| == i && g.idx <= 4 * g.p.n
      invariant forall k :: 0 <= k < i ==> xs[k] == Upcoming(old(g.Now()), k)
      invariant Continues(g.Now(), old(g.Now()), i)
    {
      ghost var before := g.Now();
      var x := g.GenRand32();
      ContinuesAt(before, old(g.Now()), i, 0);
      ContinuesTwice(g.Now(), before, old(g.Now()), 1, i);
      xs := xs + [x];
      i := i + 1;
    }
  }

  /** The state after n draws of gen_rand64. */
  ghost function DrawnMany(s: Snapshot, n: nat): (t: Snapshot)
    requires s.Valid()
    ensures t.Valid()
  {
    if n == 0 then s else Drawn(DrawnMany(s, n - 1), 2)
  }

  /** The next n 64-bit numbers of a state. */
  ghost function Draws64(s: Snapshot, n: nat): (xs: seq<bv64>)
    requires s.Valid()
    ensures |xs| == n
  {
    seq(n, k requires 0 <= k => Cat(Upcoming(s, 2 * k + 1), Upcoming(s, 2 * k)))
  }

  lemma DrawsNext(s: Snapshot, t: Snapshot, i: nat)
    requires s.Valid() && t.Valid() && Continues(t, s, 2 * i)
    ensures Draws64(s, i + 1) == Draws64(s, i) + [Next64(t)]
  {
    hide Upcoming; hide Cat;
    ContinuesAt(t, s, 2 * i, 0);
    ContinuesAt(t, s, 2 * i, 1);
  }

  /** n calls of gen_rand64. */
  method Draw64(g: Sfmt, n: nat) returns (xs: seq<bv64>)
    requires g.Valid() && g.initialized && g.idx <= 4 * g.p.n && Even(g.idx)
    modifies g.sfmt, g`idx
    ensures xs == Draws64(old(g.Now()), n)
    ensures Continues(g.Now(), old(g.Now()), 2 * n)
    ensures g.Now() == DrawnMany(old(g.Now()), n)
    ensures g.idx <= 4 * g.p.n && Even(g.idx)
  {
    hide Upcoming; hide Continues; hide Next64; hide ViewOf; hide Drawn; hide Draws64;
    hide Params.Valid; hide Even;
    ContinuesByIndex(g.Now(), 0);
    NoDraws(g.Now());
    xs := [];
    var i := 0;
    while i < n
      invariant 0 <= i <= n && g.idx <= 4 * g.p.n && Even(g.idx)
      invariant xs == Draws64(old(g.Now()), i)
      invariant Continues(g.Now(), old(g.Now()), 2 * i)
      invariant g.Now() == DrawnMany(old(g.Now()), i)
    {
      ghost var before := g.Now();
      var x := g.GenRand64();
      DrawsNext(old(g.Now()), before, i);
      ContinuesTwice(g.Now(), before, old(g.Now()), 2, 2 * i);
      xs := xs + [x];
      i := i + 1;
    }
  }

  lemma NoDraws(s: Snapshot)
    requires s.Valid()
    ensures Draws64(s, 0) == []
  {}

  /** Bulk equals sequential: fill_array32 on one generator gives exactly the words that size calls of
    * gen_rand32 give on another with the same future, and the futures stay the same afterwards. */
  method BulkEqualsSequential(a: Sfmt, b: Sfmt, out: array<Block>, size: nat) returns (xs: seq<bv32>)
    requires a.Valid() && a.initialized && a.idx == 4 * a.p.n && !a.layout.Only64?
    requires b.Valid() && b.initialized && b.idx <= 4 * b.p.n && !b.layout.Only64?
    requires Apart(a, b) && SameFuture(a, b)
    requires size % 4 == 0 && size >= 4 * a.p.n && out.Length == size / 4 && out != a.sfmt && out != b.sfmt
    modifies a.sfmt, a`idx, b.sfmt, b`idx, out
    ensures |xs| == size && forall k :: 0 <= k < size ==> Word(out[k / 4], k % 4) == xs[k]
    ensures SameFuture(a, b)
  {
    hide Word; hide Stream; hide Upcoming;
    xs := Draw32(b, size);
    a.FillArray32(out, size);
  }

  /** The logical state after seeding, whatever the build. */
  ghost function Seeded(p: Params, seed: bv32): (s: Snapshot)
    requires p.Valid()
    ensures s.Valid()
  {
    Snapshot(p, CertifiedState(SeedState(p.n, seed), p.parity), 4 * p.n)
  }

  ghost function Keyed(p: Params, key: seq<bv32>): (s: Snapshot)
    requires p.Valid() && |key| < 0x7fff_ffff
    ensures s.Valid()
  {
    Snapshot(p, CertifiedState(KeyState(p.n, key), p.parity), 4 * p.n)
  }

  /** Seeding and n draws: results and state are fixed by parameters and seed. */
  method SeedAndDraw(g: Sfmt, seed: bv32, n: nat) returns (xs: seq<bv64>)
    requires g.Valid()
    modifies g.sfmt, g`idx, g`initialized
    ensures xs == Draws64(Seeded(g.p, seed), n)
    ensures g.Now() == DrawnMany(Seeded(g.p, seed), n)
  {
    hide Params.Valid; hide CertifiedState; hide SeedState; hide Continues; hide ViewOf; hide DrawnMany; hide Draws64;
    hide Even;
    EvenSteps(0, g.p.n);
    ghost var raw := g.InitGenRand(seed);
    xs := Draw64(g, n);
  }

  method KeyAndDraw(g: Sfmt, key: seq<bv32>, n: nat) returns (xs: seq<bv64>)
    requires g.Valid() && |key| < 0x7fff_ffff
    modifies g.sfmt, g`idx, g`initialized
    ensures xs == Draws64(Keyed(g.p, key), n)
    ensures g.Now() == DrawnMany(Keyed(g.p, key), n)
  {
    hide Params.Valid; hide CertifiedState; hide KeyState; hide Continues; hide ViewOf; hide DrawnMany; hide Draws64;
    hide Even;
    EvenSteps(0, g.p.n);
    g.InitByArray(key);
    xs := Draw64(g, n);
  }

  /** One stream for all builds: two generators with the same parameters, seeded alike, agree on every
    * 64-bit draw, and their stored states stay equal up to the exchange of words that View undoes. */
  method BuildsAgree(a: Sfmt, b: Sfmt, seed: bv32, n: nat) returns (xs: seq<bv64>, ys: seq<bv64>)
    requires a.Valid() && b.Valid() && a.p == b.p && Apart(a, b)
    modifies a.sfmt, a`idx, a`initialized, b.sfmt, b`idx, b`initialized
    ensures xs == ys && |xs| == n
    ensures SameFuture(a, b) && a.View() == b.View() && a.idx == b.idx
  {
    hide Params.Valid; hide Draws64; hide Seeded; hide DrawnMany; hide Continues; hide ViewOf;
    xs := SeedAndDraw(a, seed, n);
    ys := SeedAndDraw(b, seed, n);
    ContinuesByIndex(a.Now(), 0);
  }

  /** The same for generators initialised by a key array. */
  method BuildsAgreeOnKeys(a: Sfmt, b: Sfmt, key: seq<bv32>, n: nat) returns (xs: seq<bv64>, ys: seq<bv64>)
    requires a.Valid() && b.Valid() && a.p == b.p && Apart(a, b) && |key| < 0x7fff_ffff
    modifies a.sfmt, a`idx, a`initialized, b.sfmt, b`idx, b`initialized
    ensures xs == ys && |xs| == n
    ensures SameFuture(a, b) && a.View() == b.View() && a.idx == b.idx
  {
    hide Params.Valid; hide Draws64; hide Keyed; hide DrawnMany; hide Continues; hide ViewOf;
    xs := KeyAndDraw(a, key, n);
    ys := KeyAndDraw(b, key, n);
    ContinuesByIndex(a.Now(), 0);
  }

  /** A 64-bit draw is two consecutive 32-bit draws of a twin generator, the earlier one low. */
  method WideDrawIsTwoWords(a: Sfmt, b: Sfmt) returns (wide: bv64, low: bv32, high: bv32)
    requires a.Valid() && a.initialized && a.idx <= 4 * a.p.n && Even(a.idx)
    requires b.Valid() && b.initialized && b.idx <= 4 * b.p.n && !b.layout.Only64?
    requires Apart(a, b) && SameFuture(a, b)
    modifies a.sfmt, a`idx, b.sfmt, b`idx
    ensures wide == Cat(high, low)
    ensures SameFuture(a, b)
  {
    hide Stream; hide Upcoming; hide Continues; hide ViewOf; hide Cat; hide Even;
    ghost var a0, b0 := a.Now(), b.Now();
    low := b.GenRand32();
    ghost var b1 := b.Now();
    high := b.GenRand32();
    ContinuesTwice(b.Now(), b1, b0, 1, 1);
    ContinuesAt(b1, b0, 1, 0);
    wide := a.GenRand64();
    ContinuesAt(a0, b0, 0, 0);
    ContinuesAt(a0, b0, 0, 1);
    ContinuesTwice(a.Now(), a0, b0, 2, 0);
    ContinueAlike(a.Now(), b.Now(), b0, 2);
  }

  /** Whatever state initialisation starts from, afterwards the inner product of the first 128 bits
    * with the parity vector is 1; at most one bit of block 0 was flipped, no other block was touched,
    * and certifying once more changes nothing. */
  lemma StateIsCertified(v: seq<Block>, parity: Block)
    requires |v| > 0 && parity != ZERO_BLOCK
    ensures var c := CertifiedState(v, parity);
            && InnerProduct(c[0], parity)
            && c[1..] == v[1..]
            && (c[0] == v[0] || exists e :: OnesOfBlock(e) == 1 && c[0] == XorLanes(v[0], e))
            && CertifiedState(c, parity) == c
  {
    hide InnerProduct; hide Certified; hide OnesOfBlock; hide XorLanes;
    CertificationHolds(v[0], parity);
  }
}
