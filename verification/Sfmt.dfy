/** The SFMT generator: state, refill, word-by-word and bulk output, initialisation.
  *
  * Everything a caller can observe is stated over View(), the state with its words in logical order,
  * so that the three builds (see Blocks.Layout) are held to one specification.
  */
module Sfmt {
  import opened Blocks
  import opened Parity
  import opened Seeding
  import Arith
  import Recurrence

  /** The recursion step of a build, on stored blocks. Little is also the step on logical blocks. */
  function Step(layout: Layout, p: Params): Recurrence.Rec<Block>
    requires p.Valid()
  {
    (a: Block, b: Block, c: Block, d: Block) => DoRecursion(layout, p, a, b, c, d)
  }

  function LogicalBlock(layout: Layout): Block -> Block {
    (b: Block) => Logical(layout, b)
  }

  function ViewOf(layout: Layout, s: seq<Block>): (v: seq<Block>)
    ensures |v| == |s|
  {
    Recurrence.Map(LogicalBlock(layout), s)
  }

  /** Word k of the infinite 32-bit stream denoted by a logical state: W read word by word. */
  ghost function Stream(p: Params, v: seq<Block>, k: nat): bv32
    requires p.Valid() && |v| == p.n
  {
    Word(Recurrence.W(Step(Little, p), p.pos1, v, k / 4), k % 4)
  }

  /** A state that is the window of W starting at block m denotes the stream from word 4m on. */
  lemma StreamOfWindow(p: Params, v: seq<Block>, m: nat, k: nat)
    requires p.Valid() && |v| == p.n
    ensures Stream(p, Recurrence.Window(Step(Little, p), p.pos1, v, m, p.n), k) == Stream(p, v, 4 * m + k)
  {
    hide Step;
    Recurrence.WindowDenotesSuffix(Step(Little, p), p.pos1, v, m, k / 4);
    assert (4 * m + k) / 4 == m + k / 4 && (4 * m + k) % 4 == k % 4;
  }

  lemma StepCommutes(layout: Layout, p: Params)
    requires p.Valid()
    ensures forall a, b, c, d :: LogicalBlock(layout)(Step(layout, p)(a, b, c, d))
              == Step(Little, p)(LogicalBlock(layout)(a), LogicalBlock(layout)(b), LogicalBlock(layout)(c),
                  LogicalBlock(layout)(d))
  {
    hide DoRecursion; hide Logical;
    forall a, b, c, d
      ensures LogicalBlock(layout)(Step(layout, p)(a, b, c, d))
           == Step(Little, p)(LogicalBlock(layout)(a), LogicalBlock(layout)(b), LogicalBlock(layout)(c),
               LogicalBlock(layout)(d))
    {
      RecursionIsLayoutFree(layout, p, a, b, c, d);
    }
  }

  /** The sequence of stored blocks of any build is, seen logically, the one sequence W. */
  lemma StoredIsLogical(layout: Layout, p: Params, s: seq<Block>, k: nat)
    requires p.Valid() && |s| == p.n
    ensures Recurrence.W(Step(Little, p), p.pos1, ViewOf(layout, s), k)
         == LogicalBlock(layout)(Recurrence.W(Step(layout, p), p.pos1, s, k))
  {
    hide Step; hide LogicalBlock; hide Recurrence.W;
    StepCommutes(layout, p);
    Recurrence.Homomorphism(Step(layout, p), Step(Little, p), LogicalBlock(layout), p.pos1, s, k);
  }

  /** Element k of a 64-bit array, as the host of the build reads it from stored blocks. */
  function Load64(layout: Layout, b: Block, half: nat): bv64
    requires half < 2
  {
    if layout.Little? then Cat(Word(b, 2 * half + 1), Word(b, 2 * half))
    else Cat(Word(b, 2 * half), Word(b, 2 * half + 1))
  }

  lemma LoadIsLogical(layout: Layout, b: Block, half: nat)
    requires half < 2
    ensures Load64(layout, if layout.Big? then SwapPairs(b) else b, half)
         == Cat(Word(Logical(layout, b), 2 * half + 1), Word(Logical(layout, b), 2 * half))
  {
    hide Cat;
  }

  lemma IdxOfSum(layout: Layout, q: nat, r: nat)
    requires r < 4
    ensures IdxOf(layout, r) < 4 && IdxOf(layout, 4 * q + r) == 4 * q + IdxOf(layout, r)
  {
    Arith.DivRemainder(4 * q + r, 2 * q + r / 2, r % 2, 2);
  }

  lemma IdxOfParts(layout: Layout, k: nat)
    ensures IdxOf(layout, k) / 4 == k / 4 && IdxOf(layout, k) % 4 == IdxOf(layout, k % 4) < 4
  {
    var q, r := k / 4, k % 4;
    hide IdxOf;
    IdxOfSum(layout, q, r);
    Arith.DivRemainder(4 * q + IdxOf(layout, r), q, IdxOf(layout, r), 4);
  }

  lemma IdxOfInBlock(layout: Layout, b: Block, i: nat, w: bv32)
    requires i < 4
    ensures IdxOf(layout, i) < 4
    ensures Word(b, IdxOf(layout, i)) == Word(Logical(layout, b), i)
    ensures Logical(layout, PutWord(b, IdxOf(layout, i), w)) == PutWord(Logical(layout, b), i, w)
  {
    if layout.Only64? {
      assert IdxOf(layout, 0) == 1 && IdxOf(layout, 1) == 0 && IdxOf(layout, 2) == 3 && IdxOf(layout, 3) == 2;
    }
  }

  /** Reading or writing stored word idxof(k) is reading or writing logical word k of the same block. */
  lemma IdxOfIsLogical(layout: Layout, b: Block, k: nat, w: bv32)
    ensures IdxOf(layout, k) / 4 == k / 4
    ensures Word(b, IdxOf(layout, k) % 4) == Word(Logical(layout, b), k % 4)
    ensures Logical(layout, PutWord(b, IdxOf(layout, k) % 4, w)) == PutWord(Logical(layout, b), k % 4, w)
  {
    hide IdxOf; hide Word; hide PutWord; hide Logical;
    IdxOfParts(layout, k);
    IdxOfInBlock(layout, b, k % 4, w);
  }

  /** Parameters, logical state and index of a generator at one moment. */
  datatype Snapshot = Snapshot(p: Params, view: seq<Block>, idx: nat)
  {
    ghost predicate Valid() { p.Valid() && |view| == p.n }
  }

  /** Word k of the 32-bit stream still to come. */
  ghost function Upcoming(s: Snapshot, k: nat): bv32
    requires s.Valid()
  {
    Stream(s.p, s.view, s.idx + k)
  }

  /** The next 64-bit number: two words of the stream, the earlier one low. */
  ghost function Next64(s: Snapshot): bv64
    requires s.Valid()
  {
    Cat(Upcoming(s, 1), Upcoming(s, 0))
  }

  /** now continues the stream of before after n words. */
  ghost predicate Continues(now: Snapshot, before: Snapshot, n: nat)
    requires now.Valid() && before.Valid()
  {
    forall k: nat :: Upcoming(now, k) == Upcoming(before, n + k)
  }

  lemma ContinuesAt(now: Snapshot, before: Snapshot, n: nat, k: nat)
    requires now.Valid() && before.Valid() && Continues(now, before, n)
    ensures Upcoming(now, k) == Upcoming(before, n + k)
  {}

  lemma Next64Same(now: Snapshot, before: Snapshot)
    requires now.Valid() && before.Valid() && Continues(now, before, 0)
    ensures Next64(now) == Next64(before)
  {
    hide Upcoming; hide Cat;
    ContinuesAt(now, before, 0, 0);
    ContinuesAt(now, before, 0, 1);
  }

  lemma ContinuesTwice(c: Snapshot, b: Snapshot, a: Snapshot, m: nat, n: nat)
    requires c.Valid() && b.Valid() && a.Valid()
    requires Continues(c, b, m) && Continues(b, a, n)
    ensures Continues(c, a, n + m)
  {
    hide Upcoming;
    forall k: nat ensures Upcoming(c, k) == Upcoming(a, n + m + k) {
      ContinuesAt(c, b, m, k);
      ContinuesAt(b, a, n, m + k);
    }
  }

  /** Two generators that continue the same stream after equally many words agree from there on. */
  lemma ContinueAlike(b: Snapshot, a: Snapshot, s: Snapshot, n: nat)
    requires b.Valid() && a.Valid() && s.Valid() && Continues(b, s, n) && Continues(a, s, n)
    ensures Continues(b, a, 0)
  {
    hide Upcoming;
  }

  lemma ContinuesByIndex(s: Snapshot, n: nat)
    requires s.Valid()
    ensures Continues(s.(idx := s.idx + n), s, n)
    ensures Continues(s, s, 0)
  {
    hide Stream;
    var t := s.(idx := s.idx + n);
    forall k: nat ensures Upcoming(t, k) == Upcoming(s, n + k) {
      assert s.idx + n + k == s.idx + (n + k);
    }
  }

  /** The state after the refill test of a draw: the next window once the index has reached the end. */
  ghost function Refilled(s: Snapshot): (t: Snapshot)
    requires s.Valid()
    ensures t.Valid()
  {
    if s.idx < 4 * s.p.n then s
    else Snapshot(s.p, Recurrence.Window(Step(Little, s.p), s.p.pos1, s.view, s.p.n, s.p.n), 0)
  }

  /** The state after a draw of so many words. */
  ghost function Drawn(s: Snapshot, words: nat): (t: Snapshot)
    requires s.Valid()
    ensures t.Valid()
  {
    var t := Refilled(s);
    t.(idx := t.idx + words)
  }

  /** The index test of gen_rand64. */
  predicate Even(k: nat) { k % 2 == 0 }

  lemma EvenSteps(k: nat, n: nat)
    ensures Even(4 * n) && Even(0)
    ensures Even(k) ==> Even(k + 2)
    ensures Even(k) && k < 4 * n ==> k + 2 <= 4 * n
  {
    var h := k / 2;
    Arith.DivRemainder(4 * n, 2 * n, 0, 2);
    if Even(k) {
      assert k == 2 * h;
      Arith.DivRemainder(k + 2, h + 1, 0, 2);
    }
  }

  class Sfmt {
    const layout: Layout
    const p: Params
    const sfmt: array<Block>
    var idx: nat
    var initialized: bool

    ghost predicate Valid() {
      p.Valid() && sfmt.Length == p.n
    }

    /** The state with the words of every block in logical order. */
    ghost function View(): (v: seq<Block>)
      reads sfmt
      ensures |v| == sfmt.Length
    {
      ViewOf(layout, sfmt[..])
    }

    /** The current state as a value; Upcoming reads from it the words still to come. */
    ghost function Now(): (s: Snapshot)
      requires Valid()
      reads this, sfmt
      ensures s.Valid()
    {
      Snapshot(p, View(), idx)
    }

    constructor (layout: Layout, p: Params)
      requires p.Valid()
      ensures Valid() && fresh(sfmt) && !initialized && this.layout == layout && this.p == p
    {
      this.layout, this.p := layout, p;
      sfmt := new Block[p.n](_ => ZERO_BLOCK);
      idx, initialized := 0, false;
    }

    // ----- psfmt32[idxof(k)] -----

    method GetWord(k: nat) returns (w: bv32)
      requires Valid() && k < 4 * p.n
      ensures w == Unpack(View())[k]
    {
      var at := IdxOf(layout, k);
      IdxOfIsLogical(layout, sfmt[k / 4], k, 0);
      w := Word(sfmt[at / 4], at % 4);
      UnpackAt(View(), k / 4, k % 4);
    }

    method PutWord(k: nat, w: bv32)
      requires Valid() && k < 4 * p.n
      modifies sfmt
      ensures Unpack(View()) == old(Unpack(View()))[k := w]
    {
      ghost var before := View();
      var at := IdxOf(layout, k);
      IdxOfIsLogical(layout, sfmt[k / 4], k, w);
      hide IdxOf; hide Logical; hide Word; hide Blocks.PutWord;
      sfmt[at / 4] := Blocks.PutWord(sfmt[at / 4], at % 4, w);
      assert View() == before[k / 4 := Blocks.PutWord(before[k / 4], k % 4, w)];
      UnpackUpdate(before, k, w);
    }

    // ----- period_certification -----

    method PeriodCertification()
      requires Valid()
      modifies sfmt
      ensures View() == CertifiedState(old(View()), p.parity)
    {
      hide Unpack; hide InnerProduct; hide Xor32; hide And32; hide Word; hide LowestBit;
      ghost var v := View();
      var inner: bv32 := 0;
      var i := 0;
      while i < 4
        invariant 0 <= i <= 4 && View() == v
        invariant inner == InnerWord(v[0], p.parity, i)
      {
        var w := GetWord(i);
        UnpackAt(v, 0, i);
        inner := Xor32(inner, And32(w, Word(p.parity, i)));
        i := i + 1;
      }
      InnerWordParity(v[0], p.parity);
      inner := Fold(inner);
      if Odd(inner) {
        assert View() == v[0 := v[0]];
        return;
      }
      Correct();
    }

    /** The second half of period_certification: one bit of block 0 is flipped. */
    method Correct()
      requires Valid() && !InnerProduct(View()[0], p.parity)
      modifies sfmt
      ensures View() == CertifiedState(old(View()), p.parity)
    {
      hide Unpack; hide InnerProduct; hide Xor32; hide And32; hide LowestBit; hide Certified;
      ghost var v := View();
      var i := 0;
      while i < 4
        invariant 0 <= i <= 4 && View() == v
        invariant forall j :: 0 <= j < i ==> Word(p.parity, j) == 0
      {
        var found, work := FindBit(Word(p.parity, i));
        if found {
          var w := GetWord(i);
          UnpackAt(v, 0, i);
          PutWord(i, Xor32(w, work));
          CorrectWord(v, p.parity, i);
          PackUnpack(View());
          return;
        }
        i := i + 1;
      }
      SomeWordNonzero(p.parity);
    }

    // ----- initialisation -----

    /** The whole state after init_gen_rand is fixed by the seed, in every build; raw is the state that is
      * certified: its first word is the seed, and every other one follows from the word before it. */
    method InitGenRand(seed: bv32) returns (ghost raw: seq<Block>)
      requires Valid()
      modifies sfmt, this`idx, this`initialized
      ensures |raw| == p.n && IsSeeded(Unpack(raw), seed)
      ensures raw == SeedState(p.n, seed) && View() == CertifiedState(raw, p.parity)
      ensures idx == 4 * p.n && initialized
    {
      hide Unpack; hide Pack; hide NextSeedWord; hide CertifiedState; hide IsSeeded; hide SeedWords;
      var n32 := 4 * p.n;
      PutWord(0, seed);
      FirstWord(Unpack(View()), seed);
      var i := 1;
      while i < n32
        invariant 1 <= i <= n32
        invariant IsSeeded(Unpack(View())[..i], seed)
      {
        var prev := GetWord(i - 1);
        SeededNext(Unpack(View()), seed, i);
        PutWord(i, NextSeedWord(prev, i));
        i := i + 1;
      }
      assert Unpack(View())[..n32] == Unpack(View());
      SeededOnce(Unpack(View()), seed);
      PackUnpack(View());
      raw := View();
      idx := n32;
      PeriodCertification();
      initialized := true;
    }

    /** One round of the first two loops of init_by_array. */
    method RoundAdd(i: nat, add: bv32)
      requires Valid() && i < 4 * p.n
      modifies sfmt
      ensures Unpack(View()) == MixAdd(old(Unpack(View())), i, add)
    {
      hide Unpack; hide Func1; hide Xor32; hide Add32; hide Lag; hide Mid;
      var n32 := 4 * p.n;
      var mid, lag := Mid(n32), Lag(n32);
      var x := GetWord(i);
      var y := GetWord((i + mid) % n32);
      var z := GetWord((i + n32 - 1) % n32);
      var r := Func1(Xor32(Xor32(x, y), z));
      PutWord((i + mid) % n32, Add32(y, r));
      r := Add32(r, add);
      y := GetWord((i + mid + lag) % n32);
      PutWord((i + mid + lag) % n32, Add32(y, r));
      PutWord(i, r);
    }

    /** One round of the last loop of init_by_array. */
    method RoundXor(i: nat)
      requires Valid() && i < 4 * p.n
      modifies sfmt
      ensures Unpack(View()) == MixXor(old(Unpack(View())), i)
    {
      hide Unpack; hide Func2; hide Xor32; hide Add32; hide Sub32; hide Lag; hide Mid; hide Nat32;
      var n32 := 4 * p.n;
      var mid, lag := Mid(n32), Lag(n32);
      var x := GetWord(i);
      var y := GetWord((i + mid) % n32);
      var z := GetWord((i + n32 - 1) % n32);
      var r := Func2(Add32(Add32(x, y), z));
      PutWord((i + mid) % n32, Xor32(y, r));
      r := Sub32(r, Nat32(i));
      y := GetWord((i + mid + lag) % n32);
      PutWord((i + mid + lag) % n32, Xor32(y, r));
      PutWord(i, r);
    }

    /** The whole state after init_by_array is fixed by the key, in every build; block 0 is certified. */
    method InitByArray(key: seq<bv32>)
      requires Valid() && |key| < 0x7fff_ffff
      modifies sfmt, this`idx, this`initialized
      ensures View() == CertifiedState(KeyState(p.n, key), p.parity)
      ensures idx == 4 * p.n && initialized
    {
      hide Unpack; hide Pack; hide KeyWords; hide KeyRounds; hide MixAdd; hide CertifiedState;
      FillState();
      KeyRoundsSteps(4 * p.n, key, 0);
      RoundAdd(0, Nat32(|key|));
      var i := KeyLoop(key);
      i := CountLoop(key, i);
      LastRounds(key, i);
      PackUnpack(View());
      idx := 4 * p.n;
      PeriodCertification();
      initialized := true;
    }

    /** The first loop of init_by_array; i is where the next loop goes on. */
    method KeyLoop(key: seq<bv32>) returns (i: nat)
      requires Valid() && |key| < 0x7fff_ffff
      requires Unpack(View()) == KeyRounds(4 * p.n, key, 0)
      modifies sfmt
      ensures Unpack(View()) == KeyRounds(4 * p.n, key, |key|)
      ensures i == At(|key| + 1, 4 * p.n)
    {
      hide Unpack; hide MixAdd; hide Add32; hide KeyRounds; hide At; hide Nat32; hide Succ;
      var n32 := 4 * p.n;
      var count := Rounds(n32, key);
      var j := 0;
      i := 1;
      AtNext(0, n32);
      while j < count && j < |key|
        invariant 0 <= j <= |key| && i == At(j + 1, n32)
        invariant Unpack(View()) == KeyRounds(n32, key, j)
      {
        KeyRoundsSteps(n32, key, j);
        RoundAdd(i, Add32(key[j], Nat32(i)));
        AtNext(j + 1, n32);
        i, j := Succ(i, n32), j + 1;
      }
    }

    /** The second loop of init_by_array, from round |key| on. */
    method CountLoop(key: seq<bv32>, start: nat) returns (i: nat)
      requires Valid() && |key| < 0x7fff_ffff
      requires Unpack(View()) == KeyRounds(4 * p.n, key, |key|)
      requires start == At(|key| + 1, 4 * p.n)
      modifies sfmt
      ensures Unpack(View()) == KeyRounds(4 * p.n, key, Rounds(4 * p.n, key))
      ensures i == At(Rounds(4 * p.n, key) + 1, 4 * p.n)
    {
      hide Unpack; hide MixAdd; hide Add32; hide KeyRounds; hide At; hide Nat32; hide Succ;
      var n32 := 4 * p.n;
      var count := Rounds(n32, key);
      var j := |key|;
      i := start;
      while j < count
        invariant |key| <= j <= count && i == At(j + 1, n32)
        invariant Unpack(View()) == KeyRounds(n32, key, j)
      {
        KeyRoundsSteps(n32, key, j);
        RoundAdd(i, Nat32(i));
        AtNext(j + 1, n32);
        i, j := Succ(i, n32), j + 1;
      }
    }

    /** The last loop of init_by_array. */
    method LastRounds(key: seq<bv32>, start: nat)
      requires Valid() && |key| < 0x7fff_ffff
      requires Unpack(View()) == KeyRounds(4 * p.n, key, Rounds(4 * p.n, key))
      requires start == At(Rounds(4 * p.n, key) + 1, 4 * p.n)
      modifies sfmt
      ensures Unpack(View()) == KeyWords(4 * p.n, key)
    {
      hide Unpack; hide MixXor; hide KeyRounds; hide Rounds; hide At; hide Succ;
      var n32 := 4 * p.n;
      var i, j := start, 0;
      while j < n32
        invariant 0 <= j <= n32 && i == At(Rounds(n32, key) + j + 1, n32)
        invariant Unpack(View()) == FinalRounds(n32, key, j)
      {
        RoundXor(i);
        AtNext(Rounds(n32, key) + j + 1, n32);
        i, j := Succ(i, n32), j + 1;
      }
    }

    /** memset of the whole state to the byte 0x8b. */
    method FillState()
      requires Valid()
      modifies sfmt
      ensures Unpack(View()) == seq(4 * p.n, _ => 0x8b8b8b8b)
    {
      var w: bv32 := 0x8b8b8b8b;
      forall i | 0 <= i < p.n {
        sfmt[i] := Block(w, w, w, w);
      }
      assert forall i :: 0 <= i < p.n ==> View()[i] == Block(w, w, w, w);
    }

    // ----- refill -----

    method GenRandAll()
      requires Valid()
      modifies sfmt
      ensures View() == Recurrence.Window(Step(Little, p), p.pos1, old(View()), p.n, p.n)
    {
      hide Recurrence.W; hide Step;
      ghost var raw := sfmt[..];
      Recurrence.GenRandAll(Step(layout, p), p.pos1, sfmt);
      WindowOfView(layout, p, raw, sfmt[..], p.n);
    }

    /** Fills array with W[n .. n + size) and moves the state to W[size .. size + n). */
    method GenRandArray(out: array<Block>, size: nat)
      requires Valid() && p.n <= size == out.Length && out != sfmt
      modifies sfmt, out
      ensures forall k :: 0 <= k < size ==>
                Logical(layout, out[k]) == Recurrence.W(Step(Little, p), p.pos1, old(View()), p.n + k)
      ensures View() == Recurrence.Window(Step(Little, p), p.pos1, old(View()), size, p.n)
    {
      hide Recurrence.W; hide Step; hide Logical;
      ghost var raw := sfmt[..];
      Recurrence.GenRandArray(Step(layout, p), p.pos1, sfmt, out, size);
      WindowOfView(layout, p, raw, sfmt[..], size);
      forall k | 0 <= k < size
        ensures Logical(layout, out[k]) == Recurrence.W(Step(Little, p), p.pos1, ViewOf(layout, raw), p.n + k)
      {
        StoredIsLogical(layout, p, raw, p.n + k);
      }
    }

    // ----- word by word -----

    /** The test both draws begin with: a used-up state is replaced by the next one. */
    method Refill()
      requires Valid() && idx <= 4 * p.n
      modifies sfmt, this`idx
      ensures Continues(Now(), old(Now()), 0)
      ensures Now() == Refilled(old(Now()))
      ensures idx == (if old(idx) >= 4 * p.n then 0 else old(idx)) < 4 * p.n
    {
      hide Stream; hide Step; hide Recurrence.W;
      ghost var v := View();
      if idx >= 4 * p.n {
        GenRandAll();
        idx := 0;
        forall k: nat ensures Upcoming(Now(), k) == Stream(p, v, 4 * p.n + k) {
          StreamOfWindow(p, v, p.n, k);
        }
      }
    }

    /** gen_rand32 (not in the ONLY64 build): the next word of the stream. */
    method GenRand32() returns (r: bv32)
      requires Valid() && initialized && idx <= 4 * p.n && !layout.Only64?
      modifies sfmt, this`idx
      ensures r == Upcoming(old(Now()), 0)
      ensures Continues(Now(), old(Now()), 1)
      ensures Now() == Drawn(old(Now()), 1)
      ensures idx == (if old(idx) >= 4 * p.n then 1 else old(idx) + 1) <= 4 * p.n
    {
      hide Stream; hide Step; hide Recurrence.W; hide Continues; hide Word;
      Refill();
      StreamInState(p, View(), idx);
      r := Word(sfmt[idx / 4], idx % 4);
      ghost var refilled := Now();
      ContinuesAt(refilled, old(Now()), 0, 0);
      ContinuesByIndex(refilled, 1);
      idx := idx + 1;
      ContinuesTwice(Now(), refilled, old(Now()), 1, 0);
    }

    /** The read of gen_rand64 at an even index inside the state: two loads on a big-endian host in the
      * default layout, one 64-bit load otherwise. */
    method Read64() returns (r: bv64)
      requires Valid() && idx < 4 * p.n && Even(idx)
      ensures r == Next64(Now())
    {
      hide Cat; hide Word; hide Stream; hide Upcoming;
      UpcomingPair(Now());
      var b := sfmt[idx / 4];
      if layout.Big? {
        var r1, r2 := Word(b, idx % 4), Word(b, idx % 4 + 1);
        r := Cat(r2, r1);
      } else {
        r := Load64(layout, b, (idx % 4) / 2);
        LoadIsLogical(layout, b, (idx % 4) / 2);
      }
    }

    /** gen_rand64: two consecutive words of the stream, the earlier one low. */
    method GenRand64() returns (r: bv64)
      requires Valid() && initialized && idx <= 4 * p.n && Even(idx)
      modifies sfmt, this`idx
      ensures r == Next64(old(Now()))
      ensures Continues(Now(), old(Now()), 2)
      ensures Now() == Drawn(old(Now()), 2)
      ensures idx == (if old(idx) >= 4 * p.n then 2 else old(idx) + 2) <= 4 * p.n && Even(idx)
    {
      hide Stream; hide Step; hide Recurrence.W; hide Cat; hide Word; hide ViewOf; hide Continues; hide Refilled;
      hide Upcoming; hide Params.Valid; hide Next64; hide Even;
      EvenSteps(idx, p.n);
      EvenSteps(0, p.n);
      Refill();
      ghost var refilled := Now();
      r := Read64();
      Next64Same(refilled, old(Now()));
      ContinuesByIndex(refilled, 2);
      idx := idx + 2;
      ContinuesTwice(Now(), refilled, old(Now()), 2, 0);
    }

    // ----- in bulk -----

    /** fill_array32 (not in the ONLY64 build): the next size words of the stream, in one pass. The
      * state it leaves behind continues the stream after them. The caller's uint32_t array is given
      * as the blocks it is cast to. */
    method FillArray32(out: array<Block>, size: nat)
      requires Valid() && initialized && idx == 4 * p.n && !layout.Only64?
      requires size % 4 == 0 && size >= 4 * p.n && out.Length == size / 4 && out != sfmt
      modifies sfmt, out, this`idx
      ensures forall k :: 0 <= k < size ==> Word(out[k / 4], k % 4) == Upcoming(old(Now()), k)
      ensures Continues(Now(), old(Now()), size)
      ensures idx == 4 * p.n
    {
      hide Stream; hide Step; hide Recurrence.W; hide Word;
      ghost var v := View();
      GenRandArray(out, size / 4);
      idx := 4 * p.n;
      forall k | 0 <= k < size ensures Word(out[k / 4], k % 4) == Stream(p, v, 4 * p.n + k) {
        StreamOfBlock(p, v, k);
      }
      forall k: nat ensures Upcoming(Now(), k) == Stream(p, v, 4 * p.n + (size + k)) {
        StreamOfWindow(p, v, size / 4, 4 * p.n + k);
      }
    }

    /** fill_array64: the next 2 * size words of the stream as size 64-bit numbers in host order. */
    method FillArray64(out: array<Block>, size: nat)
      requires Valid() && initialized && idx == 4 * p.n
      requires size % 2 == 0 && size >= 2 * p.n && out.Length == size / 2 && out != sfmt
      modifies sfmt, out, this`idx
      ensures forall k :: 0 <= k < size ==>
                Load64(layout, out[k / 2], k % 2) == Cat(Upcoming(old(Now()), 2 * k + 1), Upcoming(old(Now()), 2 * k))
      ensures Continues(Now(), old(Now()), 2 * size)
      ensures idx == 4 * p.n
    {
      hide Stream; hide Step; hide Recurrence.W; hide Word; hide Cat; hide Load64; hide Logical;
      ghost var v := View();
      GenRandArray(out, size / 2);
      idx := 4 * p.n;
      ghost var filled := out[..];
      if layout.Big? {
        Swap(out);
      }
      forall k | 0 <= k < size
        ensures Load64(layout, out[k / 2], k % 2)
             == Cat(Stream(p, v, 4 * p.n + (2 * k + 1)), Stream(p, v, 4 * p.n + 2 * k))
      {
        LoadOfStream(layout, p, v, filled[k / 2], k);
      }
      forall k: nat ensures Upcoming(Now(), k) == Stream(p, v, 4 * p.n + (2 * size + k)) {
        StreamOfWindow(p, v, size / 2, 4 * p.n + k);
      }
    }

    /** swap: exchanges the words of every block of the caller's array. */
    static method Swap(out: array<Block>)
      modifies out
      ensures forall i :: 0 <= i < out.Length ==> out[i] == SwapPairs(old(out[i]))
    {
      var i := 0;
      while i < out.Length
        invariant 0 <= i <= out.Length
        invariant forall j :: 0 <= j < i ==> out[j] == SwapPairs(old(out[j]))
        invariant forall j :: i <= j < out.Length ==> out[j] == old(out[j])
      {
        var x, y := out[i].u0, out[i].u2;
        out[i] := Block(out[i].u1, x, out[i].u3, y);
        i := i + 1;
      }
    }
  }

  /** What the host loads from a filled (and on a big-endian host exchanged) block. */
  lemma LoadOfStream(layout: Layout, p: Params, v: seq<Block>, b: Block, k: nat)
    requires p.Valid() && |v| == p.n
    requires Logical(layout, b) == Recurrence.W(Step(Little, p), p.pos1, v, p.n + k / 2)
    ensures Load64(layout, if layout.Big? then SwapPairs(b) else b, k % 2)
         == Cat(Stream(p, v, 4 * p.n + (2 * k + 1)), Stream(p, v, 4 * p.n + 2 * k))
  {
    hide Stream; hide Step; hide Recurrence.W; hide Word; hide Cat; hide Load64; hide Logical; hide SwapPairs;
    LoadIsLogical(layout, b, k % 2);
    StreamOfBlock(p, v, 2 * k);
    StreamOfBlock(p, v, 2 * k + 1);
    assert (2 * k) / 4 == k / 2 && (2 * k) % 4 == 2 * (k % 2);
    assert (2 * k + 1) / 4 == k / 2 && (2 * k + 1) % 4 == 2 * (k % 2) + 1;
  }

  lemma StreamOfBlock(p: Params, v: seq<Block>, k: nat)
    requires p.Valid() && |v| == p.n
    ensures Stream(p, v, 4 * p.n + k) == Word(Recurrence.W(Step(Little, p), p.pos1, v, p.n + k / 4), k % 4)
  {
    hide Step; hide Recurrence.W;
    assert (4 * p.n + k) / 4 == p.n + k / 4 && (4 * p.n + k) % 4 == k % 4;
  }

  lemma WindowOfView(layout: Layout, p: Params, raw: seq<Block>, raw': seq<Block>, start: nat)
    requires p.Valid() && |raw| == p.n
    requires raw' == Recurrence.Window(Step(layout, p), p.pos1, raw, start, p.n)
    ensures ViewOf(layout, raw') == Recurrence.Window(Step(Little, p), p.pos1, ViewOf(layout, raw), start, p.n)
  {
    hide Recurrence.W; hide Step; hide LogicalBlock;
    var target := Recurrence.Window(Step(Little, p), p.pos1, ViewOf(layout, raw), start, p.n);
    forall i | 0 <= i < p.n ensures ViewOf(layout, raw')[i] == target[i] {
      StoredIsLogical(layout, p, raw, start + i);
    }
  }

  /** Before the state is used up, the stream is read off the state. */
  lemma StreamInState(p: Params, v: seq<Block>, k: nat)
    requires p.Valid() && |v| == p.n && k < 4 * p.n
    ensures Stream(p, v, k) == Word(v[k / 4], k % 4)
  {}

  lemma StreamPair(p: Params, v: seq<Block>, k: nat)
    requires p.Valid() && |v| == p.n && k < 4 * p.n && k % 2 == 0
    ensures Stream(p, v, k) == Word(v[k / 4], k % 4) && Stream(p, v, k + 1) == Word(v[k / 4], k % 4 + 1)
  {
    hide Stream; hide Word; hide Params.Valid;
    EvenIndex(k);
    StreamInState(p, v, k);
    StreamInState(p, v, k + 1);
  }

  /** The next two words, when the index is even and inside the state. */
  lemma UpcomingPair(s: Snapshot)
    requires s.Valid() && s.idx < 4 * s.p.n && Even(s.idx)
    ensures s.idx / 4 < |s.view| && s.idx % 4 + 1 < 4
    ensures Upcoming(s, 0) == Word(s.view[s.idx / 4], s.idx % 4)
    ensures Upcoming(s, 1) == Word(s.view[s.idx / 4], s.idx % 4 + 1)
  {
    hide Word; hide Stream;
    StreamPair(s.p, s.view, s.idx);
  }

  lemma EvenIndex(k: nat)
    requires k % 2 == 0
    ensures (k + 1) / 4 == k / 4 && (k + 1) % 4 == k % 4 + 1
  {}

  lemma SomeWordNonzero(parity: Block)
    requires parity != ZERO_BLOCK
    ensures exists j :: 0 <= j < 4 && Word(parity, j) != 0
  {
    assert Word(parity, 0) == parity.u0 && Word(parity, 1) == parity.u1;
    assert Word(parity, 2) == parity.u2 && Word(parity, 3) == parity.u3;
  }

  /** The accumulator of period_certification after i words. */
  function InnerWord(b: Block, parity: Block, i: nat): bv32
    requires i <= 4
    decreases i
  {
    if i == 0 then 0 else Xor32(InnerWord(b, parity, i - 1), And32(Word(b, i - 1), Word(parity, i - 1)))
  }

  lemma ZeroIsEven()
    ensures !ParityOf(0, 32)
  {
    OnesOfZero(32);
  }

  lemma XorZero(x: bv32)
    ensures Xor32(x, 0) == x
  {}

  /** Correcting the first nonzero word is exclusive or of block 0 with the correction block. */
  lemma CorrectWord(v: seq<Block>, parity: Block, i: nat)
    requires |v| > 0 && i < 4 && Word(parity, i) != 0 && forall j :: 0 <= j < i ==> Word(parity, j) == 0
    requires !InnerProduct(v[0], parity)
    ensures Pack(|v|, Unpack(v)[i := Xor32(Word(v[0], i), LowestBit(Word(parity, i)))]) == CertifiedState(v, parity)
  {
    hide Xor32; hide LowestBit; hide InnerProduct; hide Unpack; hide Pack; hide Word;
    hide Certified; hide Blocks.PutWord;
    var w := Xor32(Word(v[0], i), LowestBit(Word(parity, i)));
    CorrectedBlock(v[0], parity, i);
    UnpackUpdate(v, i, w);
    PackUnpack(v[0 := Certified(v[0], parity)]);
  }

  /** Flipping the found bit in word i of block 0 certifies that block. */
  lemma CorrectedBlock(b: Block, parity: Block, i: nat)
    requires i < 4 && Word(parity, i) != 0 && forall j :: 0 <= j < i ==> Word(parity, j) == 0
    requires !InnerProduct(b, parity)
    ensures Certified(b, parity) == Blocks.PutWord(b, i, Xor32(Word(b, i), LowestBit(Word(parity, i))))
  {
    hide Xor32; hide LowestBit; hide InnerProduct; hide XorLanes; hide Correction; hide Word; hide Blocks.PutWord;
    CorrectionAt(parity, i);
    XorOneWord(b, i, LowestBit(Word(parity, i)));
  }

  lemma XorOneWord(b: Block, i: nat, w: bv32)
    requires i < 4
    ensures XorLanes(b, Blocks.PutWord(ZERO_BLOCK, i, w)) == Blocks.PutWord(b, i, Xor32(Word(b, i), w))
  {
    hide Word; hide Blocks.PutWord; hide Xor32; hide XorLanes;
    match i
    case 0 => XorWord0(b, w);
    case 1 => XorWord1(b, w);
    case 2 => XorWord2(b, w);
    case _ => XorWord3(b, w);
  }

  lemma XorWord0(b: Block, w: bv32)
    ensures XorLanes(b, Blocks.PutWord(ZERO_BLOCK, 0, w)) == Blocks.PutWord(b, 0, Xor32(Word(b, 0), w))
  {
    hide Xor32;
    XorZero(b.u1);
    XorZero(b.u2);
    XorZero(b.u3);
  }

  lemma XorWord1(b: Block, w: bv32)
    ensures XorLanes(b, Blocks.PutWord(ZERO_BLOCK, 1, w)) == Blocks.PutWord(b, 1, Xor32(Word(b, 1), w))
  {
    hide Xor32;
    XorZero(b.u0);
    XorZero(b.u2);
    XorZero(b.u3);
  }

  lemma XorWord2(b: Block, w: bv32)
    ensures XorLanes(b, Blocks.PutWord(ZERO_BLOCK, 2, w)) == Blocks.PutWord(b, 2, Xor32(Word(b, 2), w))
  {
    hide Xor32;
    XorZero(b.u0);
    XorZero(b.u1);
    XorZero(b.u3);
  }

  lemma XorWord3(b: Block, w: bv32)
    ensures XorLanes(b, Blocks.PutWord(ZERO_BLOCK, 3, w)) == Blocks.PutWord(b, 3, Xor32(Word(b, 3), w))
  {
    hide Xor32;
    XorZero(b.u0);
    XorZero(b.u1);
    XorZero(b.u2);
  }

  lemma CorrectionAt(parity: Block, i: nat)
    requires i < 4 && Word(parity, i) != 0 && forall j :: 0 <= j < i ==> Word(parity, j) == 0
    ensures Correction(parity) == Blocks.PutWord(ZERO_BLOCK, i, LowestBit(Word(parity, i)))
  {
    hide LowestBit;
    assert Word(parity, 0) == parity.u0 && Word(parity, 1) == parity.u1;
    assert Word(parity, 2) == parity.u2 && Word(parity, 3) == parity.u3;
  }

  lemma InnerWordParity(b: Block, parity: Block)
    ensures ParityOf(InnerWord(b, parity, 4), 32) == InnerProduct(b, parity)
  {
    hide Xor32; hide And32; hide Ones; hide InnerProduct; hide ParityOf;
    var x0, x1 := And32(b.u0, parity.u0), And32(b.u1, parity.u1);
    var x2, x3 := And32(b.u2, parity.u2), And32(b.u3, parity.u3);
    assert InnerWord(b, parity, 1) == Xor32(0, x0);
    assert InnerWord(b, parity, 2) == Xor32(Xor32(0, x0), x1);
    assert InnerWord(b, parity, 3) == Xor32(Xor32(Xor32(0, x0), x1), x2);
    assert InnerWord(b, parity, 4) == Xor32(Xor32(Xor32(Xor32(0, x0), x1), x2), x3);
    ParityIsLinear(0, x0, 32);
    ParityIsLinear(Xor32(0, x0), x1, 32);
    ParityIsLinear(Xor32(Xor32(0, x0), x1), x2, 32);
    ParityIsLinear(Xor32(Xor32(Xor32(0, x0), x1), x2), x3, 32);
    ZeroIsEven();
    InnerProductLanes(b, parity);
  }
}
