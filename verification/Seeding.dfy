/** What the two initialisation routines put into the state, word by word in logical order. */
module Seeding {
  import opened Blocks
  import opened Parity
  import Arith

  function Unpack(v: seq<Block>): (ws: seq<bv32>)
    ensures |ws| == 4 * |v|
  {
    seq(4 * |v|, k requires 0 <= k < 4 * |v| => Word(v[k / 4], k % 4))
  }

  function Pack(n: nat, ws: seq<bv32>): (v: seq<Block>)
    requires |ws| == 4 * n
    ensures |v| == n
  {
    seq(n, i requires 0 <= i < n => Block(ws[4 * i], ws[4 * i + 1], ws[4 * i + 2], ws[4 * i + 3]))
  }

  lemma UnpackAt(v: seq<Block>, i: nat, j: nat)
    requires i < |v| && j < 4
    ensures Unpack(v)[4 * i + j] == Word(v[i], j)
  {
    assert (4 * i + j) / 4 == i && (4 * i + j) % 4 == j;
  }

  lemma PackAt(n: nat, ws: seq<bv32>, i: nat)
    requires |ws| == 4 * n && i < n
    ensures Pack(n, ws)[i] == Block(ws[4 * i], ws[4 * i + 1], ws[4 * i + 2], ws[4 * i + 3])
  {}

  lemma PackUnpack(v: seq<Block>)
    ensures Pack(|v|, Unpack(v)) == v
  {
    hide Unpack; hide Pack;
    var ws := Unpack(v);
    forall i | 0 <= i < |v| ensures Pack(|v|, ws)[i] == v[i] {
      UnpackAt(v, i, 0);
      UnpackAt(v, i, 1);
      UnpackAt(v, i, 2);
      UnpackAt(v, i, 3);
      PackAt(|v|, ws, i);
    }
  }

  /** Writing word k of a state is writing one word of its word sequence. */
  lemma UnpackUpdate(v: seq<Block>, k: nat, w: bv32)
    requires k < 4 * |v|
    ensures Unpack(v[k / 4 := PutWord(v[k / 4], k % 4, w)]) == Unpack(v)[k := w]
  {}

  /** period_certification on a whole state: only block 0 can change. */
  function CertifiedState(v: seq<Block>, parity: Block): (c: seq<Block>)
    requires |v| > 0
    ensures |c| == |v|
  {
    v[0 := Certified(v[0], parity)]
  }

  // ----- init_gen_rand -----

  /** A nonnegative C int as an unsigned 32-bit number. */
  function Nat32(i: nat): bv32
    requires i < 0x8000_0000
  {
    i as bv32
  }

  function NextSeedWord(prev: bv32, i: nat): bv32
    requires i < 0x8000_0000
  {
    1812433253 * (prev ^ (prev >> 30)) + (i as bv32)
  }

  function SeedWord(seed: bv32, k: nat): bv32
    requires k < 0x8000_0000
    decreases k
  {
    if k == 0 then seed else NextSeedWord(SeedWord(seed, k - 1), k)
  }

  /** The words init_gen_rand(seed) leaves in a state of size words, before certification. */
  function SeedWords(size: nat, seed: bv32): (ws: seq<bv32>)
    requires size < 0x8000_0000
    ensures |ws| == size
  {
    seq(size, k requires 0 <= k < size => SeedWord(seed, k))
  }

  /** next follows prev at place i of a seeded state: all arithmetic is modulo 2^32. */
  predicate SeedStep(prev: bv32, i: nat, next: bv32)
    requires i < 0x8000_0000
  {
    next == 1812433253 * (prev ^ (prev >> 30)) + (i as bv32)
  }

  lemma NextSeedWordIs(prev: bv32, i: nat)
    requires i < 0x8000_0000
    ensures SeedStep(prev, i, NextSeedWord(prev, i))
  {}

  /** The words of a state seeded with seed, before certification. */
  predicate IsSeeded(ws: seq<bv32>, seed: bv32)
    requires |ws| < 0x8000_0000
  {
    && (|ws| > 0 ==> ws[0] == seed)
    && forall k :: 0 < k < |ws| ==> SeedStep(ws[k - 1], k, ws[k])
  }

  lemma FirstWord(ws: seq<bv32>, seed: bv32)
    requires 0 < |ws| < 0x8000_0000 && ws[0] == seed
    ensures IsSeeded(ws[..1], seed)
  {}

  lemma SeededNext(ws: seq<bv32>, seed: bv32, i: nat)
    requires 0 < i < |ws| < 0x8000_0000 && IsSeeded(ws[..i], seed)
    ensures IsSeeded(ws[i := NextSeedWord(ws[i - 1], i)][..i + 1], seed)
  {
    hide NextSeedWord; hide SeedStep;
    var before, now := ws[..i], ws[i := NextSeedWord(ws[i - 1], i)][..i + 1];
    NextSeedWordIs(ws[i - 1], i);
    assert now[..i] == before && now[i] == NextSeedWord(ws[i - 1], i);
    forall k | 0 < k < |now| ensures SeedStep(now[k - 1], k, now[k]) {
      if k < i {
        assert SeedStep(before[k - 1], k, before[k]);
      }
    }
  }

  /** There is only one such state. */
  lemma SeededOnce(ws: seq<bv32>, seed: bv32)
    requires |ws| < 0x8000_0000 && IsSeeded(ws, seed)
    ensures ws == SeedWords(|ws|, seed)
  {
    hide SeedStep; hide SeedWord;
    forall k | 0 <= k < |ws| ensures ws[k] == SeedWord(seed, k) {
      SeededAt(ws, seed, k);
    }
  }

  lemma {:induction false} SeededAt(ws: seq<bv32>, seed: bv32, k: nat)
    requires |ws| < 0x8000_0000 && IsSeeded(ws, seed) && k < |ws|
    ensures ws[k] == SeedWord(seed, k)
    decreases k
  {
    hide SeedStep; hide NextSeedWord;
    if k == 0 {
    } else {
      SeededAt(ws, seed, k - 1);
      NextSeedWordIs(ws[k - 1], k);
      SeedStepUnique(ws[k - 1], k, ws[k], NextSeedWord(ws[k - 1], k));
    }
  }

  /** The word before next, got back by undoing the three operations; the factor is the inverse of
    * 1812433253 modulo 2^32. */
  function SeedStepBack(next: bv32, i: nat): bv32
    requires i < 0x8000_0000
  {
    var t := 2520285293 * (next - (i as bv32));
    t ^ (t >> 30)
  }

  lemma SeedStepBackPlain(prev: bv32, i: nat)
    requires i < 0x8000_0000
    ensures SeedStepBack(1812433253 * (prev ^ (prev >> 30)) + (i as bv32), i) == prev
  {}

  lemma SeedStepUndone(prev: bv32, i: nat, next: bv32)
    requires i < 0x8000_0000 && SeedStep(prev, i, next)
    ensures prev == SeedStepBack(next, i)
  {
    hide SeedStepBack;
    SeedStepBackPlain(prev, i);
  }

  /** Two seeds give states that agree in no word, and equal seeds give equal states. */
  lemma {:induction false} SeedsToldApart(v: seq<bv32>, w: seq<bv32>, s: bv32, t: bv32, k: nat)
    requires |v| == |w| < 0x8000_0000 && k < |v| && IsSeeded(v, s) && IsSeeded(w, t)
    ensures v[k] == w[k] <==> s == t
    decreases k
  {
    hide SeedStep; hide SeedStepBack;
    if k == 0 {
    } else {
      SeedsToldApart(v, w, s, t, k - 1);
      if v[k] == w[k] {
        SeedStepUndone(v[k - 1], k, v[k]);
        SeedStepUndone(w[k - 1], k, w[k]);
      } else {
        SeedStepUnique(v[k - 1], k, v[k], w[k]);
      }
    }
  }

  lemma SeedStepUnique(prev: bv32, i: nat, x: bv32, y: bv32)
    requires i < 0x8000_0000
    ensures SeedStep(prev, i, x) && SeedStep(prev, i, y) ==> x == y
  {}

  // ----- init_by_array -----

  function Func1(x: bv32): bv32 { (x ^ (x >> 27)) * 1664525 }

  function Func2(x: bv32): bv32 { (x ^ (x >> 27)) * 1566083941 }

  function Add32(x: bv32, y: bv32): bv32 { x + y }

  function Sub32(x: bv32, y: bv32): bv32 { x - y }

  function Lag(size: nat): (lag: nat)
    ensures size >= 8 ==> 0 < lag < size
  {
    if size >= 623 then 11 else if size >= 68 then 7 else if size >= 39 then 5 else 3
  }

  function Mid(size: nat): (mid: nat)
    ensures size >= 8 ==> mid + Lag(size) < size
  {
    if size >= 8 then (size - Lag(size)) / 2 else 0
  }

  /** The position of round j: i = (i + 1) % N32 once per round. */
  function At(j: nat, size: nat): (i: nat)
    requires size > 1
    ensures i < size
  {
    j % size
  }

  /** The step of the index at the end of a round. */
  function Succ(i: nat, size: nat): (k: nat)
    requires size > 1
    ensures k < size
  {
    (i + 1) % size
  }

  lemma AtNext(j: nat, size: nat)
    requires size > 1
    ensures Succ(At(j, size), size) == At(j + 1, size)
    ensures At(0, size) == 0 && At(1, size) == 1
  {
    Arith.NextIndex(j, size);
    Arith.DivRemainder(0, 0, 0, size);
    Arith.DivRemainder(1, 0, 1, size);
  }

  /** The position so many words behind i, around the state. */
  function Ahead(i: nat, words: nat, size: nat): (k: nat)
    requires size > 0
    ensures k < size
  {
    (i + words) % size
  }

  /** One round of the first two loops at position i; add is what the round adds to r. */
  function MixAdd(ws: seq<bv32>, i: nat, add: bv32): (ws': seq<bv32>)
    requires 8 <= |ws| && i < |ws|
    ensures |ws'| == |ws|
  {
    var size := |ws|;
    var a, b := Ahead(i, Mid(size), size), Ahead(i, Mid(size) + Lag(size), size);
    var r := Func1(Xor32(Xor32(ws[i], ws[a]), ws[Ahead(i, size - 1, size)]));
    var ws1 := ws[a := Add32(ws[a], r)];
    var r' := Add32(r, add);
    ws1[b := Add32(ws1[b], r')][i := r']
  }

  /** One round of the last loop at position i. */
  function MixXor(ws: seq<bv32>, i: nat): (ws': seq<bv32>)
    requires 8 <= |ws| < 0x8000_0000 && i < |ws|
    ensures |ws'| == |ws|
  {
    var size := |ws|;
    var a, b := Ahead(i, Mid(size), size), Ahead(i, Mid(size) + Lag(size), size);
    var r := Func2(Add32(Add32(ws[i], ws[a]), ws[Ahead(i, size - 1, size)]));
    var ws1 := ws[a := Xor32(ws[a], r)];
    var r' := Sub32(r, Nat32(i));
    ws1[b := Xor32(ws1[b], r')][i := r']
  }

  /** What round j (counted from 1; 0 is the round before the loops) adds to r at position i. */
  function Addend(key: seq<bv32>, j: nat, i: nat): bv32
    requires |key| < 0x8000_0000 && i < 0x8000_0000
  {
    if j == 0 then Nat32(|key|)
    else if j <= |key| then Add32(key[j - 1], Nat32(i))
    else Nat32(i)
  }

  /** The words after j rounds of the first two loops. */
  function KeyRounds(size: nat, key: seq<bv32>, j: nat): (ws: seq<bv32>)
    requires 8 <= size < 0x8000_0000 && |key| < 0x8000_0000
    ensures |ws| == size
    decreases j
  {
    var before := if j == 0 then seq(size, _ => 0x8b8b8b8b) else KeyRounds(size, key, j - 1);
    MixAdd(before, At(j, size), Addend(key, j, At(j, size)))
  }

  lemma KeyRoundsSteps(size: nat, key: seq<bv32>, j: nat)
    requires 8 <= size < 0x8000_0000 && |key| < 0x8000_0000
    ensures KeyRounds(size, key, 0) == MixAdd(seq(size, _ => 0x8b8b8b8b), 0, Nat32(|key|))
    ensures var i := At(j + 1, size);
            KeyRounds(size, key, j + 1)
            == MixAdd(KeyRounds(size, key, j), i, if j < |key| then Add32(key[j], Nat32(i)) else Nat32(i))
  {
    hide MixAdd; hide Add32; hide At; hide Nat32;
    AtNext(0, size);
  }

  function Rounds(size: nat, key: seq<bv32>): nat {
    (if |key| + 1 > size then |key| + 1 else size) - 1
  }

  /** The words after all of the first two loops and j rounds of the last one. */
  function FinalRounds(size: nat, key: seq<bv32>, j: nat): (ws: seq<bv32>)
    requires 8 <= size < 0x8000_0000 && |key| < 0x8000_0000
    ensures |ws| == size
    decreases j
  {
    if j == 0 then KeyRounds(size, key, Rounds(size, key))
    else MixXor(FinalRounds(size, key, j - 1), At(Rounds(size, key) + j, size))
  }

  /** The words init_by_array(key) leaves in a state of size words, before certification. */
  function KeyWords(size: nat, key: seq<bv32>): (ws: seq<bv32>)
    requires 8 <= size < 0x8000_0000 && |key| < 0x8000_0000
    ensures |ws| == size
  {
    FinalRounds(size, key, size)
  }

  /** The state of n blocks that init_gen_rand(seed) certifies. */
  function SeedState(n: nat, seed: bv32): (v: seq<Block>)
    requires n < 0x2000_0000
    ensures |v| == n
  {
    Pack(n, SeedWords(4 * n, seed))
  }

  /** The state of n blocks that init_by_array(key) certifies. */
  function KeyState(n: nat, key: seq<bv32>): (v: seq<Block>)
    requires 2 <= n < 0x2000_0000 && |key| < 0x8000_0000
    ensures |v| == n
  {
    Pack(n, KeyWords(4 * n, key))
  }
}
