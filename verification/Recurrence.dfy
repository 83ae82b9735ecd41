/** A linear-recurrence generator over an arbitrary block type T.
  *
  * A state of n blocks denotes the infinite sequence W:  W[0..n) is the state itself and
  *   W[k + n] == rec(W[k], W[k + pos1], W[k + n - 2], W[k + n - 1]).
  * The two filling routines below are proved to compute windows of W, one of them in place.
  */
module Recurrence {

  type Rec<!T> = (T, T, T, T) -> T

  /** The k-th block of the sequence denoted by the state init. */
  ghost function W<T>(rec: Rec<T>, pos1: nat, init: seq<T>, k: nat): T
    requires 0 < pos1 < |init|
    decreases k
  {
    var n := |init|;
    if k < n then init[k]
    else rec(W(rec, pos1, init, k - n), W(rec, pos1, init, k - n + pos1),
             W(rec, pos1, init, k - 2), W(rec, pos1, init, k - 1))
  }

  /** The two defining equations of W, for proofs that hide its body. */
  lemma Equations<T>(rec: Rec<T>, pos1: nat, init: seq<T>, i: nat)
    requires 0 < pos1 < |init|
    ensures forall k :: 0 <= k < |init| ==> W(rec, pos1, init, k) == init[k]
    ensures W(rec, pos1, init, |init| + i)
         == rec(W(rec, pos1, init, i), W(rec, pos1, init, i + pos1),
                W(rec, pos1, init, |init| + i - 2), W(rec, pos1, init, |init| + i - 1))
  {}

  /** The same for one index. */
  lemma EquationAt<T>(rec: Rec<T>, pos1: nat, init: seq<T>, k: nat)
    requires 0 < pos1 < |init|
    ensures k < |init| ==> W(rec, pos1, init, k) == init[k]
    ensures k >= |init| ==>
        W(rec, pos1, init, k) == rec(W(rec, pos1, init, k - |init|), W(rec, pos1, init, k - |init| + pos1),
                                     W(rec, pos1, init, k - 2), W(rec, pos1, init, k - 1))
  {}

  /** The blocks W[start .. start + len). */
  ghost function Window<T>(rec: Rec<T>, pos1: nat, init: seq<T>, start: nat, len: nat): (w: seq<T>)
    requires 0 < pos1 < |init|
    ensures |w| == len
  {
    seq(len, i requires 0 <= i => W(rec, pos1, init, start + i))
  }

  /** A state that is itself a window of W denotes the rest of W from there on. */
  lemma {:induction false} WindowDenotesSuffix<T>(rec: Rec<T>, pos1: nat, init: seq<T>, start: nat, k: nat)
    requires 0 < pos1 < |init|
    ensures W(rec, pos1, Window(rec, pos1, init, start, |init|), k) == W(rec, pos1, init, start + k)
    decreases k
  {
    hide W;
    var n, at := |init|, start + k;
    var window := Window(rec, pos1, init, start, n);
    EquationAt(rec, pos1, window, k);
    if k < n {
    } else {
      WindowDenotesSuffix(rec, pos1, init, start, k - n);
      WindowDenotesSuffix(rec, pos1, init, start, k - n + pos1);
      WindowDenotesSuffix(rec, pos1, init, start, k - 2);
      WindowDenotesSuffix(rec, pos1, init, start, k - 1);
      hide Window;
      assert start + (k - n) == at - n && start + (k - n + pos1) == at - n + pos1;
      assert start + (k - 2) == at - 2 && start + (k - 1) == at - 1;
      EquationAt(rec, pos1, init, at);
    }
  }

  function Map<S, T>(h: S -> T, s: seq<S>): (t: seq<T>)
    ensures |t| == |s| && forall i :: 0 <= i < |s| ==> t[i] == h(s[i])
  {
    seq(|s|, i requires 0 <= i < |s| => h(s[i]))
  }

  /** A map that commutes with the recursion carries one sequence onto the other. */
  lemma {:induction false} Homomorphism<S(!new), T>(recS: Rec<S>, recT: Rec<T>, h: S -> T,
                                                    pos1: nat, init: seq<S>, k: nat)
    requires 0 < pos1 < |init|
    requires forall a, b, c, d :: h(recS(a, b, c, d)) == recT(h(a), h(b), h(c), h(d))
    ensures W(recT, pos1, Map(h, init), k) == h(W(recS, pos1, init, k))
    decreases k
  {
    hide W;
    var n := |init|;
    var init' := Map(h, init);
    Equations(recS, pos1, init, if k >= n then k - n else 0);
    Equations(recT, pos1, init', if k >= n then k - n else 0);
    if k < n {
    } else {
      Homomorphism(recS, recT, h, pos1, init, k - n);
      Homomorphism(recS, recT, h, pos1, init, k - n + pos1);
      Homomorphism(recS, recT, h, pos1, init, k - 2);
      Homomorphism(recS, recT, h, pos1, init, k - 1);
    }
  }

  /** gen_rand_all: replaces the state W[0..n) by W[n..2n), block by block and in place.
    * r1 and r2 are the positions the source's two moving pointers point at. */
  method GenRandAll<T>(rec: Rec<T>, pos1: nat, sfmt: array<T>)
    requires 0 < pos1 < sfmt.Length
    modifies sfmt
    ensures sfmt[..] == Window(rec, pos1, old(sfmt[..]), sfmt.Length, sfmt.Length)
  {
    hide W;
    var n := sfmt.Length;
    ghost var init := sfmt[..];
    Equations(rec, pos1, init, 0);
    var r1, r2 := n - 2, n - 1;
    var i := 0;
    while i < n - pos1
      invariant 0 <= i <= n - pos1
      invariant r2 == (if i == 0 then n - 1 else i - 1)
      invariant r1 == (if i == 0 then n - 2 else if i == 1 then n - 1 else i - 2)
      invariant forall j :: 0 <= j < i ==> sfmt[j] == W(rec, pos1, init, n + j)
      invariant forall j :: i <= j < n ==> sfmt[j] == init[j]
    {
      Equations(rec, pos1, init, i);
      assert sfmt[r1] == W(rec, pos1, init, n + i - 2) && sfmt[r2] == W(rec, pos1, init, n + i - 1);
      sfmt[i] := rec(sfmt[i], sfmt[i + pos1], sfmt[r1], sfmt[r2]);
      r1, r2, i := r2, i, i + 1;
    }
    while i < n
      invariant n - pos1 <= i <= n
      invariant r2 == (if i == 0 then n - 1 else i - 1)
      invariant r1 == (if i == 0 then n - 2 else if i == 1 then n - 1 else i - 2)
      invariant forall j :: 0 <= j < i ==> sfmt[j] == W(rec, pos1, init, n + j)
      invariant forall j :: i <= j < n ==> sfmt[j] == init[j]
    {
      Equations(rec, pos1, init, i);
      assert sfmt[r1] == W(rec, pos1, init, n + i - 2) && sfmt[r2] == W(rec, pos1, init, n + i - 1);
      sfmt[i] := rec(sfmt[i], sfmt[i + pos1 - n], sfmt[r1], sfmt[r2]);
      r1, r2, i := r2, i, i + 1;
    }
  }

  /** The first two loops of gen_rand_array: fills a[0 .. n) from an untouched state and leaves the
    * two most recent blocks in r1 and r2. The source's pointers r1 and r2 point into the state
    * first and into the array later; here they are the values pointed at. */
  method FillFirst<T>(rec: Rec<T>, pos1: nat, sfmt: array<T>, a: array<T>) returns (r1: T, r2: T)
    requires 0 < pos1 < sfmt.Length <= a.Length
    requires a != sfmt
    modifies a
    ensures forall k :: 0 <= k < sfmt.Length ==> a[k] == W(rec, pos1, sfmt[..], sfmt.Length + k)
    ensures r1 == a[sfmt.Length - 2] && r2 == a[sfmt.Length - 1]
  {
    hide W;
    var n := sfmt.Length;
    ghost var init := sfmt[..];
    Equations(rec, pos1, init, 0);
    r1, r2 := sfmt[n - 2], sfmt[n - 1];
    var i := 0;
    while i < n - pos1
      invariant 0 <= i <= n - pos1
      invariant r1 == W(rec, pos1, init, n + i - 2) && r2 == W(rec, pos1, init, n + i - 1)
      invariant forall k :: 0 <= k < i ==> a[k] == W(rec, pos1, init, n + k)
    {
      Equations(rec, pos1, init, i);
      a[i] := rec(sfmt[i], sfmt[i + pos1], r1, r2);
      r1, r2, i := r2, a[i], i + 1;
    }
    while i < n
      invariant n - pos1 <= i <= n
      invariant r1 == W(rec, pos1, init, n + i - 2) && r2 == W(rec, pos1, init, n + i - 1)
      invariant forall k :: 0 <= k < i ==> a[k] == W(rec, pos1, init, n + k)
    {
      Equations(rec, pos1, init, i);
      a[i] := rec(sfmt[i], a[i + pos1 - n], r1, r2);
      r1, r2, i := r2, a[i], i + 1;
    }
  }

  /** The third loop of gen_rand_array: on from a[n], with both recent blocks known, up to size - n. */
  method FillMiddle<T>(rec: Rec<T>, pos1: nat, n: nat, a: array<T>, size: nat, r1': T, r2': T, ghost init: seq<T>)
    returns (i: nat, r1: T, r2: T)
    requires 0 < pos1 < n == |init| && n <= size == a.Length
    requires forall k :: 0 <= k < n ==> a[k] == W(rec, pos1, init, n + k)
    requires r1' == a[n - 2] && r2' == a[n - 1]
    modifies a
    ensures i == (if size - n > n then size - n else n) && r1 == a[i - 2] && r2 == a[i - 1]
    ensures forall k :: 0 <= k < i ==> a[k] == W(rec, pos1, init, n + k)
  {
    hide W;
    r1, r2, i := r1', r2', n;
    while i < size - n
      invariant n <= i && (i <= size - n || i == n)
      invariant r1 == a[i - 2] && r2 == a[i - 1]
      invariant forall k :: 0 <= k < i ==> a[k] == W(rec, pos1, init, n + k)
    {
      Equations(rec, pos1, init, i);
      a[i] := rec(a[i - n], a[i + pos1 - n], r1, r2);
      r1, r2, i := r2, a[i], i + 1;
    }
  }

  /** The fourth loop: the blocks already filled that belong to the next state. */
  method CopyBack<T>(rec: Rec<T>, pos1: nat, sfmt: array<T>, a: array<T>, size: nat, filled: nat, ghost init: seq<T>)
    returns (j: nat)
    requires 0 < pos1 < sfmt.Length == |init| && sfmt.Length <= size == a.Length && a != sfmt
    requires filled <= size && (2 * sfmt.Length - size > 0 ==> filled == sfmt.Length)
    requires forall k :: 0 <= k < filled ==> a[k] == W(rec, pos1, init, sfmt.Length + k)
    modifies sfmt
    ensures j == if 2 * sfmt.Length - size > 0 then 2 * sfmt.Length - size else 0
    ensures forall k :: 0 <= k < j ==> sfmt[k] == W(rec, pos1, init, size + k)
  {
    hide W;
    var n := sfmt.Length;
    j := 0;
    while j < 2 * n - size
      invariant 0 <= j && (j <= 2 * n - size || j == 0)
      invariant forall k :: 0 <= k < j ==> sfmt[k] == W(rec, pos1, init, size + k)
    {
      assert n + (j + size - n) == size + j;
      sfmt[j] := a[j + size - n];
      j := j + 1;
    }
  }

  /** gen_rand_array: writes W[n .. n + size) into a caller's array of size >= n blocks and leaves
    * the state at W[size .. size + n), in one pass and without a second buffer. */
  method GenRandArray<T>(rec: Rec<T>, pos1: nat, sfmt: array<T>, a: array<T>, size: nat)
    requires 0 < pos1 < sfmt.Length <= size == a.Length
    requires a != sfmt
    modifies sfmt, a
    ensures forall k :: 0 <= k < size ==> a[k] == W(rec, pos1, old(sfmt[..]), sfmt.Length + k)
    ensures sfmt[..] == Window(rec, pos1, old(sfmt[..]), size, sfmt.Length)
  {
    hide W;
    var n := sfmt.Length;
    ghost var init := sfmt[..];
    var r1, r2 := FillFirst(rec, pos1, sfmt, a);
    var i;
    i, r1, r2 := FillMiddle(rec, pos1, n, a, size, r1, r2, init);
    var j := CopyBack(rec, pos1, sfmt, a, size, i, init);
    FillLast(rec, pos1, sfmt, a, size, i, j, r1, r2, init);
  }

  /** The last loop: the end of the array, and with it the end of the next state. */
  method FillLast<T>(rec: Rec<T>, pos1: nat, sfmt: array<T>, a: array<T>, size: nat, i': nat, j': nat, r1': T, r2': T,
                     ghost init: seq<T>)
    requires 0 < pos1 < sfmt.Length == |init| && sfmt.Length <= i' <= size == a.Length && a != sfmt
    requires j' == i' - (size - sfmt.Length) && r1' == a[i' - 2] && r2' == a[i' - 1]
    requires forall k :: 0 <= k < i' ==> a[k] == W(rec, pos1, init, sfmt.Length + k)
    requires forall k :: 0 <= k < j' ==> sfmt[k] == W(rec, pos1, init, size + k)
    modifies sfmt, a
    ensures forall k :: 0 <= k < size ==> a[k] == W(rec, pos1, init, sfmt.Length + k)
    ensures sfmt[..] == Window(rec, pos1, init, size, sfmt.Length)
  {
    hide W;
    var n := sfmt.Length;
    var r1, r2, i, j := r1', r2', i', j';
    while i < size
      invariant n <= i <= size && j == i - (size - n)
      invariant r1 == a[i - 2] && r2 == a[i - 1]
      invariant forall k :: 0 <= k < i ==> a[k] == W(rec, pos1, init, n + k)
      invariant forall k :: 0 <= k < j ==> sfmt[k] == W(rec, pos1, init, size + k)
    {
      Equations(rec, pos1, init, i);
      a[i] := rec(a[i - n], a[i + pos1 - n], r1, r2);
      assert n + i == size + j;
      r1, r2 := r2, a[i];
      sfmt[j] := a[i];
      i, j := i + 1, j + 1;
    }
  }
}
