/** Finite maps of counters: a Berkeley DB whose entries are counts, seen as a map, and sums over it that
  * do not depend on the order in which a cursor visits the entries. */
module Tallies {

  /** The counter of a key; an absent key counts nothing. */
  function Get<K>(m: map<K, nat>, k: K): nat {
    if k in m then m[k] else 0
  }

  /** The sum of w(key, counter) over all entries. */
  ghost function Sum<K>(m: map<K, nat>, w: (K, nat) -> nat): nat
    decreases |m|
  {
    if m == map[] then 0
    else
      var k :| k in m;
      RemoveShrinks(m, k);
      w(k, m[k]) + Sum(m - {k}, w)
  }

  lemma RemoveShrinks<K>(m: map<K, nat>, k: K)
    requires k in m
    ensures |m - {k}| == |m| - 1
  {
    assert (m - {k}).Keys == m.Keys - {k};
  }

  lemma {:induction false} SumRemove<K>(m: map<K, nat>, w: (K, nat) -> nat, k: K)
    requires k in m
    ensures Sum(m, w) == w(k, m[k]) + Sum(m - {k}, w)
    decreases |m|
  {
    var c :| c in m && Sum(m, w) == w(c, m[c]) + Sum(m - {c}, w);
    if c == k {
    } else {
      RemoveShrinks(m, c);
      RemoveShrinks(m, k);
      SumRemove(m - {c}, w, k);
      SumRemove(m - {k}, w, c);
      assert m - {c} - {k} == m - {k} - {c};
    }
  }

  /** Writing one entry changes the sum by that entry alone. */
  lemma SumPut<K>(m: map<K, nat>, w: (K, nat) -> nat, k: K, v: nat)
    ensures Sum(m[k := v], w) == Sum(m - {k}, w) + w(k, v)
    ensures Sum(m, w) == Sum(m - {k}, w) + if k in m then w(k, m[k]) else 0
  {
    SumRemove(m[k := v], w, k);
    assert m[k := v] - {k} == m - {k};
    if k in m {
      SumRemove(m, w, k);
    } else {
      assert m - {k} == m;
    }
  }

  /** Weights that agree on every entry give the same sum. */
  lemma {:induction false} SumSame<K>(m: map<K, nat>, v: (K, nat) -> nat, w: (K, nat) -> nat)
    requires forall k <- m :: v(k, m[k]) == w(k, m[k])
    ensures Sum(m, v) == Sum(m, w)
    decreases |m|
  {
    if m == map[] {
    } else {
      var k :| k in m;
      RemoveShrinks(m, k);
      SumRemove(m, v, k);
      SumRemove(m, w, k);
      SumSame(m - {k}, v, w);
    }
  }

  /** A cursor visits every entry once, in an order of its own. */
  ghost predicate Visits<K(!new)>(cursor: seq<K>, m: map<K, nat>) {
    (forall k :: k in cursor <==> k in m) && NoRepeats(cursor)
  }

  predicate NoRepeats<K(==)>(s: seq<K>) {
    forall i, j :: 0 <= i < j < |s| ==> s[i] != s[j]
  }

  /** Every database has such an order. */
  lemma {:induction false} CursorExists<K(!new)>(m: map<K, nat>) returns (cursor: seq<K>)
    ensures Visits(cursor, m)
    decreases |m|
  {
    cursor := [];
    if m != map[] {
      var k :| k in m;
      RemoveShrinks(m, k);
      var rest := CursorExists(m - {k});
      cursor := [k] + rest;
      forall x ensures x in cursor <==> x in m {
        assert x in rest <==> x in m - {k};
      }
    }
  }

  /** The entries that a cursor has delivered so far. */
  ghost function Restricted<K(!new)>(m: map<K, nat>, visited: seq<K>): map<K, nat> {
    map k | k in m && k in visited :: m[k]
  }

  lemma VisitNext<K(!new)>(m: map<K, nat>, cursor: seq<K>, i: nat)
    requires Visits(cursor, m) && i < |cursor|
    ensures cursor[i] in m && cursor[i] !in Restricted(m, cursor[..i])
    ensures Restricted(m, cursor[..i + 1]) == Restricted(m, cursor[..i])[cursor[i] := m[cursor[i]]]
  {
    assert cursor[i] in cursor && cursor[i] !in cursor[..i];
    assert cursor[..i + 1] == cursor[..i] + [cursor[i]];
  }

  lemma VisitedAll<K(!new)>(m: map<K, nat>, cursor: seq<K>)
    requires Visits(cursor, m)
    ensures Restricted(m, cursor) == m
  {}

  /** What merge_dbs is for: two counters of the same key added. */
  function Merged<K>(a: map<K, nat>, b: map<K, nat>): map<K, nat> {
    map k | k in a.Keys + b.Keys :: Get(a, k) + Get(b, k)
  }
}
