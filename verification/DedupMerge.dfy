/** Merging two scan databases, and the histogram of duplicates that is printed from one. */
module DedupMerge {
  import opened Basics
  import opened Tallies
  import opened DedupScan
  import opened ChunkedScan

  // ----- merge_dbs -----

  ghost function Common(visited: seq<Key>, base: Db): set<Key> {
    set k | k in visited && k in base
  }

  /** How many keys two databases have in common. */
  function CommonKeys(a: Db, b: Db): nat {
    |a.Keys * b.Keys|
  }

  /** The base database of a merge and the two counters printed at the end. */
  class Merger {
    var base: Db
    var matched: nat
    var notmatched: nat

    constructor (base: Db)
      ensures this.base == base && matched == 0 && notmatched == 0
    {
      this.base := base;
      matched, notmatched := 0, 0;
    }

    /** merge_dbs, with the cursor's order as an argument. */
    method MergeDbs(merge: Db, cursor: seq<Key>)
      requires Visits(cursor, merge)
      modifies this
      ensures base == Merged(old(base), merge)
      ensures matched == old(matched) + CommonKeys(merge, old(base))
      ensures matched + notmatched == old(matched) + old(notmatched) + |merge|
    {
      hide Merged; hide MergeState; hide Visits; hide CommonKeys;
      ghost var base0, hits := base, 0;
      MergeStart(base0, merge, cursor);
      var i := 0;
      while i < |cursor|
        invariant 0 <= i <= |cursor|
        invariant MergeState(base0, merge, cursor, i, base, hits)
        invariant matched == old(matched) + hits && notmatched == old(notmatched) + i - hits
      {
        MergeStep(base0, merge, cursor, i, base, hits);
        var key := cursor[i];
        var ndups := merge[key];
        if key !in base {
          notmatched := notmatched + 1;
          base := base[key := ndups];
        } else {
          matched := matched + 1;
          base := base[key := base[key] + ndups];
          hits := hits + 1;
        }
        i := i + 1;
      }
      MergeEnd(base0, merge, cursor, base, hits);
    }
  }

  /** After i entries of the cursor: what the base database has become, and how many keys have matched. */
  ghost predicate MergeState(base: Db, merge: Db, cursor: seq<Key>, i: nat, now: Db, hits: nat)
    requires i <= |cursor|
  {
    now == Merged(base, Restricted(merge, cursor[..i])) && hits == |Common(cursor[..i], base)| <= i
  }

  lemma MergeStart(base: Db, merge: Db, cursor: seq<Key>)
    ensures MergeState(base, merge, cursor, 0, base, 0)
  {
    assert cursor[..0] == [];
    assert Restricted(merge, []) == map[] && Common([], base) == {};
  }

  lemma MergeStep(base: Db, merge: Db, cursor: seq<Key>, i: nat, now: Db, hits: nat)
    requires Visits(cursor, merge) && i < |cursor| && MergeState(base, merge, cursor, i, now, hits)
    ensures cursor[i] in merge
    ensures cursor[i] !in now ==> MergeState(base, merge, cursor, i + 1, now[cursor[i] := merge[cursor[i]]], hits)
    ensures cursor[i] in now ==>
        MergeState(base, merge, cursor, i + 1, now[cursor[i] := now[cursor[i]] + merge[cursor[i]]], hits + 1)
  {
    hide Merged; hide Restricted; hide Common; hide Visits;
    var key := cursor[i];
    VisitNext(merge, cursor, i);
    MergedPut(base, Restricted(merge, cursor[..i]), key, merge[key]);
    CommonNext(merge, cursor, base, i);
  }

  lemma MergeEnd(base: Db, merge: Db, cursor: seq<Key>, now: Db, hits: nat)
    requires Visits(cursor, merge) && MergeState(base, merge, cursor, |cursor|, now, hits)
    ensures now == Merged(base, merge) && |cursor| == |merge| && hits == CommonKeys(merge, base)
  {
    hide Merged;
    assert cursor[..|cursor|] == cursor;
    VisitedAll(merge, cursor);
    CursorLength(cursor, merge);
    assert Common(cursor, base) == merge.Keys * base.Keys;
  }

  lemma MergedPut(base: Db, m: Db, key: Key, v: nat)
    requires key !in m
    ensures key in Merged(base, m) <==> key in base
    ensures Get(Merged(base, m), key) == Get(base, key)
    ensures Merged(base, m[key := v]) == Merged(base, m)[key := Get(base, key) + v]
  {}

  lemma CommonNext(m: Db, cursor: seq<Key>, base: Db, i: nat)
    requires Visits(cursor, m) && i < |cursor|
    ensures |Common(cursor[..i + 1], base)| == |Common(cursor[..i], base)| + if cursor[i] in base then 1 else 0
  {
    var key := cursor[i];
    assert cursor[..i + 1] == cursor[..i] + [key];
    if key in base {
      assert Common(cursor[..i + 1], base) == Common(cursor[..i], base) + {key};
      assert key !in Common(cursor[..i], base);
    } else {
      assert Common(cursor[..i + 1], base) == Common(cursor[..i], base);
    }
  }

  lemma {:induction false} ElementsOfDistinct(s: seq<Key>)
    requires NoRepeats(s)
    ensures |set k | k in s| == |s|
    decreases |s|
  {
    if s == [] {
      assert (set k | k in s) == {};
    } else {
      var most, last := s[..|s| - 1], s[|s| - 1];
      ElementsOfDistinct(most);
      assert s == most + [last] && last !in most;
      assert (set k | k in s) == (set k | k in most) + {last};
    }
  }

  lemma CursorLength(cursor: seq<Key>, m: Db)
    requires Visits(cursor, m)
    ensures |cursor| == |m|
  {
    ElementsOfDistinct(cursor);
    assert (set k | k in cursor) == m.Keys;
  }

  /** Counting more blocks into a merged database is merging the counted one. */
  lemma {:induction false} TallyMerged(hash: Hash, a: Db, b: Db, blocks: seq<Block>)
    ensures Tally(hash, Merged(a, b), blocks) == Merged(a, Tally(hash, b, blocks))
    decreases |blocks|
  {
    if blocks == [] {
    } else {
      hide Merged; hide Bump; hide Spell;
      var key := Spell(hash(blocks[0]));
      BumpMerged(a, b, key);
      TallyMerged(hash, a, Bump(b, key), blocks[1..]);
    }
  }

  lemma BumpMerged(a: Db, b: Db, key: Key)
    ensures Bump(Merged(a, b), key) == Merged(a, Bump(b, key))
  {}

  /** Two datasets scanned apart and merged give the database of one scan of both, either way round. */
  lemma MergeIsScanOfBoth(hash: Hash, a: seq<Block>, b: seq<Block>)
    ensures Merged(Tally(hash, map[], a), Tally(hash, map[], b)) == Tally(hash, map[], a + b)
    ensures Merged(Tally(hash, map[], b), Tally(hash, map[], a)) == Tally(hash, map[], a + b)
  {
    TallyAppend(hash, map[], a, b);
    var da, db := Tally(hash, map[], a), Tally(hash, map[], b);
    assert Merged(da, map[]) == da;
    TallyMerged(hash, da, map[], b);
    assert Merged(db, da) == Merged(da, db);
  }

  // ----- gen_output -----

  /** cont - 1 in 64 bits. */
  function Duplicates(cont: nat): (n: nat)
    ensures (cont - 1 - n) % TWO_64 == 0
  {
    if cont == 0 then TWO_64 - 1 else cont - 1
  }

  /** The keys with a given number of duplicates. */
  ghost function Fibre(db: Db, n: nat): set<Key> {
    set k | k in db && Duplicates(db[k]) == n
  }

  /** The histogram of a database: under n, how many keys have n duplicates; no empty entries. */
  ghost predicate IsHistogram(hist: map<nat, nat>, db: Db) {
    forall n: nat :: HistogramAt(hist, db, n)
  }

  ghost predicate HistogramAt(hist: map<nat, nat>, db: Db, n: nat) {
    (n in hist <==> Fibre(db, n) != {}) && Get(hist, n) == |Fibre(db, n)|
  }

  /** gen_output into an empty print database. */
  method GenOutput(db: Db, cursor: seq<Key>) returns (hist: map<nat, nat>)
    requires Visits(cursor, db)
    ensures IsHistogram(hist, db)
  {
    hist := map[];
    var i := 0;
    assert IsHistogram(hist, Restricted(db, []));
    while i < |cursor|
      invariant 0 <= i <= |cursor|
      invariant IsHistogram(hist, Restricted(db, cursor[..i]))
    {
      var key := cursor[i];
      VisitNext(db, cursor, i);
      var ndups := Duplicates(db[key]);
      CountOne(hist, Restricted(db, cursor[..i]), key, db[key]);
      if ndups !in hist {
        hist := hist[ndups := 1];
      } else {
        hist := hist[ndups := hist[ndups] + 1];
      }
      i := i + 1;
    }
    assert cursor[..i] == cursor;
    VisitedAll(db, cursor);
  }

  lemma FibreGrows(db: Db, key: Key, cont: nat, n: nat)
    requires key !in db
    ensures Fibre(db[key := cont], n) == if n == Duplicates(cont) then Fibre(db, n) + {key} else Fibre(db, n)
    ensures key !in Fibre(db, n)
  {}

  lemma CountOne(hist: map<nat, nat>, db: Db, key: Key, cont: nat)
    requires key !in db && IsHistogram(hist, db)
    ensures IsHistogram(hist[Duplicates(cont) := Get(hist, Duplicates(cont)) + 1], db[key := cont])
  {
    var at := Duplicates(cont);
    var hist', db' := hist[at := Get(hist, at) + 1], db[key := cont];
    forall n: nat ensures HistogramAt(hist', db', n) {
      assert HistogramAt(hist, db, n);
      FibreGrows(db, key, cont, n);
    }
  }

  /** The histogram does not depend on the cursor's order. */
  lemma HistogramUnique(g: map<nat, nat>, h: map<nat, nat>, db: Db)
    requires IsHistogram(g, db) && IsHistogram(h, db)
    ensures g == h
  {
    forall n: nat ensures (n in g <==> n in h) && Get(g, n) == Get(h, n) {
      assert HistogramAt(g, db, n) && HistogramAt(h, db, n);
    }
    forall n | n in g ensures g[n] == h[n] {
      assert Get(g, n) == Get(h, n);
    }
  }

  /** A histogram entry n stands for n + 1 scanned blocks each. */
  ghost function Scans(): (nat, nat) -> nat {
    (n, c) => (n + 1) * c
  }

  ghost function Entries(): (nat, nat) -> nat {
    (n, c) => c
  }

  /** The histogram without one key that has n duplicates. */
  function Uncount(hist: map<nat, nat>, n: nat): map<nat, nat>
    requires Get(hist, n) > 0
  {
    if hist[n] == 1 then hist - {n} else hist[n := hist[n] - 1]
  }

  lemma UncountOne(hist: map<nat, nat>, db: Db, key: Key)
    requires key in db && IsHistogram(hist, db)
    ensures Get(hist, Duplicates(db[key])) > 0
    ensures IsHistogram(Uncount(hist, Duplicates(db[key])), db - {key})
  {
    var rest, at := db - {key}, Duplicates(db[key]);
    assert db == rest[key := db[key]];
    assert HistogramAt(hist, db, at);
    FibreGrows(rest, key, db[key], at);
    var hist' := Uncount(hist, at);
    forall n: nat ensures HistogramAt(hist', rest, n) {
      assert HistogramAt(hist, db, n);
      FibreGrows(rest, key, db[key], n);
    }
  }

  lemma UncountSums(hist: map<nat, nat>, n: nat)
    requires Get(hist, n) > 0
    ensures Sum(hist, Scans()) == Sum(Uncount(hist, n), Scans()) + n + 1
    ensures Sum(hist, Entries()) == Sum(Uncount(hist, n), Entries()) + 1
  {
    hide Sum;
    var c := hist[n] - 1;
    SumPut(hist, Scans(), n, c);
    SumPut(hist, Entries(), n, c);
    assert (n + 1) * (c + 1) == (n + 1) * c + n + 1;
  }

  /** Nothing is lost between the counters and the printed histogram: the scans behind its entries add up
    * to the blocks scanned, its entries to the distinct blocks, and entry 0 is the distinct blocks that
    * have no duplicate. */
  lemma {:induction false} HistogramConserves(hist: map<nat, nat>, db: Db)
    requires Positive(db) && IsHistogram(hist, db)
    ensures Sum(hist, Scans()) == Sum(db, Blocks())
    ensures Sum(hist, Entries()) == |db|
    ensures Get(hist, 0) + Sum(db, Repeated()) == |db|
    decreases |db|
  {
    if db == map[] {
      EmptyHistogram(hist, db);
    } else {
      var key :| key in db;
      var rest, at := db - {key}, Duplicates(db[key]);
      RemoveShrinks(db, key);
      UncountOne(hist, db, key);
      HistogramConserves(Uncount(hist, at), rest);
      UncountSums(hist, at);
      SumRemove(db, Blocks(), key);
      SumRemove(db, Repeated(), key);
    }
  }

  lemma EmptyHistogram(hist: map<nat, nat>, db: Db)
    requires db == map[] && IsHistogram(hist, db)
    ensures hist == map[] && |db| == 0
  {
    forall n: nat ensures n !in hist {
      assert HistogramAt(hist, db, n) && Fibre(db, n) == {};
    }
  }

  /** The numbers of a finished scan against its printed histogram. */
  lemma OutputOfScan(hash: Hash, c: Column, files: seq<seq<Byte>>, size: nat, readSize: nat, hist: map<nat, nat>)
    requires size > 0 && readSize > 0 && Scanned(hash, c, files, size, readSize) && IsHistogram(hist, c.db)
    ensures Sum(hist, Scans()) == c.total
    ensures Get(hist, 0) == c.dif - c.distinctdup
    ensures Sum(hist, Entries()) == c.dif
  {
    HistogramConserves(hist, c.db);
  }

  /** Scanning two datasets apart and merging gives the database, and the histogram, of one scan of both. */
  lemma MergedScans(hash: Hash, a: seq<seq<Byte>>, b: seq<seq<Byte>>, size: nat, readSize: nat,
                    ca: Column, cb: Column, cab: Column, g: map<nat, nat>, h: map<nat, nat>)
    requires size > 0 && readSize > 0
    requires Scanned(hash, ca, a, size, readSize) && Scanned(hash, cb, b, size, readSize)
    requires Scanned(hash, cab, a + b, size, readSize)
    requires IsHistogram(g, Merged(ca.db, cb.db)) && IsHistogram(h, cab.db)
    ensures Merged(ca.db, cb.db) == cab.db && Merged(cb.db, ca.db) == cab.db && g == h
  {
    hide Tally; hide Merged; hide IsHistogram; hide CutByChunk; hide BlocksOf;
    BlocksOfAppend(a, b, size, readSize);
    MergeIsScanOfBoth(hash, BlocksOf(a, size, readSize), BlocksOf(b, size, readSize));
    HistogramUnique(g, h, cab.db);
  }
}
