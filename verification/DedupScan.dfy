/** DEDISgen's duplicate scan: hash keys, the database of counters, the counters of one block size. */
module DedupScan {
  import opened Basics
  import opened Tallies

  type Block = seq<Byte>
  type Digest = d: seq<Byte> | |d| == 20 witness seq(20, i => 0)

  /** SHA1 is any function from blocks to digests. */
  type Hash = Block -> Digest

  /** Database keys: the 40 letters that spell a digest. */
  type Key = string
  type Db = map<Key, nat>

  // ----- keys -----

  function Letter(nibble: nat): char
    requires nibble < 16
  {
    (nibble + 97) as char
  }

  /** The letters of a byte: the low half first. */
  function Spell(d: seq<Byte>): (key: Key)
    ensures |key| == 2 * |d|
  {
    if d == [] then [] else [Letter(d[0] % 16), Letter(d[0] / 16)] + Spell(d[1..])
  }

  lemma {:induction false} SpellPrefix(d: seq<Byte>, j: nat)
    requires j < |d|
    ensures Spell(d[..j + 1]) == Spell(d[..j]) + [Letter(d[j] % 16), Letter(d[j] / 16)]
    decreases j
  {
    if j == 0 {
      assert d[..1][1..] == [] && d[..0] == [];
    } else {
      SpellPrefix(d[1..], j - 1);
      assert d[..j + 1][1..] == d[1..][..j] && d[..j][1..] == d[1..][..j - 1];
    }
  }

  lemma {:induction false} SpellAt(d: seq<Byte>, i: nat)
    requires i < |d|
    ensures Spell(d)[2 * i] as int == 'a' as int + d[i] % 16
    ensures Spell(d)[2 * i + 1] as int == 'a' as int + d[i] / 16
    decreases i
  {
    if i == 0 {
    } else {
      SpellAt(d[1..], i - 1);
    }
  }

  /** Different digests have different keys: no two hashes share a database entry. */
  lemma {:induction false} KeysTellDigestsApart(d: seq<Byte>, e: seq<Byte>)
    requires |d| == |e| && Spell(d) == Spell(e)
    ensures d == e
    decreases |d|
  {
    if d == [] {
    } else {
      assert Spell(d)[0] == Spell(e)[0] && Spell(d)[1] == Spell(e)[1];
      assert d[0] == 16 * (d[0] / 16) + d[0] % 16 && e[0] == 16 * (e[0] / 16) + e[0] % 16;
      assert Spell(d)[2..] == Spell(d[1..]) && Spell(e)[2..] == Spell(e[1..]);
      KeysTellDigestsApart(d[1..], e[1..]);
    }
  }

  /** The loop of check_duplicates that writes the visual form of a digest. */
  method VisualForm(digest: Digest) returns (start: Key)
    ensures start == Spell(digest) && |start| == 40
    ensures forall i :: 0 <= i < 20 ==> start[2 * i] as int == 'a' as int + digest[i] % 16
    ensures forall i :: 0 <= i < 20 ==> start[2 * i + 1] as int == 'a' as int + digest[i] / 16
  {
    start := [];
    var j := 0;
    while j < 40
      invariant 0 <= j <= 40 && j % 2 == 0
      invariant start == Spell(digest[..j / 2])
    {
      SpellPrefix(digest, j / 2);
      start := start + [Letter(digest[j / 2] % 16), Letter(digest[j / 2] / 16)];
      j := j + 2;
    }
    assert digest[..20] == digest;
    hide Spell; hide Letter;
    forall i | 0 <= i < 20
      ensures start[2 * i] as int == 'a' as int + digest[i] % 16
      ensures start[2 * i + 1] as int == 'a' as int + digest[i] / 16
    {
      SpellAt(digest, i);
    }
  }

  // ----- the database after a scan -----

  function Bump(db: Db, key: Key): Db {
    db[key := Get(db, key) + 1]
  }

  /** Scanning blocks in order, starting from a database. */
  function Tally(hash: Hash, db: Db, blocks: seq<Block>): Db
    decreases |blocks|
  {
    if blocks == [] then db else Tally(hash, Bump(db, Spell(hash(blocks[0]))), blocks[1..])
  }

  /** How many of the blocks have this digest. */
  function Occurrences(hash: Hash, blocks: seq<Block>, d: Digest): nat
    decreases |blocks|
  {
    if blocks == [] then 0 else (if hash(blocks[0]) == d then 1 else 0) + Occurrences(hash, blocks[1..], d)
  }

  /** A counter is the number of scanned blocks with that digest, and other keys are not touched. */
  lemma {:induction false} TallyCounts(hash: Hash, db: Db, blocks: seq<Block>, d: Digest)
    ensures Get(Tally(hash, db, blocks), Spell(d)) == Get(db, Spell(d)) + Occurrences(hash, blocks, d)
    decreases |blocks|
  {
    if blocks == [] {
    } else {
      TallyCounts(hash, Bump(db, Spell(hash(blocks[0]))), blocks[1..], d);
      if hash(blocks[0]) != d && Spell(hash(blocks[0])) == Spell(d) {
        KeysTellDigestsApart(hash(blocks[0]), d);
      }
    }
  }

  lemma {:induction false} TallyAppend(hash: Hash, db: Db, a: seq<Block>, b: seq<Block>)
    ensures Tally(hash, db, a + b) == Tally(hash, Tally(hash, db, a), b)
    decreases |a|
  {
    if a == [] {
      assert a + b == b;
    } else {
      TallyAppend(hash, Bump(db, Spell(hash(a[0]))), a[1..], b);
      assert (a + b)[1..] == a[1..] + b;
    }
  }

  predicate Positive(db: Db) {
    forall k <- db :: db[k] > 0
  }

  lemma {:induction false} TallyPositive(hash: Hash, db: Db, blocks: seq<Block>)
    requires Positive(db)
    ensures Positive(Tally(hash, db, blocks))
    decreases |blocks|
  {
    if blocks == [] {
    } else {
      TallyPositive(hash, Bump(db, Spell(hash(blocks[0]))), blocks[1..]);
    }
  }

  // ----- the counters of one block size -----

  /** One column of the parallel arrays sizes_proc, total_blocks, eq, dif, distinctdup, space and dbporiginal. */
  datatype Column = Column(size: nat, total: nat, eq: nat, dif: nat, distinctdup: nat, space: nat, db: Db)

  ghost function Blocks(): (Key, nat) -> nat {
    (k, c) => c
  }

  ghost function Repeated(): (Key, nat) -> nat {
    (k, c) => if c >= 2 then 1 else 0
  }

  /** What the counters mean: all of them are determined by the database. */
  ghost predicate Consistent(c: Column) {
    && Positive(c.db)
    && c.total == Sum(c.db, Blocks())
    && c.dif == |c.db|
    && c.total == c.dif + c.eq
    && c.distinctdup == Sum(c.db, Repeated())
    && c.space == c.size * c.eq
  }

  lemma EmptyColumn(size: nat)
    ensures Consistent(Column(size, 0, 0, 0, 0, 0, map[]))
  {
    var none: Db := map[];
    assert |none| == 0;
  }

  lemma BumpSums(db: Db, key: Key)
    ensures Sum(Bump(db, key), Blocks()) == Sum(db, Blocks()) + 1
    ensures Sum(Bump(db, key), Repeated()) == Sum(db, Repeated()) + if Get(db, key) == 1 then 1 else 0
  {
    hide Sum;
    SumPut(db, Blocks(), key, Get(db, key) + 1);
    SumPut(db, Repeated(), key, Get(db, key) + 1);
  }

  lemma BumpSize(db: Db, key: Key)
    ensures |Bump(db, key)| == |db| + if key in db then 0 else 1
  {
    assert Bump(db, key).Keys == db.Keys + {key};
    assert key in db ==> db.Keys + {key} == db.Keys;
  }

  lemma OneMore(size: nat, n: nat)
    ensures size * n + size == size * (n + 1)
  {}

  lemma TallyOne(hash: Hash, db: Db, block: Block)
    ensures Tally(hash, db, [block]) == Bump(db, Spell(hash(block)))
  {
    assert [block][1..] == [];
  }

  /** The counters after a block with a new digest. */
  lemma NewBlock(c: Column, key: Key)
    requires Consistent(c) && key !in c.db
    ensures Bump(c.db, key) == c.db[key := 1]
    ensures Consistent(c.(total := c.total + 1, dif := c.dif + 1, db := c.db[key := 1]))
  {
    BumpSums(c.db, key);
    BumpSize(c.db, key);
    hide Sum; hide Blocks; hide Repeated;
  }

  /** The counters after a block with a known digest; its counter goes from 1 to 2 only once. */
  lemma OldBlock(c: Column, key: Key)
    requires Consistent(c) && key in c.db
    ensures Bump(c.db, key) == c.db[key := c.db[key] + 1]
    ensures Consistent(c.(total := c.total + 1, eq := c.eq + 1, space := c.space + c.size,
                          db := c.db[key := c.db[key] + 1],
                          distinctdup := if c.db[key] == 1 then c.distinctdup + 1 else c.distinctdup))
  {
    BumpSums(c.db, key);
    BumpSize(c.db, key);
    OneMore(c.size, c.eq);
    hide Sum; hide Blocks; hide Repeated;
  }

  /** The scanner: one column per block size given on the command line. */
  class Scanner {
    const hash: Hash
    var columns: seq<Column>

    constructor (hash: Hash, sizes: seq<nat>)
      ensures this.hash == hash && |columns| == |sizes|
      ensures forall i :: 0 <= i < |sizes| ==>
        columns[i].size == sizes[i] && columns[i].db == map[] && Consistent(columns[i])
    {
      this.hash := hash;
      columns := seq(|sizes|, i requires 0 <= i < |sizes| => Column(sizes[i], 0, 0, 0, 0, 0, map[]));
      new;
      forall i | 0 <= i < |sizes| ensures Consistent(columns[i]) {
        EmptyColumn(sizes[i]);
      }
    }

    /** check_duplicates. */
    method CheckDuplicates(block: Block, id: nat)
      requires id < |columns| && |block| == columns[id].size && Consistent(columns[id])
      modifies this
      ensures |columns| == old(|columns|) && Consistent(columns[id])
      ensures columns[id].size == old(columns[id].size)
      ensures columns[id].db == Tally(hash, old(columns[id].db), [block])
      ensures forall j :: 0 <= j < |columns| && j != id ==> columns[j] == old(columns[j])
    {
      hide Consistent; hide Tally;
      var c := columns[id];
      var start := VisualForm(hash(block));
      TallyOne(hash, c.db, block);
      if start !in c.db {
        NewBlock(c, start);
        c := c.(total := c.total + 1, dif := c.dif + 1, db := c.db[start := 1]);
      } else {
        var cont := c.db[start];
        OldBlock(c, start);
        var distinctdup := c.distinctdup;
        if cont == 1 {
          distinctdup := distinctdup + 1;
        }
        c := c.(total := c.total + 1, distinctdup := distinctdup, eq := c.eq + 1,
                space := c.space + |block|, db := c.db[start := cont + 1]);
      }
      columns := columns[id := c];
    }
  }
}
