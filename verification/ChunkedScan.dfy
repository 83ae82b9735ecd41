/** extract_blocks: cutting a file into blocks of several sizes while reading it in chunks of READSIZE bytes. */
module ChunkedScan {
  import opened Basics
  import opened Tallies
  import opened DedupScan
  import Arith

  // ----- cutting -----

  /** All whole blocks of a text, in order; an incomplete rest is dropped. */
  function Cut(text: seq<Byte>, size: nat): seq<Block>
    requires size > 0
    decreases |text|
  {
    if |text| < size then [] else [text[..size]] + Cut(text[size..], size)
  }

  /** The bytes that one read of a chunk delivers, and those left for later reads. */
  function Head(text: seq<Byte>, readSize: nat): seq<Byte> {
    if |text| <= readSize then text else text[..readSize]
  }

  function Rest(text: seq<Byte>, readSize: nat): seq<Byte> {
    if |text| <= readSize then [] else text[readSize..]
  }

  /** The blocks handed on when every chunk is cut by itself. */
  function CutByChunk(text: seq<Byte>, size: nat, readSize: nat): seq<Block>
    requires size > 0 && readSize > 0
    decreases |text|
  {
    if text == [] then [] else Cut(Head(text, readSize), size) + CutByChunk(Rest(text, readSize), size, readSize)
  }

  /** Cut gives floor(|text| / size) blocks. */
  lemma {:induction false} CutCount(text: seq<Byte>, size: nat)
    requires size > 0
    ensures |Cut(text, size)| == |text| / size
    decreases |text|
  {
    if |text| >= size {
      CutCount(text[size..], size);
      QuotientStep(|text|, size);
    } else {
      Arith.DivRemainder(|text|, 0, |text|, size);
    }
  }

  /** The j-th block is what stands at offset size * j. */
  lemma {:induction false} CutAt(text: seq<Byte>, size: nat, j: nat)
    requires size > 0 && size * j + size <= |text|
    ensures j < |Cut(text, size)| && Cut(text, size)[j] == text[size * j..size * j + size]
    decreases j
  {
    if j == 0 {
    } else {
      var at := size * (j - 1);
      assert size * j == at + size;
      CutAt(text[size..], size, j - 1);
      var lines := Cut(text[size..], size);
      assert Cut(text, size) == [text[..size]] + lines;
      hide Cut;
      SliceBehind(text, size, at);
    }
  }

  lemma SliceBehind(text: seq<Byte>, size: nat, at: nat)
    requires at + size + size <= |text|
    ensures text[size..][at..at + size] == text[at + size..at + size + size]
  {}

  lemma QuotientStep(n: nat, size: nat)
    requires 0 < size <= n
    ensures (n - size) / size == n / size - 1
  {
    var q, r := n / size, n % size;
    assert size * (q - 1) == size * q - size;
    Arith.MulBound(size, q);
    Arith.DivRemainder(n - size, q - 1, r, size);
  }

  /** Cutting after a whole number of blocks cuts nothing apart. */
  lemma {:induction false} CutSplits(a: seq<Byte>, b: seq<Byte>, size: nat, blocks: nat)
    requires size > 0 && |a| == size * blocks
    ensures Cut(a + b, size) == Cut(a, size) + Cut(b, size)
    decreases blocks
  {
    if blocks == 0 {
      assert a + b == b;
    } else {
      assert size * (blocks - 1) == size * blocks - size;
      Arith.MulBound(size, blocks);
      assert (a + b)[..size] == a[..size] && (a + b)[size..] == a[size..] + b;
      CutSplits(a[size..], b, size, blocks - 1);
    }
  }

  /** A size that divides READSIZE: the chunks cut the file exactly as one cut of the whole file. */
  lemma ChunksRefine(text: seq<Byte>, size: nat, readSize: nat)
    requires size > 0 && readSize > 0 && readSize % size == 0
    ensures CutByChunk(text, size, readSize) == Cut(text, size)
  {
    ChunksOfWholeBlocks(text, size, readSize, readSize / size);
  }

  lemma {:induction false} ChunksOfWholeBlocks(text: seq<Byte>, size: nat, readSize: nat, blocks: nat)
    requires size > 0 && readSize > 0 && readSize == size * blocks
    ensures CutByChunk(text, size, readSize) == Cut(text, size)
    decreases |text|
  {
    var first, rest := Head(text, readSize), Rest(text, readSize);
    assert first + rest == text;
    if text == [] {
    } else {
      ChunksOfWholeBlocks(rest, size, readSize, blocks);
      assert CutByChunk(text, size, readSize) == Cut(first, size) + Cut(rest, size);
      hide CutByChunk;
      if |text| > readSize {
        CutSplits(first, rest, size, blocks);
      } else {
        assert Cut(rest, size) == [];
      }
    }
  }

  // ----- exactly when chunked reading loses nothing -----

  /** Chunked reading hands on the same blocks as the simple cut, for every file of this length. */
  ghost predicate Faithful(length: nat, size: nat, readSize: nat)
    requires size > 0 && readSize > 0
  {
    forall text: seq<Byte> | |text| == length :: CutByChunk(text, size, readSize) == Cut(text, size)
  }

  /** Bytes behind the last whole block do not matter. */
  lemma {:induction false} CutIgnoresRest(a: seq<Byte>, b: seq<Byte>, size: nat, blocks: nat)
    requires size > 0 && |a| == size * blocks && |b| < size
    ensures Cut(a + b, size) == Cut(a, size)
  {
    CutSplits(a, b, size, blocks);
    assert Cut(a, size) + [] == Cut(a, size);
  }

  function Zeros(n: nat): seq<Byte> {
    seq(n, i => 0)
  }

  /** Where the whole blocks of a chunk end: size * k = start <= readSize < start + size. */
  predicate LastCut(size: nat, readSize: nat, k: nat, start: nat) {
    size > 0 && readSize > 0 && start == size * k && start <= readSize < start + size
  }

  lemma LastCutOf(size: nat, readSize: nat)
    requires size > 0 && readSize > 0
    ensures LastCut(size, readSize, readSize / size, size * (readSize / size))
    ensures (readSize / size + 1) * size == size * (readSize / size) + size
    ensures readSize % size == readSize - size * (readSize / size)
  {}

  /** The simple cut sees a byte at the start of a block. */
  lemma OneIsSeen(length: nat, size: nat, k: nat, start: nat)
    requires size > 0 && start == size * k && start + size <= length
    ensures Cut(Zeros(length)[start := 1], size) != Cut(Zeros(length), size)
  {
    var head, tail := Zeros(start), Zeros(length - start);
    assert Zeros(length) == head + tail && Zeros(length)[start := 1] == head + tail[0 := 1];
    CutSplits(head, tail, size, k);
    CutSplits(head, tail[0 := 1], size, k);
    assert Cut(tail, size)[0] == tail[..size] && Cut(tail[0 := 1], size)[0] == tail[0 := 1][..size];
    assert tail[..size][0] == 0 && tail[0 := 1][..size][0] == 1;
    var common := Cut(head, size);
    assert (common + Cut(tail, size))[|common|] != (common + Cut(tail[0 := 1], size))[|common|];
  }

  /** The chunked scan does not see it behind the whole blocks of the first chunk. */
  lemma OneIsLost(length: nat, size: nat, readSize: nat, k: nat, start: nat)
    requires LastCut(size, readSize, k, start) && start < readSize < length
    ensures CutByChunk(Zeros(length)[start := 1], size, readSize) == CutByChunk(Zeros(length), size, readSize)
  {
    var zeros := Zeros(length);
    var head, gap, rest := Zeros(start), Zeros(readSize - start), Zeros(length - readSize);
    assert Head(zeros, readSize) == head + gap && Rest(zeros, readSize) == rest;
    assert Head(zeros[start := 1], readSize) == head + gap[0 := 1] && Rest(zeros[start := 1], readSize) == rest;
    CutIgnoresRest(head, gap, size, k);
    CutIgnoresRest(head, gap[0 := 1], size, k);
  }

  lemma CrossingBlockLost(length: nat, size: nat, readSize: nat, k: nat, start: nat)
    requires LastCut(size, readSize, k, start) && start < readSize && start + size <= length
    ensures !Faithful(length, size, readSize)
  {
    OneIsSeen(length, size, k, start);
    OneIsLost(length, size, readSize, k, start);
    var zeros, text := Zeros(length), Zeros(length)[start := 1];
    assert |zeros| == length && |text| == length;
  }

  /** A file that ends before the first cut-apart block is complete loses nothing. */
  lemma ShortFileKeepsAll(text: seq<Byte>, size: nat, readSize: nat, k: nat, start: nat)
    requires LastCut(size, readSize, k, start) && |text| < start + size
    ensures CutByChunk(text, size, readSize) == Cut(text, size)
  {
    var first, rest := Head(text, readSize), Rest(text, readSize);
    assert text != [] ==> CutByChunk(text, size, readSize) == Cut(first, size) + CutByChunk(rest, size, readSize);
    ShortTail(rest, size, readSize);
    hide CutByChunk;
    assert Cut(first, size) + [] == Cut(first, size);
    if |text| > readSize {
      var head := text[..start];
      assert head + text[start..readSize] == first && head + text[start..] == text;
      hide Cut;
      CutIgnoresRest(head, text[start..readSize], size, k);
      CutIgnoresRest(head, text[start..], size, k);
    }
  }

  lemma {:induction false} ShortTail(rest: seq<Byte>, size: nat, readSize: nat)
    requires size > 0 && readSize > 0 && |rest| < size
    ensures CutByChunk(rest, size, readSize) == []
    decreases |rest|
  {
    if rest == [] {
    } else {
      ShortTail(Rest(rest, readSize), size, readSize);
    }
  }

  /** The chunk loop hands on exactly the blocks of the file, for all files of a length, just when the size
    * divides READSIZE or the file ends before the first block that a chunk boundary cuts apart. */
  lemma FaithfulIff(length: nat, size: nat, readSize: nat)
    requires size > 0 && readSize > 0
    ensures Faithful(length, size, readSize) <==> readSize % size == 0 || length < (readSize / size + 1) * size
  {
    var k, start := readSize / size, size * (readSize / size);
    LastCutOf(size, readSize);
    if readSize % size != 0 && length >= start + size {
      CrossingBlockLost(length, size, readSize, k, start);
    } else {
      forall text: seq<Byte> | |text| == length ensures CutByChunk(text, size, readSize) == Cut(text, size) {
        if readSize % size == 0 {
          ChunksRefine(text, size, readSize);
        } else {
          ShortFileKeepsAll(text, size, readSize, k, start);
        }
      }
    }
  }

  // ----- the loops -----

  /** pread: what is there from an offset on, at most count bytes. */
  function Pread(file: seq<Byte>, count: nat, off: nat): seq<Byte> {
    if off >= |file| then [] else Head(file[off..], count)
  }

  predicate Ready(columns: seq<Column>) {
    forall i :: 0 <= i < |columns| ==> columns[i].size > 0
  }

  ghost predicate AllConsistent(columns: seq<Column>) {
    forall i :: 0 <= i < |columns| ==> Consistent(columns[i])
  }

  ghost predicate CountedAt(hash: Hash, before: Column, after: Column, blocks: seq<Block>) {
    after.size == before.size && after.db == Tally(hash, before.db, blocks)
  }

  /** The innermost loop: one chunk cut into blocks of one size. */
  method ScanChunk(scanner: Scanner, chunk: seq<Byte>, id: nat)
    requires id < |scanner.columns| && scanner.columns[id].size > 0 && Consistent(scanner.columns[id])
    modifies scanner
    ensures |scanner.columns| == old(|scanner.columns|) && Consistent(scanner.columns[id])
    ensures CountedAt(scanner.hash, old(scanner.columns[id]), scanner.columns[id],
                      Cut(chunk, old(scanner.columns[id].size)))
    ensures forall j :: 0 <= j < |scanner.columns| && j != id ==> scanner.columns[j] == old(scanner.columns[j])
  {
    hide Consistent; hide Cut; hide Tally;
    var size := scanner.columns[id].size;
    var done := 0;
    assert chunk[0..] == chunk;
    while |chunk| - done >= size
      invariant 0 <= done <= |chunk|
      invariant |scanner.columns| == old(|scanner.columns|)
      invariant Consistent(scanner.columns[id]) && scanner.columns[id].size == size
      invariant Tally(scanner.hash, scanner.columns[id].db, Cut(chunk[done..], size))
             == Tally(scanner.hash, old(scanner.columns[id].db), Cut(chunk, size))
      invariant forall j :: 0 <= j < |scanner.columns| && j != id ==> scanner.columns[j] == old(scanner.columns[j])
    {
      var block := chunk[done..done + size];
      CutOne(chunk, done, size);
      TallyAppend(scanner.hash, scanner.columns[id].db, [block], Cut(chunk[done + size..], size));
      scanner.CheckDuplicates(block, id);
      done := done + size;
    }
    NothingCut(scanner.hash, scanner.columns[id].db, chunk[done..], size);
  }

  lemma CutOne(chunk: seq<Byte>, done: nat, size: nat)
    requires size > 0 && done + size <= |chunk|
    ensures Cut(chunk[done..], size) == [chunk[done..done + size]] + Cut(chunk[done + size..], size)
  {
    assert chunk[done..][..size] == chunk[done..done + size] && chunk[done..][size..] == chunk[done + size..];
  }

  lemma NothingCut(hash: Hash, db: Db, text: seq<Byte>, size: nat)
    requires size > 0 && |text| < size
    ensures Tally(hash, db, Cut(text, size)) == db
  {}

  /** The loop over the sizes: one chunk counted in every column. */
  method ScanAllSizes(scanner: Scanner, chunk: seq<Byte>)
    requires Ready(scanner.columns) && AllConsistent(scanner.columns)
    modifies scanner
    ensures |scanner.columns| == old(|scanner.columns|) && AllConsistent(scanner.columns)
    ensures forall i :: 0 <= i < |scanner.columns| ==>
      CountedAt(scanner.hash, old(scanner.columns)[i], scanner.columns[i], Cut(chunk, old(scanner.columns)[i].size))
  {
    hide Consistent; hide CountedAt; hide Cut;
    ghost var before := scanner.columns;
    var curr := 0;
    while curr < |scanner.columns|
      invariant 0 <= curr <= |scanner.columns| == |before|
      invariant AllConsistent(scanner.columns)
      invariant forall i :: 0 <= i < curr ==>
          CountedAt(scanner.hash, before[i], scanner.columns[i], Cut(chunk, before[i].size))
      invariant forall i :: curr <= i < |before| ==> scanner.columns[i] == before[i]
    {
      ScanChunk(scanner, chunk, curr);
      curr := curr + 1;
    }
  }

  /** What is left to read, counted as the chunk loop will, completes the file's own count. */
  ghost predicate OnTrack(hash: Hash, before: Column, now: Column, file: seq<Byte>, rest: seq<Byte>, readSize: nat)
    requires before.size > 0 && readSize > 0
  {
    && now.size == before.size
    && Tally(hash, now.db, CutByChunk(rest, before.size, readSize))
         == Tally(hash, before.db, CutByChunk(file, before.size, readSize))
  }

  lemma TrackStep(hash: Hash, before: Column, now: Column, next: Column, file: seq<Byte>, rest: seq<Byte>,
                  readSize: nat)
    requires before.size > 0 && readSize > 0 && rest != []
    requires OnTrack(hash, before, now, file, rest, readSize)
    requires CountedAt(hash, now, next, Cut(Head(rest, readSize), now.size))
    ensures OnTrack(hash, before, next, file, Rest(rest, readSize), readSize)
  {
    var tail := CutByChunk(Rest(rest, readSize), now.size, readSize);
    TallyAppend(hash, now.db, Cut(Head(rest, readSize), now.size), tail);
  }

  /** extract_blocks: one file. */
  method ExtractBlocks(scanner: Scanner, file: seq<Byte>, readSize: nat)
    requires readSize > 0 && Ready(scanner.columns) && AllConsistent(scanner.columns)
    modifies scanner
    ensures |scanner.columns| == old(|scanner.columns|) && AllConsistent(scanner.columns)
    ensures forall i :: 0 <= i < |scanner.columns| ==>
      CountedAt(scanner.hash, old(scanner.columns)[i], scanner.columns[i],
                CutByChunk(file, old(scanner.columns)[i].size, readSize))
  {
    hide Consistent; hide Tally; hide CutByChunk; hide Cut;
    ghost var before, rest := scanner.columns, file;
    var off := 0;
    var chunk := Pread(file, readSize, off);
    off := off + readSize;
    while |chunk| > 0
      invariant chunk == Head(rest, readSize) && off >= readSize
      invariant Rest(rest, readSize) == if off >= |file| then [] else file[off..]
      invariant |scanner.columns| == |before| && AllConsistent(scanner.columns)
      invariant forall i :: 0 <= i < |before| ==>
          OnTrack(scanner.hash, before[i], scanner.columns[i], file, rest, readSize)
      decreases |rest|
    {
      ghost var now := scanner.columns;
      ScanAllSizes(scanner, chunk);
      forall i | 0 <= i < |before|
        ensures OnTrack(scanner.hash, before[i], scanner.columns[i], file, Rest(rest, readSize), readSize)
      {
        TrackStep(scanner.hash, before[i], now[i], scanner.columns[i], file, rest, readSize);
      }
      chunk := Pread(file, readSize, off);
      off := off + readSize;
      rest := Rest(rest, readSize);
    }
    forall i | 0 <= i < |before|
      ensures CountedAt(scanner.hash, before[i], scanner.columns[i], CutByChunk(file, before[i].size, readSize))
    {
      assert OnTrack(scanner.hash, before[i], scanner.columns[i], file, rest, readSize);
      NothingToCut(scanner.hash, scanner.columns[i].db, before[i].size, readSize);
    }
  }

  lemma NothingToCut(hash: Hash, db: Db, size: nat, readSize: nat)
    requires size > 0 && readSize > 0
    ensures Tally(hash, db, CutByChunk([], size, readSize)) == db
  {}

  // ----- a whole dataset -----

  /** The blocks of one size that the chunk loop hands on for the files of a folder, in visiting order. */
  function BlocksOf(files: seq<seq<Byte>>, size: nat, readSize: nat): seq<Block>
    requires size > 0 && readSize > 0
    decreases |files|
  {
    if files == [] then [] else CutByChunk(files[0], size, readSize) + BlocksOf(files[1..], size, readSize)
  }

  /** The blocks that a scan is meant to see: every file cut on its own, as one piece. */
  function WholeBlocks(files: seq<seq<Byte>>, size: nat): seq<Block>
    requires size > 0
    decreases |files|
  {
    if files == [] then [] else Cut(files[0], size) + WholeBlocks(files[1..], size)
  }

  lemma {:induction false} DatasetRefines(files: seq<seq<Byte>>, size: nat, readSize: nat)
    requires size > 0 && readSize > 0 && readSize % size == 0
    ensures BlocksOf(files, size, readSize) == WholeBlocks(files, size)
    decreases |files|
  {
    if files == [] {
    } else {
      ChunksRefine(files[0], size, readSize);
      DatasetRefines(files[1..], size, readSize);
    }
  }

  lemma {:induction false} BlocksOfAppend(a: seq<seq<Byte>>, b: seq<seq<Byte>>, size: nat, readSize: nat)
    requires size > 0 && readSize > 0
    ensures BlocksOf(a + b, size, readSize) == BlocksOf(a, size, readSize) + BlocksOf(b, size, readSize)
    decreases |a|
  {
    hide CutByChunk;
    if a == [] {
      assert a + b == b;
    } else {
      BlocksOfAppend(a[1..], b, size, readSize);
      assert (a + b)[1..] == a[1..] + b;
    }
  }

  lemma NextFile(hash: Hash, db: Db, files: seq<seq<Byte>>, i: nat, size: nat, readSize: nat)
    requires size > 0 && readSize > 0 && i < |files|
    ensures Tally(hash, db, BlocksOf(files[..i + 1], size, readSize))
         == Tally(hash, Tally(hash, db, BlocksOf(files[..i], size, readSize)), CutByChunk(files[i], size, readSize))
  {
    hide CutByChunk;
    assert files[..i + 1] == files[..i] + [files[i]];
    BlocksOfAppend(files[..i], [files[i]], size, readSize);
    var one, none: seq<seq<Byte>> := [files[i]], [];
    assert one[1..] == none && CutByChunk(files[i], size, readSize) + [] == CutByChunk(files[i], size, readSize);
    TallyAppend(hash, db, BlocksOf(files[..i], size, readSize), CutByChunk(files[i], size, readSize));
  }

  /** The column of a finished scan: counters that mean what they should, and a database that counts every
    * block of the dataset under its digest. */
  ghost predicate Scanned(hash: Hash, c: Column, files: seq<seq<Byte>>, size: nat, readSize: nat)
    requires size > 0 && readSize > 0
  {
    Consistent(c) && c.size == size && c.db == Tally(hash, map[], BlocksOf(files, size, readSize))
  }

  /** A scan of all files, for all sizes at once. */
  method ScanDataset(hash: Hash, sizes: seq<nat>, files: seq<seq<Byte>>, readSize: nat) returns (columns: seq<Column>)
    requires readSize > 0 && forall i :: 0 <= i < |sizes| ==> sizes[i] > 0
    ensures |columns| == |sizes|
    ensures forall i :: 0 <= i < |sizes| ==> Scanned(hash, columns[i], files, sizes[i], readSize)
  {
    hide Consistent; hide Tally; hide CutByChunk;
    var scanner := new Scanner(hash, sizes);
    var k := 0;
    forall i | 0 <= i < |sizes| ensures Scanned(hash, scanner.columns[i], files[..0], sizes[i], readSize) {
      NothingToCut(hash, map[], sizes[i], readSize);
      NothingCounted(hash);
    }
    while k < |files|
      invariant 0 <= k <= |files| && |scanner.columns| == |sizes| && scanner.hash == hash
      invariant forall i :: 0 <= i < |sizes| ==> Scanned(hash, scanner.columns[i], files[..k], sizes[i], readSize)
    {
      ghost var before := scanner.columns;
      ExtractBlocks(scanner, files[k], readSize);
      forall i | 0 <= i < |sizes| ensures Scanned(hash, scanner.columns[i], files[..k + 1], sizes[i], readSize) {
        assert Scanned(hash, before[i], files[..k], sizes[i], readSize);
        NextFile(hash, map[], files, k, sizes[i], readSize);
      }
      k := k + 1;
    }
    columns := scanner.columns;
    assert files[..k] == files;
  }

  lemma NothingCounted(hash: Hash)
    ensures Tally(hash, map[], []) == map[]
  {}

  /** For sizes that divide READSIZE, a counter is the number of whole blocks of the dataset with that digest. */
  lemma ScanCountsDataset(hash: Hash, c: Column, files: seq<seq<Byte>>, size: nat, readSize: nat, d: Digest)
    requires size > 0 && readSize > 0 && readSize % size == 0 && Scanned(hash, c, files, size, readSize)
    ensures Get(c.db, Spell(d)) == Occurrences(hash, WholeBlocks(files, size), d)
  {
    DatasetRefines(files, size, readSize);
    TallyCounts(hash, map[], WholeBlocks(files, size), d);
  }
}
