/** Block contents as values: what the generator may emit, and how a block is told from its ids. */
module Content {
  import opened Basics
  import opened LineTable
  import opened Allotment
  import Arith

  // ----- 32-bit ids as four bytes, lowest first -----

  function Encode(n: nat): (b: seq<Byte>)
    requires n < TWO_32
    ensures |b| == 4
  {
    [n % 256, n / 256 % 256, n / 65536 % 256, n / 16777216]
  }

  function Decode(b: seq<Byte>): (n: nat)
    requires |b| == 4
    ensures n < TWO_32
  {
    b[0] as int + 256 * b[1] as int + 65536 * b[2] as int + 16777216 * b[3] as int
  }

  /** The number that four bytes spell from a position on, the lowest first. */
  function Spelled(b: seq<Byte>, at: nat): int
    requires at + 4 <= |b|
  {
    b[at] as int + 0x100 * b[at + 1] as int + 0x1_0000 * b[at + 2] as int + 0x100_0000 * b[at + 3] as int
  }

  lemma SpelledIsDecode(b: seq<Byte>, at: nat)
    requires at + 4 <= |b|
    ensures Spelled(b, at) == Decode(b[at..at + 4])
  {}

  lemma DecodeEncode(n: nat)
    requires n < TWO_32
    ensures Decode(Encode(n)) == n
  {
    var q1 := n / 256;
    var q2 := q1 / 256;
    var q3 := q2 / 256;
    Arith.DivRemainder(n, q2, 256 * (q1 % 256) + n % 256, 65536);
    Arith.DivRemainder(n, q3, 65536 * (q2 % 256) + 256 * (q1 % 256) + n % 256, 16777216);
  }

  lemma EncodeDecode(b: seq<Byte>)
    requires |b| == 4
    ensures Encode(Decode(b)) == b
  {
    var n: int, b0: int, b1: int, b2: int, b3: int := Decode(b), b[0], b[1], b[2], b[3];
    Arith.DivRemainder(n, b1 + 256 * b2 + 65536 * b3, b0, 256);
    Arith.DivRemainder(n, b2 + 256 * b3, b0 + 256 * b1, 65536);
    Arith.DivRemainder(n, b3, b0 + 256 * b1 + 65536 * b2, 16777216);
    Arith.DivRemainder(b1 + 256 * b2 + 65536 * b3, b2 + 256 * b3, b1, 256);
    Arith.DivRemainder(b2 + 256 * b3, b3, b2, 256);
  }

  /** A C int with the same 32 bits. */
  function AsInt(n: nat): (i: int)
    requires n < TWO_32
    ensures -TWO_31 <= i < TWO_31 && (i - n) % TWO_32 == 0
  {
    if n < TWO_31 then n else n - TWO_32
  }

  // ----- the generator's fixed data -----

  /** Line table, allotment, and for every model and compression class the bytes from byte 8 on.
    * The first 8 bytes of the shared buffers are rewritten all the time and are not part of it. */
  datatype Plan = Plan(lines: seq<Line>, allotment: seq<nat>, bodies: seq<seq<seq<Byte>>>)
  {
    predicate Valid() {
      && |lines| > 0 && Chained(lines) && ZeroLineFirst(lines)
      && Total(lines) < TWO_31
      && |allotment| == NR_MODELS && Prefix(allotment, NR_MODELS) == Total(lines)
      && |bodies| == NR_MODELS && forall i :: 0 <= i < NR_MODELS ==> |bodies[i]| == 10
    }
  }

  /** The record that travels with a block: block_info. */
  datatype BlockInfo = BlockInfo(contId: nat, procId: nat, blockId: nat, compressionIndex: nat, unique: bool)

  predicate Known(plan: Plan, id: nat)
    requires plan.Valid()
  {
    1 <= id <= Total(plan.lines)
  }

  function Body(plan: Plan, id: nat): seq<Byte>
    requires plan.Valid() && Known(plan, id)
  {
    plan.bodies[ModelOf(plan.allotment, id)][ClassOf(plan.lines, id)]
  }

  /** The bytes of the block with the given two ids. */
  function Block(plan: Plan, contId: nat, id: nat): seq<Byte>
    requires plan.Valid() && Known(plan, id) && contId < TWO_32
  {
    Encode(contId) + Encode(id) + Body(plan, id)
  }

  /** The content id of a block: the random number drawn if the id is below the zero-copy limit. */
  function ContentId(plan: Plan, id: nat, draw: nat): nat {
    if id < ZeroLimit(plan.lines) then draw else id
  }

  predicate IsDraw(plan: Plan, draw: nat) {
    Total(plan.lines) <= draw < TWO_32
  }

  /** What nextBlock makes of its three random choices: a line, a block in it, a content id. */
  function Produced(plan: Plan, k: nat, r: nat, draw: nat): BlockInfo
    requires plan.Valid() && k < |plan.lines| && 1 <= r <= plan.lines[k].nrBlocks
  {
    var id := plan.lines[k].nrBase + r;
    BlockInfo(ContentId(plan, id, draw), 0, id, ClassFrom(plan.lines[k], r, 0), plan.lines[k].nrCopies == 0)
  }

  /** The records nextBlock can produce, told from their fields alone (the process id is free). */
  predicate Emittable(plan: Plan, info: BlockInfo)
    requires plan.Valid()
  {
    && Known(plan, info.blockId)
    && info.compressionIndex == ClassOf(plan.lines, info.blockId)
    && (info.unique <==> info.blockId <= ZeroLimit(plan.lines))
    && (if info.blockId < ZeroLimit(plan.lines) then IsDraw(plan, info.contId) else info.contId == info.blockId)
  }

  /** Soundness and completeness of Emittable: whatever the choices, the record is emittable; and every
    * emittable record comes from some choices. */
  lemma ProducedIsEmittable(plan: Plan, k: nat, r: nat, draw: nat)
    requires plan.Valid() && k < |plan.lines| && 1 <= r <= plan.lines[k].nrBlocks && IsDraw(plan, draw)
    ensures Emittable(plan, Produced(plan, k, r, draw))
  {
    hide ClassFrom; hide LineFrom; hide ZeroFrom; hide Prefix;
    LineOfBlock(plan.lines, k, r);
    ClassOfBlock(plan.lines, k, r);
    ZeroLineIds(plan.lines, plan.lines[k].nrBase + r);
  }

  lemma EmittableIsProduced(plan: Plan, info: BlockInfo) returns (k: nat, r: nat, draw: nat)
    requires plan.Valid() && Emittable(plan, info)
    ensures k < |plan.lines| && 1 <= r <= plan.lines[k].nrBlocks && IsDraw(plan, draw)
    ensures info == Produced(plan, k, r, draw).(procId := info.procId)
  {
    k := LineOf(plan.lines, info.blockId);
    LinesPartition(plan.lines, info.blockId);
    r := info.blockId - plan.lines[k].nrBase;
    draw := if info.blockId < ZeroLimit(plan.lines) then info.contId else Total(plan.lines);
    ZeroLineIds(plan.lines, info.blockId);
  }

  /** Dedup faithfulness: two emitted blocks are byte for byte equal exactly if both their ids are. */
  lemma DedupFaithful(plan: Plan, a: BlockInfo, b: BlockInfo)
    requires plan.Valid() && Emittable(plan, a) && Emittable(plan, b)
    ensures a.contId < TWO_32 && b.contId < TWO_32
    ensures Block(plan, a.contId, a.blockId) == Block(plan, b.contId, b.blockId)
       <==> a.contId == b.contId && a.blockId == b.blockId
  {
    HeaderOfBlock(plan, a.contId, a.blockId);
    HeaderOfBlock(plan, b.contId, b.blockId);
  }

  /** The first eight bytes of a block give back its two ids. */
  lemma HeaderOfBlock(plan: Plan, contId: nat, id: nat)
    requires plan.Valid() && Known(plan, id) && contId < TWO_32
    ensures |Block(plan, contId, id)| >= 8
    ensures Decode(Block(plan, contId, id)[..4]) == contId && Decode(Block(plan, contId, id)[4..8]) == id
    ensures Spelled(Block(plan, contId, id), 0) == contId && Spelled(Block(plan, contId, id), 4) == id
  {
    DecodeEncode(contId);
    DecodeEncode(id);
    var block := Block(plan, contId, id);
    assert block[..4] == Encode(contId) && block[4..8] == Encode(id);
    SpelledIsDecode(block, 0);
    SpelledIsDecode(block, 4);
  }

  /** The content id differs from the block id exactly for the ids strictly below the block count of the
    * line without copies; the last block of that line keeps its own id. */
  lemma ContentIdDiffers(plan: Plan, info: BlockInfo)
    requires plan.Valid() && Emittable(plan, info)
    ensures info.contId != info.blockId <==> info.blockId < ZeroLimit(plan.lines)
    ensures !info.unique ==> info.contId == info.blockId
    ensures info.unique && info.contId == info.blockId <==> info.blockId == ZeroLimit(plan.lines)
  {
    ZeroLineIds(plan.lines, info.blockId);
  }
}
