/** The content generator with its shared model buffers, which every call stamps anew. */
module Generators {
  import opened Basics
  import opened LineTable
  import opened Allotment
  import opened Content

  /** No buffer is used twice. */
  ghost predicate Distinct(m: seq<seq<array<Byte>>>) {
    forall i, c, j, d :: 0 <= i < |m| && 0 <= c < |m[i]| && 0 <= j < |m| && 0 <= d < |m[j]| && m[i][c] == m[j][d] ==>
      i == j && c == d
  }

  /** The buffers of a generator hold these bytes. */
  ghost predicate Holds(buffers: seq<seq<array<Byte>>>, m: seq<seq<seq<Byte>>>)
    reads set i, c | 0 <= i < |buffers| && 0 <= c < |buffers[i]| :: buffers[i][c]
  {
    && |m| == |buffers| && (forall i :: 0 <= i < |m| ==> |m[i]| == |buffers[i]|)
    && forall i, c :: 0 <= i < |m| && 0 <= c < |m[i]| ==> m[i][c] == buffers[i][c][..]
  }

  /** What the buffers hold from byte 8 on. */
  ghost method BodiesOf(buffers: seq<seq<array<Byte>>>, size: nat) returns (bodies: seq<seq<seq<Byte>>>)
    requires |buffers| == NR_MODELS && size >= 8
    requires forall i :: 0 <= i < NR_MODELS ==> |buffers[i]| == 10
    requires forall i, c :: 0 <= i < NR_MODELS && 0 <= c < 10 ==> buffers[i][c].Length == size
    ensures |bodies| == NR_MODELS && forall i :: 0 <= i < NR_MODELS ==> |bodies[i]| == 10
    ensures forall i, c :: 0 <= i < NR_MODELS && 0 <= c < 10 ==> bodies[i][c] == buffers[i][c][8..]
  {
    bodies := [];
    var i := 0;
    while i < NR_MODELS
      invariant 0 <= i == |bodies| <= NR_MODELS
      invariant forall j :: 0 <= j < i ==> |bodies[j]| == 10
      invariant forall j, c :: 0 <= j < i && 0 <= c < 10 ==> bodies[j][c] == buffers[j][c][8..]
    {
      var group: seq<seq<Byte>> := [];
      var c := 0;
      while c < 10
        invariant 0 <= c == |group| <= 10
        invariant forall d :: 0 <= d < c ==> group[d] == buffers[i][d][8..]
      {
        group := group + [buffers[i][c][8..]];
        c := c + 1;
      }
      bodies := bodies + [group];
      i := i + 1;
    }
  }

  class Generator {
    const linhas: seq<Line>
    const totalUniqueBlocks: nat
    const atribuicao: seq<nat>
    const modelos: seq<seq<array<Byte>>>
    const blockSize: nat
    ghost const plan: Plan
    ghost const repr: set<array<Byte>>

    /** The facts that never change after construction. */
    ghost predicate Built() {
      && plan.Valid() && plan.lines == linhas && plan.allotment == atribuicao
      && totalUniqueBlocks == Total(linhas)
      && |modelos| == NR_MODELS && Distinct(modelos) && blockSize >= 8
      && (forall i :: 0 <= i < NR_MODELS ==> |modelos[i]| == 10)
      && (forall i, c :: 0 <= i < NR_MODELS && 0 <= c < 10 ==>
          modelos[i][c] in repr && modelos[i][c].Length == blockSize)
      && (forall i, c :: 0 <= i < NR_MODELS && 0 <= c < 10 ==> |plan.bodies[i][c]| == blockSize - 8)
    }

    /** The buffers agree with the plan from byte 8 on; their first 8 bytes are whatever was stamped last. */
    ghost predicate Valid()
      reads repr
    {
      && Built()
      && forall i, c :: 0 <= i < NR_MODELS && 0 <= c < 10 ==> modelos[i][c][8..] == plan.bodies[i][c]
    }

    /** initialize and loadModels, for given model buffers and a given first share of the models. */
    constructor (blocksToGenerate: nat, input: seq<InputLine>, buffers: seq<seq<array<Byte>>>, size: nat,
                 firstShare: nat)
      requires size >= 4096 && |input| > 0
      requires forall i :: 0 <= i < |input| ==> input[i].Valid()
      requires forall i :: 0 < i < |input| ==> input[i].nrCopies != 0
      requires |buffers| == NR_MODELS && Distinct(buffers)
      requires forall i :: 0 <= i < NR_MODELS ==> |buffers[i]| == 10
      requires forall i, c :: 0 <= i < NR_MODELS && 0 <= c < 10 ==> buffers[i][c].Length == size
      requires UniqueBlocks(blocksToGenerate, input, |input|) < TWO_31
      requires firstShare <= UniqueBlocks(blocksToGenerate, input, |input|)
      ensures Valid() && modelos == buffers && blockSize == size
      ensures totalUniqueBlocks == UniqueBlocks(blocksToGenerate, input, |input|)
      ensures |linhas| == |input| && forall i :: 0 <= i < |input| ==>
                && linhas[i].nrCopies == input[i].nrCopies && linhas[i].compression == input[i].compression
                && linhas[i].nrBlocks == Share(blocksToGenerate, input[i])
                && IsShare(blocksToGenerate, input[i].percent, input[i].nrCopies, linhas[i].nrBlocks)
      ensures atribuicao[0] == firstShare
      ensures forall i, j :: 1 <= i < NR_MODELS && 1 <= j < NR_MODELS ==> atribuicao[i] <= atribuicao[j] + 1
      ensures forall i, c :: 0 <= i < NR_MODELS && 0 <= c < 10 ==> plan.bodies[i][c] == old(buffers[i][c][8..])
      ensures repr == set i, c | 0 <= i < NR_MODELS && 0 <= c < 10 :: buffers[i][c]
    {
      hide Distinct; hide Share; hide IsShare; hide UniqueBlocks; hide Chained; hide Prefix; hide Total;
      var lines, zero, total := ReadLines(blocksToGenerate, input);
      TotalOfInput(blocksToGenerate, input, lines);
      var shares := Allot(total, firstShare);
      ghost var bodies := BodiesOf(buffers, size);
      linhas, totalUniqueBlocks, atribuicao := lines, total, shares;
      modelos, blockSize := buffers, size;
      plan := Plan(lines, shares, bodies);
      repr := set i, c | 0 <= i < NR_MODELS && 0 <= c < 10 :: buffers[i][c];
    }

    /** memcpy of a 32-bit number into a model buffer at byte 0 or 4. */
    method Stamp(buffer: array<Byte>, at: nat, n: nat, ghost i: nat, ghost c: nat)
      requires Valid() && i < NR_MODELS && c < 10 && buffer == modelos[i][c]
      requires at <= 4 && n < TWO_32
      modifies buffer
      ensures Valid()
      ensures buffer[..] == old(buffer[..at]) + Encode(n) + old(buffer[at + 4..])
    {
      hide Encode;
      var b := Encode(n);
      buffer[at], buffer[at + 1], buffer[at + 2], buffer[at + 3] := b[0], b[1], b[2], b[3];
      assert buffer[8..] == old(buffer[8..]);
      assert forall j, d :: 0 <= j < NR_MODELS && 0 <= d < 10 && modelos[j][d] != buffer ==>
          modelos[j][d][8..] == old(modelos[j][d][8..]);
    }

    /** generate_data: stamps both ids into the model buffer of the block and returns that buffer. draw is
      * the number the random source would give; it is used only below the zero-copy limit. */
    method GenerateData(id: nat, compression: nat, draw: nat) returns (buffer: array<Byte>, contentId: nat)
      requires Valid() && Known(plan, id) && compression < 10 && IsDraw(plan, draw)
      modifies repr
      ensures Valid() && buffer in repr
      ensures buffer == modelos[ModelOf(atribuicao, id)][compression]
      ensures contentId == ContentId(plan, id, draw)
      ensures buffer[..] == Encode(contentId) + Encode(id) + plan.bodies[ModelOf(atribuicao, id)][compression]
      ensures forall b: array<Byte> :: b in repr && b != buffer ==> b[..] == old(b[..])
    {
      hide Encode;
      contentId := id;
      var m := FindModel(atribuicao, id);
      buffer := modelos[m.value][compression];
      for i := 0 to |linhas|
        invariant contentId == id && ZeroLimit(linhas) == ZeroFrom(linhas, i)
      {
        if linhas[i].nrCopies == 0 {
          if id < linhas[i].nrBlocks {
            contentId := draw;
          }
          break;
        }
      }
      ghost var body := plan.bodies[m.value][compression];
      Stamp(buffer, 0, contentId, m.value, compression);
      assert buffer[..4] == Encode(contentId) && buffer[8..] == body;
      Stamp(buffer, 4, id, m.value, compression);
    }

    /** nextBlock, for the line k, the block r of it and the content id draw that chance picks. */
    method NextBlock(k: nat, r: nat, draw: nat) returns (buffer: array<Byte>, info: BlockInfo)
      requires Valid() && k < |linhas| && 1 <= r <= linhas[k].nrBlocks && IsDraw(plan, draw)
      modifies repr
      ensures Valid() && buffer in repr
      ensures info == Produced(plan, k, r, draw) && Emittable(plan, info)
      ensures buffer[..] == Block(plan, info.contId, info.blockId)
      ensures buffer == modelos[ModelOf(atribuicao, info.blockId)][info.compressionIndex]
      ensures forall b: array<Byte> :: b in repr && b != buffer ==> b[..] == old(b[..])
    {
      hide Encode;
      ProducedIsEmittable(plan, k, r, draw);
      ClassOfBlock(linhas, k, r);
      var index := GiveMyCompression(linhas[k], r);
      var blockId := r + linhas[k].nrBase;
      var contentId;
      buffer, contentId := GenerateData(blockId, index, draw);
      info := BlockInfo(contentId, 0, blockId, index, linhas[k].nrCopies == 0);
    }

    /** A run of nextBlock calls. Every block is copied at the moment it is emitted, before later calls
      * stamp the same buffers again: over the whole run, two copies are equal exactly if both ids are. */
    method Run(choices: seq<(nat, nat, nat)>) returns (blocks: seq<seq<Byte>>, infos: seq<BlockInfo>)
      requires Valid()
      requires forall j :: 0 <= j < |choices| ==>
                 choices[j].0 < |linhas| && 1 <= choices[j].1 <= linhas[choices[j].0].nrBlocks
                     && IsDraw(plan, choices[j].2)
      modifies repr
      ensures Valid() && |blocks| == |infos| == |choices|
      ensures forall j :: 0 <= j < |infos| ==>
          Emittable(plan, infos[j]) && blocks[j] == Block(plan, infos[j].contId, infos[j].blockId)
      ensures forall i, j :: 0 <= i < |blocks| && 0 <= j < |blocks| ==>
                (blocks[i] == blocks[j] <==> infos[i].contId == infos[j].contId && infos[i].blockId == infos[j].blockId)
    {
      hide Block;
      blocks, infos := [], [];
      for n := 0 to |choices|
        invariant Valid() && |blocks| == |infos| == n
        invariant forall j :: 0 <= j < n ==>
            Emittable(plan, infos[j]) && blocks[j] == Block(plan, infos[j].contId, infos[j].blockId)
      {
        var buffer, info := NextBlock(choices[n].0, choices[n].1, choices[n].2);
        blocks, infos := blocks + [buffer[..]], infos + [info];
      }
      forall i, j | 0 <= i < |blocks| && 0 <= j < |blocks|
        ensures blocks[i] == blocks[j] <==> infos[i].contId == infos[j].contId && infos[i].blockId == infos[j].blockId
      {
        DedupFaithful(plan, infos[i], infos[j]);
      }
    }
  }

  /** The number of unique blocks of the first n input lines. */
  function UniqueBlocks(blocksToGenerate: nat, input: seq<InputLine>, n: nat): nat
    requires n <= |input| && forall i :: 0 <= i < |input| ==> input[i].Valid()
  {
    if n == 0 then 0 else UniqueBlocks(blocksToGenerate, input, n - 1) + Share(blocksToGenerate, input[n - 1])
  }

  lemma {:induction false} TotalUpTo(blocksToGenerate: nat, input: seq<InputLine>, lines: seq<Line>, n: nat)
    requires forall i :: 0 <= i < |input| ==> input[i].Valid()
    requires |lines| == |input| && Chained(lines) && n <= |lines|
    requires forall i :: 0 <= i < |input| ==> lines[i].nrBlocks == Share(blocksToGenerate, input[i])
    ensures UniqueBlocks(blocksToGenerate, input, n) == Total(lines[..n])
  {
    if n == 0 {
    } else {
      TotalUpTo(blocksToGenerate, input, lines, n - 1);
    }
  }

  lemma TotalOfInput(blocksToGenerate: nat, input: seq<InputLine>, lines: seq<Line>)
    requires forall i :: 0 <= i < |input| ==> input[i].Valid()
    requires |lines| == |input| && Chained(lines)
    requires forall i :: 0 <= i < |input| ==> lines[i].nrBlocks == Share(blocksToGenerate, input[i])
    ensures UniqueBlocks(blocksToGenerate, input, |input|) == Total(lines)
  {
    TotalUpTo(blocksToGenerate, input, lines, |input|);
    assert lines[..|lines|] == lines;
  }
}
