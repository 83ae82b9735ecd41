/** The integrity check: blocks are rebuilt from their records or from their own headers, in the same
  * shared model buffers, and compared byte for byte. */
module Integrity {
  import opened Basics
  import opened LineTable
  import opened Allotment
  import opened Content
  import opened Generators

  /** A content id that generate_data returns as the int -1, its own error code. */
  const MINUS_ONE: nat := 0xffff_ffff

  /** Regenerating this block with this random number is mistaken for a failure and ends the program. */
  predicate Mistaken(plan: Plan, id: nat, draw: nat) {
    id < ZeroLimit(plan.lines) && draw == MINUS_ONE
  }

  /** The content id a regeneration ends with: the recorded one for a block flagged unique. */
  function Restored(plan: Plan, unique: bool, contId: nat, id: nat, draw: nat): nat {
    if unique then contId else ContentId(plan, id, draw)
  }

  /** get_block_content. None is the call of exit. */
  method GetBlockContent(g: Generator, info: BlockInfo, draw: nat) returns (r: Option<array<Byte>>)
    requires g.Valid() && Known(g.plan, info.blockId) && info.compressionIndex < 10
    requires info.contId < TWO_32 && IsDraw(g.plan, draw)
    modifies g.repr
    ensures g.Valid()
    ensures r.None? <==> Mistaken(g.plan, info.blockId, draw)
    ensures r.Some? ==> r.value in g.repr
    ensures r.Some? ==>
              r.value[..]
                   == Encode(Restored(g.plan, info.unique, info.contId, info.blockId, draw)) + Encode(info.blockId)
                             + g.plan.bodies[ModelOf(g.plan.allotment, info.blockId)][info.compressionIndex]
    ensures r.Some? ==>
              && Spelled(r.value[..], 4) == info.blockId
              && Spelled(r.value[..], 0)
                   == if info.unique then info.contId
                      else if info.blockId < ZeroLimit(g.plan.lines) then draw else info.blockId
  {
    hide Encode;
    var bufaux, resGen := g.GenerateData(info.blockId, info.compressionIndex, draw);
    if AsInt(resGen) == -1 {
      return None;
    }
    if info.unique {
      g.Stamp(bufaux, 0, info.contId, ModelOf(g.plan.allotment, info.blockId), info.compressionIndex);
    }
    r := Some(bufaux);
    ghost var contId := Restored(g.plan, info.unique, info.contId, info.blockId, draw);
    HeaderSpells(bufaux[..], contId, info.blockId);
  }

  lemma HeaderSpells(block: seq<Byte>, contId: nat, id: nat)
    requires contId < TWO_32 && id < TWO_32 && |block| >= 8 && block[..8] == Encode(contId) + Encode(id)
    ensures Spelled(block, 0) == contId && Spelled(block, 4) == id
  {
    DecodeEncode(contId);
    DecodeEncode(id);
    SpelledIsDecode(block, 0);
    SpelledIsDecode(block, 4);
    assert block[0..4] == block[..8][..4] && block[4..8] == block[..8][4..];
  }

  // ----- rebuilding a block from its own header -----

  datatype Check = Exits | NoBlock | Same | Differs

  /** The block that check_block_content builds from a header. */
  function Rebuilt(plan: Plan, contId: nat, id: nat, draw: nat): seq<Byte>
    requires plan.Valid() && Known(plan, id) && contId < TWO_32 && IsDraw(plan, draw)
  {
    Block(plan, Restored(plan, contId != id, contId, id, draw), id)
  }

  /** check_block_content: a header id of 0 ends the program, an id of at least the number of unique
    * blocks is not taken for a block, and any other block is compared with the one rebuilt from the
    * header alone. */
  method CheckBlockContent(g: Generator, buf: array<Byte>, draw: nat) returns (c: Check)
    requires g.Valid() && buf !in g.repr && buf.Length == g.blockSize && IsDraw(g.plan, draw)
    modifies g.repr
    ensures g.Valid()
    ensures var contId, id := Decode(buf[..4]), Decode(buf[4..8]);
            if id >= Total(g.plan.lines) then c == NoBlock
            else if id == 0 || Mistaken(g.plan, id, draw) then c == Exits
            else c == if buf[..] == Rebuilt(g.plan, contId, id, draw) then Same else Differs
  {
    hide Encode; hide Decode;
    ghost var bytes := buf[..];
    var contId, id := Decode(buf[..4]), Decode(buf[4..8]);
    if id >= g.totalUniqueBlocks {
      return NoBlock;
    }
    var compression := GetBlockCompressionById(g.linhas, id);
    if compression == -1 {
      return Exits;
    }
    var newInfo := BlockInfo(contId, 0, id, compression / 10, contId != id);
    var rebuilt := GetBlockContent(g, newInfo, draw);
    assert buf[..] == bytes;
    if rebuilt.None? {
      return Exits;
    }
    c := if buf[..] == rebuilt.value[..] then Same else Differs;
  }

  /** Self-describing blocks: a block that nextBlock emitted is rebuilt identically from its first eight
    * bytes, whatever random number is drawn meanwhile. */
  lemma SelfDescribing(plan: Plan, info: BlockInfo, draw: nat)
    requires plan.Valid() && Emittable(plan, info) && IsDraw(plan, draw)
    ensures var block := Block(plan, info.contId, info.blockId);
            && Decode(block[..4]) == info.contId && Decode(block[4..8]) == info.blockId
            && Rebuilt(plan, info.contId, info.blockId, draw) == block
  {
    HeaderOfBlock(plan, info.contId, info.blockId);
    ContentIdDiffers(plan, info);
  }

  /** A header with twice the same id below the zero-copy limit is not that of an emitted block, and the block
    * rebuilt from it, whose content id is drawn, never has it. */
  lemma TwiceTheSameId(plan: Plan, id: nat, draw: nat)
    requires plan.Valid() && Known(plan, id) && id < ZeroLimit(plan.lines) && IsDraw(plan, draw)
    ensures |Rebuilt(plan, id, id, draw)| >= 8 && Spelled(Rebuilt(plan, id, id, draw), 0) != id
  {
    ZeroLineIds(plan.lines, id);
    HeaderOfBlock(plan, draw, id);
  }

  /** The check accepts an emitted block if and only if its id is below the number of unique blocks and
    * the random number drawn is not taken for the error code; the block with the highest id is valid
    * but never recognised. */
  method CheckEmitted(g: Generator, info: BlockInfo, buf: array<Byte>, draw: nat) returns (c: Check)
    requires g.Valid() && Emittable(g.plan, info) && IsDraw(g.plan, draw)
    requires buf !in g.repr && buf.Length == g.blockSize && buf[..] == Block(g.plan, info.contId, info.blockId)
    modifies g.repr
    ensures g.Valid()
    ensures c == Same <==> info.blockId < Total(g.plan.lines) && !Mistaken(g.plan, info.blockId, draw)
    ensures c == NoBlock <==> info.blockId == Total(g.plan.lines)
  {
    hide Block; hide Decode; hide Rebuilt;
    SelfDescribing(g.plan, info, draw);
    c := CheckBlockContent(g, buf, draw);
  }

  // ----- comparing a block with its record -----

  /** Does comparing these bytes with this record end the program? */
  predicate SlotExits(plan: Plan, bytes: seq<Byte>, info: BlockInfo, draws: (nat, nat))
    requires plan.Valid() && |bytes| >= 8 && Emittable(plan, info)
  {
    || Mistaken(plan, info.blockId, draws.0)
    || (bytes != Block(plan, info.contId, info.blockId)
        && (Decode(bytes[4..8]) == 0
            || (Decode(bytes[4..8]) < Total(plan.lines) && Mistaken(plan, Decode(bytes[4..8]), draws.1))))
  }

  /** In plain terms: the program ends if the regeneration of the recorded block draws 2^32 - 1 for its content
    * id, or if the bytes are not that block and their header names block 0, or a block whose content id is
    * drawn, for which the second regeneration draws 2^32 - 1. */
  lemma SlotExitsIff(plan: Plan, bytes: seq<Byte>, info: BlockInfo, draws: (nat, nat))
    requires plan.Valid() && |bytes| >= 8 && Emittable(plan, info)
    ensures SlotExits(plan, bytes, info, draws) <==>
      || (info.blockId < ZeroLimit(plan.lines) && draws.0 == 4294967295)
      || (bytes != Block(plan, info.contId, info.blockId)
          && (Spelled(bytes, 4) == 0 || (Spelled(bytes, 4) < ZeroLimit(plan.lines) && draws.1 == 4294967295)))
  {
    SpelledIsDecode(bytes, 4);
    ZeroLineIds(plan.lines, info.blockId);
    hide Block; hide Decode; hide ZeroLimit; hide Spelled;
  }

  /** So a header that names block 0 always ends it: no emitted block has that id. */
  lemma ZeroHeaderEnds(plan: Plan, bytes: seq<Byte>, info: BlockInfo, draws: (nat, nat))
    requires plan.Valid() && |bytes| >= 8 && Emittable(plan, info) && Spelled(bytes, 4) == 0
    ensures SlotExits(plan, bytes, info, draws)
  {
    SlotExitsIff(plan, bytes, info, draws);
    HeaderOfBlock(plan, info.contId, info.blockId);
    hide Block; hide SlotExits; hide Spelled;
  }

  /** online_check: 0 if the bytes are those of the last block recorded, 1 otherwise; None if the
    * program ends. The messages it writes are left out. */
  method OnlineCheck(g: Generator, buf: array<Byte>, info: BlockInfo, draws: (nat, nat)) returns (r: Option<nat>)
    requires g.Valid() && Emittable(g.plan, info) && IsDraw(g.plan, draws.0) && IsDraw(g.plan, draws.1)
    requires buf !in g.repr && buf.Length == g.blockSize
    modifies g.repr
    ensures g.Valid()
    ensures r == if SlotExits(g.plan, buf[..], info, draws) then None
                 else if buf[..] == Block(g.plan, info.contId, info.blockId) then Some(0) else Some(1)
  {
    hide Encode; hide Decode; hide Rebuilt;
    ghost var bytes := buf[..];
    var bufaux := GetBlockContent(g, info, draws.0);
    ContentIdDiffers(g.plan, info);
    assert buf[..] == bytes && bytes[4..8] == buf[4..8];
    if bufaux.None? {
      return None;
    }
    if buf[..] != bufaux.value[..] {
      var i := CheckBlockContent(g, buf, draws.1);
      assert buf[..] == bytes;
      return if i == Exits then None else Some(1);
    }
    return Some(0);
  }

  /** Slot k is unreadable, or its bytes are not those of the block recorded for it. */
  predicate Wrong(plan: Plan, slot: Option<seq<Byte>>, info: BlockInfo)
    requires plan.Valid() && Emittable(plan, info)
  {
    slot.None? || slot.value != Block(plan, info.contId, info.blockId)
  }

  /** A file as the sequence of its slots, with its row of the content tracker. */
  predicate Checkable(plan: Plan, size: nat, file: seq<Option<seq<Byte>>>, row: seq<BlockInfo>)
    requires plan.Valid()
  {
    && |file| == |row|
    && (forall k :: 0 <= k < |file| ==> file[k].Some? ==> |file[k].value| == size)
    && (forall k :: 0 <= k < |row| ==> Emittable(plan, row[k]))
  }

  function WrongSlots(plan: Plan, size: nat, file: seq<Option<seq<Byte>>>, row: seq<BlockInfo>, n: nat): nat
    requires plan.Valid() && Checkable(plan, size, file, row) && n <= |file|
  {
    if n == 0 then 0
    else WrongSlots(plan, size, file, row, n - 1) + (if Wrong(plan, file[n - 1], row[n - 1]) then 1 else 0)
  }

  predicate ExitsAt(plan: Plan, size: nat, file: seq<Option<seq<Byte>>>, row: seq<BlockInfo>, draws: seq<(nat, nat)>,
                    k: nat)
    requires plan.Valid() && size >= 8 && Checkable(plan, size, file, row) && |draws| == |file| && k < |file|
  {
    file[k].Some? && SlotExits(plan, file[k].value, row[k], draws[k])
  }

  predicate AreDraws(plan: Plan, draws: seq<(nat, nat)>) {
    forall k :: 0 <= k < |draws| ==> IsDraw(plan, draws[k].0) && IsDraw(plan, draws[k].1)
  }

  /** file_integrity: for any contents of the file whatever, the result is exactly the number of wrong
    * slots, although every check rewrites headers in the buffers the later checks use. None if and only
    * if some slot makes the program end. */
  method FileIntegrity(g: Generator, file: seq<Option<seq<Byte>>>, row: seq<BlockInfo>, draws: seq<(nat, nat)>)
    returns (r: Option<nat>)
    requires g.Valid() && Checkable(g.plan, g.blockSize, file, row) && |draws| == |file| && AreDraws(g.plan, draws)
    modifies g.repr
    ensures g.Valid()
    ensures r.Some? ==> r.value == WrongSlots(g.plan, g.blockSize, file, row, |file|)
    ensures r.None? <==> exists k :: 0 <= k < |file| && ExitsAt(g.plan, g.blockSize, file, row, draws, k)
  {
    hide Block; hide Decode; hide SlotExits; hide Emittable;
    var buf := new Byte[g.blockSize];
    var res := 0;
    var k := 0;
    while k < |file|
      invariant 0 <= k <= |file| && g.Valid()
      invariant res == WrongSlots(g.plan, g.blockSize, file, row, k)
      invariant forall j :: 0 <= j < k ==> !ExitsAt(g.plan, g.blockSize, file, row, draws, j)
    {
      if file[k].None? {
        res := res + 1;
      } else {
        forall i | 0 <= i < g.blockSize {
          buf[i] := file[k].value[i];
        }
        assert buf[..] == file[k].value;
        var wrong := OnlineCheck(g, buf, row[k], draws[k]);
        if wrong.None? {
          assert ExitsAt(g.plan, g.blockSize, file, row, draws, k);
          return None;
        }
        res := res + wrong.value;
      }
      k := k + 1;
    }
    r := Some(res);
  }

  // ----- all files -----

  predicate AllCheckable(plan: Plan, size: nat, files: seq<seq<Option<seq<Byte>>>>, rows: seq<seq<BlockInfo>>)
    requires plan.Valid()
  {
    |files| == |rows| && forall i :: 0 <= i < |files| ==> Checkable(plan, size, files[i], rows[i])
  }

  function AllWrongSlots(plan: Plan, size: nat, files: seq<seq<Option<seq<Byte>>>>, rows: seq<seq<BlockInfo>>,
                         n: nat): nat
    requires plan.Valid() && AllCheckable(plan, size, files, rows) && n <= |files|
  {
    if n == 0 then 0
    else
      AllWrongSlots(plan, size, files, rows, n - 1)
      + WrongSlots(plan, size, files[n - 1], rows[n - 1], |files[n - 1]|)
  }

  /** static_check over the files of all processes (one file for a raw device). */
  method StaticCheck(g: Generator, files: seq<seq<Option<seq<Byte>>>>, rows: seq<seq<BlockInfo>>,
                     draws: seq<seq<(nat, nat)>>)
    returns (r: Option<nat>)
    requires g.Valid() && AllCheckable(g.plan, g.blockSize, files, rows)
    requires |draws| == |files| && forall i :: 0 <= i < |files| ==>
        |draws[i]| == |files[i]| && AreDraws(g.plan, draws[i])
    modifies g.repr
    ensures g.Valid()
    ensures r.Some? ==> r.value == AllWrongSlots(g.plan, g.blockSize, files, rows, |files|)
    ensures r.None? <==>
        exists i, k :: 0 <= i < |files| && 0 <= k < |files[i]|
            && ExitsAt(g.plan, g.blockSize, files[i], rows[i], draws[i], k)
  {
    hide ExitsAt; hide WrongSlots; hide Checkable; hide AreDraws;
    var integrityErrors := 0;
    for i := 0 to |files|
      invariant g.Valid() && integrityErrors == AllWrongSlots(g.plan, g.blockSize, files, rows, i)
      invariant forall j, k :: 0 <= j < i && 0 <= k < |files[j]| ==>
          !ExitsAt(g.plan, g.blockSize, files[j], rows[j], draws[j], k)
    {
      var res := FileIntegrity(g, files[i], rows[i], draws[i]);
      if res.None? {
        return None;
      }
      integrityErrors := integrityErrors + res.value;
    }
    r := Some(integrityErrors);
  }
}
