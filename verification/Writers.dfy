/** The forked writers as a transition system: generating and placing a block, writing it, and recording
  * it field by field in the shared content tracker are separate steps that interleave freely. */
module Writers {
  import opened Basics
  import opened Allotment
  import opened Content
  import opened Placement
  import opened Integrity

  /** A block slot: file (or row of the tracker) and block number in it. */
  type Cell = (nat, nat)

  /** The contents of the model buffers in the memory of one process. */
  type Models = seq<seq<seq<Byte>>>

  /** The fixed data of a run; writers is nprocs, or half of it in a mixed benchmark. */
  datatype Setup = Setup(conf: Conf, plan: Plan, writers: nat)
  {
    predicate Valid() {
      && conf.Valid() && plan.Valid() && 0 < writers <= conf.nprocs && Size() >= 8
      && forall i, c :: 0 <= i < |plan.bodies| && 0 <= c < |plan.bodies[i]| ==> |plan.bodies[i][c]| == Size() - 8
    }

    /** The bytes of a block. */
    function Size(): nat {
      conf.blockSize
    }

    /** The number of slots of a writer's region. */
    function Region(): nat
      requires Valid()
    {
      conf.Region()
    }

    /** NURand constants that a process may have drawn for itself. */
    predicate GoodNurand(nu: Nurand) {
      conf.accessType.Tpcc? ==> 0 < nu.a <= INT64_MAX
    }

    /** The slot of its region that get_ioposition chooses for a writer. */
    function SlotFor(nu: Nurand, totOps: nat, w0: nat, w1: nat, aFirst: bool): (slot: nat)
      requires Valid() && GoodNurand(nu)
      ensures slot < Region()
    {
      RegionFits(conf);
      SlotInRegion(conf.accessType, nu, conf.Region(), totOps, w0, w1, aFirst);
      Slot(conf.accessType, nu, conf.Region(), totOps, w0, w1, aFirst)
    }

    /** Where a writer finds slot s of its region: on the one device, or in its own file. */
    function CellOf(p: nat, s: nat): Cell
      requires Valid()
    {
      if conf.rawDevice then (0, conf.Base(p) + s) else (p, s)
    }

    function Files(): nat {
      if conf.rawDevice then 1 else writers
    }

    predicate IsCell(c: Cell) {
      c.0 < Files() && c.1 < conf.totBlocks
    }

    predicate CanEmit(info: BlockInfo)
      requires Valid()
    {
      Emittable(plan, info)
    }

    function Emitted(info: BlockInfo): seq<Byte>
      requires Valid() && CanEmit(info)
    {
      Block(plan, info.contId, info.blockId)
    }

    /** The choices that nextBlock may make: a line, a block in it, a random content id. */
    predicate CanChoose(k: nat, r: nat, draw: nat) {
      k < |plan.lines| && 1 <= r <= plan.lines[k].nrBlocks && IsDraw(plan, draw)
    }

    /** The record of the block that a writer generates by these choices. */
    function Generated(p: nat, k: nat, r: nat, draw: nat): (info: BlockInfo)
      requires Valid() && CanChoose(k, r, draw)
      ensures CanEmit(info)
    {
      ProducedIsEmittable(plan, k, r, draw);
      Produced(plan, k, r, draw).(procId := p)
    }

    /** Model buffers whose bodies are those of the plan; their headers are whatever was stamped last. */
    predicate GoodModels(m: Models)
      requires Valid()
    {
      && |m| == NR_MODELS && (forall i :: 0 <= i < NR_MODELS ==> |m[i]| == 10)
      && forall i, c :: 0 <= i < NR_MODELS && 0 <= c < 10 ==> |m[i][c]| >= 8 && m[i][c][8..] == plan.bodies[i][c]
    }

    /** The buffer that a record's block is generated in. */
    function Buffer(m: Models, info: BlockInfo): seq<Byte>
      requires Valid() && GoodModels(m) && CanEmit(info)
    {
      m[ModelOf(plan.allotment, info.blockId)][info.compressionIndex]
    }

    /** The buffers after generate_data has stamped both ids into that one. */
    function Stamped(m: Models, info: BlockInfo): Models
      requires Valid() && GoodModels(m) && CanEmit(info)
    {
      var i, c := ModelOf(plan.allotment, info.blockId), info.compressionIndex;
      m[i := m[i][c := Encode(info.contId) + Encode(info.blockId) + m[i][c][8..]]]
    }
  }

  /** Stamping leaves in the buffer exactly the block of the record, and no body changes. */
  lemma StampEmits(su: Setup, m: Models, info: BlockInfo)
    requires su.Valid() && su.GoodModels(m) && su.CanEmit(info)
    ensures su.GoodModels(su.Stamped(m, info))
    ensures su.Buffer(su.Stamped(m, info), info) == su.Emitted(info)
  {
    hide Encode;
    var i, c := ModelOf(su.plan.allotment, info.blockId), info.compressionIndex;
    var header := Encode(info.contId) + Encode(info.blockId);
    assert (header + m[i][c][8..])[8..] == m[i][c][8..];
  }

  /** Idle; a block generated and placed; a block written of whose record the first fields are stored. */
  datatype Phase =
    | Idle
    | Placed(info: BlockInfo, slot: nat)
    | Written(info: BlockInfo, slot: nat, fields: nat)

  /** A forked process with its own operation counter, NURand constants and model buffers. */
  datatype Process = Process(phase: Phase, totOps: nat, nu: Nurand, models: Models)

  /** Disk, shared tracker and processes; last is a history variable, the record of the block that was
    * last written to each slot. */
  datatype State = State(disk: map<Cell, seq<Byte>>, tracker: map<Cell, BlockInfo>, procs: seq<Process>,
                         last: map<Cell, BlockInfo>)

  datatype Step =
    | Place(p: nat, k: nat, r: nat, draw: nat, w0: nat, w1: nat, aFirst: bool)
    | Pwrite(p: nat)
    | Track(p: nat, counted: bool)

  /** The five assignments that copy a record, in the order of the source. */
  function StoreField(entry: BlockInfo, info: BlockInfo, field: nat): BlockInfo {
    if field == 0 then entry.(contId := info.contId)
    else if field == 1 then entry.(procId := info.procId)
    else if field == 2 then entry.(blockId := info.blockId)
    else if field == 3 then entry.(compressionIndex := info.compressionIndex)
    else entry.(unique := info.unique)
  }

  /** The first fields of an entry are those of the record. */
  predicate Stored(entry: BlockInfo, info: BlockInfo, fields: nat) {
    && (fields > 0 ==> entry.contId == info.contId)
    && (fields > 1 ==> entry.procId == info.procId)
    && (fields > 2 ==> entry.blockId == info.blockId)
    && (fields > 3 ==> entry.compressionIndex == info.compressionIndex)
    && (fields > 4 ==> entry.unique == info.unique)
  }

  ghost predicate Shaped(su: Setup, s: State) {
    && |s.procs| == su.writers
    && (forall c :: c in s.disk <==> su.IsCell(c))
    && (forall c :: c in s.tracker <==> su.IsCell(c))
    && (forall c :: c in s.last <==> su.IsCell(c))
  }

  ghost predicate Enabled(su: Setup, s: State, step: Step)
    requires su.Valid() && Shaped(su, s)
  {
    && step.p < |s.procs|
    && match step
       case Place(p, k, r, draw, w0, w1, aFirst) => s.procs[p].phase.Idle? && su.CanChoose(k, r, draw)
       case Pwrite(p) => s.procs[p].phase.Placed?
       case Track(p, counted) => s.procs[p].phase.Written?
  }

  /** One step of one process. Generating a block stamps the model buffers of the process; the write puts on
    * disk what its buffer holds at that time. The counter grows after an operation unless it fell into the
    * ramp-up. */
  ghost function Apply(su: Setup, s: State, step: Step): State
    requires su.Valid() && Inv(su, s) && Enabled(su, s, step)
  {
    hide Setup.Valid; hide Setup.CanEmit; hide Setup.Emitted; hide Setup.Region; hide Setup.CellOf;
    hide Setup.IsCell; hide Setup.SlotFor; hide Setup.GoodNurand; hide Setup.GoodModels; hide Setup.Buffer;
    hide Setup.Stamped; hide Setup.CanChoose; hide Setup.Generated;
    var proc := s.procs[step.p];
    assert GoodProcess(su, s, step.p);
    match step
    case Place(p, k, r, draw, w0, w1, aFirst) =>
      var info := su.Generated(p, k, r, draw);
      var slot := su.SlotFor(proc.nu, proc.totOps, w0, w1, aFirst);
      s.(procs := s.procs[p := proc.(phase := Placed(info, slot), models := su.Stamped(proc.models, info))])
    case Pwrite(p) =>
      var c := su.CellOf(p, proc.phase.slot);
      s.(disk := s.disk[c := su.Buffer(proc.models, proc.phase.info)],
         last := s.last[c := proc.phase.info],
         procs := s.procs[p := proc.(phase := Written(proc.phase.info, proc.phase.slot, 0))])
    case Track(p, counted) =>
      var c := su.CellOf(p, proc.phase.slot);
      CellInRange(su, p, proc.phase.slot);
      var f := proc.phase.fields;
      var totOps := if f == 4 && counted then proc.totOps + 1 else proc.totOps;
      var phase := if f == 4 then Idle else proc.phase.(fields := f + 1);
      s.(tracker := s.tracker[c := StoreField(s.tracker[c], proc.phase.info, f)],
         procs := s.procs[p := proc.(phase := phase, totOps := totOps)])
  }

  // ----- the invariant -----

  /** A process between two steps: its own memory is in order; a generated block is still in its buffer; of
    * a written block the first fields are recorded. */
  ghost predicate GoodProcess(su: Setup, s: State, p: nat)
    requires su.Valid() && Shaped(su, s) && p < |s.procs|
  {
    && su.GoodNurand(s.procs[p].nu) && su.GoodModels(s.procs[p].models)
    && match s.procs[p].phase
       case Idle => true
       case Placed(info, slot) =>
         su.CanEmit(info) && slot < su.Region() && su.Buffer(s.procs[p].models, info) == su.Emitted(info)
       case Written(info, slot, fields) =>
         && su.CanEmit(info) && slot < su.Region() && fields < 5
         && (su.IsCell(su.CellOf(p, slot)) ==>
               && s.last[su.CellOf(p, slot)] == info
               && Stored(s.tracker[su.CellOf(p, slot)], info, fields))
  }

  /** Process p has written this slot and not yet recorded it completely. */
  ghost predicate Lags(su: Setup, s: State, p: nat, c: Cell)
    requires su.Valid() && p < |s.procs|
  {
    s.procs[p].phase.Written? && c == su.CellOf(p, s.procs[p].phase.slot)
  }

  /** The disk always holds the block last written; the tracker holds its record too, except where the
    * one owner of the slot is between its write and the end of its recording. */
  ghost predicate GoodCell(su: Setup, s: State, c: Cell)
    requires su.Valid() && Shaped(su, s) && su.IsCell(c)
  {
    && su.CanEmit(s.last[c]) && s.disk[c] == su.Emitted(s.last[c])
    && (s.tracker[c] == s.last[c] || exists p :: 0 <= p < |s.procs| && Lags(su, s, p, c))
  }

  ghost predicate Inv(su: Setup, s: State)
    requires su.Valid()
  {
    && Shaped(su, s)
    && (forall p :: 0 <= p < |s.procs| ==> GoodProcess(su, s, p))
    && (forall c :: su.IsCell(c) ==> GoodCell(su, s, c))
  }

  /** What realistic population leaves behind: every slot holds the block of its record, nobody works. */
  ghost predicate Populated(su: Setup, s: State)
    requires su.Valid()
  {
    && Shaped(su, s) && s.last == s.tracker
    && (forall p :: 0 <= p < |s.procs| ==>
          s.procs[p].phase.Idle? && su.GoodNurand(s.procs[p].nu) && su.GoodModels(s.procs[p].models))
    && (forall c :: su.IsCell(c) ==> su.CanEmit(s.tracker[c]) && s.disk[c] == su.Emitted(s.tracker[c]))
  }

  lemma CellInRange(su: Setup, p: nat, slot: nat)
    requires su.Valid() && p < su.writers && slot < su.Region()
    ensures su.IsCell(su.CellOf(p, slot))
  {
    RegionsInside(su.conf, p);
  }

  /** A writer's cell from the byte offset that get_ioposition gives it, as the program computes it. */
  lemma CellFromOffset(su: Setup, p: nat, slot: nat)
    requires su.Valid() && p < su.writers && slot < su.Region()
    ensures su.conf.Offset(p, slot) % su.Size() == 0
    ensures su.CellOf(p, slot) == (if su.conf.rawDevice then 0 else p, su.conf.Offset(p, slot) / su.Size())
  {
    hide Conf.Offset;
    BlockOfOffset(su.conf, p, slot);
  }

  /** Two writers never touch the same slot. */
  lemma WritersApart(su: Setup, p: nat, q: nat, s: nat, t: nat)
    requires su.Valid() && p < su.writers && q < su.writers && p != q
    requires s < su.Region() && t < su.Region()
    ensures su.CellOf(p, s) != su.CellOf(q, t)
  {
    if su.conf.rawDevice {
      RegionsDisjoint(su.conf, p, q, s, t);
    }
  }

  lemma PopulatedIsGood(su: Setup, s: State)
    requires su.Valid() && Populated(su, s)
    ensures Inv(su, s)
  {
    hide Setup.Valid; hide Setup.CanEmit; hide Setup.Emitted; hide Setup.Region; hide Setup.CellOf;
    hide Setup.IsCell; hide Setup.SlotFor; hide Setup.GoodNurand; hide Setup.GoodModels; hide Setup.Buffer;
    hide Setup.Stamped; hide Setup.CanChoose; hide Setup.Generated;
  }

  // ----- every step keeps the invariant -----

  lemma PlaceKeeps(su: Setup, s: State, step: Step)
    requires su.Valid() && Inv(su, s) && step.Place? && Enabled(su, s, step)
    ensures Inv(su, Apply(su, s, step))
  {
    hide Setup.Valid; hide Setup.CanEmit; hide Setup.Emitted; hide Setup.Region; hide Setup.CellOf;
    hide Setup.IsCell; hide Setup.SlotFor; hide Setup.GoodNurand; hide Setup.GoodModels; hide Setup.Buffer;
    hide Setup.Stamped; hide Setup.CanChoose; hide Setup.Generated;
    var t, p := Apply(su, s, step), step.p;
    assert GoodProcess(su, s, p);
    StampEmits(su, s.procs[p].models, su.Generated(p, step.k, step.r, step.draw));
    forall q | 0 <= q < |t.procs| ensures GoodProcess(su, t, q) {
      assert GoodProcess(su, s, q);
    }
    forall c | su.IsCell(c) ensures GoodCell(su, t, c) {
      KeepsCell(su, s, t, p, c);
    }
  }

  /** A slot the step does not write stays good if its laggard, when it has one, still lags. */
  lemma KeepsCell(su: Setup, s: State, t: State, p: nat, c: Cell)
    requires su.Valid() && Inv(su, s) && Shaped(su, t) && su.IsCell(c) && p < |s.procs|
    requires t.disk[c] == s.disk[c] && t.last[c] == s.last[c] && t.tracker[c] == s.tracker[c]
    requires forall q :: 0 <= q < |s.procs| && q != p ==> t.procs[q] == s.procs[q]
    requires Lags(su, s, p, c) ==> Lags(su, t, p, c)
    ensures GoodCell(su, t, c)
  {
    hide Setup.Valid; hide Setup.CanEmit; hide Setup.Emitted; hide Setup.Region; hide Setup.CellOf;
    hide Setup.IsCell; hide Setup.SlotFor; hide Setup.GoodNurand; hide Setup.GoodModels; hide Setup.Buffer;
    hide Setup.Stamped; hide Setup.CanChoose; hide Setup.Generated;
    assert GoodCell(su, s, c);
    if s.tracker[c] != s.last[c] {
      var q :| 0 <= q < |s.procs| && Lags(su, s, q, c);
      assert Lags(su, t, q, c);
    }
  }

  lemma PwriteKeeps(su: Setup, s: State, step: Step)
    requires su.Valid() && Inv(su, s) && step.Pwrite? && Enabled(su, s, step)
    ensures Inv(su, Apply(su, s, step))
  {
    hide Setup.Valid; hide Setup.CanEmit; hide Setup.Emitted; hide Setup.Region; hide Setup.CellOf;
    hide Setup.IsCell; hide Setup.SlotFor; hide Setup.GoodNurand; hide Setup.GoodModels; hide Setup.Buffer;
    hide Setup.Stamped; hide Setup.CanChoose; hide Setup.Generated;
    var t, p := Apply(su, s, step), step.p;
    assert GoodProcess(su, s, p);
    var slot := s.procs[p].phase.slot;
    var at := su.CellOf(p, slot);
    CellInRange(su, p, slot);
    forall q | 0 <= q < |t.procs| ensures GoodProcess(su, t, q) {
      OthersKept(su, s, t, p, q, at);
    }
    forall c | su.IsCell(c) ensures GoodCell(su, t, c) {
      if c == at {
        assert Lags(su, t, p, c);
      } else {
        KeepsCell(su, s, t, p, c);
      }
    }
  }

  /** What a write puts on disk is the block that the process generated, although it is read from a shared
    * model buffer only then. */
  lemma PwriteWritesGenerated(su: Setup, s: State, step: Step)
    requires su.Valid() && Inv(su, s) && step.Pwrite? && Enabled(su, s, step)
    ensures var ph := s.procs[step.p].phase;
            && su.CanEmit(ph.info) && ph.slot < su.Region()
            && su.CellOf(step.p, ph.slot) in Apply(su, s, step).disk
            && Apply(su, s, step).disk[su.CellOf(step.p, ph.slot)] == su.Emitted(ph.info)
  {
    hide Setup.Valid; hide Setup.CanEmit; hide Setup.Emitted; hide Setup.Region; hide Setup.CellOf;
    hide Setup.IsCell; hide Setup.SlotFor; hide Setup.GoodNurand; hide Setup.GoodModels; hide Setup.Buffer;
    hide Setup.Stamped; hide Setup.CanChoose; hide Setup.Generated;
    assert GoodProcess(su, s, step.p);
  }

  /** A step of p at its own slot leaves the other processes good. */
  lemma OthersKept(su: Setup, s: State, t: State, p: nat, q: nat, at: Cell)
    requires su.Valid() && Inv(su, s) && Shaped(su, t) && p < |s.procs| && q < |s.procs|
    requires !s.procs[p].phase.Idle? && s.procs[p].phase.slot < su.Region() && at == su.CellOf(p, s.procs[p].phase.slot)
    requires forall c :: su.IsCell(c) && c != at ==> t.last[c] == s.last[c] && t.tracker[c] == s.tracker[c]
    requires q != p ==> t.procs[q] == s.procs[q]
    requires q == p ==> GoodProcess(su, t, q)
    ensures GoodProcess(su, t, q)
  {
    hide Setup.Valid; hide Setup.CanEmit; hide Setup.Emitted; hide Setup.Region; hide Setup.CellOf;
    hide Setup.IsCell; hide Setup.SlotFor; hide Setup.GoodNurand; hide Setup.GoodModels; hide Setup.Buffer;
    hide Setup.Stamped; hide Setup.CanChoose; hide Setup.Generated;
    if q != p {
      assert GoodProcess(su, s, q);
      if s.procs[q].phase.Written? {
        WritersApart(su, p, q, s.procs[p].phase.slot, s.procs[q].phase.slot);
      }
    }
  }

  lemma TrackKeeps(su: Setup, s: State, step: Step)
    requires su.Valid() && Inv(su, s) && step.Track? && Enabled(su, s, step)
    ensures Inv(su, Apply(su, s, step))
  {
    hide Setup.Valid; hide Setup.CanEmit; hide Setup.Emitted; hide Setup.Region; hide Setup.CellOf;
    hide Setup.IsCell; hide Setup.SlotFor; hide Setup.GoodNurand; hide Setup.GoodModels; hide Setup.Buffer;
    hide Setup.Stamped; hide Setup.CanChoose; hide Setup.Generated;
    var t, p := Apply(su, s, step), step.p;
    assert GoodProcess(su, s, p);
    var slot := s.procs[p].phase.slot;
    var at := su.CellOf(p, slot);
    CellInRange(su, p, slot);
    forall q | 0 <= q < |t.procs| ensures GoodProcess(su, t, q) {
      OthersKept(su, s, t, p, q, at);
    }
    forall c | su.IsCell(c) ensures GoodCell(su, t, c) {
      if c == at {
        assert GoodCell(su, s, c);
        if s.procs[p].phase.fields == 4 {
          assert t.tracker[c] == t.last[c];
        } else {
          assert Lags(su, t, p, c);
        }
      } else {
        KeepsCell(su, s, t, p, c);
      }
    }
  }

  lemma StepKeeps(su: Setup, s: State, step: Step)
    requires su.Valid() && Inv(su, s) && Enabled(su, s, step)
    ensures Inv(su, Apply(su, s, step))
  {
    hide Setup.Valid; hide Setup.CanEmit; hide Setup.Emitted; hide Setup.Region; hide Setup.CellOf;
    hide Setup.IsCell; hide Setup.SlotFor; hide Setup.GoodNurand; hide Setup.GoodModels; hide Setup.Buffer;
    hide Setup.Stamped; hide Setup.CanChoose; hide Setup.Generated;
    match step
    case Place(_, _, _, _, _, _, _) => PlaceKeeps(su, s, step);
    case Pwrite(_) => PwriteKeeps(su, s, step);
    case Track(_, _) => TrackKeeps(su, s, step);
  }

  // ----- whole runs -----

  /** t is reached from s by these steps, each enabled when it is taken. */
  ghost predicate Reaches(su: Setup, s: State, steps: seq<Step>, t: State)
    requires su.Valid() && Inv(su, s)
    decreases |steps|
  {
    if steps == [] then s == t
    else
      && Enabled(su, s, steps[0])
      && (StepKeeps(su, s, steps[0]); Reaches(su, Apply(su, s, steps[0]), steps[1..], t))
  }

  /** A whole run: from a populated disk, through any interleaving of steps. */
  ghost predicate IsRun(su: Setup, s: State, steps: seq<Step>, t: State)
    requires su.Valid() && Populated(su, s)
  {
    PopulatedIsGood(su, s);
    Reaches(su, s, steps, t)
  }

  lemma {:induction false} RunKeeps(su: Setup, s: State, steps: seq<Step>, t: State)
    requires su.Valid() && Inv(su, s) && Reaches(su, s, steps, t)
    ensures Inv(su, t)
    decreases |steps|
  {
    hide Setup.Valid; hide Setup.CanEmit; hide Setup.Emitted; hide Setup.Region; hide Setup.CellOf;
    hide Setup.IsCell; hide Setup.SlotFor; hide Setup.GoodNurand; hide Setup.GoodModels; hide Setup.Buffer;
    hide Setup.Stamped; hide Setup.CanChoose; hide Setup.Generated;
    if steps == [] {
    } else {
      StepKeeps(su, s, steps[0]);
      RunKeeps(su, Apply(su, s, steps[0]), steps[1..], t);
    }
  }

  /** In every state of every interleaving: a slot whose bytes are not those its tracker entry tells has
    * exactly one laggard, and no writer lags at two slots. */
  lemma OneLaggingSlotEach(su: Setup, s: State, steps: seq<Step>, t: State, c: Cell)
    requires su.Valid() && Populated(su, s) && IsRun(su, s, steps, t) && su.IsCell(c)
    ensures Shaped(su, t)
    ensures t.tracker[c] != t.last[c] ==> exists p :: 0 <= p < |t.procs| && Lags(su, t, p, c)
    ensures forall p, q :: 0 <= p < |t.procs| && 0 <= q < |t.procs| && Lags(su, t, p, c) && Lags(su, t, q, c) ==> p == q
    ensures forall p, d :: 0 <= p < |t.procs| && Lags(su, t, p, c) && Lags(su, t, p, d) ==> c == d
    ensures su.CanEmit(t.last[c]) && t.disk[c] == su.Emitted(t.last[c])
  {
    hide Setup.Valid; hide Setup.CanEmit; hide Setup.Emitted; hide Setup.Region; hide Setup.CellOf;
    hide Setup.IsCell; hide Setup.SlotFor; hide Setup.GoodNurand; hide Setup.GoodModels; hide Setup.Buffer;
    hide Setup.Stamped; hide Setup.CanChoose; hide Setup.Generated;
    PopulatedIsGood(su, s);
    RunKeeps(su, s, steps, t);
    assert GoodCell(su, t, c);
    forall p, q | 0 <= p < |t.procs| && 0 <= q < |t.procs| && Lags(su, t, p, c) && Lags(su, t, q, c) ensures p == q {
      if p != q {
        assert GoodProcess(su, t, p) && GoodProcess(su, t, q);
        WritersApart(su, p, q, t.procs[p].phase.slot, t.procs[q].phase.slot);
      }
    }
  }

  // ----- the final check -----

  /** File i of the disk and row i of the tracker, as the static check reads them. */
  function FileOf(su: Setup, s: State, i: nat): (f: seq<Option<seq<Byte>>>)
    requires su.Valid() && Shaped(su, s) && i < su.Files()
    ensures |f| == su.conf.totBlocks
  {
    seq(su.conf.totBlocks, k requires 0 <= k < su.conf.totBlocks => assert su.IsCell((i, k)); Some(s.disk[(i, k)]))
  }

  function RowOf(su: Setup, s: State, i: nat): (r: seq<BlockInfo>)
    requires su.Valid() && Shaped(su, s) && i < su.Files()
    ensures |r| == su.conf.totBlocks
  {
    seq(su.conf.totBlocks, k requires 0 <= k < su.conf.totBlocks => assert su.IsCell((i, k)); s.tracker[(i, k)])
  }

  ghost predicate Finished(t: State) {
    forall p :: 0 <= p < |t.procs| ==> t.procs[p].phase.Idle?
  }

  /** Every slot holds exactly the block that its tracker entry tells, which is the one last written. */
  ghost predicate Settled(su: Setup, t: State)
    requires su.Valid()
  {
    && Shaped(su, t) && t.tracker == t.last
    && forall c :: su.IsCell(c) ==> su.CanEmit(t.tracker[c]) && t.disk[c] == su.Emitted(t.tracker[c])
  }

  /** Once all writers have finished, the state is settled, whatever the interleaving was. */
  lemma FinishedRunSettles(su: Setup, s: State, steps: seq<Step>, t: State)
    requires su.Valid() && Populated(su, s) && IsRun(su, s, steps, t) && Finished(t)
    ensures Settled(su, t)
  {
    hide Setup.Valid; hide Setup.CanEmit; hide Setup.Emitted; hide Setup.Region; hide Setup.CellOf;
    hide Setup.IsCell; hide Setup.SlotFor; hide Setup.GoodNurand; hide Setup.GoodModels; hide Setup.Buffer;
    hide Setup.Stamped; hide Setup.CanChoose; hide Setup.Generated;
    PopulatedIsGood(su, s);
    RunKeeps(su, s, steps, t);
    forall c | su.IsCell(c)
      ensures t.tracker[c] == t.last[c] && su.CanEmit(t.tracker[c]) && t.disk[c] == su.Emitted(t.tracker[c])
    {
      assert GoodCell(su, t, c);
    }
  }

  lemma EmittedSize(su: Setup, info: BlockInfo)
    requires su.Valid() && su.CanEmit(info)
    ensures |su.Emitted(info)| == su.Size()
  {}

  /** No slot of a settled file is wrong in the sense of the static check. */
  lemma SettledFileIsRight(su: Setup, t: State, i: nat)
    requires su.Valid() && Settled(su, t) && i < su.Files()
    ensures Checkable(su.plan, su.Size(), FileOf(su, t, i), RowOf(su, t, i))
    ensures WrongSlots(su.plan, su.Size(), FileOf(su, t, i), RowOf(su, t, i), su.conf.totBlocks) == 0
  {
    hide Conf.Valid; hide Plan.Valid; hide Emittable; hide Setup.Region; hide Setup.CellOf; hide Setup.SlotFor;
    var file, row := FileOf(su, t, i), RowOf(su, t, i);
    forall k | 0 <= k < su.conf.totBlocks
      ensures Emittable(su.plan, row[k]) && !Wrong(su.plan, file[k], row[k])
      ensures file[k].Some? && |file[k].value| == su.Size()
    {
      assert su.IsCell((i, k)) && su.CanEmit(t.tracker[(i, k)]);
      EmittedSize(su, t.tracker[(i, k)]);
    }
    NoneWrong(su.plan, su.Size(), file, row, su.conf.totBlocks);
  }

  lemma {:induction false} NoneWrong(plan: Plan, size: nat, file: seq<Option<seq<Byte>>>, row: seq<BlockInfo>, n: nat)
    requires plan.Valid() && Checkable(plan, size, file, row) && n <= |file|
    requires forall k :: 0 <= k < n ==> !Wrong(plan, file[k], row[k])
    ensures WrongSlots(plan, size, file, row, n) == 0
    decreases n
  {
    hide Plan.Valid; hide Emittable; hide Wrong;
    if n == 0 {
    } else {
      NoneWrong(plan, size, file, row, n - 1);
    }
  }
}
