/** The whole life of the files: realistic population, any run of the writers, any damage afterwards, and
  * the static check that counts it. */
module Lifecycle {
  import opened Basics
  import opened LineTable
  import opened Allotment
  import opened Content
  import opened Generators
  import opened Integrity
  import opened Writers
  import opened Placement
  import Arith

  /** real_populate on one file and its row of the tracker; choices are what chance picks for each
    * block. Afterwards every slot holds the block that its tracker entry tells. */
  method RealPopulate(g: Generator, filesize: nat, file: array<seq<Byte>>, row: array<BlockInfo>, idproc: nat,
                      choices: seq<(nat, nat, nat)>)
    returns (bytesWritten: nat)
    requires g.Valid() && file.Length == row.Length == |choices|
    requires filesize == file.Length * g.blockSize
    requires forall j :: 0 <= j < |choices| ==>
               choices[j].0 < |g.linhas| && 1 <= choices[j].1 <= g.linhas[choices[j].0].nrBlocks
                   && IsDraw(g.plan, choices[j].2)
    modifies g.repr, file, row
    ensures g.Valid() && bytesWritten == filesize
    ensures forall k :: 0 <= k < file.Length ==>
              && Emittable(g.plan, row[k]) && row[k].procId == idproc
              && file[k] == Block(g.plan, row[k].contId, row[k].blockId)
  {
    hide Block; hide Emittable;
    bytesWritten := 0;
    ghost var k := 0;
    while bytesWritten < filesize
      invariant 0 <= k <= file.Length && bytesWritten == k * g.blockSize && g.Valid()
      invariant forall j :: 0 <= j < k ==> Stands(g.plan, file[j], row[j], idproc)
      decreases filesize - bytesWritten
    {
      SlotNumber(k, file.Length, g.blockSize);
      var choice := choices[bytesWritten / g.blockSize];
      var buf, info := g.NextBlock(choice.0, choice.1, choice.2);
      info := info.(procId := idproc);
      EmittableForAnyProcess(g.plan, info, 0);
      file[bytesWritten / g.blockSize] := buf[..];
      row[bytesWritten / g.blockSize] := info;
      bytesWritten := bytesWritten + g.blockSize;
      k := k + 1;
    }
    AllSlots(k, file.Length, g.blockSize);
    assert forall j :: 0 <= j < k ==> Stands(g.plan, file[j], row[j], idproc);
  }

  predicate Stands(plan: Plan, bytes: seq<Byte>, info: BlockInfo, idproc: nat)
    requires plan.Valid()
  {
    Emittable(plan, info) && bytes == Block(plan, info.contId, info.blockId) && info.procId == idproc
  }

  lemma EmittableForAnyProcess(plan: Plan, info: BlockInfo, p: nat)
    requires plan.Valid()
    ensures Emittable(plan, info) <==> Emittable(plan, info.(procId := p))
  {}

  lemma SlotNumber(k: nat, n: nat, size: nat)
    requires k <= n && k * size < n * size && size > 0
    ensures (k * size) / size == k && k < n && (k + 1) * size == k * size + size
  {
    Arith.DivRemainder(k * size, k, 0, size);
  }

  lemma AllSlots(k: nat, n: nat, size: nat)
    requires k <= n && k * size >= n * size && size > 0
    ensures k == n
  {
    assert (n - k) * size <= 0;
    Arith.MulBound(size, n - k);
  }

  // ----- from population to the run -----

  /** What population leaves in all files and rows together. */
  predicate PopulatedFiles(su: Setup, files: seq<seq<seq<Byte>>>, rows: seq<seq<BlockInfo>>)
    requires su.Valid()
  {
    && |files| == |rows| == su.Files()
    && (forall i :: 0 <= i < |files| ==> |files[i]| == |rows[i]| == su.conf.totBlocks)
    && (forall i, k :: 0 <= i < |files| && 0 <= k < |files[i]| ==> Stands(su.plan, files[i][k], rows[i][k], i))
  }

  ghost function Cells(su: Setup): (cells: set<Cell>)
    ensures forall c :: c in cells <==> su.IsCell(c)
  {
    set i, k | 0 <= i < su.Files() && 0 <= k < su.conf.totBlocks :: (i, k)
  }

  /** The state in which the writers are forked: every process has a copy of the model buffers as population
    * left them, and then draws its own NURand constants. */
  ghost function Forked(su: Setup, files: seq<seq<seq<Byte>>>, rows: seq<seq<BlockInfo>>, nus: seq<Nurand>,
                        models: Models): State
    requires su.Valid() && PopulatedFiles(su, files, rows) && |nus| == su.writers
  {
    hide Stands;
    var tracker := map c: Cell | c in Cells(su) :: rows[c.0][c.1];
    var procs := seq(su.writers, p requires 0 <= p < su.writers => Process(Idle, 0, nus[p], models));
    State(map c: Cell | c in Cells(su) :: files[c.0][c.1], tracker, procs, tracker)
  }

  lemma ForkedCell(su: Setup, files: seq<seq<seq<Byte>>>, rows: seq<seq<BlockInfo>>, nus: seq<Nurand>,
                   models: Models, c: Cell)
    requires su.Valid() && PopulatedFiles(su, files, rows) && |nus| == su.writers && su.IsCell(c)
    ensures var s := Forked(su, files, rows, nus, models);
            c in s.disk && c in s.tracker && su.CanEmit(s.tracker[c]) && s.disk[c] == su.Emitted(s.tracker[c])
  {
    hide Emittable; hide Block;
    assert c in Cells(su) && Stands(su.plan, files[c.0][c.1], rows[c.0][c.1], c.0);
  }

  predicate GoodNurands(su: Setup, nus: seq<Nurand>) {
    |nus| == su.writers && forall p :: 0 <= p < |nus| ==> su.GoodNurand(nus[p])
  }

  /** Realistic population is what a run may start from. */
  lemma PopulationStartsRun(su: Setup, files: seq<seq<seq<Byte>>>, rows: seq<seq<BlockInfo>>, nus: seq<Nurand>,
                            models: Models)
    requires su.Valid() && PopulatedFiles(su, files, rows) && GoodNurands(su, nus) && su.GoodModels(models)
    ensures Populated(su, Forked(su, files, rows, nus, models))
  {
    hide Setup.Valid; hide Setup.CanEmit; hide Setup.Emitted; hide Setup.IsCell; hide PopulatedFiles;
    hide Setup.GoodNurand; hide Setup.GoodModels;
    var s := Forked(su, files, rows, nus, models);
    forall c: Cell | su.IsCell(c)
      ensures c in s.disk && c in s.tracker && su.CanEmit(s.tracker[c]) && s.disk[c] == su.Emitted(s.tracker[c])
    {
      ForkedCell(su, files, rows, nus, models, c);
    }
  }

  /** populate, over all files or the one device: what it leaves is a start state of the writers, for
    * whatever the model buffers hold by then. */
  method Populate(g: Generator, su: Setup, choices: seq<seq<(nat, nat, nat)>>, ghost nus: seq<Nurand>)
    returns (files: seq<seq<seq<Byte>>>, rows: seq<seq<BlockInfo>>, ghost models: Models)
    requires g.Valid() && Fits(g, su) && GoodNurands(su, nus)
    requires |choices| == su.Files() && forall i :: 0 <= i < |choices| ==>
               |choices[i]| == su.conf.totBlocks && forall j :: 0 <= j < |choices[i]| ==>
                 su.CanChoose(choices[i][j].0, choices[i][j].1, choices[i][j].2)
    modifies g.repr
    ensures g.Valid() && PopulatedFiles(su, files, rows)
    ensures Holds(g.modelos, models) && su.GoodModels(models)
    ensures Populated(su, Forked(su, files, rows, nus, models))
  {
    assert su.plan.Valid();
    hide Stands; hide Setup.Valid; hide Plan.Valid; hide Generator.Valid;
    files, rows := [], [];
    var i := 0;
    while i < su.Files()
      invariant 0 <= i <= su.Files() && |files| == |rows| == i && g.Valid()
      invariant forall j :: 0 <= j < i ==> |files[j]| == |rows[j]| == su.conf.totBlocks
      invariant forall j, k :: 0 <= j < i && 0 <= k < su.conf.totBlocks ==> Stands(su.plan, files[j][k], rows[j][k], j)
    {
      var file, row := PopulateOne(g, su, i, choices[i]);
      files, rows := files + [file], rows + [row];
      i := i + 1;
    }
    models := BuffersOf(g, su);
    PopulationStartsRun(su, files, rows, nus, models);
  }

  /** The setup is about this generator. */
  ghost predicate Fits(g: Generator, su: Setup) {
    su.Valid() && g.plan == su.plan && g.blockSize == su.Size()
  }

  method PopulateOne(g: Generator, su: Setup, i: nat, choices: seq<(nat, nat, nat)>)
    returns (file: seq<seq<Byte>>, row: seq<BlockInfo>)
    requires g.Valid() && Fits(g, su)
    requires |choices| == su.conf.totBlocks && forall j :: 0 <= j < |choices| ==>
               su.CanChoose(choices[j].0, choices[j].1, choices[j].2)
    modifies g.repr
    ensures g.Valid() && |file| == |row| == su.conf.totBlocks
    ensures forall k :: 0 <= k < |file| ==> Stands(su.plan, file[k], row[k], i)
  {
    hide Block; hide Emittable;
    var blocks := new seq<Byte>[su.conf.totBlocks](_ => []);
    var infos := new BlockInfo[su.conf.totBlocks](_ => BlockInfo(0, 0, 0, 0, false));
    var written := RealPopulate(g, blocks.Length * g.blockSize, blocks, infos, i, choices);
    file, row := blocks[..], infos[..];
  }

  /** The contents of a generator's buffers as a value. */
  ghost method BuffersOf(g: Generator, su: Setup) returns (m: Models)
    requires g.Valid() && Fits(g, su)
    ensures Holds(g.modelos, m) && su.GoodModels(m)
  {
    m := [];
    var i := 0;
    while i < NR_MODELS
      invariant 0 <= i == |m| <= NR_MODELS
      invariant forall j :: 0 <= j < i ==> |m[j]| == 10 && forall c :: 0 <= c < 10 ==> m[j][c] == g.modelos[j][c][..]
    {
      var group: seq<seq<Byte>> := [];
      var c := 0;
      while c < 10
        invariant 0 <= c == |group| <= 10
        invariant forall d :: 0 <= d < c ==> group[d] == g.modelos[i][d][..]
      {
        group := group + [g.modelos[i][c][..]];
        c := c + 1;
      }
      m := m + [group];
      i := i + 1;
    }
  }

  /** get_writecontent, and with it the generating half of a Place step: from buffers holding m, the generator
    * leaves in them exactly what the step stamps into the models of the process. */
  method GetWritecontent(g: Generator, su: Setup, ghost m: Models, idproc: nat, k: nat, r: nat, draw: nat)
    returns (buffer: array<Byte>, info: BlockInfo)
    requires g.Valid() && Fits(g, su) && su.CanChoose(k, r, draw)
    requires Holds(g.modelos, m) && su.GoodModels(m)
    modifies g.repr
    ensures g.Valid() && buffer in g.repr
    ensures info == su.Generated(idproc, k, r, draw)
    ensures Holds(g.modelos, su.Stamped(m, info))
    ensures su.GoodModels(su.Stamped(m, info)) && buffer[..] == su.Buffer(su.Stamped(m, info), info)
  {
    buffer, info := g.NextBlock(k, r, draw);
    info := info.(procId := idproc);
    StampEmits(su, m, info);
  }

  // ----- damage -----

  /** Any contents at all, of the right shape: every file has its slots, every readable slot a block's size. */
  predicate IsContents(su: Setup, files: seq<seq<Option<seq<Byte>>>>) {
    && |files| == su.Files()
    && (forall i :: 0 <= i < |files| ==> |files[i]| == su.conf.totBlocks)
    && (forall i, k :: 0 <= i < |files| && 0 <= k < |files[i]| && files[i][k].Some? ==>
          |files[i][k].value| == su.Size())
  }

  /** Slot k of file i does not hold the block last written to it, or cannot be read. */
  ghost predicate Damaged(su: Setup, t: State, files: seq<seq<Option<seq<Byte>>>>, i: nat, k: nat)
    requires su.Valid() && Settled(su, t) && IsContents(su, files) && i < |files| && k < su.conf.totBlocks
  {
    assert su.IsCell((i, k));
    files[i][k] != Some(su.Emitted(t.last[(i, k)]))
  }

  ghost function DamagedIn(su: Setup, t: State, files: seq<seq<Option<seq<Byte>>>>, i: nat, n: nat): nat
    requires su.Valid() && Settled(su, t) && IsContents(su, files) && i < |files| && n <= su.conf.totBlocks
  {
    if n == 0 then 0 else DamagedIn(su, t, files, i, n - 1) + (if Damaged(su, t, files, i, n - 1) then 1 else 0)
  }

  ghost function AllDamaged(su: Setup, t: State, files: seq<seq<Option<seq<Byte>>>>, n: nat): nat
    requires su.Valid() && Settled(su, t) && IsContents(su, files) && n <= |files|
  {
    if n == 0 then 0 else AllDamaged(su, t, files, n - 1) + DamagedIn(su, t, files, n - 1, su.conf.totBlocks)
  }

  function Rows(su: Setup, t: State): (rows: seq<seq<BlockInfo>>)
    requires su.Valid() && Shaped(su, t)
    ensures |rows| == su.Files()
  {
    seq(su.Files(), i requires 0 <= i < su.Files() => RowOf(su, t, i))
  }

  lemma RowCheckable(su: Setup, t: State, files: seq<seq<Option<seq<Byte>>>>, i: nat)
    requires su.Valid() && Settled(su, t) && IsContents(su, files) && i < |files|
    ensures Checkable(su.plan, su.Size(), files[i], RowOf(su, t, i))
  {
    hide Setup.Valid; hide Emittable;
    forall k | 0 <= k < su.conf.totBlocks ensures su.CanEmit(RowOf(su, t, i)[k]) {
      assert su.IsCell((i, k));
    }
  }

  lemma {:induction false} WrongIsDamaged(su: Setup, t: State, files: seq<seq<Option<seq<Byte>>>>, i: nat, n: nat)
    requires su.Valid() && Settled(su, t) && IsContents(su, files) && i < |files| && n <= su.conf.totBlocks
    requires Checkable(su.plan, su.Size(), files[i], RowOf(su, t, i))
    ensures WrongSlots(su.plan, su.Size(), files[i], RowOf(su, t, i), n) == DamagedIn(su, t, files, i, n)
    decreases n
  {
    hide Setup.Valid; hide Emittable; hide Block;
    if n == 0 {
    } else {
      WrongIsDamaged(su, t, files, i, n - 1);
      assert su.IsCell((i, n - 1)) && su.CanEmit(t.last[(i, n - 1)]);
    }
  }

  lemma {:induction false} AllWrongIsAllDamaged(su: Setup, t: State, files: seq<seq<Option<seq<Byte>>>>, n: nat)
    requires su.Valid() && Settled(su, t) && IsContents(su, files) && n <= |files|
    requires AllCheckable(su.plan, su.Size(), files, Rows(su, t))
    ensures AllWrongSlots(su.plan, su.Size(), files, Rows(su, t), n) == AllDamaged(su, t, files, n)
    decreases n
  {
    hide Setup.Valid; hide Emittable; hide Block; hide WrongSlots; hide Damaged; hide Checkable; hide Settled;
    if n == 0 {
    } else {
      AllWrongIsAllDamaged(su, t, files, n - 1);
      WrongIsDamaged(su, t, files, n - 1, su.conf.totBlocks);
    }
  }

  /** The files exactly as the run left them. */
  ghost predicate Untouched(su: Setup, t: State, files: seq<seq<Option<seq<Byte>>>>)
    requires su.Valid() && Settled(su, t) && IsContents(su, files)
  {
    forall i, k :: 0 <= i < |files| && 0 <= k < su.conf.totBlocks ==> !Damaged(su, t, files, i, k)
  }

  lemma {:induction false} NoneDamagedIn(su: Setup, t: State, files: seq<seq<Option<seq<Byte>>>>, i: nat, n: nat)
    requires su.Valid() && Settled(su, t) && IsContents(su, files) && i < |files| && n <= su.conf.totBlocks
    requires Untouched(su, t, files)
    ensures DamagedIn(su, t, files, i, n) == 0
    decreases n
  {
    hide Setup.Valid; hide Settled; hide Damaged;
    if n == 0 {
    } else {
      NoneDamagedIn(su, t, files, i, n - 1);
    }
  }

  lemma {:induction false} NoneDamaged(su: Setup, t: State, files: seq<seq<Option<seq<Byte>>>>, n: nat)
    requires su.Valid() && Settled(su, t) && IsContents(su, files) && n <= |files|
    requires Untouched(su, t, files)
    ensures AllDamaged(su, t, files, n) == 0
    decreases n
  {
    hide Setup.Valid; hide Settled; hide Damaged; hide Untouched; hide DamagedIn;
    if n == 0 {
    } else {
      NoneDamaged(su, t, files, n - 1);
      NoneDamagedIn(su, t, files, n - 1, su.conf.totBlocks);
    }
  }

  /** One random number per slot for the first regeneration, and one for a second. */
  predicate DrawsFit(su: Setup, files: seq<seq<Option<seq<Byte>>>>, draws: seq<seq<(nat, nat)>>) {
    |draws| == |files| && forall i :: 0 <= i < |files| ==> |draws[i]| == |files[i]| && AreDraws(su.plan, draws[i])
  }

  /** No random number drawn is the one that is taken for an error code. */
  predicate NoMistake(draws: seq<seq<(nat, nat)>>) {
    forall i, k :: 0 <= i < |draws| && 0 <= k < |draws[i]| ==> draws[i][k].0 != MINUS_ONE && draws[i][k].1 != MINUS_ONE
  }

  /** No damaged slot carries the block id 0 in its header. */
  predicate NoZeroHeader(su: Setup, files: seq<seq<Option<seq<Byte>>>>) {
    forall i, k :: 0 <= i < |files| && 0 <= k < |files[i]| ==>
      files[i][k].Some? && |files[i][k].value| >= 8 ==> Decode(files[i][k].value[4..8]) != 0
  }

  /** Some readable slot has a header that names block 0: its second four bytes are zero. */
  predicate ZeroHeader(su: Setup, files: seq<seq<Option<seq<Byte>>>>)
    requires IsContents(su, files) && su.Size() >= 8
  {
    exists i, k :: 0 <= i < |files| && 0 <= k < |files[i]| && ZeroHeaderAt(su, files, i, k)
  }

  predicate ZeroHeaderAt(su: Setup, files: seq<seq<Option<seq<Byte>>>>, i: nat, k: nat)
    requires IsContents(su, files) && su.Size() >= 8 && i < |files| && k < |files[i]|
  {
    files[i][k].Some? && Spelled(files[i][k].value, 4) == 0
  }

  /** Such a slot ends the program, whatever is drawn. */
  lemma ZeroHeaderExits(su: Setup, t: State, files: seq<seq<Option<seq<Byte>>>>, draws: seq<seq<(nat, nat)>>)
    requires su.Valid() && Settled(su, t) && IsContents(su, files) && DrawsFit(su, files, draws)
    requires AllCheckable(su.plan, su.Size(), files, Rows(su, t)) && ZeroHeader(su, files)
    ensures SomeExit(su, t, files, draws)
  {
    var i, k :| 0 <= i < |files| && 0 <= k < |files[i]| && ZeroHeaderAt(su, files, i, k);
    ZeroHeaderExitsAt(su, t, files, draws, i, k);
    hide Setup.Valid; hide Checkable; hide ExitsAt; hide Settled;
    assert Rows(su, t)[i] == RowOf(su, t, i);
  }

  lemma ZeroHeaderExitsAt(su: Setup, t: State, files: seq<seq<Option<seq<Byte>>>>, draws: seq<seq<(nat, nat)>>,
                          i: nat, k: nat)
    requires su.Valid() && Settled(su, t) && IsContents(su, files) && DrawsFit(su, files, draws)
    requires i < |files| && k < |files[i]| && ZeroHeaderAt(su, files, i, k)
    requires Checkable(su.plan, su.Size(), files[i], RowOf(su, t, i))
    ensures ExitsAt(su.plan, su.Size(), files[i], RowOf(su, t, i), draws[i], k)
  {
    hide Conf.Valid; hide Plan.Valid; hide Emittable; hide Spelled; hide SlotExits;
    assert su.IsCell((i, k)) && su.CanEmit(t.last[(i, k)]);
    ZeroHeaderEnds(su.plan, files[i][k].value, RowOf(su, t, i)[k], draws[i][k]);
  }

  lemma NoExit(su: Setup, t: State, files: seq<seq<Option<seq<Byte>>>>, draws: seq<seq<(nat, nat)>>, i: nat, k: nat)
    requires su.Valid() && Settled(su, t) && IsContents(su, files) && DrawsFit(su, files, draws)
    requires NoMistake(draws) && (NoZeroHeader(su, files) || Untouched(su, t, files))
    requires i < |files| && k < su.conf.totBlocks && Checkable(su.plan, su.Size(), files[i], RowOf(su, t, i))
    ensures !ExitsAt(su.plan, su.Size(), files[i], RowOf(su, t, i), draws[i], k)
  {
    hide Conf.Valid; hide Plan.Valid; hide Emittable; hide Decode; hide Block;
    assert su.IsCell((i, k)) && su.CanEmit(t.last[(i, k)]);
    if Untouched(su, t, files) {
      assert !Damaged(su, t, files, i, k);
    }
  }

  /** For files as the run left them, a check of a slot ends the program exactly if its regeneration is
    * mistaken for an error. */
  lemma ExitIsMistake(su: Setup, t: State, files: seq<seq<Option<seq<Byte>>>>, draws: seq<seq<(nat, nat)>>, i: nat,
                      k: nat)
    requires su.Valid() && Settled(su, t) && IsContents(su, files) && DrawsFit(su, files, draws)
    requires Untouched(su, t, files)
    requires i < |files| && k < su.conf.totBlocks && Checkable(su.plan, su.Size(), files[i], RowOf(su, t, i))
    ensures ExitsAt(su.plan, su.Size(), files[i], RowOf(su, t, i), draws[i], k)
       <==> MistakenAt(su, t, draws, i, k)
  {
    hide Conf.Valid; hide Plan.Valid; hide Emittable; hide Decode; hide Block;
    assert su.IsCell((i, k)) && su.CanEmit(t.last[(i, k)]);
    assert !Damaged(su, t, files, i, k);
  }

  /** The regeneration of slot k of file i draws the number that is taken for an error code. */
  predicate MistakenAt(su: Setup, t: State, draws: seq<seq<(nat, nat)>>, i: nat, k: nat)
    requires su.Valid() && Shaped(su, t) && i < su.Files() && k < su.conf.totBlocks
    requires i < |draws| && k < |draws[i]|
  {
    Mistaken(su.plan, RowOf(su, t, i)[k].blockId, draws[i][k].0)
  }

  ghost predicate NoneMistaken(su: Setup, t: State, draws: seq<seq<(nat, nat)>>)
    requires su.Valid() && Shaped(su, t) && |draws| == su.Files()
    requires forall i :: 0 <= i < |draws| ==> |draws[i]| == su.conf.totBlocks
  {
    forall i, k :: 0 <= i < |draws| && 0 <= k < su.conf.totBlocks ==> !MistakenAt(su, t, draws, i, k)
  }

  /** Some slot makes the check end the program. */
  ghost predicate SomeExit(su: Setup, t: State, files: seq<seq<Option<seq<Byte>>>>, draws: seq<seq<(nat, nat)>>)
    requires su.Valid() && Settled(su, t) && IsContents(su, files) && DrawsFit(su, files, draws)
    requires AllCheckable(su.plan, su.Size(), files, Rows(su, t))
  {
    exists i, k :: 0 <= i < |files| && 0 <= k < |files[i]|
        && ExitsAt(su.plan, su.Size(), files[i], Rows(su, t)[i], draws[i], k)
  }

  lemma AllRowsCheckable(su: Setup, t: State, files: seq<seq<Option<seq<Byte>>>>)
    requires su.Valid() && Settled(su, t) && IsContents(su, files)
    ensures AllCheckable(su.plan, su.Size(), files, Rows(su, t))
  {
    hide Conf.Valid; hide Plan.Valid; hide Checkable;
    forall i | 0 <= i < |files| ensures Checkable(su.plan, su.Size(), files[i], Rows(su, t)[i]) {
      RowCheckable(su, t, files, i);
    }
  }

  lemma UntouchedExits(su: Setup, t: State, files: seq<seq<Option<seq<Byte>>>>, draws: seq<seq<(nat, nat)>>)
    requires su.Valid() && Settled(su, t) && IsContents(su, files) && DrawsFit(su, files, draws)
    requires AllCheckable(su.plan, su.Size(), files, Rows(su, t)) && Untouched(su, t, files)
    ensures !SomeExit(su, t, files, draws) <==> NoneMistaken(su, t, draws)
  {
    assert Shaped(su, t);
    hide Conf.Valid; hide Plan.Valid; hide Checkable; hide ExitsAt; hide Untouched; hide MistakenAt; hide Settled;
    hide AreDraws;
    forall i, k | 0 <= i < |files| && 0 <= k < |files[i]|
      ensures ExitsAt(su.plan, su.Size(), files[i], Rows(su, t)[i], draws[i], k) <==> MistakenAt(su, t, draws, i, k)
    {
      ExitIsMistake(su, t, files, draws, i, k);
    }
  }

  /** Whatever numbers are drawn, no regeneration is mistaken for an error. */
  ghost predicate NeverMistaken(su: Setup, t: State)
    requires su.Valid() && Shaped(su, t)
  {
    forall draws: seq<seq<(nat, nat)>> | FullDraws(su, draws) :: NoneMistaken(su, t, draws)
  }

  /** Random numbers for every slot of every file. */
  predicate FullDraws(su: Setup, draws: seq<seq<(nat, nat)>>) {
    && |draws| == su.Files()
    && forall i :: 0 <= i < |draws| ==> |draws[i]| == su.conf.totBlocks && AreDraws(su.plan, draws[i])
  }

  /** No slot records a block whose content id is drawn anew. */
  ghost predicate NoDrawnBlocks(su: Setup, t: State)
    requires su.Valid() && Shaped(su, t)
  {
    forall i, k :: 0 <= i < su.Files() && 0 <= k < su.conf.totBlocks ==>
      RecordedId(su, t, i, k) >= ZeroLimit(su.plan.lines)
  }

  function RecordedId(su: Setup, t: State, i: nat, k: nat): nat
    requires su.Valid() && Shaped(su, t) && i < su.Files() && k < su.conf.totBlocks
  {
    RowOf(su, t, i)[k].blockId
  }

  /** All draws are the number that is taken for an error code. */
  function WorstDraws(su: Setup): seq<seq<(nat, nat)>> {
    seq(su.Files(), _ => seq(su.conf.totBlocks, _ => (MINUS_ONE, MINUS_ONE)))
  }

  /** The check of untouched files is sure to return 0 if and only if no slot records a block whose content
    * id is drawn anew, that is, one below the zero-copy limit. */
  lemma NeverMistakenIff(su: Setup, t: State)
    requires su.Valid() && Shaped(su, t)
    ensures NeverMistaken(su, t) <==> NoDrawnBlocks(su, t)
  {
    hide Conf.Valid; hide ZeroLimit; hide RowOf;
    if NoDrawnBlocks(su, t) {
      forall draws: seq<seq<(nat, nat)>> | FullDraws(su, draws) ensures NoneMistaken(su, t, draws) {
        forall i, k | 0 <= i < |draws| && 0 <= k < su.conf.totBlocks ensures !MistakenAt(su, t, draws, i, k) {
          assert RecordedId(su, t, i, k) >= ZeroLimit(su.plan.lines);
        }
      }
    }
    if NeverMistaken(su, t) {
      var worst := WorstDraws(su);
      assert FullDraws(su, worst);
      forall i, k | 0 <= i < su.Files() && 0 <= k < su.conf.totBlocks
        ensures RecordedId(su, t, i, k) >= ZeroLimit(su.plan.lines)
      {
        assert !MistakenAt(su, t, worst, i, k);
      }
    }
  }

  lemma ProvisosSuffice(su: Setup, t: State, files: seq<seq<Option<seq<Byte>>>>, draws: seq<seq<(nat, nat)>>)
    requires su.Valid() && Settled(su, t) && IsContents(su, files) && DrawsFit(su, files, draws)
    requires AllCheckable(su.plan, su.Size(), files, Rows(su, t))
    requires NoMistake(draws) && (NoZeroHeader(su, files) || Untouched(su, t, files))
    ensures !SomeExit(su, t, files, draws)
  {
    assert Shaped(su, t);
    hide Conf.Valid; hide Plan.Valid; hide Checkable; hide ExitsAt; hide Untouched; hide NoZeroHeader; hide NoMistake;
    hide AreDraws; hide Settled;
    forall i, k | 0 <= i < |files| && 0 <= k < |files[i]|
      ensures !ExitsAt(su.plan, su.Size(), files[i], Rows(su, t)[i], draws[i], k)
    {
      NoExit(su, t, files, draws, i, k);
    }
  }

  /** After any finished run and any damage to the files, static_check counts exactly the slots that no
    * longer hold the block last written to them, if it returns; it returns exactly if no slot makes it end
    * the program. That is so if no damaged header carries the block id 0 and no random number is mistaken
    * for an error code. For undamaged files the result is 0 exactly if no regeneration is mistaken. */
  method CheckAfterRun(g: Generator, su: Setup, ghost s: State, ghost steps: seq<Step>, t: State,
                       files: seq<seq<Option<seq<Byte>>>>, draws: seq<seq<(nat, nat)>>) returns (r: Option<nat>)
    requires g.Valid() && Fits(g, su)
    requires Populated(su, s) && IsRun(su, s, steps, t) && Finished(t)
    requires IsContents(su, files) && DrawsFit(su, files, draws)
    modifies g.repr
    ensures g.Valid() && Settled(su, t) && AllCheckable(su.plan, su.Size(), files, Rows(su, t))
    ensures r.Some? ==> r.value == AllDamaged(su, t, files, |files|)
    ensures r.None? <==> SomeExit(su, t, files, draws)
    ensures NoMistake(draws) && NoZeroHeader(su, files) ==> r.Some?
    ensures ZeroHeader(su, files) ==> r.None?
    ensures NoMistake(draws) && Untouched(su, t, files) ==> r == Some(0)
    ensures Untouched(su, t, files) ==> (r == Some(0) <==> NoneMistaken(su, t, draws))
  {
    FinishedRunSettles(su, s, steps, t);
    r := CheckSettled(g, su, t, files, draws);
  }

  method CheckSettled(g: Generator, su: Setup, t: State, files: seq<seq<Option<seq<Byte>>>>,
                      draws: seq<seq<(nat, nat)>>)
    returns (r: Option<nat>)
    requires g.Valid() && Fits(g, su)
    requires Settled(su, t) && IsContents(su, files) && DrawsFit(su, files, draws)
    modifies g.repr
    ensures g.Valid() && AllCheckable(su.plan, su.Size(), files, Rows(su, t))
    ensures r.Some? ==> r.value == AllDamaged(su, t, files, |files|)
    ensures r.None? <==> SomeExit(su, t, files, draws)
    ensures NoMistake(draws) && NoZeroHeader(su, files) ==> r.Some?
    ensures ZeroHeader(su, files) ==> r.None?
    ensures NoMistake(draws) && Untouched(su, t, files) ==> r == Some(0)
    ensures Untouched(su, t, files) ==> (r == Some(0) <==> NoneMistaken(su, t, draws))
  {
    hide Conf.Valid; hide Plan.Valid; hide Checkable; hide ExitsAt; hide AllDamaged; hide AllWrongSlots; hide Untouched;
    hide NoZeroHeader; hide NoMistake; hide AreDraws; hide Generator.Valid; hide NoneMistaken;
    hide ZeroHeader;
    AllRowsCheckable(su, t, files);
    AllWrongIsAllDamaged(su, t, files, |files|);
    if NoMistake(draws) && (NoZeroHeader(su, files) || Untouched(su, t, files)) {
      ProvisosSuffice(su, t, files, draws);
    }
    if Untouched(su, t, files) {
      NoneDamaged(su, t, files, |files|);
      UntouchedExits(su, t, files, draws);
    }
    if ZeroHeader(su, files) {
      ZeroHeaderExits(su, t, files, draws);
    }
    r := StaticCheck(g, files, Rows(su, t), draws);
  }
}
