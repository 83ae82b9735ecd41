/** The operation counters of the writers over whole runs, and what they make of sequential access. */
module Sweeps {
  import opened Placement
  import opened Writers

  /** The operations of p in these steps all count: none falls into the ramp-up. */
  predicate AllCounted(steps: seq<Step>, p: nat) {
    forall i :: 0 <= i < |steps| && steps[i].Track? && steps[i].p == p ==> steps[i].counted
  }

  predicate NoneCounted(steps: seq<Step>, p: nat) {
    forall i :: 0 <= i < |steps| && steps[i].Track? && steps[i].p == p ==> !steps[i].counted
  }

  /** The slots that p writes in a run, one after the other. */
  ghost function Targets(su: Setup, s: State, steps: seq<Step>, t: State, p: nat): seq<nat>
    requires su.Valid() && Inv(su, s) && Reaches(su, s, steps, t)
    decreases |steps|
  {
    if steps == [] then []
    else
      StepKeeps(su, s, steps[0]);
      (if steps[0] == Pwrite(p) then [s.procs[p].phase.slot] else [])
      + Targets(su, Apply(su, s, steps[0]), steps[1..], t, p)
  }

  /** The operations of a process so far: those counted, and one that is written and not yet recorded. */
  function Operations(proc: Process): nat {
    proc.totOps + if proc.phase.Written? then 1 else 0
  }

  /** One step of a run in which every operation of p counts. */
  lemma StepCounts(su: Setup, s: State, step: Step, p: nat)
    requires su.Valid() && Inv(su, s) && Enabled(su, s, step) && p < |s.procs|
    requires step.Track? && step.p == p ==> step.counted
    ensures var t := Apply(su, s, step);
            p < |t.procs| && Operations(t.procs[p]) == Operations(s.procs[p]) + if step == Pwrite(p) then 1 else 0
  {
    hide Setup.Valid; hide Setup.CanEmit; hide Setup.Emitted; hide Setup.Region; hide Setup.CellOf;
    hide Setup.IsCell; hide Setup.SlotFor; hide Setup.GoodNurand; hide Setup.GoodModels; hide Setup.Buffer;
    hide Setup.Stamped; hide Setup.CanChoose; hide Setup.Generated;
    assert GoodProcess(su, s, step.p);
  }

  lemma Tail(steps: seq<Step>, p: nat)
    requires steps != [] && AllCounted(steps, p)
    ensures AllCounted(steps[1..], p)
  {}

  /** If every operation counts, the counter of a process grows by the blocks it has written and recorded. */
  lemma {:induction false} CounterCounts(su: Setup, s: State, steps: seq<Step>, t: State, p: nat)
    requires su.Valid() && Inv(su, s) && Reaches(su, s, steps, t) && p < |s.procs| && AllCounted(steps, p)
    ensures p < |t.procs| && Operations(t.procs[p]) == Operations(s.procs[p]) + |Targets(su, s, steps, t, p)|
    decreases |steps|
  {
    hide Setup.Valid; hide Setup.CanEmit; hide Setup.Emitted; hide Setup.Region; hide Setup.CellOf;
    hide Setup.IsCell; hide Setup.SlotFor; hide Setup.GoodNurand; hide Setup.GoodModels; hide Setup.Buffer;
    hide Setup.Stamped; hide Setup.CanChoose; hide Setup.Generated; hide Apply; hide Operations; hide Inv;
    if steps == [] {
    } else {
      StepKeeps(su, s, steps[0]);
      StepCounts(su, s, steps[0], p);
      Tail(steps, p);
      CounterCounts(su, Apply(su, s, steps[0]), steps[1..], t, p);
    }
  }

  lemma StepStands(su: Setup, s: State, step: Step, p: nat)
    requires su.Valid() && Inv(su, s) && Enabled(su, s, step) && p < |s.procs|
    requires step.Track? && step.p == p ==> !step.counted
    ensures p < |Apply(su, s, step).procs| && Apply(su, s, step).procs[p].totOps == s.procs[p].totOps
  {
    hide Setup.Valid; hide Setup.CanEmit; hide Setup.Emitted; hide Setup.Region; hide Setup.CellOf;
    hide Setup.IsCell; hide Setup.SlotFor; hide Setup.GoodNurand; hide Setup.GoodModels; hide Setup.Buffer;
    hide Setup.Stamped; hide Setup.CanChoose; hide Setup.Generated;
    assert GoodProcess(su, s, step.p);
  }

  /** During the ramp-up the counter stands. */
  lemma {:induction false} CounterStands(su: Setup, s: State, steps: seq<Step>, t: State, p: nat)
    requires su.Valid() && Inv(su, s) && Reaches(su, s, steps, t) && p < |s.procs| && NoneCounted(steps, p)
    ensures p < |t.procs| && t.procs[p].totOps == s.procs[p].totOps
    decreases |steps|
  {
    hide Setup.Valid; hide Setup.CanEmit; hide Setup.Emitted; hide Setup.Region; hide Setup.CellOf;
    hide Setup.IsCell; hide Setup.SlotFor; hide Setup.GoodNurand; hide Setup.GoodModels; hide Setup.Buffer;
    hide Setup.Stamped; hide Setup.CanChoose; hide Setup.Generated; hide Apply; hide Inv;
    if steps == [] {
    } else {
      StepKeeps(su, s, steps[0]);
      StepStands(su, s, steps[0], p);
      assert NoneCounted(steps[1..], p);
      CounterStands(su, Apply(su, s, steps[0]), steps[1..], t, p);
    }
  }

  // ----- sequential runs -----

  /** The slot of its region that has this number, counted around the region. */
  ghost function Around(su: Setup, n: nat): nat
    requires su.Valid()
  {
    RegionFits(su.conf);
    n % su.Region()
  }

  /** A sequential writer's placed block is the one its counter tells. */
  ghost predicate InStep(su: Setup, proc: Process)
    requires su.Valid()
  {
    proc.phase.Placed? ==> proc.phase.slot == Around(su, proc.totOps)
  }

  lemma StepInStep(su: Setup, s: State, step: Step, p: nat)
    requires su.Valid() && su.conf.accessType.Sequential? && Inv(su, s) && Enabled(su, s, step) && p < |s.procs|
    requires InStep(su, s.procs[p])
    ensures p < |Apply(su, s, step).procs| && InStep(su, Apply(su, s, step).procs[p])
  {
    hide Setup.Valid; hide Setup.CanEmit; hide Setup.Emitted; hide Setup.Region; hide Setup.CellOf;
    hide Setup.IsCell; hide Setup.SlotFor; hide Setup.GoodNurand; hide Setup.GoodModels; hide Setup.Buffer;
    hide Setup.Stamped; hide Setup.CanChoose; hide Setup.Generated; hide Around;
    assert GoodProcess(su, s, step.p);
    if step.Place? {
      SequentialSlot(su, s.procs[step.p].nu, s.procs[step.p].totOps, step.w0, step.w1, step.aFirst);
    }
  }

  lemma SequentialSlot(su: Setup, nu: Nurand, totOps: nat, w0: nat, w1: nat, aFirst: bool)
    requires su.Valid() && su.conf.accessType.Sequential? && su.GoodNurand(nu)
    ensures su.SlotFor(nu, totOps, w0, w1, aFirst) == Around(su, totOps)
  {
    RegionFits(su.conf);
  }

  /** The k-th block that a sequential writer writes goes to the slot that is its counter at the start plus k,
    * around its region, whatever the other writers do meanwhile. */
  lemma {:induction false} TargetsInOrder(su: Setup, s: State, steps: seq<Step>, t: State, p: nat, k: nat)
    requires su.Valid() && su.conf.accessType.Sequential? && Inv(su, s) && Reaches(su, s, steps, t)
    requires p < |s.procs| && AllCounted(steps, p) && InStep(su, s.procs[p]) && k < |Targets(su, s, steps, t, p)|
    ensures Targets(su, s, steps, t, p)[k] == Around(su, Operations(s.procs[p]) + k)
    decreases |steps|
  {
    hide Setup.Valid; hide Setup.CanEmit; hide Setup.Emitted; hide Setup.Region; hide Setup.CellOf;
    hide Setup.IsCell; hide Setup.SlotFor; hide Setup.GoodNurand; hide Setup.GoodModels; hide Setup.Buffer;
    hide Setup.Stamped; hide Setup.CanChoose; hide Setup.Generated; hide Apply; hide Inv; hide Around; hide AllCounted;
    if steps == [] {
    } else {
      var step := steps[0];
      StepKeeps(su, s, step);
      Tail(steps, p);
      FirstCounted(steps, p);
      StepCounts(su, s, step, p);
      StepInStep(su, s, step, p);
      var next, rest := Apply(su, s, step), steps[1..];
      var first := if step == Pwrite(p) then [s.procs[p].phase.slot] else [];
      assert Targets(su, s, steps, t, p) == first + Targets(su, next, rest, t, p);
      hide InStep; hide Targets; hide Reaches;
      if k >= |first| {
        TargetsInOrder(su, next, rest, t, p, k - |first|);
      } else {
        PlacedInStep(su, s, p);
      }
    }
  }

  lemma FirstCounted(steps: seq<Step>, p: nat)
    requires steps != [] && AllCounted(steps, p)
    ensures steps[0].Track? && steps[0].p == p ==> steps[0].counted
  {}

  lemma PlacedInStep(su: Setup, s: State, p: nat)
    requires su.Valid() && p < |s.procs| && s.procs[p].phase.Placed? && InStep(su, s.procs[p])
    ensures s.procs[p].phase.slot == Around(su, Operations(s.procs[p]))
  {
    hide Setup.Valid;
  }

  lemma AroundReaches(su: Setup, n: nat, slot: nat) returns (k: nat)
    requires su.Valid() && slot < su.Region()
    ensures k < su.Region() && Around(su, n + k) == slot
  {
    RegionFits(su.conf);
    k := SequentialReaches(su.Region(), n, slot);
  }

  /** From any state in which a sequential writer is idle, and through any interleaving: if it writes as many
    * blocks as its region has, it writes every slot of it. */
  lemma RegionRewritten(su: Setup, s: State, steps: seq<Step>, t: State, p: nat, slot: nat)
    requires su.Valid() && su.conf.accessType.Sequential? && Inv(su, s) && Reaches(su, s, steps, t)
    requires p < |s.procs| && s.procs[p].phase.Idle? && AllCounted(steps, p)
    requires |Targets(su, s, steps, t, p)| >= su.Region() && slot < su.Region()
    ensures slot in Targets(su, s, steps, t, p)
  {
    hide Setup.Valid; hide Targets; hide AllCounted; hide Inv; hide Around; hide Reaches; hide Setup.Region;
    var k := AroundReaches(su, Operations(s.procs[p]), slot);
    TargetsInOrder(su, s, steps, t, p, k);
    assert Targets(su, s, steps, t, p)[k] == slot;
  }
}
