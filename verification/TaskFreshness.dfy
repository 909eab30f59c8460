/**
 Task ids are never used twice, however often the process dies in the middle of an
 operation: over any run in which each call is cut off after any of its file effects.
 */
module TaskFreshness {
  import opened TaskModel

  /** An effect that neither lowers the mark, nor forgets an id, nor brings an old id back. */
  ghost predicate Sound(d: Disk, e: Effect) {
    match e
    case WriteTask(t) => t.id in d.tasks || t.id > Bound(d)
    case RemoveTask(id) => id <= d.mark
    case WriteMark(v) => v >= d.mark
  }

  ghost predicate Guarded(d: Disk, es: seq<Effect>) {
    es == [] || (Guarded(d, es[..|es| - 1]) && Sound(ApplyAll(d, es[..|es| - 1]), es[|es| - 1]))
  }

  lemma {:induction false} GuardedPrefix(d: Disk, es: seq<Effect>, k: nat)
    requires Guarded(d, es) && k <= |es|
    ensures Guarded(d, es[..k])
  {
    if k == |es| {
      assert es[..k] == es;
    } else {
      assert es[..|es| - 1][..k] == es[..k];
      GuardedPrefix(d, es[..|es| - 1], k);
    }
  }

  lemma {:induction false} GuardedConcat(d: Disk, es: seq<Effect>, fs: seq<Effect>)
    requires Guarded(d, es) && Guarded(ApplyAll(d, es), fs)
    ensures Guarded(d, es + fs)
  {
    if fs == [] {
      assert es + fs == es;
    } else {
      var n := |fs| - 1;
      GuardedConcat(d, es, fs[..n]);
      ApplyAllConcat(d, es, fs[..n]);
      assert (es + fs)[..|es + fs| - 1] == es + fs[..n];
    }
  }

  /** What guarded effects preserve: the mark and the bound do not fall, and no id below the bound returns. */
  lemma {:induction false} GuardedKeeps(d: Disk, es: seq<Effect>)
    requires Guarded(d, es)
    ensures ApplyAll(d, es).mark >= d.mark
    ensures Bound(ApplyAll(d, es)) >= Bound(d)
    ensures forall k :: k <= Bound(d) && k !in d.tasks ==> k !in ApplyAll(d, es).tasks
  {
    if es != [] {
      var n := |es| - 1;
      GuardedKeeps(d, es[..n]);
      var mid := ApplyAll(d, es[..n]);
      var end := Apply(mid, es[n]);
      var top := Highest(mid.tasks.Keys);
      if top in mid.tasks && top !in end.tasks {
        assert es[n] == RemoveTask(top);
      }
    }
  }

  ghost predicate Rewrites(es: seq<Effect>, ids: set<nat>) {
    forall e :: e in es ==> e.WriteTask? && e.task.id in ids
  }

  lemma {:induction false} RewritesAreGuarded(d: Disk, es: seq<Effect>)
    requires Rewrites(es, d.tasks.Keys)
    ensures Guarded(d, es)
    ensures ApplyAll(d, es).tasks.Keys == d.tasks.Keys && ApplyAll(d, es).mark == d.mark
  {
    if es != [] {
      var n := |es| - 1;
      assert es[n] in es;
      RewritesAreGuarded(d, es[..n]);
    }
  }

  lemma {:induction false} CleanupRewrites(tasks: map<nat, Task>, id: nat, order: seq<nat>)
    requires WellKeyed(tasks) && (forall k :: k in order ==> k in tasks)
    ensures Rewrites(CleanupWrites(tasks, id, order), set k | k in order)
  {
    if order != [] {
      CleanupRewrites(tasks, id, order[..|order| - 1]);
    }
  }

  lemma {:induction false} UnassignRewrites(tasks: map<nat, Task>, agent: string, order: seq<nat>)
    requires WellKeyed(tasks) && (forall k :: k in order ==> k in tasks)
    ensures Rewrites(UnassignWrites(tasks, agent, order), tasks.Keys)
  {
    if order != [] {
      UnassignRewrites(tasks, agent, order[..|order| - 1]);
    }
  }

  lemma {:induction false} EdgeRewrites(d: Disk, id: nat, targets: seq<nat>)
    requires WellKeyed(d.tasks) && (forall k :: k in targets ==> k in d.tasks)
    ensures Rewrites(BlockedByWrites(d, id, targets), d.tasks.Keys)
    ensures Rewrites(BlocksWrites(d, id, targets), d.tasks.Keys)
  {
    if targets != [] {
      EdgeRewrites(d, id, targets[..|targets| - 1]);
    }
  }

  lemma {:induction false} RemovalsAreGuarded(d: Disk, order: seq<nat>)
    requires forall k :: k in order ==> k <= d.mark
    ensures Guarded(d, RemoveAll(order)) && ApplyAll(d, RemoveAll(order)).mark == d.mark
  {
    if order != [] {
      var n := |order| - 1;
      assert order[n] in order && forall k :: k in order[..n] ==> k in order;
      RemovalsAreGuarded(d, order[..n]);
      assert RemoveAll(order)[..|RemoveAll(order)| - 1] == RemoveAll(order[..n]);
    }
  }

  lemma SingleGuarded(d: Disk, e: Effect)
    requires Sound(d, e)
    ensures Guarded(d, [e]) && ApplyAll(d, [e]) == Apply(d, e)
  {
    assert [e][..0] == [];
    assert Guarded(d, []);
  }

  lemma DeleteIsGuarded(d: Disk, id: nat, order: seq<nat>)
    requires WellKeyed(d.tasks) && Lists(order, d.tasks.Keys - {id})
    ensures Guarded(d, DeleteProgram(d, id, order))
  {
    var raise := RaiseProgram(d, id);
    var d1 := ApplyAll(d, raise);
    if id > d.mark { SingleGuarded(d, WriteMark(id)); }
    assert d1.tasks == d.tasks && id <= d1.mark;
    if id in d.tasks {
      var cleanup := CleanupWrites(d.tasks - {id}, id, order);
      SingleGuarded(d1, RemoveTask(id));
      CleanupRewrites(d.tasks - {id}, id, order);
      RewritesAreGuarded(Apply(d1, RemoveTask(id)), cleanup);
      GuardedConcat(d1, [RemoveTask(id)], cleanup);
      GuardedConcat(d, raise, [RemoveTask(id)] + cleanup);
    } else {
      assert DeleteProgram(d, id, order) == raise;
    }
  }

  lemma ResetIsGuarded(d: Disk, order: seq<nat>)
    requires Lists(order, d.tasks.Keys)
    ensures Guarded(d, ResetProgram(d, order))
  {
    var h := Highest(d.tasks.Keys);
    var raise := RaiseProgram(d, h);
    if h > d.mark { SingleGuarded(d, WriteMark(h)); }
    var d1 := ApplyAll(d, raise);
    assert h <= d1.mark;
    RemovalsAreGuarded(d1, order);
    GuardedConcat(d, raise, RemoveAll(order));
  }

  lemma UpdateRewrites(d: Disk, id: nat, u: Updates, addBlocks: seq<nat>, addBlockedBy: seq<nat>)
    requires WellKeyed(d.tasks)
    ensures Rewrites(UpdateProgram(d, id, u, addBlocks, addBlockedBy), d.tasks.Keys)
  {
    if TargetsExist(d, id, addBlocks, addBlockedBy) {
      EdgeRewrites(d, id, addBlocks);
      EdgeRewrites(d, id, addBlockedBy);
    }
  }

  lemma ProgramIsGuarded(d: Disk, c: Call, order: seq<nat>)
    requires WellKeyed(d.tasks) && Lists(order, Scanned(d, c))
    ensures Guarded(d, Program(d, c, order))
  {
    match c
    case Create(data) => SingleGuarded(d, WriteTask(FreshTask(Bound(d) + 1, data)));
    case UpdateWithDependencies(id, u, addBlocks, addBlockedBy) =>
      UpdateRewrites(d, id, u, addBlocks, addBlockedBy);
      RewritesAreGuarded(d, Program(d, c, order));
    case Delete(id) => DeleteIsGuarded(d, id, order);
    case BlockTask(_, _) => RewritesAreGuarded(d, Program(d, c, order));
    case ClaimTask(_, _, _) => RewritesAreGuarded(d, Program(d, c, order));
    case ResetTaskList => ResetIsGuarded(d, order);
    case UnassignTeammateTasks(agent) =>
      UnassignRewrites(d.tasks, agent, order);
      RewritesAreGuarded(d, Program(d, c, order));
  }

  /** The ids that the run's Create calls wrote to disk, in order. */
  ghost function Issued(d: Disk, run: seq<Step>): seq<nat>
    requires IsRun(d, run)
    decreases |run|
  {
    if run == [] then []
    else
      (if run[0].call.Create? && run[0].cut > 0 then [Bound(d) + 1] else [])
      + Issued(After(d, run[0]), run[1..])
  }

  lemma StepKeeps(d: Disk, s: Step)
    requires WellKeyed(d.tasks) && Enabled(d, s)
    ensures WellKeyed(After(d, s).tasks)
    ensures After(d, s).mark >= d.mark && Bound(After(d, s)) >= Bound(d)
    ensures s.call.Create? && s.cut > 0 ==> Bound(After(d, s)) > Bound(d)
    ensures forall k :: k <= Bound(d) && k !in d.tasks ==> k !in After(d, s).tasks
  {
    var p := Program(d, s.call, s.order);
    ProgramIsGuarded(d, s.call, s.order);
    GuardedPrefix(d, p, s.cut);
    GuardedKeeps(d, p[..s.cut]);
    EffectsKeepKeys(d, p[..s.cut]);
    if s.call.Create? && s.cut > 0 {
      assert p[..s.cut] == p;
      SingleGuarded(d, p[0]);
      assert Bound(d) + 1 in After(d, s).tasks.Keys;
    }
  }

  /**
   Over every run, interrupted anywhere: the ids handed out strictly increase, lie above
   everything the directory knew at the start and at or below everything it knows at the
   end; the high-water mark never falls; and an id that is gone never comes back.
   */
  lemma {:induction false} IdsAreNeverReused(d: Disk, run: seq<Step>)
    requires WellKeyed(d.tasks) && IsRun(d, run)
    ensures WellKeyed(End(d, run).tasks)
    ensures forall i, j :: 0 <= i < j < |Issued(d, run)| ==> Issued(d, run)[i] < Issued(d, run)[j]
    ensures forall k :: k in Issued(d, run) ==> Bound(d) < k <= Bound(End(d, run))
    ensures End(d, run).mark >= d.mark && Bound(End(d, run)) >= Bound(d)
    ensures forall k :: k <= Bound(d) && k !in d.tasks ==> k !in End(d, run).tasks
    decreases |run|
  {
    hide Bound, After, WellKeyed, Enabled;
    if run != [] {
      StepKeeps(d, run[0]);
      IdsAreNeverReused(After(d, run[0]), run[1..]);
      var rest := Issued(After(d, run[0]), run[1..]);
      assert forall i :: 0 <= i < |rest| ==> rest[i] in rest;
    }
  }
}
