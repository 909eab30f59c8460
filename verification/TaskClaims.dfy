/**
 Ownership: an agent that only ever gets work through busy-checked claims never holds two
 unresolved tasks, whatever the other calls do and wherever a process dies.
 */
module TaskClaims {
  import opened Wrappers
  import opened TaskModel
  import opened TaskOutcome

  /** No agent owns two unresolved tasks. */
  ghost predicate Exclusive(tasks: map<nat, Task>) {
    forall a, b :: a != b && Unresolved(tasks, a) && Unresolved(tasks, b) && tasks[a].owner != "" ==>
      tasks[a].owner != tasks[b].owner
  }

  /** Tasks start unowned, owners change only by busy-checked claims and unassignment, nothing resolved is reopened. */
  ghost predicate Disciplined(d: Disk, c: Call) {
    match c
    case Create(data) => data.owner == ""
    case UpdateWithDependencies(id, u, _, _) =>
      id in d.tasks ==>
        && u.owner.GetOr(d.tasks[id].owner) == d.tasks[id].owner
        && (d.tasks[id].status == Completed ==> u.status.GetOr(Completed) == Completed)
    case ClaimTask(_, _, checkBusy) => checkBusy
    case _ => true
  }

  /** A write that gives nobody unresolved work that was not already theirs. */
  ghost predicate Tame(tasks: map<nat, Task>, e: Effect) {
    e.WriteTask? && e.task.status != Completed && e.task.owner != "" ==>
      Unresolved(tasks, e.task.id) && tasks[e.task.id].owner == e.task.owner
  }

  ghost predicate AllTame(tasks: map<nat, Task>, es: seq<Effect>) {
    forall e :: e in es ==> Tame(tasks, e)
  }

  /** Whatever is held in `after` was held by the same agent in `before`. */
  ghost predicate NothingGained(before: map<nat, Task>, after: map<nat, Task>) {
    forall k :: Unresolved(after, k) && after[k].owner != "" ==>
      Unresolved(before, k) && before[k].owner == after[k].owner
  }

  lemma {:induction false} TameGainsNothing(d: Disk, es: seq<Effect>)
    requires AllTame(d.tasks, es)
    ensures NothingGained(d.tasks, ApplyAll(d, es).tasks)
  {
    if es != [] {
      var n := |es| - 1;
      assert es[n] in es;
      TameGainsNothing(d, es[..n]);
    }
  }

  lemma {:induction false} EdgeWritesAreTame(d: Disk, id: nat, targets: seq<nat>)
    requires WellKeyed(d.tasks) && (forall k :: k in targets ==> k in d.tasks)
    ensures AllTame(d.tasks, BlockedByWrites(d, id, targets)) && AllTame(d.tasks, BlocksWrites(d, id, targets))
  {
    if targets != [] {
      EdgeWritesAreTame(d, id, targets[..|targets| - 1]);
    }
  }

  lemma {:induction false} CleanupIsTame(tasks: map<nat, Task>, id: nat, order: seq<nat>)
    requires WellKeyed(tasks) && (forall k :: k in order ==> k in tasks)
    ensures AllTame(tasks, CleanupWrites(tasks, id, order))
  {
    if order != [] {
      CleanupIsTame(tasks, id, order[..|order| - 1]);
    }
  }

  lemma {:induction false} UnassignIsTame(tasks: map<nat, Task>, agent: string, order: seq<nat>)
    requires WellKeyed(tasks) && (forall k :: k in order ==> k in tasks)
    ensures AllTame(tasks, UnassignWrites(tasks, agent, order))
  {
    if order != [] {
      UnassignIsTame(tasks, agent, order[..|order| - 1]);
    }
  }

  lemma {:induction false} RemovalIsTame(tasks: map<nat, Task>, order: seq<nat>)
    ensures AllTame(tasks, RemoveAll(order))
  {
    if order != [] {
      RemovalIsTame(tasks, order[..|order| - 1]);
    }
  }

  lemma DisciplinedProgramIsTame(d: Disk, c: Call, order: seq<nat>)
    requires WellKeyed(d.tasks) && Lists(order, Scanned(d, c))
    requires Disciplined(d, c) && !c.ClaimTask?
    ensures AllTame(d.tasks, Program(d, c, order))
  {
    match c
    case Create(_) =>
    case UpdateWithDependencies(id, _, addBlocks, addBlockedBy) =>
      if TargetsExist(d, id, addBlocks, addBlockedBy) {
        EdgeWritesAreTame(d, id, addBlocks);
        EdgeWritesAreTame(d, id, addBlockedBy);
      }
    case Delete(id) => CleanupIsTame(d.tasks - {id}, id, order);
    case BlockTask(_, _) =>
    case ResetTaskList => RemovalIsTame(d.tasks, order);
    case UnassignTeammateTasks(agent) => UnassignIsTame(d.tasks, agent, order);
  }

  /** Task `t`, put in the place of the task with its id, would give no agent a second unresolved task. */
  ghost predicate FreeToHold(tasks: map<nat, Task>, t: Task) {
    t.status != Completed && t.owner != "" ==> !Busy(tasks, t.id, t.owner)
  }

  /** What the arguments of a call must meet so that no agent ends with two unresolved tasks. */
  ghost predicate HoldsApart(d: Disk, c: Call) {
    match c
    case Create(data) => FreeToHold(d.tasks, FreshTask(Bound(d) + 1, data))
    case UpdateWithDependencies(id, _, addBlocks, addBlockedBy) =>
      TargetsExist(d, id, addBlocks, addBlockedBy) ==> FreeToHold(d.tasks, Updated(d, c, id))
    case ClaimTask(id, agent, checkBusy) =>
      Claimable(d.tasks, id, agent, checkBusy) ==> FreeToHold(d.tasks, d.tasks[id].(owner := agent))
    case _ => true
  }

  /** Every task but `id` keeps its owner and its status. */
  ghost predicate OthersHold(before: map<nat, Task>, after: map<nat, Task>, id: nat) {
    forall k :: k != id ==>
      && (k in after <==> k in before)
      && (k in after ==> after[k].owner == before[k].owner && after[k].status == before[k].status)
  }

  lemma OneChangeKeepsExclusiveIff(before: map<nat, Task>, after: map<nat, Task>, id: nat)
    requires Exclusive(before) && OthersHold(before, after, id) && id in after && after[id].id == id
    ensures Exclusive(after) <==> FreeToHold(before, after[id])
  {
    var t := after[id];
    if t.status != Completed && t.owner != "" {
      if Busy(before, id, t.owner) {
        var k :| k in before && k != id && Unresolved(before, k) && before[k].owner == t.owner;
        assert Unresolved(after, k) && Unresolved(after, id) && after[k].owner == t.owner;
      }
    }
    if FreeToHold(before, t) {
      forall a, b | a != b && Unresolved(after, a) && Unresolved(after, b) && after[a].owner != ""
        ensures after[a].owner != after[b].owner
      {
        assert a != id ==> Unresolved(before, a);
        assert b != id ==> Unresolved(before, b);
      }
    }
  }

  lemma NothingGainedKeepsExclusive(before: map<nat, Task>, after: map<nat, Task>)
    requires Exclusive(before) && NothingGained(before, after)
    ensures Exclusive(after)
  {
  }

  lemma UpdateKeepsExclusiveIff(d: Disk, c: Call)
    requires WellKeyed(d.tasks) && Exclusive(d.tasks)
    requires c.UpdateWithDependencies? && TargetsExist(d, c.id, c.addBlocks, c.addBlockedBy)
    ensures Exclusive(Outcome(d, c).tasks) <==> FreeToHold(d.tasks, Updated(d, c, c.id))
  {
    hide Exclusive, Busy, FreeToHold;
    OneChangeKeepsExclusiveIff(d.tasks, Outcome(d, c).tasks, c.id);
  }

  /** A finished call keeps every agent at one unresolved task exactly when its arguments meet that condition. */
  lemma CallKeepsExclusiveIff(d: Disk, c: Call)
    requires WellKeyed(d.tasks) && Exclusive(d.tasks)
    ensures Exclusive(Outcome(d, c).tasks) <==> HoldsApart(d, c)
  {
    hide Exclusive, Busy, Bound;
    var after := Outcome(d, c).tasks;
    match c
    case Create(data) => OneChangeKeepsExclusiveIff(d.tasks, after, Bound(d) + 1);
    case UpdateWithDependencies(id, _, addBlocks, addBlockedBy) =>
      if TargetsExist(d, id, addBlocks, addBlockedBy) {
        UpdateKeepsExclusiveIff(d, c);
      }
    case ClaimTask(id, agent, checkBusy) =>
      if Claimable(d.tasks, id, agent, checkBusy) { OneChangeKeepsExclusiveIff(d.tasks, after, id); }
    case _ => NothingGainedKeepsExclusive(d.tasks, after);
  }

  /** A claim keeps every agent at one task if and only if it fails, frees the task, or the claimant had no other. */
  lemma ClaimKeepsExclusiveIff(d: Disk, id: nat, agent: string, checkBusy: bool)
    requires WellKeyed(d.tasks) && Exclusive(d.tasks)
    ensures Exclusive(Outcome(d, ClaimTask(id, agent, checkBusy)).tasks) <==>
            (Claimable(d.tasks, id, agent, checkBusy) ==> agent == "" || !Busy(d.tasks, id, agent))
  {
    CallKeepsExclusiveIff(d, ClaimTask(id, agent, checkBusy));
    hide Exclusive, Busy;
  }

  /** A disciplined call, cut off anywhere, or a finished call that meets its condition. */
  ghost predicate Careful(d: Disk, s: Step)
    requires Enabled(d, s)
  {
    Disciplined(d, s.call) || (s.cut == |Program(d, s.call, s.order)| && HoldsApart(d, s.call))
  }

  ghost predicate CarefulRun(d: Disk, run: seq<Step>)
    decreases |run|
  {
    run == [] ||
    (Enabled(d, run[0]) && Careful(d, run[0]) && CarefulRun(After(d, run[0]), run[1..]))
  }

  lemma StepKeepsExclusive(d: Disk, s: Step)
    requires WellKeyed(d.tasks) && Exclusive(d.tasks)
    requires Enabled(d, s) && Careful(d, s)
    ensures WellKeyed(After(d, s).tasks) && Exclusive(After(d, s).tasks)
  {
    var p := Program(d, s.call, s.order);
    EffectsKeepKeys(d, p[..s.cut]);
    hide Exclusive, HoldsApart, Outcome;
    if s.cut == |p| && HoldsApart(d, s.call) {
      assert p[..s.cut] == p;
      CompleteCallOutcome(d, s.call, s.order);
      CallKeepsExclusiveIff(d, s.call);
    } else if s.call.ClaimTask? {
      InterruptedClaim(d, s);
    } else {
      DisciplinedProgramIsTame(d, s.call, s.order);
      TameGainsNothing(d, p[..s.cut]);
      NothingGainedKeepsExclusive(d.tasks, After(d, s).tasks);
    }
  }

  /** A busy-checked claim writes nothing or all of what it writes. */
  lemma InterruptedClaim(d: Disk, s: Step)
    requires WellKeyed(d.tasks) && Exclusive(d.tasks)
    requires Enabled(d, s) && s.call.ClaimTask? && s.call.checkBusy
    ensures Exclusive(After(d, s).tasks)
  {
    var p := Program(d, s.call, s.order);
    ClaimKeepsExclusiveIff(d, s.call.id, s.call.agent, true);
    CompleteCallOutcome(d, s.call, s.order);
    if s.cut == |p| { assert p[..s.cut] == p; }
  }

  /** Over every careful run, disciplined calls interrupted anywhere, each agent holds at most one unresolved task. */
  lemma {:induction false} AgentsHoldAtMostOneTask(d: Disk, run: seq<Step>)
    requires WellKeyed(d.tasks) && Exclusive(d.tasks) && CarefulRun(d, run)
    ensures IsRun(d, run) && Exclusive(End(d, run).tasks)
    decreases |run|
  {
    if run != [] {
      StepKeepsExclusive(d, run[0]);
      AgentsHoldAtMostOneTask(After(d, run[0]), run[1..]);
    }
  }

  /**
   Corollary of ClaimProgram: a claim that goes through takes nobody else's task, leaves no open blocker, and changes
   only the owner.
   */
  lemma ClaimIsSafe(d: Disk, id: nat, agent: string, checkBusy: bool)
    requires WellKeyed(d.tasks) && ClaimProgram(d, id, agent, checkBusy) != []
    ensures var after := Outcome(d, ClaimTask(id, agent, checkBusy)).tasks;
            && after.Keys == d.tasks.Keys
            && after[id] == d.tasks[id].(owner := agent)
            && (forall k :: k in after && k != id ==> after[k] == d.tasks[k])
            && (d.tasks[id].owner != "" ==> d.tasks[id].owner == agent)
            && (forall b :: b in after[id].blockedBy && b in after ==> after[b].status == Completed)
            && after[id].status != Completed
            && (checkBusy ==> forall k :: k != id && Unresolved(after, k) ==> after[k].owner != agent)
  {
    assert forall b :: b in d.tasks[id].blockedBy ==> !Unresolved(d.tasks, b);
  }
}
