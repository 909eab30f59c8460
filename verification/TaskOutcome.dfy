/**
 What an uninterrupted store operation does to the directory as a whole, said without
 mentioning the order in which files are listed or written.
 */
module TaskOutcome {
  import opened TaskModel

  /** The last copy of task `k` that UpdateWithDependencies writes. */
  function Updated(d: Disk, c: Call, k: nat): Task
    requires c.UpdateWithDependencies? && k in d.tasks
  {
    var t := d.tasks[k];
    if k in c.addBlockedBy && c.id !in t.blocks then WithBlocked(t, c.id)
    else if k in c.addBlocks && c.id !in t.blockedBy then WithBlocker(t, c.id)
    else if k == c.id then ApplyUpdates(t, c.updates)
    else t
  }

  /** The last copy of task `k` that BlockTask writes. */
  function Linked(d: Disk, fromId: nat, toId: nat, k: nat): Task
    requires k in d.tasks
  {
    var t := d.tasks[k];
    if k == toId && fromId !in t.blockedBy then WithBlocker(t, fromId)
    else if k == fromId && toId !in t.blocks then WithBlocked(t, toId)
    else t
  }

  function Released(t: Task, agent: string): Task {
    if HeldBy(t, agent) then t.(owner := "", status := Pending) else t
  }

  function MaxMark(mark: nat, v: nat): nat {
    if v > mark then v else mark
  }

  ghost function Outcome(d: Disk, c: Call): Disk {
    match c
    case Create(data) => d.(tasks := d.tasks[Bound(d) + 1 := FreshTask(Bound(d) + 1, data)])
    case UpdateWithDependencies(id, _, addBlocks, addBlockedBy) =>
      if TargetsExist(d, id, addBlocks, addBlockedBy) then
        d.(tasks := map k | k in d.tasks :: Updated(d, c, k))
      else d
    case Delete(id) =>
      Disk(if id in d.tasks then map k | k in d.tasks && k != id :: Unlink(d.tasks[k], id) else d.tasks,
           MaxMark(d.mark, id))
    case BlockTask(fromId, toId) =>
      if fromId in d.tasks && toId in d.tasks then
        d.(tasks := map k | k in d.tasks :: Linked(d, fromId, toId, k))
      else d
    case ClaimTask(id, agent, checkBusy) =>
      if Claimable(d.tasks, id, agent, checkBusy) then
        d.(tasks := d.tasks[id := d.tasks[id].(owner := agent)])
      else d
    case ResetTaskList => Disk(map[], MaxMark(d.mark, Highest(d.tasks.Keys)))
    case UnassignTeammateTasks(agent) => d.(tasks := map k | k in d.tasks :: Released(d.tasks[k], agent))
  }

  // ------------------------------------------------- what each list of effects amounts to

  function BlockedCopy(d: Disk, base: Disk, id: nat, targets: seq<nat>, k: nat): Task
    requires k in d.tasks && k in base.tasks
  {
    var t := d.tasks[k];
    if k in targets && id !in t.blockedBy then WithBlocker(t, id) else base.tasks[k]
  }

  function BlockerCopy(d: Disk, base: Disk, id: nat, targets: seq<nat>, k: nat): Task
    requires k in d.tasks && k in base.tasks
  {
    var t := d.tasks[k];
    if k in targets && id !in t.blocks then WithBlocked(t, id) else base.tasks[k]
  }

  lemma BlockedByWrittenLast(d: Disk, base: Disk, id: nat, targets: seq<nat>, x: nat)
    requires (forall k :: k in targets ==> k in d.tasks) && x in d.tasks
    ensures var mid := ApplyAll(base, BlockedByWrites(d, id, targets));
            ApplyAll(base, BlockedByWrites(d, id, targets + [x])) ==
            if id in d.tasks[x].blockedBy then mid else Apply(mid, WriteTask(WithBlocker(d.tasks[x], id)))
  {
    assert (targets + [x])[..|targets|] == targets;
    var before := BlockedByWrites(d, id, targets);
    ApplyAllSnoc(base, before, WriteTask(WithBlocker(d.tasks[x], id)));
    assert before + [] == before;
  }

  lemma BlockedCopyNext(d: Disk, base: Disk, id: nat, rest: seq<nat>, x: nat, k: nat)
    requires x in d.tasks && k in d.tasks && x in base.tasks && k in base.tasks
    ensures k != x ==> BlockedCopy(d, base, id, rest + [x], k) == BlockedCopy(d, base, id, rest, k)
    ensures BlockedCopy(d, base, id, rest + [x], x) ==
            if id in d.tasks[x].blockedBy then base.tasks[x] else WithBlocker(d.tasks[x], id)
  {
  }

  lemma {:induction false} BlockedByWritten(d: Disk, base: Disk, id: nat, targets: seq<nat>)
    requires WellKeyed(d.tasks) && (forall k :: k in targets ==> k in d.tasks)
    requires base.tasks.Keys == d.tasks.Keys
    ensures var r := ApplyAll(base, BlockedByWrites(d, id, targets));
            && r.mark == base.mark && r.tasks.Keys == d.tasks.Keys
            && forall k :: k in r.tasks ==> r.tasks[k] == BlockedCopy(d, base, id, targets, k)
  {
    assert targets == [] ==> ApplyAll(base, BlockedByWrites(d, id, targets)) == base;
    hide ApplyAll, BlockedByWrites;
    if targets != [] {
      var rest, x := targets[..|targets| - 1], targets[|targets| - 1];
      assert rest + [x] == targets;
      BlockedByWritten(d, base, id, rest);
      BlockedByWrittenLast(d, base, id, rest, x);
      forall k | k in base.tasks
        ensures k != x ==> BlockedCopy(d, base, id, targets, k) == BlockedCopy(d, base, id, rest, k)
      {
        BlockedCopyNext(d, base, id, rest, x, k);
      }
      BlockedCopyNext(d, base, id, rest, x, x);
    }
  }

  lemma BlocksWrittenLast(d: Disk, base: Disk, id: nat, targets: seq<nat>, x: nat)
    requires (forall k :: k in targets ==> k in d.tasks) && x in d.tasks
    ensures var mid := ApplyAll(base, BlocksWrites(d, id, targets));
            ApplyAll(base, BlocksWrites(d, id, targets + [x])) ==
            if id in d.tasks[x].blocks then mid else Apply(mid, WriteTask(WithBlocked(d.tasks[x], id)))
  {
    assert (targets + [x])[..|targets|] == targets;
    var before := BlocksWrites(d, id, targets);
    ApplyAllSnoc(base, before, WriteTask(WithBlocked(d.tasks[x], id)));
    assert before + [] == before;
  }

  lemma BlockerCopyNext(d: Disk, base: Disk, id: nat, rest: seq<nat>, x: nat, k: nat)
    requires x in d.tasks && k in d.tasks && x in base.tasks && k in base.tasks
    ensures k != x ==> BlockerCopy(d, base, id, rest + [x], k) == BlockerCopy(d, base, id, rest, k)
    ensures BlockerCopy(d, base, id, rest + [x], x) ==
            if id in d.tasks[x].blocks then base.tasks[x] else WithBlocked(d.tasks[x], id)
  {
  }

  lemma {:induction false} BlocksWritten(d: Disk, base: Disk, id: nat, targets: seq<nat>)
    requires WellKeyed(d.tasks) && (forall k :: k in targets ==> k in d.tasks)
    requires base.tasks.Keys == d.tasks.Keys
    ensures var r := ApplyAll(base, BlocksWrites(d, id, targets));
            && r.mark == base.mark && r.tasks.Keys == d.tasks.Keys
            && forall k :: k in r.tasks ==> r.tasks[k] == BlockerCopy(d, base, id, targets, k)
  {
    assert targets == [] ==> ApplyAll(base, BlocksWrites(d, id, targets)) == base;
    hide ApplyAll, BlocksWrites;
    if targets != [] {
      var rest, x := targets[..|targets| - 1], targets[|targets| - 1];
      assert rest + [x] == targets;
      BlocksWritten(d, base, id, rest);
      BlocksWrittenLast(d, base, id, rest, x);
      forall k | k in base.tasks
        ensures k != x ==> BlockerCopy(d, base, id, targets, k) == BlockerCopy(d, base, id, rest, k)
      {
        BlockerCopyNext(d, base, id, rest, x, k);
      }
      BlockerCopyNext(d, base, id, rest, x, x);
    }
  }

  function CleanedCopy(tasks: map<nat, Task>, id: nat, order: seq<nat>, k: nat): Task
    requires k in tasks
  {
    if k in order then Unlink(tasks[k], id) else tasks[k]
  }

  lemma CleanupWrittenLast(base: Disk, id: nat, order: seq<nat>, k: nat)
    requires k in base.tasks
    ensures ApplyAll(base, CleanupWrites(base.tasks, id, order + [k])) ==
            var mid := ApplyAll(base, CleanupWrites(base.tasks, id, order));
            if Mentions(base.tasks[k], id) then Apply(mid, WriteTask(Unlink(base.tasks[k], id))) else mid
  {
    assert (order + [k])[..|order|] == order;
    var before := CleanupWrites(base.tasks, id, order);
    ApplyAllSnoc(base, before, WriteTask(Unlink(base.tasks[k], id)));
    assert before + [] == before;
  }

  lemma CleanedCopyNext(base: Disk, id: nat, rest: seq<nat>, x: nat, k: nat)
    requires x in base.tasks && k in base.tasks
    ensures k != x ==> CleanedCopy(base.tasks, id, rest + [x], k) == CleanedCopy(base.tasks, id, rest, k)
    ensures CleanedCopy(base.tasks, id, rest + [x], x) == Unlink(base.tasks[x], id)
    ensures !Mentions(base.tasks[x], id) ==> Unlink(base.tasks[x], id) == base.tasks[x]
  {
    RemovedId(base.tasks[x].blocks, id);
    RemovedId(base.tasks[x].blockedBy, id);
  }

  lemma {:induction false} CleanupWritten(base: Disk, id: nat, order: seq<nat>)
    requires WellKeyed(base.tasks) && (forall k :: k in order ==> k in base.tasks)
    ensures var r := ApplyAll(base, CleanupWrites(base.tasks, id, order));
            && r.mark == base.mark && r.tasks.Keys == base.tasks.Keys
            && forall k :: k in r.tasks ==> r.tasks[k] == CleanedCopy(base.tasks, id, order, k)
  {
    assert order == [] ==> ApplyAll(base, CleanupWrites(base.tasks, id, order)) == base;
    hide ApplyAll, CleanupWrites, Mentions, Unlink;
    if order != [] {
      var rest, x := order[..|order| - 1], order[|order| - 1];
      assert rest + [x] == order;
      CleanupWritten(base, id, rest);
      CleanupWrittenLast(base, id, rest, x);
      forall k | k in base.tasks
        ensures k != x ==> CleanedCopy(base.tasks, id, order, k) == CleanedCopy(base.tasks, id, rest, k)
      {
        CleanedCopyNext(base, id, rest, x, k);
      }
      CleanedCopyNext(base, id, rest, x, x);
    }
  }

  function ReleasedCopy(tasks: map<nat, Task>, agent: string, order: seq<nat>, k: nat): Task
    requires k in tasks
  {
    if k in order then Released(tasks[k], agent) else tasks[k]
  }

  lemma UnassignWrittenLast(base: Disk, agent: string, order: seq<nat>, k: nat)
    requires k in base.tasks
    ensures ApplyAll(base, UnassignWrites(base.tasks, agent, order + [k])) ==
            var mid := ApplyAll(base, UnassignWrites(base.tasks, agent, order));
            if HeldBy(base.tasks[k], agent) then Apply(mid, WriteTask(Released(base.tasks[k], agent))) else mid
  {
    assert (order + [k])[..|order|] == order;
    var before := UnassignWrites(base.tasks, agent, order);
    ApplyAllSnoc(base, before, WriteTask(Released(base.tasks[k], agent)));
    assert before + [] == before;
  }

  lemma ReleasedCopyNext(base: Disk, agent: string, rest: seq<nat>, x: nat, k: nat)
    requires x in base.tasks && k in base.tasks
    ensures k != x ==> ReleasedCopy(base.tasks, agent, rest + [x], k) == ReleasedCopy(base.tasks, agent, rest, k)
    ensures ReleasedCopy(base.tasks, agent, rest + [x], x) == Released(base.tasks[x], agent)
    ensures !HeldBy(base.tasks[x], agent) ==> Released(base.tasks[x], agent) == base.tasks[x]
  {
  }

  lemma {:induction false} UnassignWritten(base: Disk, agent: string, order: seq<nat>)
    requires WellKeyed(base.tasks) && (forall k :: k in order ==> k in base.tasks)
    ensures var r := ApplyAll(base, UnassignWrites(base.tasks, agent, order));
            && r.mark == base.mark && r.tasks.Keys == base.tasks.Keys
            && forall k :: k in r.tasks ==> r.tasks[k] == ReleasedCopy(base.tasks, agent, order, k)
  {
    assert order == [] ==> ApplyAll(base, UnassignWrites(base.tasks, agent, order)) == base;
    hide ApplyAll, UnassignWrites, HeldBy, Released;
    if order != [] {
      var rest, x := order[..|order| - 1], order[|order| - 1];
      assert rest + [x] == order;
      UnassignWritten(base, agent, rest);
      UnassignWrittenLast(base, agent, rest, x);
      forall k | k in base.tasks
        ensures k != x ==> ReleasedCopy(base.tasks, agent, order, k) == ReleasedCopy(base.tasks, agent, rest, k)
      {
        ReleasedCopyNext(base, agent, rest, x, k);
      }
      ReleasedCopyNext(base, agent, rest, x, x);
    }
  }

  lemma {:induction false} Removed(base: Disk, order: seq<nat>)
    ensures ApplyAll(base, RemoveAll(order)) == base.(tasks := base.tasks - (set k | k in order))
  {
    if order != [] {
      var n := |order| - 1;
      Removed(base, order[..n]);
      ApplyAllSnoc(base, RemoveAll(order[..n]), RemoveTask(order[n]));
      assert order == order[..n] + [order[n]];
      assert (set k | k in order) == (set k | k in order[..n]) + {order[n]};
    }
  }

  lemma Single(d: Disk, e: Effect)
    ensures ApplyAll(d, [e]) == Apply(d, e)
  {
    assert [e][..0] == [];
  }

  /** The three groups of writes of an update, one after the other. */
  lemma UpdateSequence(d: Disk, id: nat, u: Updates, addBlocks: seq<nat>, addBlockedBy: seq<nat>)
    requires TargetsExist(d, id, addBlocks, addBlockedBy)
    ensures var d1 := Apply(d, WriteTask(ApplyUpdates(d.tasks[id], u)));
            var d2 := ApplyAll(d1, BlockedByWrites(d, id, addBlocks));
            ApplyAll(d, UpdateProgram(d, id, u, addBlocks, addBlockedBy))
            == ApplyAll(d2, BlocksWrites(d, id, addBlockedBy))
  {
    var own := WriteTask(ApplyUpdates(d.tasks[id], u));
    Single(d, own);
    ApplyAllConcat(d, [own], BlockedByWrites(d, id, addBlocks));
    ApplyAllConcat(d, [own] + BlockedByWrites(d, id, addBlocks), BlocksWrites(d, id, addBlockedBy));
  }

  lemma UpdateOutcome(d: Disk, c: Call)
    requires WellKeyed(d.tasks) && c.UpdateWithDependencies?
    ensures ApplyAll(d, UpdateProgram(d, c.id, c.updates, c.addBlocks, c.addBlockedBy)) == Outcome(d, c)
  {
    if TargetsExist(d, c.id, c.addBlocks, c.addBlockedBy) {
      var d1 := Apply(d, WriteTask(ApplyUpdates(d.tasks[c.id], c.updates)));
      var d2 := ApplyAll(d1, BlockedByWrites(d, c.id, c.addBlocks));
      var d3 := ApplyAll(d2, BlocksWrites(d, c.id, c.addBlockedBy));
      UpdateSequence(d, c.id, c.updates, c.addBlocks, c.addBlockedBy);
      BlockedByWritten(d, d1, c.id, c.addBlocks);
      BlocksWritten(d, d2, c.id, c.addBlockedBy);
      UpdatedIsOutcome(d, c, d1, d2, d3);
    }
  }

  lemma LastCopy(d: Disk, c: Call, d1: Disk, d2: Disk, k: nat)
    requires WellKeyed(d.tasks) && c.UpdateWithDependencies? && c.id in d.tasks && k in d.tasks
    requires d1 == Apply(d, WriteTask(ApplyUpdates(d.tasks[c.id], c.updates)))
    requires k in d2.tasks && d2.tasks[k] == BlockedCopy(d, d1, c.id, c.addBlocks, k)
    ensures BlockerCopy(d, d2, c.id, c.addBlockedBy, k) == Updated(d, c, k)
  {
  }

  lemma UpdatedIsOutcome(d: Disk, c: Call, d1: Disk, d2: Disk, d3: Disk)
    requires WellKeyed(d.tasks) && c.UpdateWithDependencies?
    requires TargetsExist(d, c.id, c.addBlocks, c.addBlockedBy)
    requires d1 == Apply(d, WriteTask(ApplyUpdates(d.tasks[c.id], c.updates)))
    requires d2.mark == d1.mark && d2.tasks.Keys == d.tasks.Keys
    requires forall k :: k in d2.tasks ==> d2.tasks[k] == BlockedCopy(d, d1, c.id, c.addBlocks, k)
    requires d3.mark == d2.mark && d3.tasks.Keys == d.tasks.Keys
    requires forall k :: k in d3.tasks ==> d3.tasks[k] == BlockerCopy(d, d2, c.id, c.addBlockedBy, k)
    ensures d3 == Outcome(d, c)
  {
    hide Updated, BlockedCopy, BlockerCopy, ApplyUpdates;
    forall k | k in d.tasks
      ensures d3.tasks[k] == Updated(d, c, k)
    {
      assert d2.tasks[k] == BlockedCopy(d, d1, c.id, c.addBlocks, k);
      LastCopy(d, c, d1, d2, k);
    }
    assert d3.tasks == Outcome(d, c).tasks;
  }

  lemma RaiseMark(d: Disk, h: nat)
    ensures ApplyAll(d, RaiseProgram(d, h)) == d.(mark := MaxMark(d.mark, h))
  {
    if h > d.mark { Single(d, WriteMark(h)); }
  }

  /** The writes and the remove of a deletion, one after the other. */
  lemma DeleteSequence(d: Disk, id: nat, order: seq<nat>)
    requires id in d.tasks && Lists(order, d.tasks.Keys - {id})
    ensures var d2 := Disk(d.tasks - {id}, MaxMark(d.mark, id));
            ApplyAll(d, DeleteProgram(d, id, order)) == ApplyAll(d2, CleanupWrites(d2.tasks, id, order))
  {
    var raise := RaiseProgram(d, id);
    var d1 := d.(mark := MaxMark(d.mark, id));
    var cleanup := CleanupWrites(d.tasks - {id}, id, order);
    RaiseMark(d, id);
    Single(d1, RemoveTask(id));
    ApplyAllConcat(d1, [RemoveTask(id)], cleanup);
    ApplyAllConcat(d, raise, [RemoveTask(id)] + cleanup);
  }

  lemma DeleteOutcome(d: Disk, id: nat, order: seq<nat>)
    requires WellKeyed(d.tasks) && Lists(order, d.tasks.Keys - {id})
    ensures ApplyAll(d, DeleteProgram(d, id, order)) == Outcome(d, Delete(id))
  {
    if id in d.tasks {
      var d2 := Disk(d.tasks - {id}, MaxMark(d.mark, id));
      DeleteSequence(d, id, order);
      CleanupWritten(d2, id, order);
      UnlinkedIsOutcome(d, d2, ApplyAll(d2, CleanupWrites(d2.tasks, id, order)), id);
    } else {
      RaiseMark(d, id);
      assert DeleteProgram(d, id, order) == RaiseProgram(d, id);
    }
  }

  lemma UnlinkedIsOutcome(d: Disk, d2: Disk, end: Disk, id: nat)
    requires id in d.tasks && d2 == Disk(d.tasks - {id}, MaxMark(d.mark, id))
    requires end.mark == d2.mark && end.tasks.Keys == d2.tasks.Keys
    requires forall k :: k in end.tasks ==> end.tasks[k] == Unlink(d2.tasks[k], id)
    ensures end == Outcome(d, Delete(id))
  {
    assert end.tasks == Outcome(d, Delete(id)).tasks;
  }

  lemma ResetTo(d: Disk, h: nat, order: seq<nat>)
    requires Lists(order, d.tasks.Keys)
    ensures ApplyAll(d, RaiseProgram(d, h) + RemoveAll(order))
            == Disk(map[], MaxMark(d.mark, h))
  {
    RaiseMark(d, h);
    ApplyAllConcat(d, RaiseProgram(d, h), RemoveAll(order));
    Removed(d.(mark := MaxMark(d.mark, h)), order);
    var gone := set k | k in order;
    assert gone == d.tasks.Keys;
    assert d.tasks - gone == map[];
  }

  lemma ResetOutcome(d: Disk, order: seq<nat>)
    requires Lists(order, d.tasks.Keys)
    ensures ApplyAll(d, ResetProgram(d, order)) == Outcome(d, ResetTaskList)
  {
    hide ApplyAll, Highest;
    ResetTo(d, Highest(d.tasks.Keys), order);
  }

  /** The two optional writes of BlockTask, one after the other. */
  lemma BlockSequence(d: Disk, fromId: nat, toId: nat)
    requires fromId in d.tasks && toId in d.tasks
    ensures var source := d.tasks[fromId];
            var target := d.tasks[toId];
            var d1 := if toId in source.blocks then d else Apply(d, WriteTask(WithBlocked(source, toId)));
            ApplyAll(d, BlockProgram(d, fromId, toId)) ==
            if fromId in target.blockedBy then d1
            else Apply(d1, WriteTask(WithBlocker(target, fromId)))
  {
    var source, target := d.tasks[fromId], d.tasks[toId];
    var first := WriteTask(WithBlocked(source, toId));
    var second := WriteTask(WithBlocker(target, fromId));
    Single(d, first);
    Single(d, second);
    ApplyAllSnoc(d, [first], second);
    assert [first] + [] == [first] && [] + [second] == [second];
  }

  lemma BlockOutcome(d: Disk, fromId: nat, toId: nat)
    requires WellKeyed(d.tasks)
    ensures ApplyAll(d, BlockProgram(d, fromId, toId)) == Outcome(d, BlockTask(fromId, toId))
  {
    if fromId in d.tasks && toId in d.tasks {
      BlockSequence(d, fromId, toId);
      LinkedIsOutcome(d, fromId, toId);
    }
  }

  lemma LinkedIsOutcome(d: Disk, fromId: nat, toId: nat)
    requires WellKeyed(d.tasks) && fromId in d.tasks && toId in d.tasks
    ensures var source := d.tasks[fromId];
            var target := d.tasks[toId];
            var d1 := if toId in source.blocks then d else Apply(d, WriteTask(WithBlocked(source, toId)));
            (if fromId in target.blockedBy then d1
             else Apply(d1, WriteTask(WithBlocker(target, fromId))))
            == Outcome(d, BlockTask(fromId, toId))
  {
  }

  lemma UnassignOutcome(d: Disk, agent: string, order: seq<nat>)
    requires WellKeyed(d.tasks) && Lists(order, d.tasks.Keys)
    ensures ApplyAll(d, UnassignWrites(d.tasks, agent, order)) == Outcome(d, UnassignTeammateTasks(agent))
  {
    hide ApplyAll, UnassignWrites, Released;
    UnassignWritten(d, agent, order);
  }

  /** An uninterrupted call has this outcome whatever order the directory is listed in. */
  lemma CompleteCallOutcome(d: Disk, c: Call, order: seq<nat>)
    requires WellKeyed(d.tasks) && Lists(order, Scanned(d, c))
    ensures ApplyAll(d, Program(d, c, order)) == Outcome(d, c)
  {
    match c
    case Create(data) => Single(d, WriteTask(FreshTask(Bound(d) + 1, data)));
    case UpdateWithDependencies(_, _, _, _) => UpdateOutcome(d, c);
    case Delete(id) => DeleteOutcome(d, id, order);
    case BlockTask(fromId, toId) => BlockOutcome(d, fromId, toId);
    case ClaimTask(id, agent, checkBusy) =>
      if Claimable(d.tasks, id, agent, checkBusy) { Single(d, WriteTask(d.tasks[id].(owner := agent))); }
    case ResetTaskList => ResetOutcome(d, order);
    case UnassignTeammateTasks(agent) => UnassignOutcome(d, agent, order);
  }
}
