/**
 The dependency graph that the task files hold twice, as `blocks` and as `blockedBy`.  The
 two halves live in different files, are read as separate copies and are written one after
 the other; this module says exactly which calls leave them agreeing.
 */
module TaskGraph {
  import opened Wrappers
  import opened TaskModel
  import opened TaskOutcome

  predicate Edge(tasks: map<nat, Task>, a: nat, b: nat) {
    a in tasks && b in tasks[a].blocks
  }

  predicate BackEdge(tasks: map<nat, Task>, a: nat, b: nat) {
    b in tasks && a in tasks[b].blockedBy
  }

  ghost predicate NoDuplicates(ids: seq<nat>) {
    forall i, j :: 0 <= i < j < |ids| ==> ids[i] != ids[j]
  }

  /** Symmetric, without dangling ids (an edge needs both files), and without duplicates. */
  ghost predicate GraphOk(tasks: map<nat, Task>) {
    && (forall a, b :: Edge(tasks, a, b) <==> BackEdge(tasks, a, b))
    && (forall k :: k in tasks ==> NoDuplicates(tasks[k].blocks) && NoDuplicates(tasks[k].blockedBy))
  }

  /**
   The calls that keep the graph, as a condition on the directory and the arguments.
   BlockTask must not link a task to itself unless it already is; an update must name in
   `blocks` and `blockedBy` exactly the old and the added neighbours, must not ask for a new
   edge to the task itself, and a task that is asked for in both directions keeps only one.
   */
  ghost predicate KeepsGraph(d: Disk, c: Call) {
    match c
    case BlockTask(fromId, toId) =>
      fromId == toId && fromId in d.tasks ==> fromId in d.tasks[fromId].blocks
    case UpdateWithDependencies(id, u, addBlocks, addBlockedBy) =>
      TargetsExist(d, id, addBlocks, addBlockedBy) ==>
        var t := d.tasks[id];
        ListsNeighbours(t, u.blocks.GetOr(t.blocks), u.blockedBy.GetOr(t.blockedBy), addBlocks, addBlockedBy)
    case _ => true
  }

  ghost predicate ListsNeighbours(t: Task, blocks: seq<nat>, blockedBy: seq<nat>, addBlocks: seq<nat>,
        addBlockedBy: seq<nat>) {
    && (t.id in addBlocks ==> t.id in t.blockedBy)
    && (t.id in addBlockedBy ==> t.id in t.blocks)
    && NoDuplicates(blocks) && NoDuplicates(blockedBy)
    && (t.id in blocks <==> t.id in blockedBy)
    && (forall k :: k != t.id ==>
          (k in blocks <==> k in t.blocks || (k in addBlocks && (k in addBlockedBy ==> k in t.blockedBy))))
    && (forall k :: k != t.id ==> (k in blockedBy <==> k in t.blockedBy || k in addBlockedBy))
  }

  lemma {:induction false} RemovalKeepsDistinct(ids: seq<nat>, id: nat)
    requires NoDuplicates(ids)
    ensures NoDuplicates(RemoveId(ids, id))
  {
    if ids != [] {
      var n := |ids| - 1;
      RemovalKeepsDistinct(ids[..n], id);
      RemovedId(ids[..n], id);
      assert ids[n] !in ids[..n];
    }
  }

  lemma CreateKeepsGraph(d: Disk, data: NewTask)
    requires GraphOk(d.tasks)
    ensures GraphOk(Outcome(d, Create(data)).tasks)
  {
    var next := Bound(d) + 1;
    var tasks' := Outcome(d, Create(data)).tasks;
    assert next !in d.tasks.Keys;
    forall a, b
      ensures Edge(tasks', a, b) <==> BackEdge(tasks', a, b)
    {
      assert Edge(d.tasks, a, b) <==> BackEdge(d.tasks, a, b);
    }
  }

  lemma UnlinkedEdges(t: Task, id: nat)
    ensures forall k :: k in Unlink(t, id).blocks <==> k in t.blocks && k != id
    ensures forall k :: k in Unlink(t, id).blockedBy <==> k in t.blockedBy && k != id
  {
    RemovedId(t.blocks, id);
    RemovedId(t.blockedBy, id);
  }

  lemma DeleteKeepsGraph(d: Disk, id: nat)
    requires GraphOk(d.tasks)
    ensures GraphOk(Outcome(d, Delete(id)).tasks)
  {
    var tasks' := Outcome(d, Delete(id)).tasks;
    if id in d.tasks {
      forall a, b
        ensures Edge(tasks', a, b) <==> BackEdge(tasks', a, b)
      {
        assert Edge(d.tasks, a, b) <==> BackEdge(d.tasks, a, b);
        if a in d.tasks { UnlinkedEdges(d.tasks[a], id); }
        if b in d.tasks { UnlinkedEdges(d.tasks[b], id); }
      }
      forall k | k in tasks'
        ensures NoDuplicates(tasks'[k].blocks) && NoDuplicates(tasks'[k].blockedBy)
      {
        RemovalKeepsDistinct(d.tasks[k].blocks, id);
        RemovalKeepsDistinct(d.tasks[k].blockedBy, id);
      }
    }
  }

  /** Calls that touch only owners and statuses. */
  lemma OwnershipKeepsGraph(d: Disk, c: Call)
    requires GraphOk(d.tasks) && (c.ClaimTask? || c.UnassignTeammateTasks?)
    ensures GraphOk(Outcome(d, c).tasks)
  {
    var tasks' := Outcome(d, c).tasks;
    assert forall k :: k in tasks' <==> k in d.tasks;
    assert forall k :: k in tasks' ==>
        tasks'[k].blocks == d.tasks[k].blocks && tasks'[k].blockedBy == d.tasks[k].blockedBy;
    forall a, b
      ensures Edge(tasks', a, b) <==> BackEdge(tasks', a, b)
    {
      assert Edge(d.tasks, a, b) <==> BackEdge(d.tasks, a, b);
    }
  }

  lemma BlockKeepsGraphIff(d: Disk, fromId: nat, toId: nat)
    requires GraphOk(d.tasks)
    ensures GraphOk(Outcome(d, BlockTask(fromId, toId)).tasks) <==> KeepsGraph(d, BlockTask(fromId, toId))
  {
    var tasks' := Outcome(d, BlockTask(fromId, toId)).tasks;
    if fromId in d.tasks && toId in d.tasks {
      assert Edge(d.tasks, fromId, toId) <==> BackEdge(d.tasks, fromId, toId);
      if KeepsGraph(d, BlockTask(fromId, toId)) {
        forall a, b
          ensures Edge(tasks', a, b) <==> BackEdge(tasks', a, b)
        {
          assert Edge(d.tasks, a, b) <==> BackEdge(d.tasks, a, b);
        }
      } else {
        assert BackEdge(tasks', fromId, toId) && !Edge(tasks', fromId, toId);
      }
    }
  }

  lemma UpdateEdge(d: Disk, c: Call, a: nat, b: nat)
    requires WellKeyed(d.tasks) && GraphOk(d.tasks)
    requires c.UpdateWithDependencies? && TargetsExist(d, c.id, c.addBlocks, c.addBlockedBy)
    requires KeepsGraph(d, c)
    ensures Edge(Outcome(d, c).tasks, a, b) <==> BackEdge(Outcome(d, c).tasks, a, b)
  {
    var tasks' := Outcome(d, c).tasks;
    assert a in d.tasks ==> tasks'[a] == Updated(d, c, a);
    assert b in d.tasks ==> tasks'[b] == Updated(d, c, b);
    assert Edge(d.tasks, a, b) <==> BackEdge(d.tasks, a, b);
    if a == c.id && b != c.id {
      assert Edge(d.tasks, b, a) <==> BackEdge(d.tasks, b, a);
    }
  }

  lemma UpdatedStayDistinct(d: Disk, c: Call, k: nat)
    requires WellKeyed(d.tasks) && GraphOk(d.tasks) && k in d.tasks
    requires c.UpdateWithDependencies? && TargetsExist(d, c.id, c.addBlocks, c.addBlockedBy)
    requires KeepsGraph(d, c)
    ensures NoDuplicates(Updated(d, c, k).blocks) && NoDuplicates(Updated(d, c, k).blockedBy)
  {
  }

  lemma UpdateEdges(d: Disk, c: Call)
    requires WellKeyed(d.tasks) && GraphOk(d.tasks)
    requires c.UpdateWithDependencies? && TargetsExist(d, c.id, c.addBlocks, c.addBlockedBy)
    requires KeepsGraph(d, c)
    ensures GraphOk(Outcome(d, c).tasks)
  {
    var tasks' := Outcome(d, c).tasks;
    forall a, b
      ensures Edge(tasks', a, b) <==> BackEdge(tasks', a, b)
    {
      UpdateEdge(d, c, a, b);
    }
    forall k | k in tasks'
      ensures NoDuplicates(tasks'[k].blocks) && NoDuplicates(tasks'[k].blockedBy)
    {
      UpdatedStayDistinct(d, c, k);
    }
  }

  lemma UpdateMustListNeighbours(d: Disk, c: Call)
    requires WellKeyed(d.tasks) && GraphOk(d.tasks)
    requires c.UpdateWithDependencies? && TargetsExist(d, c.id, c.addBlocks, c.addBlockedBy)
    requires GraphOk(Outcome(d, c).tasks)
    ensures KeepsGraph(d, c)
  {
    var tasks' := Outcome(d, c).tasks;
    var id := c.id;
    var t := d.tasks[id];
    assert forall k :: k in d.tasks ==> tasks'[k] == Updated(d, c, k);
    assert Edge(d.tasks, id, id) <==> BackEdge(d.tasks, id, id);
    assert Edge(tasks', id, id) <==> BackEdge(tasks', id, id);
    assert tasks'[id] == ApplyUpdates(t, c.updates);
    forall k | k != id
      ensures k in tasks'[id].blocks <==>
              k in t.blocks || (k in c.addBlocks && (k in c.addBlockedBy ==> k in t.blockedBy))
      ensures k in tasks'[id].blockedBy <==> k in t.blockedBy || k in c.addBlockedBy
    {
      assert Edge(tasks', id, k) <==> BackEdge(tasks', id, k);
      assert Edge(tasks', k, id) <==> BackEdge(tasks', k, id);
      assert Edge(d.tasks, id, k) <==> BackEdge(d.tasks, id, k);
      assert Edge(d.tasks, k, id) <==> BackEdge(d.tasks, k, id);
    }
  }

  /** On a good graph, an uninterrupted call of any kind keeps the graph if and only if KeepsGraph holds. */
  lemma CallKeepsGraphIff(d: Disk, c: Call)
    requires WellKeyed(d.tasks) && GraphOk(d.tasks)
    ensures GraphOk(Outcome(d, c).tasks) <==> KeepsGraph(d, c)
  {
    match c
    case Create(data) => CreateKeepsGraph(d, data);
    case UpdateWithDependencies(id, _, addBlocks, addBlockedBy) =>
      if TargetsExist(d, id, addBlocks, addBlockedBy) {
        if KeepsGraph(d, c) { UpdateEdges(d, c); }
        if GraphOk(Outcome(d, c).tasks) { UpdateMustListNeighbours(d, c); }
      }
    case Delete(id) => DeleteKeepsGraph(d, id);
    case BlockTask(fromId, toId) => BlockKeepsGraphIff(d, fromId, toId);
    case ClaimTask(_, _, _) => OwnershipKeepsGraph(d, c);
    case ResetTaskList =>
    case UnassignTeammateTasks(_) => OwnershipKeepsGraph(d, c);
  }

  /** An update that appends exactly the new neighbours it also asks reverse edges for. */
  ghost predicate AppendsNeighbours(d: Disk, c: Call)
    requires c.UpdateWithDependencies? && c.id in d.tasks
  {
    var t := d.tasks[c.id];
    && c.updates.blocks.GetOr(t.blocks) == t.blocks + c.addBlocks
    && c.updates.blockedBy.GetOr(t.blockedBy) == t.blockedBy + c.addBlockedBy
  }

  /** For such an update the condition is: new neighbours only, not the task itself, none in both lists. */
  lemma AppendKeepsGraphIff(d: Disk, c: Call)
    requires WellKeyed(d.tasks) && GraphOk(d.tasks)
    requires c.UpdateWithDependencies? && TargetsExist(d, c.id, c.addBlocks, c.addBlockedBy)
    requires AppendsNeighbours(d, c)
    ensures var t := d.tasks[c.id];
            GraphOk(Outcome(d, c).tasks) <==>
              && NoDuplicates(t.blocks + c.addBlocks) && NoDuplicates(t.blockedBy + c.addBlockedBy)
              && c.id !in c.addBlocks && c.id !in c.addBlockedBy
              && (forall k :: k in c.addBlocks ==> k !in c.addBlockedBy)
  {
    CallKeepsGraphIff(d, c);
    var t := d.tasks[c.id];
    assert Edge(d.tasks, c.id, c.id) <==> BackEdge(d.tasks, c.id, c.id);
    var blocks, blockedBy := t.blocks + c.addBlocks, t.blockedBy + c.addBlockedBy;
    assert forall k :: k in blocks <==> k in t.blocks || k in c.addBlocks;
    assert forall k :: k in blockedBy <==> k in t.blockedBy || k in c.addBlockedBy;
    if NoDuplicates(blocks) && NoDuplicates(blockedBy) {
      AppendedIsNew(t.blocks, c.addBlocks);
      AppendedIsNew(t.blockedBy, c.addBlockedBy);
    }
  }

  lemma AppendedIsNew(ids: seq<nat>, more: seq<nat>)
    requires NoDuplicates(ids + more)
    ensures forall k :: k in more ==> k !in ids
  {
    forall k | k in more
      ensures k !in ids
    {
      var j :| 0 <= j < |more| && more[j] == k;
      assert (ids + more)[|ids| + j] == k;
      assert forall i :: 0 <= i < |ids| ==> (ids + more)[i] == ids[i];
    }
  }

  /** Every call of the run finishes and meets its condition. */
  ghost predicate CarefulRun(d: Disk, run: seq<Step>)
    decreases |run|
  {
    run == [] ||
    (Complete(d, run[0]) && KeepsGraph(d, run[0].call) && CarefulRun(After(d, run[0]), run[1..]))
  }

  /** Over every run of finished calls that meet their conditions the graph stays good. */
  lemma {:induction false} GraphHoldsThroughout(d: Disk, run: seq<Step>)
    requires WellKeyed(d.tasks) && GraphOk(d.tasks) && CarefulRun(d, run)
    ensures IsRun(d, run) && WellKeyed(End(d, run).tasks) && GraphOk(End(d, run).tasks)
    decreases |run|
  {
    if run != [] {
      var p := Program(d, run[0].call, run[0].order);
      assert p[..run[0].cut] == p;
      CompleteCallOutcome(d, run[0].call, run[0].order);
      CallKeepsGraphIff(d, run[0].call);
      OutcomeKeepsKeys(d, run[0].call);
      GraphHoldsThroughout(After(d, run[0]), run[1..]);
    }
  }

  lemma OutcomeKeepsKeys(d: Disk, c: Call)
    requires WellKeyed(d.tasks)
    ensures WellKeyed(Outcome(d, c).tasks)
  {
  }

  /** A task linked to itself: the second copy overwrites the first, and the two halves differ. */
  lemma SelfBlockBreaksGraph(t: Task)
    requires t.id == 1 && t.blocks == [] && t.blockedBy == []
    ensures var d := Disk(map[1 := t], 0);
            var after := Outcome(d, BlockTask(1, 1));
            && GraphOk(d.tasks) && !GraphOk(after.tasks)
            && after.tasks[1].blocks == [] && after.tasks[1].blockedBy == [1]
  {
    var d := Disk(map[1 := t], 0);
    assert BackEdge(Outcome(d, BlockTask(1, 1)).tasks, 1, 1);
    assert !Edge(Outcome(d, BlockTask(1, 1)).tasks, 1, 1);
  }
}
