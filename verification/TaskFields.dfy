/**
 What each operation of the task store leaves of every task, said field by field
 (internal/core/task/store.go, Create, applyUpdates, UpdateWithDependencies, Delete, BlockTask, ClaimTask,
 ResetTaskList, UnassignTeammateTasks).
 */
module TaskFields {
  import opened Wrappers
  import opened TaskModel
  import opened TaskOutcome

  /** The field stays as it was unless a value is given. */
  ghost predicate FieldIs<T>(before: T, given: Option<T>, after: T) {
    match given
    case None => after == before
    case Some(v) => after == v
  }

  /** A key set to null is gone, a given key has its value, and every other key is as before. */
  ghost predicate MetadataIs(before: map<string, string>, given: map<string, Option<string>>,
        after: map<string, string>) {
    && (forall key :: key in given && given[key] == None ==> key !in after)
    && (forall key :: key in given && given[key] != None ==> key in after && given[key] == Some(after[key]))
    && (forall key :: key !in given && key in before ==> key in after && after[key] == before[key])
    && (forall key :: key !in given && key !in before ==> key !in after)
  }

  ghost predicate FieldsAre(before: Task, u: Updates, after: Task) {
    && after.id == before.id
    && FieldIs(before.subject, u.subject, after.subject)
    && FieldIs(before.description, u.description, after.description)
    && FieldIs(before.activeForm, u.activeForm, after.activeForm)
    && FieldIs(before.owner, u.owner, after.owner)
    && FieldIs(before.status, u.status, after.status)
    && FieldIs(before.blocks, u.blocks, after.blocks)
    && FieldIs(before.blockedBy, u.blockedBy, after.blockedBy)
    && MetadataIs(before.metadata, u.metadata, after.metadata)
  }

  lemma AppliedFields(t: Task, u: Updates)
    ensures FieldsAre(t, u, ApplyUpdates(t, u))
  {
  }

  /** The task but for its two lists, which are these. */
  ghost predicate ListsAre(before: Task, blocks: seq<nat>, blockedBy: seq<nat>, after: Task) {
    after == Task(before.id, before.subject, before.description, before.activeForm, before.owner, before.status,
                  blocks, blockedBy, before.metadata)
  }

  // ---------------------------------------------------------------- what is left

  /** The new id is one above the greatest of the mark and the ids in use, and its task is as ordered and pending. */
  lemma CreateLeaves(d: Disk, data: NewTask)
    ensures var id, after := Bound(d) + 1, Outcome(d, Create(data));
            && id > d.mark && (forall k :: k in d.tasks ==> k < id) && (id - 1 == d.mark || id - 1 in d.tasks)
            && after.mark == d.mark && after.tasks.Keys == d.tasks.Keys + {id}
            && (forall k :: k in d.tasks ==> after.tasks[k] == d.tasks[k])
            && after.tasks[id] == Task(id, data.subject, data.description, data.activeForm, data.owner, Pending,
                                       [], [], data.metadata)
  {
  }

  /** The missing side of an edge is appended to a list. */
  ghost predicate Appended(before: seq<nat>, id: nat, after: seq<nat>) {
    after == if id in before then before else before + [id]
  }

  /** Nothing of an update of `t` survives: a copy of `t` that was read before it is written after it. */
  ghost predicate Overwritten(t: Task, addBlocks: seq<nat>, addBlockedBy: seq<nat>) {
    (t.id in addBlocks && t.id !in t.blockedBy) || (t.id in addBlockedBy && t.id !in t.blocks)
  }

  /** What is left of a target of an update: its edge to `id`, from the copy read first and written last. */
  ghost predicate TargetIs(before: Task, id: nat, addBlocks: seq<nat>, addBlockedBy: seq<nat>, after: Task) {
    if before.id in addBlockedBy && id !in before.blocks then
      ListsAre(before, before.blocks + [id], before.blockedBy, after)
    else if before.id in addBlocks && id !in before.blockedBy then
      ListsAre(before, before.blocks, before.blockedBy + [id], after)
    else after == before
  }

  /**
   With the task or a target missing nothing changes.  Otherwise the task is updated field by field, unless it is its
   own target and thereby overwritten with the copy read before; each target gets its edge, and no other task changes.
   */
  lemma UpdateLeaves(d: Disk, c: Call)
    requires WellKeyed(d.tasks) && c.UpdateWithDependencies?
    ensures var after := Outcome(d, c);
            if c.id !in d.tasks || (exists k :: k in c.addBlocks + c.addBlockedBy && k !in d.tasks) then after == d
            else
              && after.mark == d.mark && after.tasks.Keys == d.tasks.Keys
              && (if Overwritten(d.tasks[c.id], c.addBlocks, c.addBlockedBy) then
                    TargetIs(d.tasks[c.id], c.id, c.addBlocks, c.addBlockedBy, after.tasks[c.id])
                  else FieldsAre(d.tasks[c.id], c.updates, after.tasks[c.id]))
              && forall k :: k in d.tasks && k != c.id ==>
                   TargetIs(d.tasks[k], c.id, c.addBlocks, c.addBlockedBy, after.tasks[k])
  {
    hide ApplyUpdates, FieldsAre;
    if c.id in d.tasks { AppliedFields(d.tasks[c.id], c.updates); }
    assert forall k :: k in c.addBlocks + c.addBlockedBy <==> k in c.addBlocks || k in c.addBlockedBy;
  }

  ghost predicate PickedAt(before: seq<nat>, at: seq<nat>, after: seq<nat>) {
    && |at| == |after| && (forall i, j :: 0 <= i < j < |at| ==> at[i] < at[j])
    && forall i :: 0 <= i < |at| ==> at[i] < |before| && after[i] == before[at[i]]
  }

  /** The list without one id: every other element as often as before, and their order kept. */
  ghost predicate TakenOut(before: seq<nat>, id: nat, after: seq<nat>) {
    multiset(after) == multiset(before)[id := 0] && exists at :: PickedAt(before, at, after)
  }

  lemma {:induction false} RemovedPicks(ids: seq<nat>, id: nat) returns (at: seq<nat>)
    ensures PickedAt(ids, at, RemoveId(ids, id))
    ensures multiset(RemoveId(ids, id)) == multiset(ids)[id := 0]
  {
    if ids == [] {
      at := [];
    } else {
      var rest, last := ids[..|ids| - 1], ids[|ids| - 1];
      assert ids == rest + [last];
      at := RemovedPicks(rest, id);
      if last != id { at := at + [|rest|]; }
    }
  }

  lemma RemovedIsTakenOut(ids: seq<nat>, id: nat)
    ensures TakenOut(ids, id, RemoveId(ids, id))
  {
    var at := RemovedPicks(ids, id);
    hide RemoveId;
  }

  /** The task is gone, its id is taken out of every list and nothing else changes; the mark covers the id. */
  lemma DeleteLeaves(d: Disk, id: nat)
    ensures var after := Outcome(d, Delete(id));
            && after.mark == (if id > d.mark then id else d.mark)
            && after.tasks.Keys == d.tasks.Keys - {id}
            && (id !in d.tasks ==> after.tasks == d.tasks)
            && (id in d.tasks ==> forall k :: k in after.tasks ==>
                  && TakenOut(d.tasks[k].blocks, id, after.tasks[k].blocks)
                  && TakenOut(d.tasks[k].blockedBy, id, after.tasks[k].blockedBy)
                  && ListsAre(d.tasks[k], after.tasks[k].blocks, after.tasks[k].blockedBy, after.tasks[k]))
  {
    hide RemoveId, TakenOut;
    forall k | k in d.tasks
      ensures TakenOut(d.tasks[k].blocks, id, RemoveId(d.tasks[k].blocks, id))
      ensures TakenOut(d.tasks[k].blockedBy, id, RemoveId(d.tasks[k].blockedBy, id))
    {
      RemovedIsTakenOut(d.tasks[k].blocks, id);
      RemovedIsTakenOut(d.tasks[k].blockedBy, id);
    }
  }

  /** Both tasks get the missing side of the edge and nothing else; on one task only the second side is written. */
  lemma BlockLeaves(d: Disk, fromId: nat, toId: nat)
    requires WellKeyed(d.tasks)
    ensures var after := Outcome(d, BlockTask(fromId, toId));
            if fromId !in d.tasks || toId !in d.tasks then after == d
            else
              && after.mark == d.mark && after.tasks.Keys == d.tasks.Keys
              && (forall k :: k in d.tasks && k != fromId && k != toId ==> after.tasks[k] == d.tasks[k])
              && (fromId != toId ==>
                    && Appended(d.tasks[fromId].blocks, toId, after.tasks[fromId].blocks)
                    && Appended(d.tasks[toId].blockedBy, fromId, after.tasks[toId].blockedBy)
                    && ListsAre(d.tasks[fromId], after.tasks[fromId].blocks, d.tasks[fromId].blockedBy,
                                after.tasks[fromId])
                    && ListsAre(d.tasks[toId], d.tasks[toId].blocks, after.tasks[toId].blockedBy, after.tasks[toId]))
              && (fromId == toId ==>
                    var t, t' := d.tasks[toId], after.tasks[toId];
                    if toId !in t.blockedBy then ListsAre(t, t.blocks, t.blockedBy + [toId], t')
                    else Appended(t.blocks, toId, t'.blocks) && ListsAre(t, t'.blocks, t.blockedBy, t'))
  {
  }

  /** A claim of a task that is nobody's or the claimant's, open, and with every blocker completed, sets its owner. */
  lemma ClaimLeaves(d: Disk, id: nat, agent: string, checkBusy: bool)
    ensures var after := Outcome(d, ClaimTask(id, agent, checkBusy));
            if && id in d.tasks && (d.tasks[id].owner == "" || d.tasks[id].owner == agent)
               && d.tasks[id].status != Completed
               && (forall b :: b in d.tasks[id].blockedBy && b in d.tasks ==> d.tasks[b].status == Completed)
               && (checkBusy ==> forall k :: k in d.tasks && k != id && d.tasks[k].owner == agent ==>
                     d.tasks[k].status == Completed)
            then after == d.(tasks := d.tasks[id := d.tasks[id].(owner := agent)])
            else after == d
  {
    if id in d.tasks {
      assert forall b :: b in d.tasks[id].blockedBy ==>
          (Unresolved(d.tasks, b) <==> b in d.tasks && d.tasks[b].status != Completed);
    }
    assert Busy(d.tasks, id, agent) <==>
      exists k :: k in d.tasks && k != id && d.tasks[k].status != Completed && d.tasks[k].owner == agent;
  }

  /** No task is left, and the mark covers every id that was in use. */
  lemma ResetLeaves(d: Disk)
    ensures var after := Outcome(d, ResetTaskList);
            && after.tasks == map[] && after.mark >= d.mark && (forall k :: k in d.tasks ==> k <= after.mark)
            && (after.mark == d.mark || after.mark in d.tasks)
  {
  }

  /** The agent's unresolved tasks become unowned and pending, and nothing else changes. */
  lemma UnassignLeaves(d: Disk, agent: string)
    ensures var after := Outcome(d, UnassignTeammateTasks(agent));
            && after.mark == d.mark && after.tasks.Keys == d.tasks.Keys
            && forall k :: k in d.tasks ==>
                 after.tasks[k] == if d.tasks[k].owner == agent && d.tasks[k].status != Completed then
                                     d.tasks[k].(owner := "", status := Pending)
                                   else d.tasks[k]
  {
  }

  // ---------------------------------------------------------------- in which order

  /** Every one of these effects writes some target that lacks the edge, from the copy in `d`, and none is left out. */
  ghost predicate LinksAre(d: Disk, id: nat, targets: seq<nat>, blockedBy: bool, es: seq<Effect>) {
    && (forall e :: e in es ==>
          && e.WriteTask? && e.task.id in targets && e.task.id in d.tasks
          && var t := d.tasks[e.task.id];
             if blockedBy then id !in t.blockedBy && ListsAre(t, t.blocks, t.blockedBy + [id], e.task)
             else id !in t.blocks && ListsAre(t, t.blocks + [id], t.blockedBy, e.task))
    && (forall k ::
          && k in targets && k in d.tasks
          && id !in (if blockedBy then d.tasks[k].blockedBy else d.tasks[k].blocks)
          ==> exists e :: e in es && e.WriteTask? && e.task.id == k)
  }

  lemma {:induction false} BlockedByLinks(d: Disk, id: nat, targets: seq<nat>)
    requires WellKeyed(d.tasks) && forall k :: k in targets ==> k in d.tasks
    ensures LinksAre(d, id, targets, true, BlockedByWrites(d, id, targets))
  {
    if targets != [] {
      var rest, x := targets[..|targets| - 1], targets[|targets| - 1];
      assert targets == rest + [x];
      BlockedByLinks(d, id, rest);
      var es := BlockedByWrites(d, id, targets);
      if id !in d.tasks[x].blockedBy { assert WriteTask(WithBlocker(d.tasks[x], id)) in es; }
      assert forall e :: e in BlockedByWrites(d, id, rest) ==> e in es;
    }
  }

  lemma {:induction false} BlocksLinks(d: Disk, id: nat, targets: seq<nat>)
    requires WellKeyed(d.tasks) && forall k :: k in targets ==> k in d.tasks
    ensures LinksAre(d, id, targets, false, BlocksWrites(d, id, targets))
  {
    if targets != [] {
      var rest, x := targets[..|targets| - 1], targets[|targets| - 1];
      assert targets == rest + [x];
      BlocksLinks(d, id, rest);
      var es := BlocksWrites(d, id, targets);
      if id !in d.tasks[x].blocks { assert WriteTask(WithBlocked(d.tasks[x], id)) in es; }
      assert forall e :: e in BlocksWrites(d, id, rest) ==> e in es;
    }
  }

  /** An update writes its own task first, then the tasks it is to block, and then the tasks it is to be blocked by. */
  lemma UpdateEffects(d: Disk, id: nat, u: Updates, addBlocks: seq<nat>, addBlockedBy: seq<nat>)
    requires WellKeyed(d.tasks) && id in d.tasks
    requires forall k :: k in addBlocks + addBlockedBy ==> k in d.tasks
    ensures exists own, first, second ::
              && UpdateProgram(d, id, u, addBlocks, addBlockedBy) == [WriteTask(own)] + first + second
              && FieldsAre(d.tasks[id], u, own)
              && LinksAre(d, id, addBlocks, true, first) && LinksAre(d, id, addBlockedBy, false, second)
  {
    forall k | k in addBlocks || k in addBlockedBy
      ensures k in d.tasks
    {
      assert k in addBlocks + addBlockedBy;
    }
    BlockedByLinks(d, id, addBlocks);
    BlocksLinks(d, id, addBlockedBy);
    AppliedFields(d.tasks[id], u);
    var own, first, second :=
      ApplyUpdates(d.tasks[id], u), BlockedByWrites(d, id, addBlocks), BlocksWrites(d, id, addBlockedBy);
    hide ApplyUpdates, FieldsAre, LinksAre, BlockedByWrites, BlocksWrites;
    assert UpdateProgram(d, id, u, addBlocks, addBlockedBy) == [WriteTask(own)] + first + second;
  }

  ghost predicate RewritesOthers(d: Disk, id: nat, es: seq<Effect>) {
    forall e :: e in es ==> e.WriteTask? && e.task.id in d.tasks && e.task.id != id
  }

  /** A deletion raises the mark, then removes the file, and only then rewrites other tasks that mention it. */
  lemma DeleteEffects(d: Disk, id: nat, order: seq<nat>)
    requires WellKeyed(d.tasks) && Lists(order, d.tasks.Keys - {id})
    ensures exists rewrites :: RewritesOthers(d, id, rewrites) && DeleteProgram(d, id, order) ==
              (if id > d.mark then [WriteMark(id)] else []) +
              (if id in d.tasks then [RemoveTask(id)] + rewrites else [])
  {
    var rewrites := CleanupWrites(d.tasks - {id}, id, order);
    CleanupTargets(d.tasks - {id}, id, order);
    assert RewritesOthers(d, id, rewrites);
    assert DeleteProgram(d, id, order) ==
           (if id > d.mark then [WriteMark(id)] else [])
           + (if id in d.tasks then [RemoveTask(id)] + rewrites else []);
  }

  lemma {:induction false} CleanupTargets(tasks: map<nat, Task>, id: nat, order: seq<nat>)
    requires WellKeyed(tasks) && forall k :: k in order ==> k in tasks
    ensures forall e :: e in CleanupWrites(tasks, id, order) ==> e.WriteTask? && e.task.id in tasks
  {
    if order != [] { CleanupTargets(tasks, id, order[..|order| - 1]); }
  }

  /** A blocking edge is written first at the task that blocks, then at the task that is blocked. */
  lemma BlockEffects(d: Disk, fromId: nat, toId: nat)
    requires WellKeyed(d.tasks) && fromId in d.tasks && toId in d.tasks
    ensures exists first, second ::
              && BlockProgram(d, fromId, toId) == first + second && |first| <= 1 && |second| <= 1
              && LinksAre(d, toId, [fromId], false, first) && LinksAre(d, fromId, [toId], true, second)
  {
    var source, target := d.tasks[fromId], d.tasks[toId];
    var first := if toId in source.blocks then [] else [WriteTask(WithBlocked(source, toId))];
    var second := if fromId in target.blockedBy then [] else [WriteTask(WithBlocker(target, fromId))];
    assert toId !in source.blocks ==> first[0] in first;
    assert fromId !in target.blockedBy ==> second[0] in second;
    assert BlockProgram(d, fromId, toId) == first + second;
  }
}
