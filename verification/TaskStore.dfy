/**
 FileStore of internal/core/task/store.go.  Each method runs under the store lock; its
 contract gives the exact list of file effects it performs, which is what an interruption
 cuts short, and thereby the directory it leaves when it is not interrupted.
 */
module TaskStore {
  import opened Wrappers
  import opened TaskModel
  import opened TaskOutcome
  import opened TaskFields

  datatype ClaimResult =
    | TaskNotFound
    | AlreadyClaimed(task: Task)
    | AlreadyResolved(task: Task)
    | Blocked(task: Task, blockers: seq<nat>)
    | AgentBusy(task: Task, busyWith: seq<nat>)
    | Claimed(task: Task)

  datatype UnassignedTask = UnassignedTask(id: nat, subject: string)

  /** The members of `ids` that are unresolved tasks, in order. */
  function OpenAmong(tasks: map<nat, Task>, ids: seq<nat>): (r: seq<nat>)
    ensures forall k :: k in r <==> k in ids && Unresolved(tasks, k)
  {
    if ids == [] then []
    else
      var n := |ids| - 1;
      assert ids == ids[..n] + [ids[n]];
      OpenAmong(tasks, ids[..n]) + (if Unresolved(tasks, ids[n]) then [ids[n]] else [])
  }

  /** The other unresolved tasks of the agent, in listing order. */
  function BusyAmong(tasks: map<nat, Task>, id: nat, agent: string, ids: seq<nat>): seq<nat> {
    if ids == [] then []
    else
      var n := |ids| - 1;
      BusyAmong(tasks, id, agent, ids[..n])
      + (if ids[n] != id && Unresolved(tasks, ids[n]) && tasks[ids[n]].owner == agent then [ids[n]] else [])
  }

  /** The report of UnassignTeammateTasks. */
  function ReleasedAmong(tasks: map<nat, Task>, agent: string, ids: seq<nat>): seq<UnassignedTask> {
    if ids == [] then []
    else ReleasedAmong(tasks, agent, ids[..|ids| - 1]) + Report(tasks, agent, ids[|ids| - 1])
  }

  function Report(tasks: map<nat, Task>, agent: string, k: nat): seq<UnassignedTask> {
    if k in tasks && HeldBy(tasks[k], agent) then [UnassignedTask(tasks[k].id, tasks[k].subject)] else []
  }

  /** The answer to a claim: the first obstacle in the order the checks are made. */
  ghost predicate Answers(r: ClaimResult, tasks: map<nat, Task>, id: nat, agent: string, checkBusy: bool,
        order: seq<nat>) {
    if id !in tasks then r == TaskNotFound
    else
      var t := tasks[id];
      if t.owner != "" && t.owner != agent then r == AlreadyClaimed(t)
      else if t.status == Completed then r == AlreadyResolved(t)
      else if exists b :: b in t.blockedBy && Unresolved(tasks, b) then r == Blocked(t, OpenAmong(tasks, t.blockedBy))
      else if checkBusy && Busy(tasks, id, agent) then r == AgentBusy(t, BusyAmong(tasks, id, agent, order))
      else r == Claimed(t.(owner := agent))
  }

  // ---------------------------------------------------------------- what the answers say

  predicate OpenIn(tasks: map<nat, Task>, k: nat) {
    k in tasks && tasks[k].status != Completed
  }

  /** The answer names the first thing that stands in the way, with the task as it was and all tasks concerned. */
  ghost predicate AnswerIs(r: ClaimResult, tasks: map<nat, Task>, id: nat, agent: string, checkBusy: bool) {
    if id !in tasks then r == TaskNotFound
    else
      var t := tasks[id];
      var others := t.owner != "" && t.owner != agent;
      var blocked := exists b :: b in t.blockedBy && OpenIn(tasks, b);
      var busy := checkBusy && exists k :: OpenIn(tasks, k) && tasks[k].owner == agent && k != id;
      match r
      case TaskNotFound => false
      case AlreadyClaimed(seen) => seen == t && others
      case AlreadyResolved(seen) => seen == t && !others && t.status == Completed
      case Blocked(seen, blockers) =>
        && seen == t && !others && t.status != Completed && blocked
        && forall b :: b in blockers <==> b in t.blockedBy && OpenIn(tasks, b)
      case AgentBusy(seen, busyWith) =>
        && seen == t && !others && t.status != Completed && !blocked && busy
        && forall k :: k in busyWith <==> OpenIn(tasks, k) && tasks[k].owner == agent && k != id
      case Claimed(taken) =>
        && !others && t.status != Completed && !blocked && !busy
        && taken == Task(t.id, t.subject, t.description, t.activeForm, agent, t.status, t.blocks, t.blockedBy,
                         t.metadata)
  }

  lemma BusyMembers(tasks: map<nat, Task>, id: nat, agent: string, order: seq<nat>)
    requires Lists(order, tasks.Keys)
    ensures forall k :: k in BusyAmong(tasks, id, agent, order) <==>
              OpenIn(tasks, k) && tasks[k].owner == agent && k != id
    ensures Busy(tasks, id, agent) <==> exists k :: OpenIn(tasks, k) && tasks[k].owner == agent && k != id
  {
    BusyAmongMembers(tasks, id, agent, order);
    assert forall k :: OpenIn(tasks, k) <==> Unresolved(tasks, k);
    hide BusyAmong;
    assert forall k :: OpenIn(tasks, k) ==> k in order;
  }

  lemma AnswersAre(r: ClaimResult, tasks: map<nat, Task>, id: nat, agent: string, checkBusy: bool, order: seq<nat>)
    requires Answers(r, tasks, id, agent, checkBusy, order) && Lists(order, tasks.Keys)
    ensures AnswerIs(r, tasks, id, agent, checkBusy)
  {
    assert forall k :: OpenIn(tasks, k) <==> Unresolved(tasks, k);
    BusyMembers(tasks, id, agent, order);
    hide OpenIn, Unresolved, Busy, Lists;
  }

  /** The open ones among some ids, in their order. */
  lemma OpenNext(tasks: map<nat, Task>, ids: seq<nat>, k: nat)
    ensures OpenAmong(tasks, ids + [k]) == OpenAmong(tasks, ids) + if OpenIn(tasks, k) then [k] else []
  {
    assert (ids + [k])[..|ids|] == ids;
  }

  lemma AmongOne(tasks: map<nat, Task>, id: nat, agent: string, k: nat)
    ensures OpenAmong(tasks, [k]) == if OpenIn(tasks, k) then [k] else []
    ensures BusyAmong(tasks, id, agent, [k]) ==
            if OpenIn(tasks, k) && tasks[k].owner == agent && k != id then [k] else []
    ensures ReleasedAmong(tasks, agent, [k]) ==
            if OpenIn(tasks, k) && tasks[k].owner == agent then [UnassignedTask(tasks[k].id, tasks[k].subject)] else []
  {
    assert [k][..0] == [];
  }

  lemma UnassignNext(d: Disk, agent: string, ids: seq<nat>, k: nat)
    ensures UnassignWrites(d.tasks, agent, ids + [k]) ==
            UnassignWrites(d.tasks, agent, ids) + UnassignWrite(d.tasks, agent, k)
    ensures ReleasedAmong(d.tasks, agent, ids + [k]) == ReleasedAmong(d.tasks, agent, ids) + Report(d.tasks, agent, k)
    ensures ApplyAll(d, UnassignWrites(d.tasks, agent, ids + [k])) ==
            ApplyAll(ApplyAll(d, UnassignWrites(d.tasks, agent, ids)), UnassignWrite(d.tasks, agent, k))
  {
    assert (ids + [k])[..|ids|] == ids;
    ApplyAllConcat(d, UnassignWrites(d.tasks, agent, ids), UnassignWrite(d.tasks, agent, k));
  }

  lemma UnassignNone(d: Disk, agent: string)
    ensures UnassignWrites(d.tasks, agent, []) == [] && ReleasedAmong(d.tasks, agent, []) == [] && ApplyAll(d, []) == d
  {
  }

  lemma CleanupNext(d: Disk, id: nat, ids: seq<nat>, k: nat)
    ensures CleanupWrites(d.tasks, id, ids + [k]) == CleanupWrites(d.tasks, id, ids) + CleanupWrite(d.tasks, id, k)
    ensures ApplyAll(d, CleanupWrites(d.tasks, id, ids + [k])) ==
            ApplyAll(ApplyAll(d, CleanupWrites(d.tasks, id, ids)), CleanupWrite(d.tasks, id, k))
  {
    assert (ids + [k])[..|ids|] == ids;
    ApplyAllConcat(d, CleanupWrites(d.tasks, id, ids), CleanupWrite(d.tasks, id, k));
  }

  lemma Listed(listing: seq<nat>, ids: set<nat>, i: nat)
    requires Lists(listing, ids) && i < |listing|
    ensures listing[i] in ids
  {
    assert listing[i] in listing;
  }

  lemma BusyNext(tasks: map<nat, Task>, id: nat, agent: string, ids: seq<nat>, k: nat)
    ensures BusyAmong(tasks, id, agent, []) == []
    ensures var was, now := BusyAmong(tasks, id, agent, ids), BusyAmong(tasks, id, agent, ids + [k]);
            if k != id && Unresolved(tasks, k) && tasks[k].owner == agent then now == was + [k] else now == was
  {
    assert (ids + [k])[..|ids|] == ids;
  }

  lemma {:induction false} BusyAmongMembers(tasks: map<nat, Task>, id: nat, agent: string, ids: seq<nat>)
    ensures forall k :: k in BusyAmong(tasks, id, agent, ids) <==>
              k in ids && k != id && Unresolved(tasks, k) && tasks[k].owner == agent
  {
    if ids != [] {
      var rest, last := ids[..|ids| - 1], ids[|ids| - 1];
      BusyAmongMembers(tasks, id, agent, rest);
      assert ids == rest + [last];
    }
  }

  lemma BusyAmongAll(tasks: map<nat, Task>, id: nat, agent: string, listing: seq<nat>)
    requires Lists(listing, tasks.Keys)
    ensures BusyAmong(tasks, id, agent, listing) == [] <==> !Busy(tasks, id, agent)
  {
    var busy := BusyAmong(tasks, id, agent, listing);
    BusyAmongMembers(tasks, id, agent, listing);
    assert busy != [] ==> busy[0] in busy;
    if Busy(tasks, id, agent) {
      var k :| k in tasks.Keys && k != id && Unresolved(tasks, k) && tasks[k].owner == agent;
      assert k in listing && k in busy;
    }
  }

  class FileStore {
    var tasks: map<nat, Task>
    var mark: nat
    ghost var log: seq<Effect>   // every effect so far, oldest first

    ghost function State(): Disk
      reads this
    {
      Disk(tasks, mark)
    }

    ghost predicate Valid()
      reads this
    {
      WellKeyed(tasks)
    }

    /** Since `d` and `before`, exactly the effects `p` took place. */
    ghost predicate Did(d: Disk, before: seq<Effect>, p: seq<Effect>)
      reads this
    {
      Valid() && log == before + p && State() == ApplyAll(d, p)
    }

    constructor (dir: Disk)
      requires WellKeyed(dir.tasks)
      ensures Valid() && State() == dir && log == []
    {
      tasks, mark := dir.tasks, dir.mark;
      log := [];
    }

    method WriteTaskFile(t: Task)
      requires Valid()
      modifies this
      ensures Valid() && State() == Apply(old(State()), WriteTask(t)) && log == old(log) + [WriteTask(t)]
    {
      tasks := tasks[t.id := t];
      log := log + [WriteTask(t)];
    }

    method RemoveTaskFile(id: nat)
      requires Valid()
      modifies this
      ensures Valid() && State() == Apply(old(State()), RemoveTask(id)) && log == old(log) + [RemoveTask(id)]
    {
      tasks := tasks - {id};
      log := log + [RemoveTask(id)];
    }

    method WriteHighwatermark(v: nat)
      requires Valid()
      modifies this
      ensures Valid() && State() == Apply(old(State()), WriteMark(v)) && log == old(log) + [WriteMark(v)]
    {
      mark := v;
      log := log + [WriteMark(v)];
    }

    method ReadTaskFile(id: nat) returns (t: Option<Task>)
      ensures t == if id in tasks then Some(tasks[id]) else None
    {
      t := if id in tasks then Some(tasks[id]) else None;
    }

    method ReadDir() returns (order: seq<nat>)
      ensures Lists(order, tasks.Keys)
    {
      order := [];
      var rest := tasks.Keys;
      while rest != {}
        invariant rest <= tasks.Keys
        invariant Lists(order, tasks.Keys - rest)
        decreases |rest|
      {
        var k :| k in rest;
        order, rest := order + [k], rest - {k};
      }
    }

    method FindHighestTaskID() returns (highest: nat)
      ensures highest == Highest(tasks.Keys)
    {
      var entries := ReadDir();
      highest := 0;
      for i := 0 to |entries|
        invariant forall j :: 0 <= j < i ==> entries[j] <= highest
        invariant highest == 0 || highest in entries
      {
        if entries[i] > highest { highest := entries[i]; }
      }
      assert forall k :: k in tasks.Keys ==> k in entries;
    }

    method NextID() returns (next: nat)
      ensures next == Bound(State()) + 1
    {
      var fromFiles := FindHighestTaskID();
      next := (if fromFiles > mark then fromFiles else mark) + 1;
    }

    method Create(data: NewTask) returns (id: nat)
      requires Valid()
      modifies this
      ensures id == Bound(old(State())) + 1
      ensures tasks == old(tasks)[id := Task(id, data.subject, data.description, data.activeForm, data.owner, Pending,
                                             [], [], data.metadata)]
      ensures mark == old(mark) < id && (forall k :: k in old(tasks) ==> k < id)
      ensures id - 1 == mark || id - 1 in old(tasks)
      ensures Did(old(State()), old(log), [WriteTask(FreshTask(id, data))])
      ensures State() == Outcome(old(State()), TaskModel.Create(data))
    {
      id := NextID();
      Single(State(), WriteTask(FreshTask(id, data)));
      WriteTaskFile(FreshTask(id, data));
    }

    method Update(id: nat, updates: Updates) returns (result: Option<Task>)
      requires Valid()
      modifies this
      ensures result == if id in old(tasks) then Some(ApplyUpdates(old(tasks)[id], updates)) else None
      ensures id !in old(tasks) ==> result == None && State() == old(State())
      ensures id in old(tasks) ==>
                && result.Some? && FieldsAre(old(tasks)[id], updates, result.value)
                && State() == old(State()).(tasks := old(tasks)[id := result.value])
      ensures Did(old(State()), old(log), UpdateProgram(old(State()), id, updates, [], []))
      ensures State() == Outcome(old(State()), TaskModel.Update(id, updates))
    {
      ghost var d := State();
      UpdateOutcome(d, TaskModel.Update(id, updates));
      var t := ReadTaskFile(id);
      if t.None? { return None; }
      var updated := ApplyUpdates(t.value, updates);
      AppliedFields(t.value, updates);
      Single(d, WriteTask(updated));
      WriteTaskFile(updated);
      return Some(updated);
    }

    /** Reads every target, or reports that one is missing. */
    method ReadTargets(ids: seq<nat>) returns (targets: Option<seq<Task>>)
      ensures targets.None? <==> exists k :: k in ids && k !in tasks
      ensures targets.Some? ==>
                && |targets.value| == |ids|
                && forall i :: 0 <= i < |ids| ==> targets.value[i] == tasks[ids[i]]
    {
      var read := [];
      for i := 0 to |ids|
        invariant |read| == i
        invariant forall j :: 0 <= j < i ==> ids[j] in tasks && read[j] == tasks[ids[j]]
      {
        var t := ReadTaskFile(ids[i]);
        if t.None? { return None; }
        read := read + [t.value];
      }
      return Some(read);
    }

    /** Writes "blocked by id" into the copies of the targets read before. */
    method LinkBlocked(ghost d: Disk, id: nat, ids: seq<nat>, targets: seq<Task>)
      requires Valid() && WellKeyed(d.tasks) && |targets| == |ids|
      requires forall i :: 0 <= i < |ids| ==> ids[i] in d.tasks && targets[i] == d.tasks[ids[i]]
      modifies this
      ensures Did(old(State()), old(log), BlockedByWrites(d, id, ids))
    {
      ghost var d0, l := State(), log;
      for i := 0 to |ids|
        invariant Did(d0, l, BlockedByWrites(d, id, ids[..i]))
      {
        assert ids[..i + 1][..i] == ids[..i];
        ghost var q := BlockedByWrites(d, id, ids[..i]);
        if id !in targets[i].blockedBy {
          var linked := WithBlocker(targets[i], id);
          assert BlockedByWrites(d, id, ids[..i + 1]) == q + [WriteTask(linked)];
          Associative(l, q, [WriteTask(linked)]);
          ApplyAllSnoc(d0, q, WriteTask(linked));
          WriteTaskFile(linked);
        } else {
          assert BlockedByWrites(d, id, ids[..i + 1]) == q;
        }
      }
      assert ids[..|ids|] == ids;
    }

    /** Writes "blocks id" into the copies of the targets read before. */
    method LinkBlockers(ghost d: Disk, id: nat, ids: seq<nat>, targets: seq<Task>)
      requires Valid() && WellKeyed(d.tasks) && |targets| == |ids|
      requires forall i :: 0 <= i < |ids| ==> ids[i] in d.tasks && targets[i] == d.tasks[ids[i]]
      modifies this
      ensures Did(old(State()), old(log), BlocksWrites(d, id, ids))
    {
      ghost var d0, l := State(), log;
      for i := 0 to |ids|
        invariant Did(d0, l, BlocksWrites(d, id, ids[..i]))
      {
        assert ids[..i + 1][..i] == ids[..i];
        ghost var q := BlocksWrites(d, id, ids[..i]);
        if id !in targets[i].blocks {
          var linked := WithBlocked(targets[i], id);
          assert BlocksWrites(d, id, ids[..i + 1]) == q + [WriteTask(linked)];
          Associative(l, q, [WriteTask(linked)]);
          ApplyAllSnoc(d0, q, WriteTask(linked));
          WriteTaskFile(linked);
        } else {
          assert BlocksWrites(d, id, ids[..i + 1]) == q;
        }
      }
      assert ids[..|ids|] == ids;
    }

    method UpdateWithDependencies(id: nat, updates: Updates, addBlocks: seq<nat>, addBlockedBy: seq<nat>)
      returns (result: Option<Task>)
      requires Valid()
      modifies this
      ensures result == if TargetsExist(old(State()), id, addBlocks, addBlockedBy)
                        then Some(ApplyUpdates(old(tasks)[id], updates)) else None
      ensures Did(old(State()), old(log), UpdateProgram(old(State()), id, updates, addBlocks, addBlockedBy))
      ensures State() == Outcome(old(State()), TaskModel.UpdateWithDependencies(id, updates, addBlocks, addBlockedBy))
      ensures result.None? ==> log == old(log)
      ensures result.None? <==> id !in old(tasks) || exists k :: k in addBlocks + addBlockedBy && k !in old(tasks)
      ensures result.Some? ==> id in old(tasks) && FieldsAre(old(tasks)[id], updates, result.value)
      ensures result.Some? && !Overwritten(old(tasks)[id], addBlocks, addBlockedBy) ==>
                id in tasks && tasks[id] == result.value
    {
      ghost var d, l := State(), log;
      UpdateOutcome(d, TaskModel.UpdateWithDependencies(id, updates, addBlocks, addBlockedBy));
      assert forall k :: k in addBlocks + addBlockedBy <==> k in addBlocks || k in addBlockedBy;
      hide FieldsAre;
      var current := ReadTaskFile(id);
      if current.None? { return None; }
      var blockTargets := ReadTargets(addBlocks);
      if blockTargets.None? { return None; }
      var blockerTargets := ReadTargets(addBlockedBy);
      if blockerTargets.None? { return None; }

      var updated := ApplyUpdates(current.value, updates);
      AppliedFields(current.value, updates);
      ghost var own := [WriteTask(updated)];
      UpdateSequence(d, id, updates, addBlocks, addBlockedBy);
      Associative(l, own, BlockedByWrites(d, id, addBlocks));
      Associative(l, own + BlockedByWrites(d, id, addBlocks), BlocksWrites(d, id, addBlockedBy));
      WriteTaskFile(updated);
      LinkBlocked(d, id, addBlocks, blockTargets.value);
      LinkBlockers(d, id, addBlockedBy, blockerTargets.value);
      return Some(updated);
    }

    /** Takes `id` out of the lists of the listed tasks. */
    method CleanUpReferences(id: nat, entries: seq<nat>)
      requires Valid() && Lists(entries, tasks.Keys)
      modifies this
      ensures Did(old(State()), old(log), CleanupWrites(old(tasks), id, entries))
    {
      ghost var d, l := State(), log;
      assert CleanupWrites(d.tasks, id, []) == [] && ApplyAll(d, []) == d && l + [] == l;
      hide CleanupWrites, CleanupWrite, ApplyAll;
      assert entries[..0] == [];
      for i := 0 to |entries|
        invariant Did(d, l, CleanupWrites(d.tasks, id, entries[..i]))
        invariant tasks.Keys == d.tasks.Keys
        invariant forall j :: i <= j < |entries| ==> entries[j] in tasks && tasks[entries[j]] == d.tasks[entries[j]]
      {
        assert entries[..i + 1] == entries[..i] + [entries[i]];
        CleanupNext(d, id, entries[..i], entries[i]);
        Associative(l, CleanupWrites(d.tasks, id, entries[..i]), CleanupWrite(d.tasks, id, entries[i]));
        CleanUpReference(d, id, entries[i]);
      }
      assert entries[..|entries|] == entries;
    }

    /** Unlinks `id` from one task, which is still as it was in `d`. */
    method CleanUpReference(ghost d: Disk, id: nat, k: nat)
      requires Valid() && k in tasks && k in d.tasks && tasks[k] == d.tasks[k]
      modifies this
      ensures Did(old(State()), old(log), CleanupWrite(d.tasks, id, k))
      ensures tasks.Keys == old(tasks).Keys
      ensures forall j :: j in tasks && j != k ==> tasks[j] == old(tasks)[j]
    {
      var t := tasks[k];
      var newBlocks := RemoveId(t.blocks, id);
      var newBlockedBy := RemoveId(t.blockedBy, id);
      RemovedId(t.blocks, id);
      RemovedId(t.blockedBy, id);
      if |newBlocks| != |t.blocks| || |newBlockedBy| != |t.blockedBy| {
        var cleaned := t.(blocks := newBlocks, blockedBy := newBlockedBy);
        Single(State(), WriteTask(cleaned));
        WriteTaskFile(cleaned);
      }
    }

    /** The part of Delete that raises the mark. */
    method RaiseHighwatermark(id: nat)
      requires Valid()
      modifies this
      ensures Valid() && State() == old(State()).(mark := MaxMark(old(mark), id))
      ensures log == old(log) + RaiseProgram(old(State()), id)
    {
      if id > mark {
        WriteHighwatermark(id);
      }
    }

    /** The part of Delete that follows. */
    method RemoveAndCleanUp(id: nat) returns (ghost order: seq<nat>)
      requires Valid() && id in tasks
      modifies this
      ensures Valid() && Lists(order, old(tasks).Keys - {id})
      ensures var rest := old(tasks) - {id};
              && log == old(log) + ([RemoveTask(id)] + CleanupWrites(rest, id, order))
              && State() == ApplyAll(Disk(rest, old(mark)), CleanupWrites(rest, id, order))
    {
      RemoveTaskFile(id);
      var entries := ReadDir();
      order := entries;
      Associative(old(log), [RemoveTask(id)], CleanupWrites(tasks, id, entries));
      CleanUpReferences(id, entries);
    }

    method Delete(id: nat) returns (deleted: bool, ghost order: seq<nat>)
      requires Valid()
      modifies this
      ensures deleted == (id in old(tasks))
      ensures Lists(order, old(tasks).Keys - {id})
      ensures Did(old(State()), old(log), DeleteProgram(old(State()), id, order))
      ensures State() == Outcome(old(State()), TaskModel.Delete(id))
    {
      ghost var d, l := State(), log;
      RaiseHighwatermark(id);
      if id in tasks {
        order := RemoveAndCleanUp(id);
        DeleteSequence(d, id, order);
        Associative(l, RaiseProgram(d, id), [RemoveTask(id)] + CleanupWrites(d.tasks - {id}, id, order));
        deleted := true;
      } else {
        order := ReadDir();
        assert d.tasks.Keys - {id} == d.tasks.Keys;
        assert DeleteProgram(d, id, order) == RaiseProgram(d, id);
        deleted := false;
      }
      DeleteOutcome(d, id, order);
    }

    method BlockTask(fromId: nat, toId: nat) returns (ok: bool)
      requires Valid()
      modifies this
      ensures ok == (fromId in old(tasks) && toId in old(tasks))
      ensures Did(old(State()), old(log), BlockProgram(old(State()), fromId, toId))
      ensures State() == Outcome(old(State()), TaskModel.BlockTask(fromId, toId))
    {
      ghost var d := State();
      BlockOutcome(d, fromId, toId);
      var source := ReadTaskFile(fromId);
      if source.None? { return false; }
      var target := ReadTaskFile(toId);
      if target.None? { return false; }
      ghost var p := [];
      if toId !in source.value.blocks {
        var linked := WithBlocked(source.value, toId);
        Single(d, WriteTask(linked));
        p := [WriteTask(linked)];
        WriteTaskFile(linked);
      }
      if fromId !in target.value.blockedBy {
        var linked := WithBlocker(target.value, fromId);
        ApplyAllSnoc(d, p, WriteTask(linked));
        WriteTaskFile(linked);
      }
      return true;
    }

    /** The unresolved blockers of a task, in the order it lists them. */
    method OpenBlockers(task: Task) returns (blockers: seq<nat>)
      ensures blockers == OpenAmong(tasks, task.blockedBy)
      ensures blockers == [] <==> forall b :: b in task.blockedBy ==> !Unresolved(tasks, b)
    {
      blockers := [];
      for i := 0 to |task.blockedBy|
        invariant blockers == OpenAmong(tasks, task.blockedBy[..i])
      {
        assert task.blockedBy[..i + 1][..i] == task.blockedBy[..i];
        if Unresolved(tasks, task.blockedBy[i]) { blockers := blockers + [task.blockedBy[i]]; }
      }
      assert task.blockedBy[..|task.blockedBy|] == task.blockedBy;
      assert blockers != [] ==> blockers[0] in blockers;
      assert forall b :: b in task.blockedBy && Unresolved(tasks, b) ==> b in blockers;
    }

    /** The other unresolved tasks of an agent. */
    method BusyTasks(id: nat, agent: string, listing: seq<nat>) returns (busyWith: seq<nat>)
      requires Lists(listing, tasks.Keys)
      ensures busyWith == BusyAmong(tasks, id, agent, listing)
      ensures busyWith == [] <==> !Busy(tasks, id, agent)
    {
      busyWith := [];
      BusyNext(tasks, id, agent, [], 0);
      hide BusyAmong, Busy, Lists;
      for i := 0 to |listing|
        invariant busyWith == BusyAmong(tasks, id, agent, listing[..i])
      {
        assert listing[..i + 1] == listing[..i] + [listing[i]];
        BusyNext(tasks, id, agent, listing[..i], listing[i]);
        Listed(listing, tasks.Keys, i);
        var t := tasks[listing[i]];
        if t.status != Completed && t.owner == agent && listing[i] != id { busyWith := busyWith + [listing[i]]; }
      }
      assert listing[..|listing|] == listing;
      BusyAmongAll(tasks, id, agent, listing);
    }

    method ClaimTask(id: nat, agent: string, checkBusy: bool) returns (result: ClaimResult, ghost order: seq<nat>)
      requires Valid()
      modifies this
      ensures Lists(order, old(tasks).Keys)
      ensures Answers(result, old(tasks), id, agent, checkBusy, order)
      ensures AnswerIs(result, old(tasks), id, agent, checkBusy)
      ensures result.Claimed? <==> Claimable(old(tasks), id, agent, checkBusy)
      ensures Did(old(State()), old(log), ClaimProgram(old(State()), id, agent, checkBusy))
      ensures State() == Outcome(old(State()), TaskModel.ClaimTask(id, agent, checkBusy))
    {
      hide AnswerIs;
      var listing := ReadDir();
      order := listing;
      forall r | Answers(r, tasks, id, agent, checkBusy, order)
        ensures AnswerIs(r, tasks, id, agent, checkBusy)
      {
        AnswersAre(r, tasks, id, agent, checkBusy, order);
      }
      var t := ReadTaskFile(id);
      if t.None? { return TaskNotFound, order; }
      var task := t.value;
      if task.owner != "" && task.owner != agent { return AlreadyClaimed(task), order; }
      if task.status == Completed { return AlreadyResolved(task), order; }
      var blockers := OpenBlockers(task);
      if blockers != [] { return Blocked(task, blockers), order; }
      if checkBusy {
        var busyWith := BusyTasks(id, agent, listing);
        if busyWith != [] { return AgentBusy(task, busyWith), order; }
      }
      var claimed := task.(owner := agent);
      Single(State(), WriteTask(claimed));
      WriteTaskFile(claimed);
      return Claimed(claimed), order;
    }

    method RemoveTaskFiles(entries: seq<nat>)
      requires Valid()
      modifies this
      ensures Did(old(State()), old(log), RemoveAll(entries))
    {
      ghost var d, l := State(), log;
      for i := 0 to |entries|
        invariant Did(d, l, RemoveAll(entries[..i]))
      {
        assert entries[..i + 1][..i] == entries[..i];
        ApplyAllSnoc(d, RemoveAll(entries[..i]), RemoveTask(entries[i]));
        Associative(l, RemoveAll(entries[..i]), [RemoveTask(entries[i])]);
        RemoveTaskFile(entries[i]);
      }
      assert entries[..|entries|] == entries;
    }

    method ResetTaskList() returns (ghost order: seq<nat>)
      requires Valid()
      modifies this
      ensures Lists(order, old(tasks).Keys)
      ensures Did(old(State()), old(log), ResetProgram(old(State()), order))
      ensures State() == Outcome(old(State()), TaskModel.ResetTaskList)
    {
      ghost var d, l := State(), log;
      var highest := FindHighestTaskID();
      if highest > 0 {
        if highest > mark {
          WriteHighwatermark(highest);
        }
      }
      assert log == l + RaiseProgram(d, highest);
      RaiseMark(d, highest);
      var entries := ReadDir();
      order := entries;
      ApplyAllConcat(d, RaiseProgram(d, highest), RemoveAll(entries));
      Associative(l, RaiseProgram(d, highest), RemoveAll(entries));
      RemoveTaskFiles(entries);
      ResetOutcome(d, order);
    }

    method UnassignTeammateTasks(agent: string) returns (unassigned: seq<UnassignedTask>, ghost order: seq<nat>)
      requires Valid()
      modifies this
      ensures Lists(order, old(tasks).Keys)
      ensures unassigned == ReleasedAmong(old(tasks), agent, order)
      ensures Did(old(State()), old(log), UnassignWrites(old(tasks), agent, order))
      ensures State() == Outcome(old(State()), TaskModel.UnassignTeammateTasks(agent))
    {
      ghost var d, l := State(), log;
      var entries := ReadDir();
      order := entries;
      unassigned := [];
      UnassignNone(d, agent);
      hide UnassignWrites, UnassignWrite, ReleasedAmong, Report, ApplyAll, Outcome;
      assert l + [] == l && entries[..0] == [];
      for i := 0 to |entries|
        invariant Did(d, l, UnassignWrites(d.tasks, agent, entries[..i]))
        invariant unassigned == ReleasedAmong(d.tasks, agent, entries[..i])
        invariant tasks.Keys == d.tasks.Keys
        invariant forall j :: i <= j < |entries| ==> entries[j] in tasks && tasks[entries[j]] == d.tasks[entries[j]]
      {
        assert entries[..i + 1] == entries[..i] + [entries[i]];
        UnassignNext(d, agent, entries[..i], entries[i]);
        Associative(l, UnassignWrites(d.tasks, agent, entries[..i]), UnassignWrite(d.tasks, agent, entries[i]));
        var released := Unassign(d, agent, entries[i]);
        unassigned := unassigned + released;
      }
      assert entries[..|entries|] == entries;
      UnassignOutcome(d, agent, order);
    }

    /** Releases one task, which is still as it was in `d`. */
    method Unassign(ghost d: Disk, agent: string, k: nat) returns (released: seq<UnassignedTask>)
      requires Valid() && k in tasks && k in d.tasks && tasks[k] == d.tasks[k]
      modifies this
      ensures released == Report(d.tasks, agent, k)
      ensures Did(old(State()), old(log), UnassignWrite(d.tasks, agent, k))
      ensures tasks.Keys == old(tasks).Keys
      ensures forall j :: j in tasks && j != k ==> tasks[j] == old(tasks)[j]
    {
      var t := tasks[k];
      released := [];
      if t.status != Completed && t.owner == agent {
        var freed := t.(owner := "", status := Pending);
        Single(State(), WriteTask(freed));
        WriteTaskFile(freed);
        released := [UnassignedTask(t.id, t.subject)];
      }
    }
  }
}
