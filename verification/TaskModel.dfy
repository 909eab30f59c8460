/**
 The task list directory of internal/core/task/store.go: one file per task, one high-water
 mark file, and the writes and removes that every store operation issues, in order.

 Task ids are the numbers that Create assigns.  A store operation is described by its
 program: the list of file effects it performs when it is not interrupted.  A process that
 dies leaves behind the effects of some prefix of that list.
 */
module TaskModel {
  import opened Wrappers

  datatype Status = Pending | InProgress | Completed

  datatype Task = Task(
    id: nat,
    subject: string,
    description: string,
    activeForm: string,
    owner: string,
    status: Status,
    blocks: seq<nat>,
    blockedBy: seq<nat>,
    metadata: map<string, string>
  )

  datatype NewTask = NewTask(
    subject: string,
    description: string,
    activeForm: string,
    owner: string,
    metadata: map<string, string>
  )

  /** A partial update; in `metadata`, None stands for the null that deletes a key. */
  datatype Updates = Updates(
    subject: Option<string>,
    description: Option<string>,
    activeForm: Option<string>,
    owner: Option<string>,
    status: Option<Status>,
    blocks: Option<seq<nat>>,
    blockedBy: Option<seq<nat>>,
    metadata: map<string, Option<string>>
  )

  /** What survives a process: the task files and the high-water mark. */
  datatype Disk = Disk(tasks: map<nat, Task>, mark: nat)

  /** One atomic change to the directory. */
  datatype Effect =
    | WriteTask(task: Task)
    | RemoveTask(id: nat)
    | WriteMark(value: nat)

  /** Every file holds the task whose id names it. */
  ghost predicate WellKeyed(tasks: map<nat, Task>) {
    forall k :: k in tasks ==> tasks[k].id == k
  }

  function Apply(d: Disk, e: Effect): Disk {
    match e
    case WriteTask(t) => d.(tasks := d.tasks[t.id := t])
    case RemoveTask(id) => d.(tasks := d.tasks - {id})
    case WriteMark(v) => d.(mark := v)
  }

  function ApplyAll(d: Disk, es: seq<Effect>): Disk {
    if es == [] then d else Apply(ApplyAll(d, es[..|es| - 1]), es[|es| - 1])
  }

  lemma ApplyAllSnoc(d: Disk, es: seq<Effect>, e: Effect)
    ensures ApplyAll(d, es + [e]) == Apply(ApplyAll(d, es), e)
  {
    assert (es + [e])[..|es|] == es;
  }

  lemma {:induction false} ApplyAllConcat(d: Disk, es: seq<Effect>, fs: seq<Effect>)
    ensures ApplyAll(d, es + fs) == ApplyAll(ApplyAll(d, es), fs)
  {
    if fs == [] {
      assert es + fs == es;
    } else {
      var n := |fs| - 1;
      assert es + fs == (es + fs[..n]) + [fs[n]];
      ApplyAllSnoc(d, es + fs[..n], fs[n]);
      ApplyAllConcat(d, es, fs[..n]);
    }
  }

  lemma {:induction false} EffectsKeepKeys(d: Disk, es: seq<Effect>)
    requires WellKeyed(d.tasks)
    ensures WellKeyed(ApplyAll(d, es).tasks)
  {
    if es != [] {
      EffectsKeepKeys(d, es[..|es| - 1]);
    }
  }

  /** The greatest element, or 0. */
  ghost function Highest(ids: set<nat>): (h: nat)
    ensures forall k :: k in ids ==> k <= h
    ensures h == 0 || h in ids
  {
    if ids == {} then 0
    else
      var x :| x in ids;
      var rest := Highest(ids - {x});
      assert forall k :: k in ids ==> k == x || k in ids - {x};
      if x > rest then x else rest
  }

  /** The number that nextID goes one above. */
  ghost function Bound(d: Disk): nat {
    var h := Highest(d.tasks.Keys);
    if h > d.mark then h else d.mark
  }

  /** A directory listing: every name once, in any order. */
  ghost predicate Lists(order: seq<nat>, ids: set<nat>) {
    && (forall i, j :: 0 <= i < j < |order| ==> order[i] != order[j])
    && (forall k :: k in order <==> k in ids)
  }

  // ---------------------------------------------------------------- operations

  datatype Call =
    | Create(data: NewTask)
    | UpdateWithDependencies(id: nat, updates: Updates, addBlocks: seq<nat>, addBlockedBy: seq<nat>)
    | Delete(id: nat)
    | BlockTask(fromId: nat, toId: nat)
    | ClaimTask(id: nat, agent: string, checkBusy: bool)
    | ResetTaskList
    | UnassignTeammateTasks(agent: string)

  /** Update is UpdateWithDependencies with no reverse edges to write. */
  function Update(id: nat, updates: Updates): Call {
    UpdateWithDependencies(id, updates, [], [])
  }

  function FreshTask(id: nat, data: NewTask): Task {
    Task(id, data.subject, data.description, data.activeForm, data.owner, Pending, [], [], data.metadata)
  }

  function MergeMetadata(old_: map<string, string>, u: map<string, Option<string>>): map<string, string> {
    map k | k in old_.Keys + u.Keys && (k in u ==> u[k].Some?) :: if k in u then u[k].value else old_[k]
  }

  function ApplyUpdates(t: Task, u: Updates): Task {
    Task(t.id,
         u.subject.GetOr(t.subject),
         u.description.GetOr(t.description),
         u.activeForm.GetOr(t.activeForm),
         u.owner.GetOr(t.owner),
         u.status.GetOr(t.status),
         u.blocks.GetOr(t.blocks),
         u.blockedBy.GetOr(t.blockedBy),
         MergeMetadata(t.metadata, u.metadata))
  }

  /** Drops every occurrence of `id`. */
  function RemoveId(ids: seq<nat>, id: nat): seq<nat> {
    if ids == [] then []
    else RemoveId(ids[..|ids| - 1], id) + (if ids[|ids| - 1] == id then [] else [ids[|ids| - 1]])
  }

  lemma {:induction false} RemovedId(ids: seq<nat>, id: nat)
    ensures forall k :: k in RemoveId(ids, id) <==> k in ids && k != id
    ensures |RemoveId(ids, id)| <= |ids|
    ensures |RemoveId(ids, id)| == |ids| <==> id !in ids
    ensures id !in ids ==> RemoveId(ids, id) == ids
  {
    if ids != [] {
      assert ids == ids[..|ids| - 1] + [ids[|ids| - 1]];
      RemovedId(ids[..|ids| - 1], id);
    }
  }

  function WithBlocker(t: Task, id: nat): Task {
    t.(blockedBy := t.blockedBy + [id])
  }

  function WithBlocked(t: Task, id: nat): Task {
    t.(blocks := t.blocks + [id])
  }

  /** The reverse edges "target is blocked by id", each computed from the copy read first. */
  function BlockedByWrites(d: Disk, id: nat, targets: seq<nat>): seq<Effect>
    requires forall k :: k in targets ==> k in d.tasks
  {
    if targets == [] then []
    else
      var n := |targets| - 1;
      var t := d.tasks[targets[n]];
      BlockedByWrites(d, id, targets[..n]) +
      (if id in t.blockedBy then [] else [WriteTask(WithBlocker(t, id))])
  }

  /** The reverse edges "target blocks id", each computed from the copy read first. */
  function BlocksWrites(d: Disk, id: nat, targets: seq<nat>): seq<Effect>
    requires forall k :: k in targets ==> k in d.tasks
  {
    if targets == [] then []
    else
      var n := |targets| - 1;
      var t := d.tasks[targets[n]];
      BlocksWrites(d, id, targets[..n]) +
      (if id in t.blocks then [] else [WriteTask(WithBlocked(t, id))])
  }

  predicate TargetsExist(d: Disk, id: nat, addBlocks: seq<nat>, addBlockedBy: seq<nat>) {
    && id in d.tasks
    && (forall k :: k in addBlocks ==> k in d.tasks)
    && (forall k :: k in addBlockedBy ==> k in d.tasks)
  }

  function UpdateProgram(d: Disk, id: nat, u: Updates, addBlocks: seq<nat>, addBlockedBy: seq<nat>): seq<Effect> {
    if TargetsExist(d, id, addBlocks, addBlockedBy) then
      [WriteTask(ApplyUpdates(d.tasks[id], u))]
      + BlockedByWrites(d, id, addBlocks)
      + BlocksWrites(d, id, addBlockedBy)
    else []
  }

  function Unlink(t: Task, id: nat): Task {
    t.(blocks := RemoveId(t.blocks, id), blockedBy := RemoveId(t.blockedBy, id))
  }

  predicate Mentions(t: Task, id: nat) {
    id in t.blocks || id in t.blockedBy
  }

  /** Rewrites, in listing order, the tasks that mention `id`. */
  function CleanupWrites(tasks: map<nat, Task>, id: nat, order: seq<nat>): seq<Effect> {
    if order == [] then []
    else CleanupWrites(tasks, id, order[..|order| - 1]) + CleanupWrite(tasks, id, order[|order| - 1])
  }

  function CleanupWrite(tasks: map<nat, Task>, id: nat, k: nat): seq<Effect> {
    if k in tasks && Mentions(tasks[k], id) then [WriteTask(Unlink(tasks[k], id))] else []
  }

  function RaiseProgram(d: Disk, id: nat): seq<Effect> {
    if id > d.mark then [WriteMark(id)] else []
  }

  function DeleteProgram(d: Disk, id: nat, order: seq<nat>): seq<Effect> {
    RaiseProgram(d, id)
    + (if id in d.tasks then [RemoveTask(id)] + CleanupWrites(d.tasks - {id}, id, order) else [])
  }

  function BlockProgram(d: Disk, fromId: nat, toId: nat): seq<Effect> {
    if fromId in d.tasks && toId in d.tasks then
      var source := d.tasks[fromId];
      var target := d.tasks[toId];
      (if toId in source.blocks then [] else [WriteTask(WithBlocked(source, toId))])
      + (if fromId in target.blockedBy then [] else [WriteTask(WithBlocker(target, fromId))])
    else []
  }

  predicate Unresolved(tasks: map<nat, Task>, id: nat) {
    id in tasks && tasks[id].status != Completed
  }

  /** Some other unresolved task belongs to the agent. */
  predicate Busy(tasks: map<nat, Task>, id: nat, agent: string) {
    exists k | k in tasks :: k != id && Unresolved(tasks, k) && tasks[k].owner == agent
  }

  /** The conditions under which a claim goes through. */
  predicate Claimable(tasks: map<nat, Task>, id: nat, agent: string, checkBusy: bool) {
    && id in tasks
    && (tasks[id].owner == "" || tasks[id].owner == agent)
    && tasks[id].status != Completed
    && (forall b | b in tasks[id].blockedBy :: !Unresolved(tasks, b))
    && (checkBusy ==> !Busy(tasks, id, agent))
  }

  function ClaimProgram(d: Disk, id: nat, agent: string, checkBusy: bool): seq<Effect> {
    if Claimable(d.tasks, id, agent, checkBusy) then [WriteTask(d.tasks[id].(owner := agent))] else []
  }

  function RemoveAll(order: seq<nat>): seq<Effect> {
    if order == [] then [] else RemoveAll(order[..|order| - 1]) + [RemoveTask(order[|order| - 1])]
  }

  ghost function ResetProgram(d: Disk, order: seq<nat>): seq<Effect> {
    RaiseProgram(d, Highest(d.tasks.Keys)) + RemoveAll(order)
  }

  predicate HeldBy(t: Task, agent: string) {
    t.status != Completed && t.owner == agent
  }

  function UnassignWrites(tasks: map<nat, Task>, agent: string, order: seq<nat>): seq<Effect> {
    if order == [] then []
    else UnassignWrites(tasks, agent, order[..|order| - 1]) + UnassignWrite(tasks, agent, order[|order| - 1])
  }

  function UnassignWrite(tasks: map<nat, Task>, agent: string, k: nat): seq<Effect> {
    if k in tasks && HeldBy(tasks[k], agent) then [WriteTask(tasks[k].(owner := "", status := Pending))] else []
  }

  /** The files that the operation's directory scan sees. */
  function Scanned(d: Disk, c: Call): set<nat> {
    if c.Delete? then d.tasks.Keys - {c.id} else d.tasks.Keys
  }

  ghost function Program(d: Disk, c: Call, order: seq<nat>): seq<Effect>
    requires Lists(order, Scanned(d, c))
  {
    match c
    case Create(data) => [WriteTask(FreshTask(Bound(d) + 1, data))]
    case UpdateWithDependencies(id, u, addBlocks, addBlockedBy) => UpdateProgram(d, id, u, addBlocks, addBlockedBy)
    case Delete(id) => DeleteProgram(d, id, order)
    case BlockTask(fromId, toId) => BlockProgram(d, fromId, toId)
    case ClaimTask(id, agent, checkBusy) => ClaimProgram(d, id, agent, checkBusy)
    case ResetTaskList => ResetProgram(d, order)
    case UnassignTeammateTasks(agent) => UnassignWrites(d.tasks, agent, order)
  }

  // ---------------------------------------------------------------- runs

  /** One call in a run: what was called, the listing it saw, and how many effects took place. */
  datatype Step = Step(call: Call, order: seq<nat>, cut: nat)

  ghost predicate Enabled(d: Disk, s: Step) {
    && Lists(s.order, Scanned(d, s.call))
    && s.cut <= |Program(d, s.call, s.order)|
  }

  /** The call ran to its end. */
  ghost predicate Complete(d: Disk, s: Step) {
    Enabled(d, s) && s.cut == |Program(d, s.call, s.order)|
  }

  ghost function After(d: Disk, s: Step): Disk
    requires Enabled(d, s)
  {
    ApplyAll(d, Program(d, s.call, s.order)[..s.cut])
  }

  /** Every call of the run is possible in the state the previous ones left. */
  ghost predicate IsRun(d: Disk, run: seq<Step>)
    decreases |run|
  {
    run == [] || (Enabled(d, run[0]) && IsRun(After(d, run[0]), run[1..]))
  }

  ghost function End(d: Disk, run: seq<Step>): Disk
    requires IsRun(d, run)
    decreases |run|
  {
    if run == [] then d else End(After(d, run[0]), run[1..])
  }
}
