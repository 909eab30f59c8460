# Verified models of the assistant's task store, compaction, permissions and protocols

This project models the parts of the command-line assistant whose correctness is hardest to see from the code,
and proves what those parts promise. `dafny verify dfyconfig.toml` checks all of it.

Where the original changes state step by step, the model is a class or a method with a loop, and its contract ties
the new state to a function of the old one; what the original promises is then proved about that function, over
every input and every run. Code that only computes is a function.

| files | what they model |
|---|---|
| `TaskModel`, `TaskStore`, `TaskOutcome`, `TaskFields`, `TaskFreshness`, `TaskGraph`, `TaskClaims` | the task store: numbered task files, the high-water mark, the dependency graph, claims |
| `Conversation`, `Grouping`, `Compaction`, `TailSplit`, `Attachments` | conversation compaction: token estimates, grouping, head truncation and its retry loop, the preserved tail, restored files and skills |
| `PathMatch`, `FilesystemPolicy` | the path matcher with its run wildcard, and the permission ladder |
| `Mailbox`, `InboxPoller`, `InboxInterleavings` | a teammate's inbox and the poller, interleaved with writers |
| `CircuitBreaker` | the three-state breaker, against the history of its calls |
| `DiagnosticKey`, `FileDedup`, `PendingOrder`, `DiagnosticDelivery`, `DiagnosticHistory`, `DiagnosticRegistry` | language-server diagnostics: keys, deduplication, the order of pending batches, sorting, caps, the bounded index |
| `RefreshDeduper` | one token refresh per key for concurrent callers |
| `EventExporter` | telemetry batches, queue and retries |
| `Framing`, `Decimal`, `Text` | Content-Length framing (Language Server Protocol 3.17, "Base Protocol", Header Part) |
| `Transcript` | expanding messages into transcript entries and recovering them |
| `SettingsTree`, `SettingsMap` | dotted paths on settings documents, on values and on maps changed in place |
| `Wrappers` | shared helpers |

How the main parts are modelled:

- **Task store.** Every operation is a list of single effects on the directory (write a task file, remove one, write
  the mark). The class performs exactly these effects. A run is a list of calls, each cut off after any number of its
  effects; a call that is not cut off is one that held the lock to its end. Directory listings come in any order.
- **Protocols** (poller, deduper, breaker, exporter, registry). The state is a value, each atomic step a function, a
  run any list of steps. The classes make the same steps and carry them in a ghost history.
- **Abstract parts.** `path.Match`, path cleaning and joining, the working directory and the home directory are
  uninterpreted functions in `FilesystemPolicy.Host`. Clocks, server replies, failures of file access and the model's
  answers are arguments.

Properties that the code does not have in general are stated with their exact condition:

- blocking a task on itself writes back a stale copy (`TaskGraph.SelfBlockBreaksGraph`, `TaskGraph.CallKeepsGraphIff`);
  an update that makes a task its own target loses what it was given (`TaskFields.UpdateLeaves`);
- diagnostics of a file whose name returns after another file's go to the wrong file
  (`FileDedup.AttributedIffAdjacent`); pending batches are taken in the iteration order of a map, and
  `DiagnosticRegistry.ChecksAttributeIff` says for which file names every check is right; the same order of names decides
  whether anything known or repeated can be delivered (`DiagnosticHistory.DeliveryIsNewIff`,
  `DiagnosticHistory.DeliveryHasNoRepeatsIff`, `DiagnosticHistory.NotDeliveredTwiceIff`);
- different diagnostics can share a key when their texts hold bars: `DiagnosticKey.KeysEqualIff` says for any two when
  they do, `DiagnosticKey.SourcesConfusableIff` which sources can within one report, and
  `DiagnosticKey.ReportsConfusable` that any two sources can across reports;
- the poller marks by sender and time, so a message that shares both with one being handed over is marked without
  being delivered; `InboxInterleavings.NothingIsLostIff` and `InboxInterleavings.ExactlyOnceIff` say for which
  messages no interleaving loses any, `InboxPoller.MarkIsSafeIff` when one mark is safe; messages of different senders
  can share a key only through a NUL (`InboxPoller.KeysEqualIff`, `InboxPoller.SendersConfusableIff`); a message is
  delivered twice exactly after a mark has failed (`InboxPoller.RepeatedIff`);
- updates and creation can give an agent a second unresolved task (`TaskClaims.CallKeepsExclusiveIff`);
- the breaker cannot close from trials alone when it wants more successes than it allows trials
  (`CircuitBreaker.RecoversFromTrialsIff`), and trials that are never reported block it for good
  (`CircuitBreaker.UnreportedTrialsBlock`);
- texts kept after compaction can cost more than they are charged for (`Attachments.KeptEstimateIff`,
  `Attachments.SelectionEstimateIff`);
- a truncation need not make the conversation shorter (`Compaction.MessageCountFallsIff`);
- cutting at a boundary message that carries a tool result separates the result from its call
  (`TailSplit.CutKeepsPairsIff`);
- an export whose context is cancelled between batches reports no failed events but has not sent the rest
  (`EventExporter.SendConservesIff`, `EventExporter.NothingIsLostIff`);
- a message with a further header field, which the Base Protocol allows, is not read back as its body
  (`Framing.ReadsMessageIff`, `Framing.FieldAfter`, `Framing.FieldBefore`);
- messages of the system and of tools, and summaries without text, are written to a transcript but not recovered
  (`Transcript.RecoverRoundTripIff`);
- a glob query is matched against rules as if it were a path, so a rule that covers what it lists need not cover the
  query (`PathMatch.CoveredWithQueryIff`, `FilesystemPolicy.QueryAgainstListed`).

The promise that ids are never reused (internal/core/task/store.go:23 and 44-45) holds for every interrupted run, because
Delete and Reset raise the mark before they remove anything (`TaskFreshness.IdsAreNeverReused`).

## Model

| member | source | states |
|---|---|---|
| TaskStore.FileStore.Create | internal/core/task/store.go:264-286 | the new id is one above both the highest task file and the mark; exactly one file, a pending task without dependencies, is written |
| TaskStore.FileStore.NextID | internal/core/task/store.go:206-236 | the scan of the directory in any order and the mark give the least id above everything known |
| TaskStore.FileStore.Update | internal/core/task/store.go:342-360 | a missing task is left missing and reported; otherwise only this task changes, field by field as given |
| TaskStore.FileStore.UpdateWithDependencies | internal/core/task/store.go:364-426 | a missing task or target means that nothing at all is written; otherwise the exact writes, including those from copies read earlier, and the resulting directory |
| TaskStore.FileStore.Delete | internal/core/task/store.go:467-509 | the mark is raised before the file is removed, also for an id that has no file; then every reference in other tasks is removed |
| TaskStore.FileStore.BlockTask | internal/core/task/store.go:512-544 | succeeds iff both tasks exist; writes only the sides that lack the edge |
| TaskStore.FileStore.ClaimTask | internal/core/task/store.go:549-640 | claims iff the task exists, is open, is unowned or the claimant's own, has no unresolved blocker and, when asked, the claimant is not busy; otherwise gives the reason and writes nothing |
| TaskStore.FileStore.ResetTaskList | internal/core/task/store.go:644-674 | the mark ends at least at the highest id and all task files are gone |
| TaskStore.FileStore.UnassignTeammateTasks | internal/core/task/store.go:678-703 | exactly the agent's unresolved tasks are released and set to pending, and exactly these are reported |
| TaskStore.AnswersAre | internal/core/task/store.go:549-640 | which answer a claim gets, and with which task, blockers or other tasks: the first thing in the order of the checks that stands in the way |
| TaskFields.CreateLeaves | internal/core/task/store.go:264-286 | what a creation leaves, field by field: the new task as ordered, pending, without dependencies, under the least id above the mark and all ids; every other task as it was |
| TaskFields.UpdateLeaves | internal/core/task/store.go:364-465 | what an update leaves: an absent field is as before and a given one is the given value; a metadata key set to null is gone, a given one has its value, every other is as before; each target has gained its edge; a task that is its own target loses the update to the copy read before |
| TaskFields.DeleteLeaves | internal/core/task/store.go:467-509 | what a deletion leaves: the task is gone, its id is taken out of both lists of every other task, whose other fields and other members in order stay |
| TaskFields.BlockLeaves | internal/core/task/store.go:512-544 | what blocking leaves: both lists with the missing side of the edge at the end, everything else as it was |
| TaskFields.ClaimLeaves | internal/core/task/store.go:549-640 | what a claim leaves: the owner of a task that may be claimed, nothing else |
| TaskFields.ResetLeaves | internal/core/task/store.go:644-674 | what a reset leaves: no task, and the least mark that covers all ids |
| TaskFields.UnassignLeaves | internal/core/task/store.go:678-703 | what releasing leaves: the unresolved tasks of the agent unowned and pending, nothing else changed |
| TaskFields.UpdateEffects | internal/core/task/store.go:391-422 | in which order an update writes: its own task, then the tasks it blocks, then the tasks that block it, each from the copy read before |
| TaskFields.DeleteEffects | internal/core/task/store.go:472-505 | in which order a deletion writes: the mark, then the file, then only tasks that mention the id |
| TaskOutcome.CompleteCallOutcome | internal/core/task/store.go:364-703 | whatever order the directory listing has, the effects of a finished call add up to one order-independent result per operation |
| TaskOutcome.UpdateOutcome | internal/core/task/store.go:375-420 | the writes of an update with dependencies, repeated targets and the task itself included, amount to one simultaneous change |
| TaskOutcome.DeleteOutcome | internal/core/task/store.go:467-509 | deleting amounts to dropping the task, its id from every list, and raising the mark |
| TaskFreshness.ProgramIsGuarded | internal/core/task/store.go:227-236 | every single effect of every operation writes a known or a new highest id, removes only ids at or below the mark, and never lowers the mark |
| TaskFreshness.IdsAreNeverReused | internal/core/task/store.go:227-286 | over every run, cut off after any effect: issued ids strictly increase and stay within what the directory knows, the mark never falls, an id that is gone never comes back |
| TaskGraph.CallKeepsGraphIff | internal/core/task/store.go:364-703 | a finished call keeps the graph symmetric, free of dangling ids and of duplicates iff its arguments meet a condition that is checkable before the call |
| TaskGraph.AppendKeepsGraphIff | internal/core/task/store.go:364-426 | for an update that appends the new neighbours to both lists the condition is: new neighbours only, not the task itself, none in both lists |
| TaskGraph.GraphHoldsThroughout | internal/core/task/store.go:163-183 | the graph stays good over every run of finished calls that meet their conditions |
| TaskGraph.SelfBlockBreaksGraph | internal/core/task/store.go:515-537 | blocking a task on itself leaves it blocked by itself but blocking nothing |
| TaskClaims.ClaimIsSafe | internal/core/task/store.go:549-640 | corollary of the claim program: a claim that writes changes only the owner of one task, replaces no other agent, leaves no open blocker and, with the busy check, gives the agent no second open task |
| TaskClaims.CallKeepsExclusiveIff | internal/core/task/store.go:264-703 | a finished call keeps every agent at one unresolved task iff the one task whose owner or status it changes is afterwards resolved, unowned, or owned by an agent without another unresolved task |
| TaskClaims.ClaimKeepsExclusiveIff | internal/core/task/store.go:597-625 | a claim keeps every agent at one unresolved task iff it fails, or the claimant is nobody (the empty name), or the claimant was not busy |
| TaskClaims.AgentsHoldAtMostOneTask | internal/core/task/store.go:264-703 | no agent ever holds two unresolved tasks, over every run of finished calls that meet that condition and of calls cut off anywhere that make busy-checked claims, create unowned tasks, keep owners and reopen nothing |
| Conversation.EstimateTokens | internal/core/compact/estimate.go:18-60 | the loops add up the estimate of every part of every message |
| Conversation.GroupTokensAddUp | internal/core/compact/estimate.go:18-37 | however a conversation is cut into groups, the estimates of the groups add up to its own |
| Conversation.CharacterWidth | internal/core/compact/estimate.go:64-69 | the length of a text counts each character with the bytes that UTF-8 takes for its code (RFC 3629, section 3) |
| Conversation.EstimateHolds | internal/core/compact/estimate.go:64-69 | the estimate is the least number of tokens of four bytes that holds the text |
| Conversation.PartIsCharged | internal/core/compact/estimate.go:41-60 | a tool call is charged for its name and its input together, every other part for its text |
| Grouping.GroupedPartitions | internal/core/compact/compact.go:421-438 | a left-to-right grouping re-joins to its input and has no empty group |
| Grouping.RegroupSuffix | internal/core/compact/compact.go:421-438 | regrouping the joined suffix of a grouping gives back exactly that suffix of groups |
| Compaction.GroupMessagesByRoleBoundary | internal/core/compact/compact.go:421-438 | the loop computes the grouping that opens a group at every assistant message |
| Compaction.GroupMessagesByApiRound | internal/core/compact/grouping.go:31-54 | the loop computes the grouping that opens a group at an assistant message with a new id |
| Compaction.LastAssistantIs | internal/core/compact/grouping.go:34-47 | the id a round is compared with is that of the latest assistant message, and empty before the first |
| Compaction.RoleGroupsShape | internal/core/compact/compact.go:421-438 | the role grouping partitions the messages, token estimates add up, and every later group begins with an assistant message |
| Compaction.RoundsAgainstRoles | internal/core/compact/grouping.go:31-54 | both groupings partition; the role grouping refines the API-round grouping; they are equal iff each assistant id differs from the previous assistant's |
| Compaction.TruncateHeadForPTLRetry | internal/core/compact/compact.go:451-518 | the loops compute the truncation: marker stripped, groups dropped, marker put back |
| Compaction.TruncationKeepsSuffix | internal/core/compact/compact.go:451-518 | empty iff fewer than two groups are left; otherwise the marker, a user message, followed by a proper suffix of the groups, with that many groups fewer |
| Compaction.GapIsCovered | internal/core/compact/compact.go:476-487 | with a known token gap the fewest leading groups whose estimates cover it are dropped |
| Compaction.DropsFewest | internal/core/compact/compact.go:472-493 | how many groups go: for a positive gap the fewest that cover it, otherwise a fifth, at least one and never all |
| Compaction.MarkerIs | internal/core/compact/compact.go:456-465 | the marker is this text of the user, and exactly such messages are taken for it |
| Compaction.RoundsFall | internal/core/compact/compact.go:488-491 | with an unknown gap a fifth of the groups, and at least one, is dropped each time |
| Compaction.MessageCountFallsIff | internal/core/compact/compact.go:507-515 | a truncation never adds messages, and returns fewer iff it replaces an earlier marker or drops more than one message |
| Compaction.GroupCutKeepsPairsIff | internal/core/compact/grouping.go:18-24 | a cut between two groups that begin with the assistant separates no tool call from its result: the whole is well paired iff both sides are |
| Compaction.GroupingsCutSafely | internal/core/compact/grouping.go:31-54 | the groups of both groupings begin with the assistant, so every cut between them is such a cut |
| Compaction.TruncationKeepsPairs | internal/core/compact/compact.go:451-518 | truncating a well-paired conversation leaves it well paired |
| Compaction.SummarizeWithRetries | internal/core/compact/compact.go:147-186 | the loop terminates and sends exactly the requests of the recursive description |
| Compaction.RequestsAreBounded | internal/core/compact/compact.go:150-186 | at most min(4, max(1, groups)) requests, and exactly that many when it gives up |
| Compaction.TooLongIff | internal/core/compact/compact.go:158-173 | an answer is too long iff it is a summary that begins with the notice or a stream error that holds it anywhere |
| Compaction.ResultIsNotTooLong | internal/core/compact/compact.go:150-186 | no run ends with a summary that begins with the notice or with an error that holds it, whatever stands around it |
| Compaction.AnswerDecides | internal/core/compact/compact.go:150-186 | any other answer ends the loop at once with its text; one that says so is followed by another request while there are two groups and fewer than four requests, else the loop gives up |
| Compaction.RetriesCarrySuffixes | internal/core/compact/compact.go:150-186 | the first request carries the whole history, every later one a proper suffix behind the marker; all but the last were too long, and the result is the last answer |
| TailSplit.IsCompactBoundary | internal/core/compact/boundary.go:32-45 | recognises a boundary by the text of its parts |
| TailSplit.FindLastCompactBoundary | internal/core/compact/boundary.go:81-88 | finds the last boundary, or reports that there is none |
| TailSplit.SplitRejoins | internal/core/compact/compact.go:342-380 | head and tail re-join to the messages from the last boundary on; the tail has at most two messages, and none iff the last message is not the user's |
| TailSplit.SplitTokens | internal/core/compact/compact.go:342-357 | the estimates of head, tail and what lies before the boundary add up to the whole |
| TailSplit.TailIs | internal/core/compact/compact.go:359-380 | which messages the tail keeps: the last one if it is the user's, and with it the one before it iff that is the assistant's with a tool call and the last holds a tool result |
| TailSplit.SplitKeepsPairsIff | internal/core/compact/compact.go:359-380 | each tool result directly follows its tool call in both parts iff it does in the messages that are split |
| TailSplit.CutKeepsPairsIff | internal/core/compact/boundary.go:93-99 | cutting a well-paired history at the last boundary keeps it well paired iff nothing comes before the boundary or it carries no tool result |
| Attachments.CreatePostCompactFileAttachments | internal/core/compact/attachments.go:50-98 | the most recently read files, at most maxFiles, and of these the budgeted selection, trimmed, in order |
| Attachments.LatestFirst | internal/core/compact/attachments.go:58-72 | the files are in the order in which they were read, the latest first, and none is left out for one that was read earlier |
| Attachments.CreateSkillAttachment | internal/core/compact/attachments.go:122-180 | one attachment with the budgeted selection of the skills, newest first; none iff nothing is selected |
| Attachments.NewestFirst | internal/core/compact/attachments.go:131-134 | no skill was invoked later than one before it, and each is there as often as it was given |
| Attachments.ChargeIs | internal/core/compact/attachments.go:144-150 | a text is charged what it costs, at most the limit, and one that costs more is cut to four characters a token |
| Attachments.SectionIs | internal/core/compact/attachments.go:166-173 | what the section of one skill contains |
| Attachments.SectionsConcat | internal/core/compact/attachments.go:166-173 | the sections follow one another with an empty line between |
| Attachments.SelectionIsMaximal | internal/core/compact/attachments.go:75-95 | the charges stay within the budget, and no skipped candidate fits into what remains |
| Attachments.RestoredFilesAllFit | internal/core/compact/attachments.go:9-15 | with the limits that are set the token budget for files never binds: every file that is restored is attached, trimmed |
| Attachments.NewestSkillsFit | internal/core/compact/attachments.go:9-15 | with the limits that are set the five skills invoked last are always put back, trimmed |
| Attachments.SelectionEstimateIff | internal/core/compact/attachments.go:182-192 | the real estimate of the kept contents lies between the charge and four times the charge, and does not exceed the charge iff every text that is taken stays within its own |
| Attachments.KeptEstimateIff | internal/core/compact/attachments.go:185-192 | one text cut by characters and charged by bytes stays within its charge iff it fits whole, or is longer than what is kept of it and that is all ASCII |
| Attachments.AsciiSelectionIsExact | internal/core/compact/attachments.go:182-192 | ASCII texts are charged exactly |
| Attachments.ChargeMayBeExceeded | internal/core/compact/attachments.go:182-192 | an example: eight three-byte characters kept for a charge of two tokens cost six |
| PathMatch.MatchIffRuns | internal/core/permission/filesystem_policy.go:524-549 | the backtracking matcher succeeds iff the path is a concatenation of one run per segment, any run for the wildcard and one matching name otherwise |
| PathMatch.MatchConcat | internal/core/permission/filesystem_policy.go:524-549 | a path matches two patterns in a row iff it splits into a match of each |
| PathMatch.RepeatedRunCollapses | internal/core/permission/filesystem_policy.go:529-537 | a repeated run wildcard matches the same paths as a single one, wherever it stands |
| PathMatch.TrailingRunCoversTree | internal/core/permission/filesystem_policy.go:529-537 | a pattern with a trailing run wildcard matches exactly what some prefix of the path matches |
| PathMatch.PlainMatch | internal/core/permission/filesystem_policy.go:539-548 | without the wildcard the segments are compared one by one, and lengths must agree |
| PathMatch.CoveredWithQueryIff | internal/core/permission/filesystem_policy.go:463-549 | every pattern that matches a plain path listed by the query matches the query itself iff the query lists no plain path but itself |
| PathMatch.AnyRunIsNotCovered | internal/core/permission/filesystem_policy.go:463-549 | an example: the run wildcard lists a file of a directory, and the pattern for that directory matches the file but not the query |
| FilesystemPolicy.RuleCoversTree | internal/core/permission/filesystem_policy.go:441-461 | a rule with a trailing run wildcard covers everything at or below what it names |
| FilesystemPolicy.WithinIff | internal/core/permission/filesystem_policy.go:370-385 | a path lies within a root iff it can be named from there and the first segment of that name is not `..` |
| FilesystemPolicy.SplitIff | internal/core/permission/filesystem_policy.go:516-521 | a path splits into exactly those names without slashes that, joined with slashes, make it up |
| FilesystemPolicy.SegmentsIff | internal/core/permission/filesystem_policy.go:497-521 | the names that are matched are those of the cleaned path, without a leading `./`, and none for the root |
| FilesystemPolicy.MatchRuleIff | internal/core/permission/filesystem_policy.go:441-461 | a rule covers a path iff the path lies inside the root of the rule and its name from there is made of runs that the segments of the pattern accept; it cannot be decided iff the rule has no root |
| FilesystemPolicy.MatchGlobRuleIff | internal/core/permission/filesystem_policy.go:464-494 | the same for a query behind the name of the directory it starts from |
| FilesystemPolicy.RuleStaysInItsRoot | internal/core/permission/filesystem_policy.go:451-453 | a rule never covers a path outside its own root, and no query that starts there |
| FilesystemPolicy.MatchingRule | internal/core/permission/filesystem_policy.go:388-438 | finds the first rule with the decision that covers the access, and none iff there is none; a rule that fails to match is passed over |
| FilesystemPolicy.OrderDoesNotMatter | internal/core/permission/filesystem_policy.go:110-165 | the decision depends only on which rules there are |
| FilesystemPolicy.OneMoreRule | internal/core/permission/filesystem_policy.go:110-165 | the exact effect of one more rule, wherever it is put: deny wins, ask yields only to deny, allow yields to both, an undecidable rule does nothing |
| FilesystemPolicy.Policy.EvaluateRead | internal/core/permission/filesystem_policy.go:110-165 | deny, ask, workspace, allow, then ask; and the first rule that makes the decision |
| FilesystemPolicy.Policy.EvaluateWrite | internal/core/permission/filesystem_policy.go:262-309 | the same ladder on the write rules, without the workspace |
| FilesystemPolicy.Policy.PathAllowedForRead | internal/core/permission/filesystem_policy.go:239-249 | true iff the path lies in the working directory or some added root |
| FilesystemPolicy.Policy.AddReadRoot | internal/core/permission/filesystem_policy.go:32-48 | adds the normalised root once, at the end |
| FilesystemPolicy.Policy.EvaluateFilesystem | internal/core/permission/filesystem_policy.go:51-107 | an invalid request or path is denied, a grant beats every rule, everything else goes by the ladder |
| FilesystemPolicy.RequestIff | internal/core/permission/filesystem_policy.go:51-107 | which requests are denied and which are allowed, said with the roots and the rules that cover the path; all others are asked about |
| FilesystemPolicy.OutsideNeedsRule | internal/core/permission/filesystem_policy.go:110-165 | an ungranted read outside the working directory and every added root is allowed only if an allow rule covers it, from a root of its own that the path lies inside |
| FilesystemPolicy.ReportedRule | internal/core/permission/filesystem_policy.go:388-411 | the rule that is reported is the first with the decision that covers the path, and there is none iff the workspace or the default decides |
| FilesystemPolicy.Policy.CheckReadPermissionForGlob | internal/core/permission/filesystem_policy.go:178-236 | the read ladder with the query itself matched like a path |
| FilesystemPolicy.QueryIff | internal/core/permission/filesystem_policy.go:178-236 | which glob queries are denied and which are allowed |
| FilesystemPolicy.QueryAgainstListed | internal/core/permission/filesystem_policy.go:463-492 | a rule decides a glob query like a path it lists if the query is that path; a rule that names just that path covers the path, and the query iff it is that path |
| FilesystemPolicy.WithFilesystemGrant | internal/core/permission/grant.go:22-36 | whatever the rules and roots, with the new grants just the given request is allowed too, if it is valid, and every other decision stays |
| FilesystemPolicy.HasFilesystemGrant | internal/core/permission/grant.go:39-51 | true iff the very request was granted |
| FilesystemPolicy.GrantAllowsOnlyItself | internal/core/permission/grant.go:22-51 | a grant allows exactly the granted request and changes no other decision |
| FilesystemPolicy.ReadRootOnlyAllows | internal/core/permission/filesystem_policy.go:32-48 | an added root turns asking into allowing exactly for valid, ungranted reads inside it that no rule asks about, and changes no other decision |
| Mailbox.Inbox.WriteToMailbox | internal/platform/mailbox/mailbox.go:137-173 | appends the message as unread |
| Mailbox.Inbox.ReadUnreadMessages | internal/platform/mailbox/mailbox.go:119-132 | the unread messages in inbox order |
| Mailbox.Inbox.MarkMessagesAsRead | internal/platform/mailbox/mailbox.go:176-216 | flags every message, changes nothing else |
| Mailbox.Inbox.MarkMessageAsReadByIndex | internal/platform/mailbox/mailbox.go:241-285 | flags the one message, or nothing when the index is out of range |
| Mailbox.Inbox.MarkMessagesAsReadByPredicate | internal/platform/mailbox/mailbox.go:291-338 | flags exactly the unread messages that the predicate picks |
| InboxPoller.KeysEqualIff | internal/platform/mailbox/inbox_poller.go:105-112 | two messages share a key iff sender and time agree, or one sender's name is the other's, a NUL and the beginning of a timestamp that continues accordingly |
| InboxPoller.KeysIdentify | internal/platform/mailbox/inbox_poller.go:105-112 | without NUL in the timestamps, or without NUL in the names, equal keys mean equal sender and equal time |
| InboxPoller.SendersConfusableIff | internal/platform/mailbox/inbox_poller.go:105-112 | two different senders can share a key iff the one name begins with the other and a NUL |
| InboxPoller.NulConfusesKeys | internal/platform/mailbox/inbox_poller.go:105-112 | an example of two such messages |
| InboxPoller.InboxOnlyGrows | internal/platform/mailbox/mailbox.go:137-173 | in every interleaving the inbox keeps every message, its place and its contents, and never unsets a flag |
| InboxPoller.MarkIsSafeIff | internal/platform/mailbox/inbox_poller.go:101-114 | marking flags only delivered messages iff no undelivered unread message shares a key with the batch |
| InboxPoller.NeverMarksUndelivered | internal/platform/mailbox/inbox_poller.go:92-115 | without late twins (a message that arrived after the start with the key of an earlier one unread at the start) no interleaving of writers, failures and polls flags a message that was not delivered |
| InboxInterleavings.NothingIsLostIff | internal/platform/mailbox/inbox_poller.go:92-115 | given the inbox at the start and the messages that writers send: in every interleaving only delivered messages are flagged iff there is no late twin |
| InboxInterleavings.ExactlyOnceIff | internal/platform/mailbox/inbox_poller.go:92-115 | given the same, and no failed mark: in every interleaving each message is delivered at most once, in inbox order, and between polls flagged means delivered, iff there is no late twin |
| InboxInterleavings.TwinIsLost | internal/platform/mailbox/inbox_poller.go:105-114 | from any state between polls, a message that arrives with the key of one being handed over is flagged without delivery |
| InboxPoller.MissedForGood | internal/platform/mailbox/inbox_poller.go:92-96 | such a message is never delivered by any later step |
| InboxPoller.ExactlyOnceInOrder | internal/platform/mailbox/inbox_poller.go:92-115 | without late twins and failed marks every message is delivered at most once and in inbox order, and between polls flagged means delivered |
| InboxPoller.RepeatedIff | internal/platform/mailbox/inbox_poller.go:92-115 | in every interleaving, whatever the keys, some message is delivered twice iff a mark failed and a later poll read and delivered |
| InboxPoller.FailedMarkRepeats | internal/platform/mailbox/inbox_poller.go:109-114 | a poll whose mark fails delivers the same messages again |
| InboxPoller.WholePoll | internal/platform/mailbox/inbox_poller.go:92-115 | a complete poll with writers in between delivers and flags exactly what was unread at its start, and of what came later flags exactly what shares a key with it |
| InboxPoller.Poller.ReadStep | internal/platform/mailbox/inbox_poller.go:92-96 | takes the unread messages, or nothing when the read fails or finds none |
| InboxPoller.Poller.DeliverStep | internal/platform/mailbox/inbox_poller.go:98-99 | hands the batch over once |
| InboxPoller.Poller.MarkStep | internal/platform/mailbox/inbox_poller.go:101-114 | builds the key set and flags by it in the inbox as it is then |
| CircuitBreaker.CircuitBreaker.constructor | internal/core/model/circuit_breaker.go:67-84 | starts closed; each setting that is zero or negative gets its default |
| CircuitBreaker.CircuitBreaker.CanExecute | internal/core/model/circuit_breaker.go:90-114 | answers and changes state as the history says |
| CircuitBreaker.CircuitBreaker.RecordSuccess | internal/core/model/circuit_breaker.go:119-135 | keeps the state equal to the replay of all calls so far |
| CircuitBreaker.CircuitBreaker.RecordFailure | internal/core/model/circuit_breaker.go:140-159 | keeps the state equal to the replay of all calls so far |
| CircuitBreaker.AlwaysAgrees | internal/core/model/circuit_breaker.go:67-159 | in every reachable state: closed means failures since the last success, below the threshold; otherwise exactly the threshold; trial counters within their limits; trip count equals the entries to open |
| CircuitBreaker.OpensAtThreshold | internal/core/model/circuit_breaker.go:146-151 | a closed breaker opens exactly at the report that makes the trailing failures reach the threshold |
| CircuitBreaker.ClosedGrants | internal/core/model/circuit_breaker.go:90-114 | a closed breaker permits every request and is left as it was |
| CircuitBreaker.ClosedWhileBelow | internal/core/model/circuit_breaker.go:90-159 | over every history the breaker is closed all along iff the threshold of failures in a row is never reached, and then every request is permitted |
| CircuitBreaker.FewFailuresGrantAll | internal/core/model/circuit_breaker.go:90-159 | while fewer failures than the threshold have been reported since the start, every request is permitted |
| CircuitBreaker.NoEarlyGrant | internal/core/model/circuit_breaker.go:94-111 | unless closed, nothing is granted before the timeout has passed since the latest failure |
| CircuitBreaker.LateGrant | internal/core/model/circuit_breaker.go:94-108 | an open breaker grants iff the timeout has passed since the latest failure |
| CircuitBreaker.PeriodIsBounded | internal/core/model/circuit_breaker.go:104-110 | each half-open period grants at most the permitted number of trials |
| CircuitBreaker.UnreportedTrialsBlock | internal/core/model/circuit_breaker.go:90-114 | without a report a half-open breaker grants what is left of its limit and then nothing, whatever the clock says |
| CircuitBreaker.ClosesIff | internal/core/model/circuit_breaker.go:126-134 | without failures a half-open breaker is closed with zero counters iff enough successes were reported, in any interleaving |
| CircuitBreaker.RecoversAtThreshold | internal/core/model/circuit_breaker.go:90-135 | without failures, and with no more successes than trials granted, an opened breaker is closed with zero counters iff the threshold of successes was reported, in any interleaving |
| CircuitBreaker.TrialsClose | internal/core/model/circuit_breaker.go:90-135 | with a threshold within the trial limit, that many trials reported as successes close an opened breaker |
| CircuitBreaker.RecoversFromTrialsIff | internal/core/model/circuit_breaker.go:104-134 | an opened breaker can close from successful trials alone iff the success threshold does not exceed the trial limit |
| DiagnosticKey.KeyIdentifies | internal/platform/lsp/diagnostics.go:76-85 | diagnostics without a bar in source and code are equal iff their keys are, whatever their messages contain |
| DiagnosticKey.KeyIdentifiesAnyCode | internal/platform/lsp/diagnostics.go:76-85 | so are diagnostics without a bar in message and source, whatever their codes contain |
| DiagnosticKey.KeysEqualIff | internal/platform/lsp/diagnostics.go:76-85 | any two diagnostics share a key iff they are equal, or agree but for source and code with the one source beginning with the other and a bar, or all before the one source begins with all before the other and a bar, with the remaining texts continuing accordingly |
| DiagnosticKey.SourcesShareKeyIff | internal/platform/lsp/diagnostics.go:76-85 | one report under two sources and codes has one key iff both agree, or one source is the other, a bar and the beginning of a code that continues accordingly |
| DiagnosticKey.SourcesConfusableIff | internal/platform/lsp/diagnostics.go:76-85 | for one report and some codes, two different sources share a key iff the one begins with the other and a bar |
| DiagnosticKey.ReportsConfusable | internal/platform/lsp/diagnostics.go:76-85 | for any two reports, the first with some code and the second with some message are different diagnostics with one key, whatever their sources |
| DiagnosticKey.BarConfusesKeys | internal/platform/lsp/diagnostics.go:76-85 | an example of two such sources |
| FileDedup.AdjacentSettles | internal/platform/lsp/diagnostics.go:88-113 | with equal names next to each other each name gets exactly its own fresh diagnostics, in order |
| FileDedup.AttributedIffAdjacent | internal/platform/lsp/diagnostics.go:93-100 | for a given order of names every diagnostic ends under its own name, whatever is reported and known, iff equal names are adjacent |
| PendingOrder.EveryOrderAdjacentIff | internal/platform/lsp/diagnostics.go:144-157 | pending batches have equal names adjacent in whatever order the map yields them iff each batch has and no two batches share a name, or there is one name only |
| DiagnosticRegistry.ChecksAttributeIff | internal/platform/lsp/diagnostics.go:129-183 | given the file names of each pending batch: every check puts every diagnostic under its own name, whatever is reported, in whatever order and whatever was delivered before, iff each batch has equal names adjacent and no two batches share a name, or there is one name only |
| DiagnosticDelivery.SortIsStable | internal/platform/lsp/diagnostics.go:333-342 | the sort orders by severity and keeps the order within each severity |
| DiagnosticDelivery.StableSortIsUnique | internal/platform/lsp/diagnostics.go:333-342 | no other list is ordered and keeps the order within each severity |
| DiagnosticDelivery.DeliveryIsLimited | internal/platform/lsp/diagnostics.go:186-215 | at most 10 diagnostics a file and 30 in all, every list a prefix of the sorted deduplicated list of its file |
| DiagnosticDelivery.NothingIsWithheld | internal/platform/lsp/diagnostics.go:186-215 | as many are delivered as the caps permit; when the files together want no more than 30, every file that is kept is delivered with the first ten of its sorted list |
| DiagnosticDelivery.DeliveryShape | internal/platform/lsp/diagnostics.go:88-215 | with adjacent names, a prefix of the sorted list of everything new that was reported for the file |
| DiagnosticDelivery.NewsIsDelivered | internal/platform/lsp/diagnostics.go:88-215 | with adjacent names, and unless the files want more than 30 together, the first ten of the sorted list of everything new that was reported for a file are delivered under its name |
| DiagnosticHistory.DeliveryIsNew | internal/platform/lsp/diagnostics.go:97-112 | with adjacent names nothing is delivered under a name that the index already holds there |
| DiagnosticHistory.DeliveryIsNewIff | internal/platform/lsp/diagnostics.go:97-112 | for a given order of names nothing already known under a name is delivered under it, whatever is reported and known, iff equal names are adjacent |
| DiagnosticHistory.DeliveryHasNoRepeats | internal/platform/lsp/diagnostics.go:88-124 | with adjacent names one delivery repeats neither a file nor a key within a file |
| DiagnosticHistory.DeliveryHasNoRepeatsIff | internal/platform/lsp/diagnostics.go:88-124 | for a given order of names no delivery repeats a file or a key, whatever is reported and known, iff equal names are adjacent |
| DiagnosticHistory.RecordedKeys | internal/platform/lsp/diagnostics.go:230-239 | recording adds exactly the delivered keys under their names |
| DiagnosticHistory.IndexIsBounded | internal/platform/lsp/diagnostics.go:241-244 | in every run the index holds at most 500 files |
| DiagnosticHistory.NotDeliveredTwice | internal/platform/lsp/diagnostics.go:129-303 | in every run with adjacent names, a key delivered twice under a name was evicted, cleared or reset in between |
| DiagnosticHistory.NotDeliveredTwiceIff | internal/platform/lsp/diagnostics.go:129-303 | for a given order of names, in every run a delivery of files of these names repeats only what was forgotten in between iff equal names are adjacent |
| DiagnosticRegistry.SortDiagnosticsBySeverity | internal/platform/lsp/diagnostics.go:333-342 | the insertion sort in place computes the stable sort |
| DiagnosticRegistry.SeveritySorts | internal/platform/lsp/diagnostics.go:333-342 | the smallest severity number comes first, and the diagnostics of each severity keep their order |
| DiagnosticRegistry.LSPDiagnosticRegistry.RegisterPending | internal/platform/lsp/diagnostics.go:53-72 | adds one batch under an id not in use |
| DiagnosticRegistry.LSPDiagnosticRegistry.DeduplicateFiles | internal/platform/lsp/diagnostics.go:88-124 | the nested loops compute the deduplication, empty files removed |
| DiagnosticRegistry.CapVolume | internal/platform/lsp/diagnostics.go:186-205 | the loop sorts every file and applies both caps |
| DiagnosticRegistry.LSPDiagnosticRegistry.EvictDeliveredFiles | internal/platform/lsp/diagnostics.go:314-330 | removes just enough files to leave two thirds of the limit |
| DiagnosticRegistry.LSPDiagnosticRegistry.CheckForDiagnostics | internal/platform/lsp/diagnostics.go:129-263 | takes all pending batches in some order, delivers what deduplication, sort and caps leave, remembers it and evicts; with only empty batches pending nothing changes |
| DiagnosticRegistry.LSPDiagnosticRegistry.ClearDeliveredForFile | internal/platform/lsp/diagnostics.go:293-303 | forgets one file and nothing else |
| DiagnosticRegistry.LSPDiagnosticRegistry.ResetAll | internal/platform/lsp/diagnostics.go:278-288 | forgets everything |
| DiagnosticRegistry.LSPDiagnosticRegistry.ClearPending | internal/platform/lsp/diagnostics.go:267-275 | drops the pending batches and keeps the index |
| Decimal.AtoiOfPrint | internal/platform/lsp/jsonrpc.go:79-103 | a printed number is read back |
| Framing.Connection.WriteMessage | internal/platform/lsp/jsonrpc.go:74-87 | appends header and body |
| Framing.Connection.ReadMessage | internal/platform/lsp/jsonrpc.go:91-122 | consumes and answers as specified, errors included |
| Framing.FrameRoundTrip | internal/platform/lsp/jsonrpc.go:74-122 | a written frame is read back as its body whatever it contains and whatever follows |
| Framing.FramesRoundTrip | internal/platform/lsp/jsonrpc.go:74-122 | any list of frames is read back in order and the trailing bytes stay unread |
| Framing.CutFrameFails | internal/platform/lsp/jsonrpc.go:91-115 | a frame cut off anywhere reads as the end of the input, never as a body |
| Framing.ReadsBodyIff | internal/platform/lsp/jsonrpc.go:91-115 | exactly which inputs are read as a body |
| Framing.ReadsOtherwise | internal/platform/lsp/jsonrpc.go:91-115 | what every other input gives, and how much of it is consumed |
| Framing.ReadsMessageIff | internal/platform/lsp/jsonrpc.go:91-115 | a message with further header fields before or after the content length is read back as its body iff there are none |
| Framing.FieldAfter | internal/platform/lsp/jsonrpc.go:107-115 | with fields after the content length, exactly what is read instead of the body, and how much is left over |
| Framing.FieldBefore | internal/platform/lsp/jsonrpc.go:91-105 | a field before the content length is taken for a malformed header |
| RefreshDeduper.AlwaysConsistent | internal/platform/oauth/dedup.go:44-66 | in every interleaving each call stands where its flight says |
| RefreshDeduper.PendingIffLed | internal/platform/oauth/dedup.go:46-63 | a key is in the table iff some call leads a flight for it and has not cleaned up, and then only one does |
| RefreshDeduper.OneRefreshPerKey | internal/platform/oauth/dedup.go:44-66 | at any time at most one refresh function runs for a key |
| RefreshDeduper.ReturnsLeadersResult | internal/platform/oauth/dedup.go:47-65 | every call returns exactly what its flight's function returned, and nothing at all when that function panicked |
| RefreshDeduper.EndingIs | internal/platform/oauth/dedup.go:44-66 | what a flight holds is what the first event says in which its refresh function finished or panicked |
| RefreshDeduper.EmptyWhenDone | internal/platform/oauth/dedup.go:58-63 | when every call has ended the table is empty |
| RefreshDeduper.StepsAdvance | internal/platform/oauth/dedup.go:44-66 | corollary of the step function: a step moves one call one step nearer to its end and no other call |
| RefreshDeduper.SomeoneCanStep | internal/platform/oauth/dedup.go:47-50 | as long as a call has not ended, some call can take a step |
| RefreshDeduper.Deduper.Begin | internal/platform/oauth/dedup.go:45-56 | joins the flight in the table, or starts one, under the lock |
| RefreshDeduper.Deduper.StoreResult | internal/platform/oauth/dedup.go:65-66 | the leader's outcome is stored in its flight |
| RefreshDeduper.Deduper.Panicking | internal/platform/oauth/dedup.go:58-65 | a panic of the function stores nothing and leaves the flight to the deferred cleanup |
| RefreshDeduper.Deduper.RemoveKey | internal/platform/oauth/dedup.go:58-61 | the key leaves the table |
| RefreshDeduper.Deduper.CloseDone | internal/platform/oauth/dedup.go:62-63 | the waiters are released |
| RefreshDeduper.Deduper.Await | internal/platform/oauth/dedup.go:47-50 | a released waiter returns the outcome of its flight |
| RefreshDeduper.Deduper.PendingCount | internal/platform/oauth/dedup.go:71-75 | the number of tracked keys; zero when every call has ended |
| SettingsTree.GetAfterSet | internal/platform/config/settings_writer.go:165-232 | get after set returns the value |
| SettingsTree.GetBelow | internal/platform/config/settings_writer.go:214-232 | a lookup along a longer path is a lookup in what the shorter one finds |
| SettingsTree.SetTwice | internal/platform/config/settings_writer.go:165-187 | of two sets at one path the later wins |
| SettingsTree.SetElsewhere | internal/platform/config/settings_writer.go:165-187 | a set leaves every incomparable path as it was, through overwritten scalars too |
| SettingsTree.SetsCommute | internal/platform/config/settings_writer.go:165-187 | sets at incomparable paths commute |
| SettingsTree.UnsetElsewhere | internal/platform/config/settings_writer.go:191-210 | an unset leaves every incomparable path as it was, through pruned maps too |
| SettingsTree.UnsetDeletes | internal/platform/config/settings_writer.go:191-210 | an unset reports a deletion iff the path led somewhere; afterwards it does not; without a deletion nothing changes |
| SettingsTree.UnsetLeavesNoEmptyMap | internal/platform/config/settings_writer.go:202-209 | no map on the way to a deleted path is left empty |
| SettingsTree.UnsetAfterSetRestoresIff | internal/platform/config/settings_writer.go:165-210 | unset after set restores the document iff the path led nowhere, met no scalar and passed no empty map |
| SettingsTree.CleanlyAbsentIff | internal/platform/config/settings_writer.go:214-232 | that condition said with lookups only |
| SettingsMap.SetNestedKey | internal/platform/config/settings_writer.go:165-187 | the change in place keeps the maps a tree and computes the set, touching only maps of the document |
| SettingsMap.UnsetNestedKey | internal/platform/config/settings_writer.go:191-210 | the change in place computes the unset with its answer |
| SettingsMap.GetNestedValue | internal/platform/config/settings_writer.go:214-232 | the lookup finds what the document holds at the path |
| SettingsMap.BuildNestedMap | internal/platform/config/settings_writer.go:235-240 | new maps nested along the path with the value inside |
| Transcript.EntriesFromMessage | internal/core/transcript/entry.go:180-202 | the main entry, if the role has one, followed by one index entry for each tool call and result |
| Transcript.EntriesAre | internal/core/transcript/entry.go:180-202 | what the entry of a message and of each tool call and tool result holds |
| Transcript.RecoverEntries | internal/core/transcript/recovery.go:76-141 | the loop with its pending slot recovers what adding entry by entry recovers |
| Transcript.AddsIff | internal/core/transcript/recovery.go:76-189 | exactly which entries have an effect on what is recovered, and which |
| Transcript.RecoverWritten | internal/core/transcript/recovery.go:76-141 | recovering anything that was written gives the user and assistant messages and the summaries with text in order, and each boundary with the number of messages before it |
| Transcript.RecoverRoundTripIff | internal/core/transcript/recovery.go:76-189 | everything that was written is recovered, each compaction at its place, iff every message is the user's or the assistant's and every summary has a text; the first decides about the messages alone, the second about the summaries alone |
| Transcript.DialogueRoundTripIff | internal/core/transcript/recovery.go:76-189 | the user and assistant messages are recovered with all summaries and compactions iff every summary has a text |
| Transcript.OtherRolesAreLost | internal/core/transcript/entry.go:180-202 | an example: a lone message of the system or of a tool |
| Transcript.IgnoredAnywhere | internal/core/transcript/recovery.go:88-133 | invalid, unknown, progress and tool entries can stand anywhere without changing what is recovered |
| Transcript.EmptySummaryIsLost | internal/core/transcript/recovery.go:183-189 | an example: a lone summary without text |
| EventExporter.ChunkEvents | internal/platform/analytics/firstpartyeventloggingexporter.go:480-490 | the loop cuts the events into consecutive chunks |
| EventExporter.ChunksPartition | internal/platform/analytics/firstpartyeventloggingexporter.go:480-490 | chunks re-join to the events; none is empty or too long, and all but the last are full |
| EventExporter.Exporter.SendEventsInBatches | internal/platform/analytics/firstpartyeventloggingexporter.go:171-206 | stops at the first refused batch and returns it with all later ones |
| EventExporter.SendConservesIff | internal/platform/analytics/firstpartyeventloggingexporter.go:171-206 | accepted followed by failed events are the events sent, in order, iff the send is not cut short by a cancellation between batches |
| EventExporter.SendIs | internal/platform/analytics/firstpartyeventloggingexporter.go:171-206 | which chunks of a send are accepted, which have failed and which are not sent, by the first that is not just accepted |
| EventExporter.Exporter.Export | internal/platform/analytics/firstpartyeventloggingexporter.go:130-167 | where every event goes after shutdown, at the limit of attempts, with the kill switch and after a send; the count it reports; no error iff every event was accepted, and an error without a failed event iff the export is cut short |
| EventExporter.Exporter.RetryFailedEvents | internal/platform/analytics/firstpartyeventloggingexporter.go:397-448 | the loop ends; the queue is given up at the limit, otherwise sent, and what fails is queued again |
| EventExporter.ExportLeavesEvents | internal/platform/analytics/firstpartyeventloggingexporter.go:130-167 | where an export leaves its events: refused after shutdown, dropped at the limit, queued under the kill switch; otherwise those that were not accepted are put at the end of the queue, in order, and nothing is dropped |
| EventExporter.RetryLeavesEvents | internal/platform/analytics/firstpartyeventloggingexporter.go:397-448 | where a retry leaves the queue: dropped at the limit; otherwise the chunks before the first refused one are accepted and the others are the queue |
| EventExporter.Exporter.ShutDown | internal/platform/analytics/firstpartyeventloggingexporter.go:467-476 | the exporter is shut down and its count of attempts is zero; queue and past deliveries stay |
| EventExporter.EventsAreConserved | internal/platform/analytics/firstpartyeventloggingexporter.go:130-464 | over every run each event is in exactly one place, as often as it was given |
| EventExporter.NothingIsLostIff | internal/platform/analytics/firstpartyeventloggingexporter.go:130-464 | nothing is lost in a run iff no export of it that sends its events is cut short by a cancellation |
| EventExporter.NothingIsLost | internal/platform/analytics/firstpartyeventloggingexporter.go:130-464 | in runs without an export cut short nothing is lost: every event is accepted, queued, dropped at the limit (DroppedOnlyAtLimit), or refused after shutdown |
| EventExporter.DroppedOnlyAtLimit | internal/platform/analytics/firstpartyeventloggingexporter.go:130-464 | events are dropped only by a step that finds the attempts used up, and refused only by an export after shutdown |
| EventExporter.NothingDroppedBelowLimit | internal/platform/analytics/firstpartyeventloggingexporter.go:130-464 | over every run nothing is dropped unless some step finds the attempts used up |
| EventExporter.AttemptsAreBounded | internal/platform/analytics/firstpartyeventloggingexporter.go:397-464 | the count of attempts never exceeds its limit, and is positive only while events are queued and nothing is shut down, so that a retry can reset it |
| EventExporter.GivesUpIff | internal/platform/analytics/firstpartyeventloggingexporter.go:417-424 | corollary of the bound: a retry gives queued events up iff it finds the limit reached, and then all of them |

## Left out

- Task ids are natural numbers: task ids that are not decimal numerals, files with other names and machine overflow of
  ids are not modelled.
- Failing reads and writes inside a task operation are modelled only as the operation being cut off; unreadable task
  files and a partly written mark file are not.
- Get and List of the task store, list ids and path sanitising: they only read, or only build names.
- TaskStore.FileStore.Create: does not model the creation of the directory, because the directory is the state itself.
- Compaction.SummarizeWithRetries: does not model the stripping of images before the split, the prompt text and the
  formatting of the summary, because they do not influence the loop.
- Compaction.RoundsFall: a fifth of the groups is integer division where the code multiplies by the floating-point
  number 0.2 and truncates.
- PartialCompactConversation, automatic triggering and context-window sizes.
- Attachments.CreatePostCompactFileAttachments: the sort is specified by its result, with ties in any order; limits are
  natural numbers, negative ones make the original fail. CreateSkillAttachment does not model that the original
  reorders the caller's slice.
- Texts are sequences of characters that UTF-8 can encode; invalid byte sequences are not modelled.
- FilesystemPolicy.Policy.EvaluateFilesystem: the messages for invalid requests and paths leave out the wrapped error
  text. Validation of rules at construction, Bash grants and web grants are left out.
- The two rule searches for paths and for globs are one method with the matcher as argument, and the common part of the
  two read ladders is one method.
- Mailbox: the inbox of one agent; names, locks and JSON are left out, and ClearMailbox, which is not locked. A failed
  read or mark stands for every failure in those operations, including the unlocked look at the inbox before a mark.
- Starting and stopping the poller's timer.
- CircuitBreaker: the clock is an argument; its reads under the lock are taken to be in order. The plain accessors.
- DiagnosticRegistry.LSPDiagnosticRegistry.CheckForDiagnostics: the server names are returned as a set, where the
  original joins them in map order; time stamps of batches and the flag that is set and cleared within one call are left
  out. PendingCount and logging.
- Framing: one character stands for one byte; white space is ASCII; JSON, failing writers and the range check of the
  length are left out. A negative length makes the original fail and is the result `Panics`.
- RefreshDeduper: blocking on the channel is a step that becomes possible when the channel is closed; the nested `Do` of
  a refresh function on its own key, which would wait for itself, is not a call of the model.
- SettingsTree: scopes, files, schema validation and JSON around the tree operations.
- SettingsMap.SetNestedKey: values that are arrays are scalars here. The value shares no map with the document: the
  only caller loads the document from its file after it was given the value
  (internal/platform/config/settings_writer.go:83-97). A shared map would make the document no tree.
- Transcript: files, lines and JSON; the data of progress entries and tool arguments are opaque.
- EventExporter: steps run one after another, so an export that overlaps a retry is not modelled; back-off times,
  authentication and failing disk writes are left out. Events refused after shutdown are a place of their own.
