# Borg coordination, modelled and proved in Dafny

Borg coordinates parallel agents over IRC. Every agent keeps its own replica of tasks, dependencies, claims, contexts
and reviews, and the replicas are driven by one-line messages of the form `ACTION key=value #tag`. This project models
the parts of Borg that make this work and proves what holds of them over every input and every run.

Check it with `dafny verify dfyconfig.toml`.

## The modules

- `Graph`, `State`, `StateLaws`, `StateHistory`, `StateEffects`: the dependency edges and the task store. Both graph searches are proved against
  reachability, every run keeps the open edges acyclic, and an order of completions that releases everything exists
  exactly when no open blocker is nameless. An edge is resolved exactly when its blocker was completed after it was recorded,
  and every field of a task is what the last message about it said.
- `Text`, `Wire`, `WireLaws`, `WireExact`: the wire format. The tokenizer and the serializer are index and builder loops
  proved against a reader of items and a printer of items, which are then proved inverse to each other, with the exact
  condition for all messages.
- `Irc`, `Roles`, `Notifier`, `ContextSharing`, `Coordinator`, `Federation`, `Dispatcher`, `HandlingLaws`: what one incoming line changes
  and what it makes an agent send, in the classes of the program.
- `Replica`, `AgentRuns`: any number of agents that see the same log hold the same tasks, first for the log alone, then for
  runs of whole dispatchers over it.
- `Storm`: every automatic line ranks strictly below the line that caused it, so one message never starts an endless
  cascade, however many agents, roles, rules and federation links there are.
- `RateLimiting`, `TaskBoard`, `Workflow`, `Inspector`, `Review`, `Cost`, `Lists`: smaller machines, each proved against
  an independent specification. `Protocol` and `Sequences` hold shared definitions.

## How the model reads the program

- A method that holds a lock is one atomic step. Time is a parameter of the operation that reads the clock.
- Records that the program shares by reference are values in the maps and lists that hold them.
- The order in which a map is visited is arbitrary, so contracts speak of sets or allow every order.
- Sending a line appends to a log; the order of the registered handlers, kept in a map, is a free choice.
- The access rules, the credential check, `%q` and `strings.ToLower` are arbitrary functions: results hold for all of them.
- `strings.TrimSpace` removes all Unicode white space, while items are separated by space and tab only. The difference
  is kept, and `WireExact` says exactly what it costs.

## Where code and comments differ

The model follows the code.

- Without claim jitter a comment says that the first claim wins; each claim is its own batch, so the last one holds the
  offer (`TaskBoard.FirstClaimWinsIffLast`).
- `AddDependency` takes an edge whose blocker has no name, which no message can ever resolve
  (`StateLaws.NamelessBlockerDeadlocks`).
- `AdvanceStage` consults neither the required gates nor the required reviews of a stage
  (`Workflow.RequirementsAreIgnored`).
- `UnblockedTasks` is said to report the blocked tasks whose dependencies are all resolved. A blocker completed before it is
  named leaves its task waiting (`StateHistory.DoneButNotReady`), and a resolved pair is never opened again
  (`StateHistory.ReadyButNotDone`). When a task is reported is `StateHistory.ReadyIffCompletedSince`.
- An acknowledgement's `unblocked-by` names the triggering task, which need not have been a blocker
  (`Coordinator.BystanderIsCredited`); `Coordinator.CreditIffJustReleased` says when it was.
- The entry that holds a payload of an agent without announcements can collide with a component of that name
  (`ContextSharing.PayloadEntryOverwrites`); otherwise announcements are kept (`ContextSharing.LastAnnouncementIsHeld`).
- A payload is said to go to the component last requested from its sender; requests play no part, and it goes to any entry of
  the sender (`ContextSharing.AnyOwnEntryMayGetIt`).
- Values are not escaped: one that starts with a quote, or that needs quoting and holds a quote, does not survive the wire
  (`WireExact.RoundTripExactly` has the exact condition).
- The first word is compared after `strings.ToUpper`, so Parse accepts actions in small letters that the cheap check before it
  rejects (`WireLaws.SmallLettersAreDropped`); `WireLaws.AdmittedIffCapitals` has the exact condition.

## Model

| member | source | states |
|---|---|---|
| Graph.AppendAcyclicIff | internal/agent/state.go:200-226 | The guard is exact: adding an open edge keeps the open edges acyclic if and only if the two tasks differ and the blocker does not already wait, directly or not, for the blocked task |
| Graph.AppendKeepsAcyclic | internal/agent/state.go:200-226 | The guard suffices for any edge, resolved or not |
| State.StateStore.HasCycle | internal/agent/state.go:203-226 | The depth-first search answers true if and only if the two tasks are equal or a walk over unresolved edges leads from the blocker to the blocked task; it ends, and pops the stack at most once plus once per unresolved edge |
| State.StateStore.PushBlockers | internal/agent/state.go:216-223 | One scan of the edge list finds the target exactly if it is an open blocker of the node, and otherwise pushes exactly the open blockers, in list order |
| State.SearchExpands | internal/agent/state.go:209-224 | Expanding a node keeps the search invariant: everything found can be reached, everything linked from a visited task is visited or on the stack, and fewer tasks remain unvisited |
| State.SearchEnds | internal/agent/state.go:225 | An empty stack proves that the target cannot be reached at all |
| State.StateStore.TransitiveDependencies | internal/agent/state.go:500-520 | The breadth-first search returns exactly the tasks reachable by one or more unresolved edges, none twice, in an order in which no walk to a later one is shorter than the shortest to an earlier one |
| State.StateStore.VisitBlockers | internal/agent/state.go:511-517 | One scan appends to result and queue the open blockers not seen before, each once, and keeps the visited set equal to the members of the result |
| State.SpreadMembers | internal/agent/state.go:508-518 | When the queue has run empty, the result holds a task if and only if an open walk leads to it |
| State.SpreadOrder | internal/agent/state.go:508-518 | The result is in order of distance |
| StateLaws.CycleIffListed | internal/agent/state.go:386-390 | For any listing that meets the contract of TransitiveDependencies: HasCycle(a, b) holds if and only if a = b or a is listed for b |
| StateLaws.NeverBlocksItself | internal/agent/state.go:500-520 | In every reachable store no task is among its own transitive blockers |
| State.StateStore.AddDependency | internal/agent/state.go:185-198 | An edge is appended if and only if its two tasks differ, no walk over open edges leads from the blocker to the blocked task, and no entry, resolved or not, has both its tasks; otherwise the list is unchanged; the exported form at lines 271-275 is the same |
| State.StateStore.ExtractDependencies | internal/agent/state.go:153-168 | The waiting-for blocker comes first, then one edge per blocked-by tag with a non-empty rest, in tag order, each subject to the duplicate and cycle checks |
| State.StateStore.ResolveDependencies | internal/agent/state.go:172-180 | Exactly the unresolved edges on the completed task become resolved, with the given time; every other edge is untouched |
| State.StateStore.UpdateTask | internal/agent/state.go:84-149 | The whole new store after each kind of message: status, owner, priority, scope, progress and summary by action, edges extracted on BLOCKED and resolved on COMPLETED; a message without task changes nothing |
| State.StateStore.UpdateAgentStatus | internal/agent/state.go:322-331 | The agent is recorded under its nick and nothing else changes |
| State.StateStore.IsReady | internal/agent/state.go:297-312 | True if and only if the task is Blocked, has an edge, and all its edges are resolved |
| State.StateStore.UnblockedTasks | internal/agent/state.go:291-319 | Exactly the ready tasks, each once, in whatever order the map is visited |
| State.StateStore.Snapshot | internal/agent/state.go:448-473 | The snapshot equals the contents |
| State.StateStore.Restore | internal/agent/state.go:477-496 | The contents become the snapshot |
| StateLaws.ResolveOnlyUnlinks | internal/agent/state.go:172-180 | Completion removes exactly the open links that lead to the completed task |
| StateLaws.AfterKeeps | internal/agent/state.go:84-149 | Every message keeps the open edges acyclic, without self-loops and without repeated pairs |
| StateLaws.ReachableIsWellFormed | internal/agent/state.go:84-200 | Safety over every run of UpdateTask, AddDependency, Snapshot and Restore of an own snapshot: the unresolved edges form a DAG, no edge is a self-loop, no pair occurs twice |
| StateLaws.HistoryOnlyEvolves | internal/agent/state.go:84-200 | Between restores the list is append-only, and an entry changes at most once, from open to resolved; who blocks whom never changes |
| StateLaws.SomeBlockerIsFree | internal/agent/state.go:203-226 | In an acyclic list, from every open blocker a blocker can be found that waits for nothing |
| StateLaws.CompletionRemoves | internal/agent/state.go:107-109 | A COMPLETED message removes its task, and only that, from the set of open blockers |
| StateLaws.DrainOrder | internal/agent/state.go:172-226 | A well-formed store without nameless open blocker can be released by completions of tasks that each wait for nothing at that moment, as many as there are distinct open blockers; afterwards every edge is resolved and every Blocked task with edges is ready |
| StateLaws.DrainNeedsEveryBlocker | internal/agent/state.go:172-180 | No shorter list of completions resolves all edges |
| StateLaws.ReleasableIffNamed | internal/agent/state.go:84-91 | A well-formed store can be released by COMPLETED messages if and only if no open edge has an empty blocker name, because a message without task is ignored |
| StateLaws.NoDeadlock | internal/agent/state.go:172-226 | From every store reachable by messages, snapshots, restores and AddDependency with a named blocker there is such a completion order |
| StateLaws.NamedRunsStayNamed | internal/agent/state.go:155-167 | Messages alone never record an edge with an empty blocker name |
| StateLaws.NamelessBlockerDeadlocks | internal/agent/state.go:271-275 | AddDependency accepts an empty blocker name: a concrete store, one call old, that no sequence of completions ever releases |
| StateHistory.StepResolves | internal/agent/state.go:84-200 | One operation resolves an edge exactly if it is a COMPLETED message for the edge's blocker, and none opens an edge again |
| StateHistory.MessageEdgesStartOpen | internal/agent/state.go:153-168 | An edge recorded from a message starts out open, even if its blocker is completed by then |
| StateHistory.ResolvedIffCompleted | internal/agent/state.go:172-180 | After any run without restore, from any store, an edge is resolved if and only if it was before or a COMPLETED message with the name of its blocker came in between |
| StateHistory.ArrivedEdgeResolved | internal/agent/state.go:172-198 | An edge is resolved at the end of a run if and only if it arrived so or its blocker was completed after it was first recorded |
| StateHistory.ReadyIffCompletedSince | internal/agent/state.go:291-319 | Exactly when UnblockedTasks reports a task: it is Blocked, has an edge, and every one of its edges arrived resolved or had a COMPLETED message for its blocker since it was first recorded |
| StateHistory.DoneButNotReady | internal/agent/state.go:107-113 | COMPLETED of a blocker, then BLOCKED by it: the blocker is Completed and the task is not reported |
| StateHistory.ReadyButNotDone | internal/agent/state.go:185-198 | Blocked, blocker completed, blocker started again, blocked again: the task is reported although its blocker is at work |
| StateEffects.BlockedRecordsExactly | internal/agent/state.go:153-168 | After a BLOCKED message a pair is listed if and only if it was before, or it pairs the task with another one that waiting-for or a blocked-by tag names and that did not wait for the task before the message |
| StateEffects.StatusIsLastSaid | internal/agent/state.go:103-148 | After any run the status is what the last message about it gave, by its action, or the initial one; an assigned task is offered again once a DECLINE followed |
| StateEffects.OwnerIsLastSaid | internal/agent/state.go:120-147 | The owner is the sender of the last CLAIM or ACCEPT, the addressee of the last ASSIGN or HANDOFF, or nobody after DECLINE or YIELD, whichever came last |
| StateEffects.PriorityIsLastSaid | internal/agent/state.go:104-116 | The priority is that of the last STARTED or OFFER, whatever came between |
| StateEffects.ScopeIsLastSaid | internal/agent/state.go:114-119 | The scope is that of the last OFFER that gave one |
| StateEffects.WaitingForIsLastSaid | internal/agent/state.go:110-113 | What a task waits for is what the last BLOCKED said |
| StateEffects.ProgressIsLastSaid | internal/agent/state.go:137-142 | The progress is that of the last CHECKPOINT whose progress is a number |
| StateEffects.SummaryIsLastSaid | internal/agent/state.go:143-145 | The summary is that of the last CHECKPOINT that gave one |
| StateEffects.TraceIsLastSaid | internal/agent/state.go:99-101 | Tags, last agent and time are those of the last message about the task, of whatever action |
| StateEffects.TrackedIffNamed | internal/agent/state.go:93-97 | A task is tracked exactly from the first message about it on |
| StateEffects.AtoiReadsDecimal | internal/agent/state.go:138-141 | Decimal numbers, with or without minus, are read back where they fit in 64 bits, and are no number to Atoi otherwise |
| Wire.LookupAction | pkg/protocol/message.go:78-81 | The table search finds an action if and only if the text is its name |
| Wire.NamesDiffer | pkg/protocol/message.go:78-81 | No two actions share a name |
| Wire.Tokenize | pkg/protocol/parser.go:57-114 | The index-driven loop stays in bounds, advances in every round, and returns what reading the body item by item gives: fields with the last value of each key, tags in order, or the key of the first unclosed quote |
| Wire.Advance | pkg/protocol/parser.go:70-72 | Moves the index to the first stop character at or after it, or to the end |
| Wire.Parse | pkg/protocol/parser.go:14-44 | Trims, rejects the empty line and unknown first words, takes the rest raw for SHARING-CONTEXT and tokenizes it otherwise |
| Wire.CheckProtocolMessage | pkg/protocol/message.go:118-128 | The prefix loop holds exactly if the trimmed line is an action name or starts with one followed by space or tab |
| Wire.SortStrings | pkg/protocol/serializer.go:30 | The keys in strictly ascending order, with the same members |
| Wire.String | pkg/protocol/serializer.go:11-53 | The builder produces the action, then the fields in ascending key order with values quoted exactly when they hold space or tab, then the tags; for SHARING-CONTEXT only the payload |
| Wire.FieldText | pkg/protocol/serializer.go:32-44 | One field as key=value, quoted exactly when the value holds a space or tab |
| WireLaws.LexReadsBody | pkg/protocol/parser.go:57-114 | Every list of items that the wire can carry, printed and tokenized, comes back item by item |
| WireLaws.BlankIsSkipped | pkg/protocol/parser.go:60-64 | A space or tab between items is passed over |
| WireLaws.BareWordIsSkipped | pkg/protocol/parser.go:85-88 | A word without equals sign vanishes from any line |
| WireLaws.LoneHashIsSkipped | pkg/protocol/parser.go:67-77 | A hash without tag vanishes |
| WireLaws.TagIsRead | pkg/protocol/parser.go:67-77 | A tag reaches up to the next blank |
| WireLaws.PlainValueIsRead | pkg/protocol/parser.go:105-111 | A value that does not start with a quote reaches up to the next blank |
| WireLaws.QuotedValueIsRead | pkg/protocol/parser.go:94-104 | A value that starts with a quote reaches up to the next quote, and what follows need not be set off |
| WireLaws.UnclosedQuoteFails | pkg/protocol/parser.go:100-102 | Without a second quote the line is rejected, naming the key |
| WireLaws.LastFieldCounts | pkg/protocol/parser.go:103-110 | Of several fields with one key the last one counts |
| Text.FirstDifferenceDecides | pkg/protocol/serializer.go:30 | The order of the keys: the first difference decides, and a proper prefix comes first |
| WireLaws.FirstWordIsAction | pkg/protocol/serializer.go:14 | Whatever fields, tags and payload hold, the first word of the printed line is the action |
| WireLaws.ProtocolMessageIffFirstWord | pkg/protocol/message.go:118-128 | The cheap check holds if and only if the first word of the trimmed line is an action name in capitals |
| WireLaws.OnlyQuotesFail | pkg/protocol/parser.go:14-44 | After the cheap check an unclosed quote is the only possible parse error, and the parsed action is the first word |
| WireLaws.AdmittedIffCapitals | pkg/protocol/message.go:118-128 | Of the lines that Parse accepts, the cheap check admits exactly those whose first word is the action name in capitals |
| WireLaws.SpellingIsDropped | pkg/protocol/parser.go:22 | Any spelling of an action name before a body is parsed like the name, and admitted only if it is the name |
| WireLaws.SmallLettersAreDropped | pkg/protocol/message.go:118-128 | The concrete line started task=a, which Parse accepts and the cheap check drops |
| WireLaws.ParsedIsWireSafe | pkg/protocol/parser.go:57-114 | Whatever Parse accepts has only keys, values, tags and payload that the wire can carry |
| WireExact.RoundTripExactly | pkg/protocol/serializer.go:11-53 | For every message: parsing the printed line gives the message back if and only if its parts are ones the wire can carry and no white space other than space and tab stands where trimming removes it |
| WireExact.LexStrays | pkg/protocol/parser.go:57-114 | The tokenizer never yields more stray white space characters than its input holds |
| WireExact.MessageStrays | pkg/protocol/parser.go:103-110 | Collecting items into fields, where later values win, never adds stray white space |
| WireExact.BodyLosesStray | pkg/protocol/parser.go:47-53 | Trimming after the first word loses at least one stray character from a body that begins or ends with one |
| WireExact.NormalFormExactly | pkg/protocol/parser.go:14-44 | Printing what was parsed and parsing it again gives the same message if and only if the printed body keeps its ends |
| WireExact.FinalNewlineIsLost | pkg/protocol/parser.go:15 | A concrete message the wire can carry whose final newline does not come back |
| WireLaws.RoundTrip | pkg/protocol/serializer.go:11-53 | The round trip where space and tab are the only white space: it holds if and only if the parts are ones the wire can carry |
| WireLaws.NormalForm | pkg/protocol/parser.go:14-44 | For every accepted line whose only white space is space and tab, printing and parsing again changes nothing |
| WireLaws.FormatInjective | pkg/protocol/serializer.go:11-53 | Two different messages that the wire can carry never print alike, even where parsing would lose white space |
| Replica.ReceivedAsSent | internal/agent/protocol.go:104-149 | A carried message is recorded by its receivers exactly as its sender recorded it, with their own clock |
| Replica.AfterCongruent | internal/agent/state.go:84-149 | The same message keeps two agreeing stores in agreement, whatever the clocks say |
| Replica.AckChangesNothing | internal/agent/state.go:99-103 | An acknowledgement of a known task changes nothing that replicas agree on except tags, agent and time, which they do not compare |
| Replica.AckTravels | internal/agent/coordinator.go:65-77 | Automatic acknowledgements always arrive as sent, whatever white space the task names hold |
| Replica.AckIsRead | internal/agent/coordinator.go:65-77 | A receiver reads of an acknowledgement exactly the acknowledged task, the completed one, and the tag |
| Replica.ReplicasAgree | internal/agent/protocol.go:82-157 | Any two of any number of agents agree on status, owner, priority, scope, progress and edges of every task after the same log, each message recorded locally by its sender and parsed from the wire by the others, automatic acknowledgements included, which their sender does not record |
| AgentRuns.HandledIsReceived | internal/agent/protocol.go:104-153 | What the dispatcher does to the task store for a line is what the replica model says of a received line |
| AgentRuns.StoresFollowLog | internal/agent/protocol.go:82-157 | In every run of dispatchers over one log, the store of each agent is the replica that the log describes |
| AgentRuns.RunIsGenuine | internal/agent/coordinator.go:37-80 | Acknowledgements that dispatchers send are genuine: each answers a COMPLETED message of another agent after which its task was ready |
| AgentRuns.DispatchersAgree | internal/agent/protocol.go:82-157 | After every run of any agents over one log, each line handled by the dispatchers of all other agents and acknowledgements being those that dispatchers sent, all task stores agree |
| Dispatcher.ProtocolDispatcher.constructor | internal/agent/agent.go:91-187 | The wiring: rules and roles of the configuration, shared client and store, everything empty |
| Dispatcher.ProtocolDispatcher.RecordTask | internal/agent/protocol.go:141-149 | The twelve task actions update task and agent records, all others nothing; tasks stay filed under their names |
| Dispatcher.ProtocolDispatcher.UpdateLocalState | internal/agent/protocol.go:82-102 | What an agent itself sends changes its store as a received message would, except that its own REQUEST-CONTEXT is not tracked |
| Dispatcher.ProtocolDispatcher.SendProtocolMessage | internal/agent/agent.go:368-407 | A message is sent if and only if the credential check finds it clean and the access rules allow the action there; otherwise nothing changes. It is recorded with the own nick, the target and its time, and sent as one line |
| Dispatcher.ProtocolDispatcher.AnswerByRole | internal/agent/agent.go:178-182 | Exactly the role replies that pass the checks are recorded and sent, in order, to the channel of the message |
| Dispatcher.ProtocolDispatcher.HandleDiscover | internal/agent/protocol.go:251-274 | One CAPABILITIES line listing all own capabilities if the requested expertise matches one, ignoring case, and nothing otherwise |
| Dispatcher.ProtocolDispatcher.HandleContexts | internal/agent/protocol.go:158-167 | The context store changes and the answers sent, by action |
| Dispatcher.ProtocolDispatcher.Absorb | internal/agent/protocol.go:140-177 | State, acknowledgements, contexts and discovery, in this order, before any handler runs |
| Dispatcher.ProtocolDispatcher.RunHandlers | internal/agent/protocol.go:179-189 | Notifications and role replies, in either order, because the handlers are kept in a map |
| Dispatcher.ProtocolDispatcher.HandleMessage | internal/agent/protocol.go:104-190 | The complete effect of one line: dropped lines change and send nothing; for the others the new stores and the exact list of sends |
| HandlingLaws.UnheardLinesDoNothing | internal/agent/protocol.go:104-138 | A line that is no protocol message, is the agent's own, does not parse or is not allowed changes and sends nothing |
| HandlingLaws.ClearedRepliesAreSent | internal/agent/agent.go:178-182 | For any other line the role replies that are sent and recorded are exactly those replies of the configured roles that are clean and allowed, in order, after the line itself was recorded |
| HandlingLaws.MutedAgentsDoNotReply | internal/agent/agent.go:373-378 | An agent that is allowed no action there, or whose check rejects everything, sends and records no role reply |
| HandlingLaws.LineReachesStores | internal/agent/protocol.go:140-167 | The line reaches the context store once, and the agent remembers as acknowledged exactly what it did before and the tasks that are ready after a completion |
| HandlingLaws.DiscoveryAnswered | internal/agent/protocol.go:251-274 | DISCOVER is answered if and only if the expertise asked for is, ignoring case, one of the own ones; the answer lists all of them, and can be split again exactly if each is free of commas and outer blanks |
| Roles.RoleEngine.constructor | internal/agent/agent.go:168-182 | A behaviour is registered for exactly the configured roles that have one |
| Roles.RoleEngine.HandleMessage | internal/agent/role.go:63-76 | The replies of all matching behaviours in order of registration |
| Roles.RepliesKnowTheirRole | internal/agent/role.go:112-244 | Every reply comes from a configured role whose trigger is the action of the message, and carries the action of that role |
| Roles.RepliesConcat | internal/agent/role.go:63-76 | The replies of several roles are those of each, one after the other |
| Roles.ArchitectApproves | internal/agent/role.go:114-132 | The architecture reviewer approves exactly the architecture review requests, naming task and pull request |
| Roles.SecurityApproves | internal/agent/role.go:133-151 | The security reviewer does so for security review requests |
| Roles.GuardianPassesGate | internal/agent/role.go:152-170 | The monitoring guardian passes the monitoring gate for exactly the monitoring review requests |
| Roles.PipelineContinues | internal/agent/role.go:171-222 | For every task: an approved review starts its merge, the completed merge opens the release, the completed release offers the clean-up |
| Roles.PipelineIsSilent | internal/agent/role.go:188-222 | The release and clean-up roles answer only completions of tasks with their suffix |
| Roles.ResponderStartsIncident | internal/agent/role.go:223-240 | The incident responder starts an incident for exactly the escalations of high or critical severity |
| Roles.OthersAreSilent | internal/agent/role.go:241-243 | All other roles answer nothing |
| Notifier.RuleNotifier.HandleMessage | internal/agent/notifier.go:102-135 | One line per rule for the event of the message, in rule order, with the text of its formatter if it has one, and none for an empty text; a failed gate is told apart from a passed one |
| Notifier.NoticesComeFromRules | internal/agent/notifier.go:117-134 | Every notification comes from a rule for the event, with the channel and the text of that rule |
| Notifier.EventCovers | internal/agent/notifier.go:103-115 | Each event covers exactly the messages of its action; a gate check is a failure if and only if its status says failed |
| Notifier.CoveringRulesSend | internal/agent/notifier.go:117-134 | For every message exactly the rules that cover it send, each one line to its channel, in order, unless the text is empty |
| Notifier.DefaultTextSays | internal/agent/notifier.go:180-235 | A default text starts with the word of its event and names, in this order, who and what the event is about |
| Notifier.HeadingsDiffer | internal/agent/notifier.go:180-235 | No two events share their word |
| ContextSharing.ContextStore.Store | internal/agent/context_sharing.go:62-82 | An announcement replaces the entry of its component and fulfils its open requests |
| ContextSharing.ContextStore.FulfillRequest | internal/agent/context_sharing.go:155-165 | Exactly the open requests for the component become fulfilled |
| ContextSharing.ContextStore.StorePayload | internal/agent/context_sharing.go:86-112 | Some entry of the sender receives the payload, whichever the map yields first; a sender without entry gets one of its own |
| ContextSharing.ContextStore.TrackRequest | internal/agent/context_sharing.go:139-152 | One open request is appended, none without component |
| ContextSharing.ContextStore.HandleContextRequest | internal/agent/context_sharing.go:236-276 | A known component is answered with its CONTEXT line and, if it has a payload, a SHARING-CONTEXT line; others with nothing |
| ContextSharing.AnnouncementAnswers | internal/agent/context_sharing.go:62-82 | After an announcement no request for its component is open, no other request has changed, and the next request gets exactly one line, the old payload being gone |
| ContextSharing.RequestIsAnswered | internal/agent/context_sharing.go:236-276 | A request for an announced component is answered with the component, and project and status where announced, and then with the payload if there is one |
| ContextSharing.UnknownIsNotAnswered | internal/agent/context_sharing.go:237-249 | A request for an unknown component, or none, is not answered |
| ContextSharing.LastAnnouncementIsHeld | internal/agent/context_sharing.go:62-112 | Over every run the store holds the last announcement of a component, whatever announcements of others, payloads and requests followed, unless one of them overwrote it as the next row says |
| ContextSharing.PayloadIsAttached | internal/agent/context_sharing.go:86-112 | A payload goes to one entry its sender has shared, or to one named after the sender, and no other entry changes |
| ContextSharing.AnyOwnEntryMayGetIt | internal/agent/context_sharing.go:92-103 | When the sender has entries, each of them, and no other, is one that the payload may go to |
| ContextSharing.PayloadEntryOverwrites | internal/agent/context_sharing.go:104-111 | A component that is named like the payload entry of a nick is overwritten, with empty project and status, when that nick, no entry being its own, shares a payload |
| Coordinator.UnblockNotifier.OnTaskCompleted | internal/agent/coordinator.go:37-80 | One acknowledgement line for each ready task not acknowledged since the last Reset, and no others, each naming the triggering task as unblocked-by whether or not it was a blocker |
| Coordinator.AcknowledgedAtMostOnce | internal/agent/coordinator.go:37-87 | Over every run of store operations, completions and Resets, no task is acknowledged twice between two Resets |
| Coordinator.CompletionAcknowledgesAll | internal/agent/coordinator.go:37-80 | Only tasks that are Blocked with edges, all resolved, are acknowledged, and after a completion with a task every such task has been |
| Coordinator.CreditIffJustReleased | internal/agent/coordinator.go:65-70 | An acknowledgement names a task that was holding the acknowledged one back if and only if that one was not ready before the message |
| Coordinator.BystanderIsCredited | internal/agent/coordinator.go:65-70 | A run in which the acknowledgement names a task that never blocked the acknowledged one |
| Coordinator.RunsKeepNames | internal/agent/state.go:93-97 | In every reachable store each task is filed under its own, non-empty name, which OnTaskCompleted relies on |
| Federation.FederationManager.OnLocalMessage | internal/agent/federation.go:73-81 | One tagged line per matching mapping with a known link; lines already relayed and the own nick are passed over |
| Federation.FederationManager.OnRemoteMessage | internal/agent/federation.go:88-93 | One tagged line per matching mapping to the local connection; lines already relayed are passed over |
| Federation.RelayedExactly | internal/agent/federation.go:112-143 | Lines go out over exactly the mappings of their channel with a known link and come in to exactly the local channels mapped to their link and channel, in order, with origin, nick and text; relayed lines and, outward, the own nick are passed over |
| Federation.RelaysAreNotRelayed | internal/agent/federation.go:73-148 | What one relay sends, outward or inward, is relayed by no relay in either direction, whatever the mappings, links and nicks of both |
| Storm.HandledBelow | internal/agent/protocol.go:104-190 | Every line the dispatcher sends for a line has a strictly lower rank, for all roles, rules, capabilities, access rules and stores, as long as no custom formatter writes protocol messages |
| Storm.ReactionBelow | internal/agent/federation.go:73-95 | The same, under the same condition, for an agent with federation, over its local connection and over its links |
| Storm.RolesBelow | internal/agent/role.go:112-244 | Role replies rank below the messages that trigger them |
| Storm.AnyLineCanBeDelivered | internal/agent/protocol.go:104-190 | Any pending line of a known agent can be delivered next, whatever becomes of the lines sent for it |
| Storm.StepCounts | internal/agent/protocol.go:187-189 | Without such formatters each delivery lowers the number of pending lines of some rank and leaves those of higher ranks alone |
| Storm.NoEndlessStorm | internal/agent/protocol.go:104-190 | For any number of agents without formatters that write protocol messages and any pending lines, every run that keeps delivering reaches a moment with nothing pending, even if each line reaches each agent any finite number of times |
| Storm.ChainsAreShort | internal/agent/protocol.go:104-190 | Without such formatters a chain of lines each sent because of the one before has at most five members |
| RateLimiting.RateLimiter.Refill | pkg/ircclient/ratelimiter.go:30-38 | Adds what accrued, capped at the burst |
| RateLimiting.RateLimiter.Allow | pkg/ircclient/ratelimiter.go:42-52 | Takes a token if and only if one is there after the refill |
| RateLimiting.RateLimiter.Wait | pkg/ircclient/ratelimiter.go:55-76 | Its attempts leave the bucket as attempts of Allow at the same times would, each but the first follows the computed sleep, only the last can be granted, and with a burst of at least one, a positive rate and nobody else taking tokens the first retry succeeds |
| RateLimiting.RetrySucceedsIffBurst | pkg/ircclient/ratelimiter.go:64-66 | With a positive rate the retry after the computed sleep succeeds if and only if the bucket can hold a whole token |
| RateLimiting.NothingWithoutRate | pkg/ircclient/ratelimiter.go:30-52 | With a zero rate an attempt that finds no token, and every later one, fails, however long the caller sleeps |
| RateLimiting.GrantsAtOnce | pkg/ircclient/ratelimiter.go:30-52 | Of n attempts at one moment exactly as many succeed as there are whole tokens: what was left and has accrued since, capped at the burst |
| RateLimiting.BurstAfterIdling | pkg/ircclient/ratelimiter.go:30-52 | After enough idle time exactly the whole tokens of a full burst are granted in a row, so the bound is reached |
| RateLimiting.TokensInRange | pkg/ircclient/ratelimiter.go:30-38 | With a non-decreasing clock the token count stays between zero and the burst |
| RateLimiting.GrantsBounded | pkg/ircclient/ratelimiter.go:42-52 | Tokens granted since a moment plus those left never exceed a full bucket plus what accrued since then |
| RateLimiting.RateIsLimited | pkg/ircclient/ratelimiter.go:42-76 | In any interval from s to t all callers together are granted at most burst + (t - s) * rate tokens |
| TaskBoard.Board.constructor | internal/agent/taskboard.go:38-46 | An empty board meets the invariant |
| TaskBoard.Board.RecordClaim | internal/agent/taskboard.go:65-93 | Without jitter the claimant holds the offer at once and no claim stays pending; with jitter the claim joins the pending batch and the timer is armed |
| TaskBoard.Board.ResolveArbitration | internal/agent/taskboard.go:96-117 | The batch is decided as a whole: an existing offer goes to the winner, the pending list and the timer disappear; an empty batch changes nothing |
| TaskBoard.WinnerIsEarliestLeast | internal/agent/taskboard.go:105-110 | The winner is a claim of least load that no earlier claim matches |
| TaskBoard.OnlyOneEarliestLeast | internal/agent/taskboard.go:105-110 | There is only one such claim |
| TaskBoard.ClaimArrives | internal/agent/taskboard.go:74 | A claim enters the pending batch in order of arrival: decided batches followed by pending claims remain all claims in order |
| TaskBoard.BatchCloses | internal/agent/taskboard.go:115-116 | Deciding a batch loses no claim, repeats none and reorders none |
| TaskBoard.Board.RecordAssign | internal/agent/taskboard.go:120-134 | An assignment sets the holder, creating the offer if there is none |
| TaskBoard.LastClaimHolds | internal/agent/taskboard.go:74-84 | After any sequence of claims without jitter, for whatever tasks, an offer is held by its last claimant and unclaimed offers are unchanged |
| TaskBoard.FirstClaimWinsIffLast | internal/agent/taskboard.go:76-84 | The first claimant holds the offer, as the comment says, if and only if the last claim has the same nick |
| TaskBoard.LastInstantClaimHolds | internal/agent/taskboard.go:76-84 | Two claims of different agents: the second one holds the offer |
| Workflow.WorkflowEngine.constructor | internal/agent/workflow.go:37-45 | The two built-in definitions and no instance |
| Workflow.WorkflowEngine.StartWorkflow | internal/agent/workflow.go:55-71 | Fails exactly for unknown or empty definitions; otherwise the instance stands at the first stage, replacing an earlier one |
| Workflow.WorkflowEngine.AdvanceStage | internal/agent/workflow.go:75-105 | The loop moves the instance of the task by one step and no other; unknown tasks, removed definitions, completed instances and unknown stages stay as they are; gates and reviews play no part |
| Workflow.StaysCompleted | internal/agent/workflow.go:80-82 | A completed instance never changes again |
| Workflow.Pigeonhole | internal/agent/workflow.go:90-103 | More positions than stages repeat one |
| Workflow.CompletesInTimeOrNever | internal/agent/workflow.go:75-105 | An instance of any definition that completes at all has completed after as many calls as there are stages |
| Workflow.ForwardCompletes | internal/agent/workflow.go:90-103 | With distinct names and next stages that only name later ones, every instance at one of the stages completes |
| Workflow.ListCompletesIffDistinct | internal/agent/workflow.go:96-99 | A definition without next stages completes from its first stage if and only if its names are distinct |
| Workflow.RouteIsFollowed | internal/agent/workflow.go:90-103 | An instance follows every route of named and following stages, with jumps forward and back, one stage with each call |
| Workflow.RequirementsAreIgnored | internal/agent/workflow.go:90-103 | Definitions that differ only in required gates and reviews advance every instance alike |
| Workflow.ChainIsWalked | internal/agent/workflow.go:90-103 | A chain of distinct names is walked stage by stage |
| Workflow.BuiltinsComplete | internal/agent/workflow.go:178-234 | Both built-in workflows pass all five stages in order and are completed after n calls if and only if n is at least five |
| Inspector.MessageLog.constructor | internal/agent/inspector.go:54-64 | An empty log of the given size, or of 1000 entries |
| Inspector.MessageLog.RecordMessage | internal/agent/inspector.go:135-144 | The ring buffer goes on holding the end of everything ever recorded |
| Inspector.MessageLog.RecentMessages | internal/agent/inspector.go:148-181 | Exactly the last min(n, recorded, size) entries in order, all retained ones for n <= 0, on both sides of the wrap |
| Inspector.MessageLog.ReadFrom | internal/agent/inspector.go:168-171 | Reads n slots round the end of the buffer |
| Inspector.WriteKeepsHolding | internal/agent/inspector.go:138-143 | One write keeps the buffer equal to the end of the list, before, at and after the wrap |
| Inspector.ReadBack | internal/agent/inspector.go:165-178 | Reading n slots back from the write position gives the last n entries of the list |
| Review.ReviewStore.RecordRequest | internal/agent/review.go:83-96 | A pending review is appended and numbered by the count of requests for its task |
| Review.ReviewStore.RecordComplete | internal/agent/review.go:99-113 | The backward loop closes exactly the latest pending review that fits, any pull request if none is given, or nothing; no other task is touched |
| Review.ReviewStore.Summarize | internal/agent/review.go:131-151 | Counts of all, pending and approved reviews, the number of requests as iteration count, and escalation exactly when it exceeds a positive limit |
| Review.ReviewStore.AllGatesPassed | internal/agent/review.go:160-176 | True if and only if there is a gate check and the last check of every gate passed |
| Review.LatestGrows | internal/agent/review.go:166-169 | The map of latest statuses holds exactly the last check of each gate |
| Review.RecheckDecides | internal/agent/review.go:160-176 | After one more check all gates pass if and only if it passed and the last check of every other gate did |
| Review.DecidedStaysDecided | internal/agent/review.go:83-113 | Over every run a verdict, once set, never changes, nor does anything said in a request, and no record disappears |
| Review.OutcomeArrives | internal/agent/review.go:99-113 | In every run a completion reaches the latest review that awaits it: that record gets its verdict, reviewer, details and time, no other changes, and of every verdict there is one more exactly if it is the one given |
| Review.NobodyAwaiting | internal/agent/review.go:99-113 | A completion that no review awaits changes nothing |
| Review.VerdictsWereGiven | internal/agent/review.go:105-109 | Every verdict in the list was brought by a completion that named the pull request of the record, or none, while it was pending |
| Review.RecordsWereRequested | internal/agent/review.go:83-96 | Every record says what its request said, and is numbered by it |
| Review.VerdictClosesOne | internal/agent/review.go:99-113 | A completion with a verdict takes exactly one review out of the pending ones, or changes nothing |
| Review.NoVerdictClosesNone | internal/agent/review.go:105-109 | A completion with an empty verdict leaves the same reviews pending |
| Cost.Summarize | internal/cost/store.go:156-166 | Sums and count over all entries |
| Cost.SumIsTotals | internal/cost/store.go:156-166 | Amount, total, input and output tokens of a summary are each the sum of that number over the entries, and the count is their count |
| Cost.SelectedIsSelection | internal/cost/store.go:168-173 | A group holds exactly the entries with its key, in order |
| Cost.GroupBy | internal/cost/store.go:168-179 | One summary per key that occurs, that of the entries with the key, whatever order the map is visited in |
| Cost.CostStore.RecordCost | internal/cost/store.go:47-81 | Only COST-REPORT messages add an entry; absent or malformed token counts are zero, those out of range the nearest bound |
| Cost.CostStore.ByAgent | internal/cost/store.go:101-105 | The grouping by agent |
| Cost.CostStore.ByTask | internal/cost/store.go:108-112 | The grouping by task |
| Cost.CostStore.ByModel | internal/cost/store.go:115-119 | The grouping by model |
| Cost.CostStore.TotalSummary | internal/cost/store.go:94-98 | The summary of all entries |
| Cost.CostStore.EntriesForAgent | internal/cost/store.go:136-154 | The last n entries of an agent in order, all of them for n <= 0 |
| Cost.SelectionSplits | internal/cost/store.go:168-179 | The entries of one more key add exactly their own sums |
| Cost.GroupsAddUpToTotal | internal/cost/store.go:94-119 | For every key function and every listing of the groups, the group summaries add up to the total summary: amounts, tokens and counts |
| Cost.AgentGroupIsAgentEntries | internal/cost/store.go:101-154 | The group of an agent is the summary of its entries, and there is a group if and only if there are entries |
| Lists.JoinLoop | internal/spawner/spawner.go:145-154 | The elements with commas between them |
| Lists.TrimLoop | internal/manager/config.go:270-279 | The two indices leave the text without spaces and tabs at its ends |
| Lists.SplitBy | internal/manager/config.go:257-268 | The index loop yields all pieces between commas, trimmed |
| Lists.SplitComma | internal/manager/config.go:244-255 | The non-empty trimmed pieces, none for the empty text |
| Lists.SplitChannels | internal/config/loader.go:404-417 | The pieces that are not empty after trimming all white space |
| Lists.SplitUndoesJoin | internal/manager/config.go:244-279 | splitComma gives a list back after joinComma if and only if all its elements are non-empty, trimmed and comma-free |
| Lists.ChannelsUndoJoin | internal/config/loader.go:404-417 | The same for splitChannels, with trimming of all white space |
| Lists.SplittersAgree | internal/config/loader.go:404-417 | Both splitters give the same list wherever space and tab are the only white space |

## Left out

- IRC connections, TLS, SASL, the dashboard, the event hub and templates: input and output.
- Process, SSH and Docker spawners, state files and JSON: effects of the operating system; Snapshot and Restore are kept.
- Telemetry, metrics, logging and health texts: no state worth proving.
- The dispatch of messages to the task board, handoff, review and consensus stores: the task board and the review store are modelled by themselves, handoff and consensus not at all; none of them sends anything.
- Further protocol handlers and context subscriptions: caller code of unknown effect.
- Discovery records, the agent registry, time-outs of requests, removal of notification rules: easy beside the rest.
- Configuration layers, command line flags and provisioning, apart from their list splitting and joining: flat branches.
- The match of access rules and the credential expressions: library functions, taken as arbitrary predicates.
- Locks and goroutines inside a method, and callers that keep a reference to a returned or registered record and change it later.
- The zero time is the number 0.
- Storm and Replica take a sent line to arrive unchanged and as one line: IRC cuts long lines, and a newline, which a value may hold, ends one.
- Token counts wrap at 64 bits and amounts and tokens of the limiter are floating-point numbers; here they are unbounded integers and reals. Durations are not rounded to nanoseconds.
- Messages whose action is outside the recognised set: Parse rejects them, and they exist only as text.
- RateLimiting.RateLimiter.Wait: with a zero rate the sleep is whatever the platform makes of an infinite duration, a parameter here.
- Replica.ReplicasAgree: tags, last agent and times are not compared, and agents run without access rules.
- AgentRuns.DispatchersAgree: agents have no access rules and their roles answer nothing, because an agent records a role reply before the lines that others see ahead of it.
- Federation.FederationManager.OnLocalMessage: the clients of all links share one log, in which each line names its link.
- Wire.Parse: upper case is modelled for the letters whose upper case is ASCII, which is all that the comparison with action names can tell apart.
- Cost.CostStore.RecordCost: the parser of amounts is an arbitrary function.
- Dispatcher.ProtocolDispatcher.constructor: no persisted state is loaded, and only the parts that send or hold tasks, contexts and roles are wired.
- Dispatcher.ProtocolDispatcher.UpdateLocalState: does not update the task board, handoff, review and consensus stores.
- Dispatcher.ProtocolDispatcher.SendProtocolMessage: does not update those stores, the metrics and the message log.
- Dispatcher.ProtocolDispatcher.Absorb: does not update those stores or record announced capabilities.
- Dispatcher.ProtocolDispatcher.HandleMessage: does not update those stores, the capabilities, the metrics and the message log.
- ContextSharing.ContextStore.Store: does not call the handlers of subscriptions.
