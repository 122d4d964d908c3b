# Models and proofs for the Mizu browser

This project models the parts of the Mizu browser in which state, concurrency or arithmetic carry the
weight, and proves what each of them is there for, over every input and every run. The code that
updates things in place is modelled by classes and methods proved against specification functions;
protocols are step systems whose runs are arbitrary sequences of enabled steps; the theorems are
lemmas over those runs.

| files | what they cover |
|---|---|
| `Selections.dfy` | picking some elements of a list in order, as several components do |
| `Messages.dfy`, `Broker.dfy`, `Worker.dfy`, `WorkerHost.dfy` | messages, the capability broker, the worker's loop, the synchronous host |
| `Bridge.dfy`, `BridgeSafety.dfy`, `BridgeShipped.dfy`, `BridgeDelivery.dfy` | the router, the workers' processes and the readers as one step system; safety with any worker; order and equivalence with the shipped worker; what is delivered and where events go |
| `DomTree.dfy`, `Taffy.dfy`, `Window.dfy` | the document tree, the layout arena with template copies, the virtualization window |
| `Expansion.dfy`, `ExpansionSafety.dfy`, `ExpansionBudget.dfy`, `ExpansionStyles.dfy`, `ExpansionLayout.dfy`, `ExpansionScreen.dfy`, `Expander.dfy` | list blocks expanded into rows: the specification, conservation, the budget, styles, what is laid out, what is on screen, the code |
| `Debounce.dfy` | the storage write debouncer with its timers |
| `Utf8.dfy`, `UrlEditor.dfy`, `ChromeState.dfy`, `ChromeKeys.dfy`, `ChromeOverrides.dfy` | UTF-8 (section 3 of RFC 3629), an editor over characters, the byte-offset URL bar that refines it, what each key and command does, and what keeps bidi override controls out |
| `Quota.dfy`, `Pool.dfy`, `Sandbox.dfy` | storage quotas, the connection pool, path normalisation and containment |
| `HitTest.dfy`, `Accessibility.dfy` | hit testing against screen rectangles, the accessibility update |

## Where the code and its documentation differ

- A `Reload` replaces the registry when it is queued (`src/worker_host/bridge.rs:201-210`), so a reply
  to an earlier event may be judged against the newer document, which the comment on `TabPolicy`
  (`src/worker_host/bridge.rs:72-76`) does not expect. `BridgeShipped.ReloadOvertakesReply` is a run
  that shows it, and `BridgeSafety.JudgedByItsOwnDocument` says exactly when a reply is judged by the
  document of its own event.
- The rate limit's refusal says ten writes a second (`crates/core/src/security/quota.rs:207-210`). The
  code accepts up to twenty (`Quota.AtMostTwentyPerSecond`). What decides is whether a write turns the
  window strictly inside the second: if none does, ten holds (`Quota.AtMostTenWithoutTurn`), and
  wherever inside it one may turn, some run has twenty (`Quota.TwentyInOneSecond`). The instant is the
  clock reading of the turning write, not the start recorded for the new window.
- The pool keeps its limit exactly when that limit is at least one: `Pool.EveryRunIsBounded` and
  `Pool.ZeroLimitIsExceeded`.
- The identifier of the last 32-bit node number overflows into the generation, which the comment on
  `access_id` (`src/render/accessibility/mod.rs:65-67`) rules out: `Accessibility.AccessIdsDiffer`
  says exactly when identifiers are equal.
- Teardown restores a container's children and not its style. `ExpansionStyles.ContainerIsAsBuilt` says
  exactly when the style is as built, and `ExpansionStyles.StyleOutlivesTheList` gives a run in which it
  is not.
- Insertion is called the single choke point for text entering the URL bar
  (`src/render/chrome_vello/state.rs:75-80`). `set_displayed_url`, a chosen suggestion and an accepted
  completion go round it: `ChromeOverrides.OverridesStayOut` says exactly when the bar stays free of
  override controls.
- The focus of an accessibility update may be a node that the update does not list:
  `Accessibility.FocusIsDeclared` says exactly when it is listed.

## Modelling decisions

- `resolve_endpoint_url`, `TabSession::apply_event` and the wire rehydration are function parameters,
  so every theorem holds for all of them; the code of the worker is a parameter too.
- Threads, channels and locks become steps. The router has one step for the critical section and one
  for the send. A worker in `BridgeSafety` may send any frame at any time (`WorkerActs`); in
  `BridgeShipped` it is the loop of the shipped worker.
- `f32` is `real`; `usize` is `nat`, except in `Quota.dfy` where saturation is written out; node
  numbers and accessibility identifiers are bit vectors of 32 and 64 bits.
- Clocks are integers given to each operation. The two readings of the clock in one storage check are
  two values.
- The arena hands out identities in increasing order and never reuses one, as versioned slots do;
  removing a node removes every mention of it as a child. Calls on the arena that could fail have
  preconditions, and the expander is proved to meet them.
- The iteration order of hash maps is arbitrary (`:|` in `Expander.RestoreChildren` and
  `Pool.H3ConnectionPool.LeastRecentlyUsed`).
- Some fields are history values that no step branches on: `recorded` and `consumed` of an
  incarnation, `source` of a UI entry, `owner` of an accessibility entry, `accepted` and `windows` of the
  quota system, `batched` and `since` of the debouncer.

## Model

| member | source | states |
|---|---|---|
| `Broker.AuthorizedMayExecute` | src/render/security/broker.rs:123-199 | an approved action of a sandboxed worker is a call or download to an endpoint the document declared, a navigation on a gesture, or an action that needs no sanction; never an unresolved alias |
| `Broker.AuthorizationIsExact` | src/render/security/broker.rs:123-199 | a request is refused if and only if it is forged, its alias is undeclared or does not resolve, or it is a navigation without a gesture, and for that reason; a call is granted to its own alias and parameter, under its verb's name, with its own payload, target, format and headers; a download goes to its own alias's target |
| `Broker.TrustedActionsPass` | src/render/security/broker.rs:130-132 | actions of a trusted thread pass as they are |
| `Broker.ApprovedAreGrants` | src/worker_host/bridge.rs:336-375 | the approved actions of a reply are the grants of exactly the requests not refused, in their order |
| `Broker.RefusedAreRefusals` | src/worker_host/mod.rs:266-287 | the errors of a reply are those of exactly the refused requests, in their order |
| `Broker.ApprovedMayExecute` | src/worker_host/bridge.rs:336-375 | the same for whole replies, and every action is either approved or refused |
| `Broker.HarmlessActionsPass` | src/render/security/broker.rs:123-187 | actions that need no sanction, and navigations on a gesture, pass unchanged and in order |
| `Broker.AuthorizeAll` | src/worker_host/bridge.rs:336-375 | the loop returns the grants of the requests not refused, in order, all of which may be executed |
| `Worker.Served` | crates/worker/src/main.rs:130-141 | the events taken are exactly those before the first `CloseTab` |
| `Worker.Run` | crates/worker/src/main.rs:120-188 | one frame per event and in order, frame k being the reply to event k after all earlier ones; no frame for `CloseTab`, nor from the first that cannot be sent; never a `Hello`; the exit code of every way to stop |
| `Worker.TurnsAreChained` | crates/worker/src/main.rs:130-167 | the sessions and frames are a chain of turns: an undecodable event leaves the session and is answered with the reason; any other moves it on and is answered with a response, an error or a `NoOp` as the session says |
| `WorkerHosting.WorkerHost.constructor` | src/worker_host/mod.rs:175-189 | a host starts with its document's registry and domain and a fresh session |
| `WorkerHosting.WorkerHost.DispatchEvent` | src/worker_host/mod.rs:211-318 | the outcome and new session for every kind of frame and event, and the classification of a channel that breaks in sending or receiving |
| `WorkerHosting.DispatchIsExact` | src/worker_host/mod.rs:238-293 | what a host reports for each kind of frame: the decoded reply as it is with its requests granted and refused in order, one error without actions or variables, a protocol violation, or nothing |
| `WorkerHosting.ClassificationIsExact` | src/worker_host/mod.rs:298-361 | exit code zero is clean, signals 31 and 9 are the sandbox, every other status a crash, and a worker still running or unreadable a protocol failure |
| `WorkerHosting.WorkerHost.DispatchAll` | src/worker_host/mod.rs:211-294 | a fresh host given event after event reports, for each one before `CloseTab`, what the comparison with the bridge takes it to |
| `WorkerHosting.WorkerHost.Judge` | src/worker_host/mod.rs:266-287 | approved are the grants of the requests not refused and rejected the errors of the others, each in order |
| `Bridge.TabPolicy.constructor` | src/worker_host/bridge.rs:233-237 | nothing pending, an empty document |
| `Bridge.TabPolicy.Record` | src/worker_host/bridge.rs:201-210 | one critical section queues the agency and, on a reload, replaces registry and domain |
| `Bridge.TabPolicy.Take` | src/worker_host/bridge.rs:283-287 | the oldest agency is popped together with the current document; nothing changes when nothing is queued |
| `BridgeSafety.EveryRunKeepsInv` | src/worker_host/bridge.rs:165-333 | the invariant of queue, history, router and UI channel in every state any run of any worker reaches |
| `BridgeSafety.FramesMeetTheirEvents` | src/worker_host/bridge.rs:199-219 | for every interleaving and any worker, frame k of an incarnation is judged with the agency of its event k, and the queue holds exactly the agencies of the unconsumed events |
| `BridgeSafety.GesturesAreGenuine` | src/worker_host/bridge.rs:280-324 | every response on the UI channel answers one event of its own tab, is a gesture exactly when that event was a click or submission, and no two responses share an event |
| `BridgeSafety.Provenance` | src/worker_host/bridge.rs:301-328 | the judged frame and the event behind a delivered response |
| `BridgeSafety.DeliveredActionsAreSanctioned` | src/worker_host/bridge.rs:283-323 | delivered calls and downloads were resolved in the document of the last reload recorded when their frame was popped, which is no older than that of their event; delivered navigations sit in gesture replies to clicks and submissions |
| `BridgeSafety.ScopeSinceReload` | src/worker_host/bridge.rs:204-209 | the document in force is that of the last reload, or of the start |
| `BridgeSafety.DocumentInForce` | src/worker_host/bridge.rs:204-209 | the endpoint table and domain in force are those of the last reload, and empty before the first |
| `BridgeSafety.JudgedByItsOwnDocument` | src/worker_host/bridge.rs:69-84 | in every run, a reply is judged by its own event's document if and only if no reload recorded in between brought another |
| `BridgeShipped.EveryShippedRunIsPlaced` | crates/worker/src/main.rs:130-167 | where each recorded event is, in every state a run with the shipped worker reaches |
| `BridgeShipped.RepliesAreInStep` | src/worker_host/bridge.rs:199-219 | reply N answers event N, the queue of a live worker is what is in transit, being evaluated, answered in transit and about to be sent, and the branch for a frame with no event outstanding is never taken |
| `BridgeShipped.FrameMatchesSync` | src/worker_host/mod.rs:211-294 | for one frame the bridge delivers the action list the synchronous host approves, and nothing when it says nothing |
| `BridgeShipped.AsynchronyIsInvisible` | src/worker_host/bridge.rs:253-375 | between two reloads, for any schedule, the delivered action lists are those the synchronous host computes on the same events |
| `BridgeShipped.RecordedEventsAreServed` | src/worker_host/bridge.rs:172-179 | no run records a `CloseTab`, so a synchronous host serves all the recorded events |
| `BridgeShipped.ReloadOvertakesReply` | src/worker_host/bridge.rs:69-84 | a run in which the reply to one reload is judged against the next document |
| `BridgeDelivery.DeliveredIsTheReply` | src/worker_host/bridge.rs:312-324 | in every run a response on the UI channel carries the variables its frame decodes to, the grants of that reply's requests in order, judged by the document at the pop, and the gesture flag of its event |
| `BridgeDelivery.ReportedErrors` | src/worker_host/bridge.rs:288-331 | in every run which error an entry brings: a worker's own, a protocol one for a second handshake, the decoder's for an undecodable reply, and a transport one otherwise |
| `BridgeDelivery.VariablesMatchSync` | src/worker_host/mod.rs:211-294 | with the shipped worker the synchronous host reports the same variables for the same event, and an error of the same kind |
| `BridgeDelivery.EveryFrameIsReported` | src/worker_host/bridge.rs:301-331 | in every run a frame dealt with is on the UI channel if and only if it is not a `NoOp` |
| `BridgeDelivery.EventIsRouted` | src/worker_host/bridge.rs:172-212 | from every reachable state an event is queued and sent to its own tab's live incarnation, or to a new one with an empty policy, and nothing else changes |
| `BridgeDelivery.DroppedTabStartsAnew` | src/worker_host/bridge.rs:173-219 | closing a tab or failing to send leaves it without a live incarnation, and a failure is reported to it |
| `BridgeDelivery.StartFailureIsTold` | src/worker_host/bridge.rs:186-195 | a worker that cannot be started is reported to its tab, and nothing else changes |
| `BridgeDelivery.UnsolicitedFrameIsTold` | src/worker_host/bridge.rs:283-299 | a frame with no event outstanding is reported to its tab and ends its reader, with no agency consumed |
| `BridgeDelivery.ChannelEndIsTold` | src/worker_host/bridge.rs:260-277 | the end of a channel stops its reader, and is reported exactly when it was a failure |
| `BridgeDelivery.FirstEventIsAnswered` | src/worker_host/bridge.rs:165-333 | from every reachable state a tab's first event can be taken all the way to one entry on the UI channel, or none for a `NoOp` |
| `Taffy.CountDomSubtreeSize` | src/render/layout_bridge/helpers.rs:37-45 | the number of nodes of the subtree |
| `Taffy.TaffyTree.Remove` | src/render/layout_bridge/expansion.rs:175-177 | a removed node is gone, also from every list of children; nothing else changes |
| `Taffy.CopyGrows` | src/render/layout_bridge/helpers.rs:56-101 | copying adds exactly as many fresh nodes as the subtree has, loses and changes none, and records each once and in order |
| `Taffy.CopyMirrors` | src/render/layout_bridge/helpers.rs:47-101 | a copy has the template's shape and styles, its leaves name the document node to measure, and the overrides lead to each copied node |
| `Taffy.CopyOverrides` | src/render/layout_bridge/helpers.rs:54-99 | overrides are added for the subtree's nodes and for no others |
| `Taffy.CopyBijects` | src/render/layout_bridge/helpers.rs:54-99 | the override map is one to one between template nodes and new nodes |
| `Taffy.CloneSubtree` | src/render/layout_bridge/helpers.rs:56-101 | the recursive method makes that copy in the arena |
| `Taffy.CloneSubtrees` | src/render/layout_bridge/helpers.rs:75-85 | its loop over children, also that over a template's top nodes |
| `Window.WindowIsExact` | src/render/layout_bridge/expansion.rs:273-293 | for every scroll, viewport, offset and row height the wanted rows are exactly those whose band meets the viewport widened by the buffer, all within the list; the visible ones fit the budget, and one more would not when some are cut |
| `Window.OnScreenIsNear` | src/render/layout_bridge/expansion.rs:106-111 | a row that meets the viewport is wanted |
| `ExpansionSafety.ExpandedKeepsInv` | src/render/layout_bridge/expansion.rs:242-380 | expanding a block keeps the arena to base and recorded nodes and leaves all other base nodes as built |
| `ExpansionSafety.TearDownRestores` | src/render/layout_bridge/expansion.rs:128-178 | teardown leaves exactly the base nodes, each with the children it was built with |
| `ExpansionSafety.RebuildKeepsInv` | src/render/layout_bridge/expansion.rs:116-383 | a full rebuild keeps the invariant |
| `ExpansionSafety.EveryRunKeepsInv` | src/render/layout_bridge/expansion.rs:116-383 | so does every sequence of full rebuilds with arbitrary lists, scroll positions and measurements |
| `ExpansionBudget.BlockCost` | src/render/layout_bridge/expansion.rs:305-364 | a block adds visible rows times template size plus one nodes, and at most two spacers |
| `ExpansionBudget.BlocksAreAccounted` | src/render/layout_bridge/expansion.rs:220-303 | over all blocks the rows' nodes and the budget left make up the limit, and exactly the blocks that are not skipped are recorded |
| `ExpansionBudget.ArenaIsConserved` | src/render/layout_bridge/expansion.rs:70-72 | after any frames the arena is the base nodes and the recorded synthetic nodes, all distinct, in number the rows' nodes, within the budget, plus at most two spacers a block: it never grows |
| `ExpansionStyles.StyleAfterRun` | src/render/layout_bridge/expansion.rs:370-376 | after any frames a base node is a column if some frame expanded a block into it, and has its style as built otherwise |
| `ExpansionStyles.ContainerIsAsBuilt` | src/render/layout_bridge/expansion.rs:128-178 | a block's container is as built if and only if every frame skipped the block or it was a column to begin with |
| `ExpansionStyles.StyleOutlivesTheList` | src/render/layout_bridge/expansion.rs:370-376 | a run in which a skipped block is a column because of an earlier frame |
| `ExpansionStyles.HistoryShowsInStyles` | src/render/layout_bridge/expansion.rs:370-376 | after the same last frame two histories leave a container in different styles exactly when the frame skips its block, one of them expanded it and the other did not, and it was not a column to begin with |
| `ExpansionLayout.AddRowIsRow` | src/render/layout_bridge/expansion.rs:319-346 | a row is a container over copies of the template, with one-to-one overrides |
| `ExpansionLayout.EveryBlockIsLaidOut` | src/render/layout_bridge/expansion.rs:304-380 | after any frames every block not skipped has the rows of its plan, each a copy of the template in nodes of its own, between spacers as high as the rows left out; window start and truncation are recorded; every copied node has the style as built, or that of a column if it is a container expanded in an earlier frame or by an earlier block |
| `ExpansionLayout.RowsOnScreenAreLaidOut` | src/render/layout_bridge/expansion.rs:104-115 | after any frames a row whose band meets the viewport is laid out unless the block is recorded as truncated |
| `ExpansionLayout.SkippedBlockIsClosed` | src/render/layout_bridge/expansion.rs:243-264 | a block without list, rows or template keeps its template children and is not recorded |
| `ExpansionLayout.HistoryIsForgotten` | src/render/layout_bridge/expansion.rs:89-98 | windows, truncation, row counts, template children and budget of a frame do not depend on the frames before it |
| `ExpansionScreen.ShownIsRecorded` | src/render/layout_bridge/expansion.rs:243-264 | after any frames a block is recorded if and only if its list is in the store and not empty, it is laid out and has a template |
| `ExpansionScreen.WindowIsWhatTheViewportMeets` | src/render/layout_bridge/expansion.rs:273-303 | after any frames the rows laid out or cut off by the budget are exactly those whose band, from the measured or default offset and row height, meets the viewport widened by the buffer rows |
| `ExpansionScreen.RowOnScreenIsThere` | src/render/layout_bridge/expansion.rs:104-115 | a row whose band meets the viewport is laid out unless the block is recorded as truncated, with offset, row height, scroll position and store written out |
| `ExpansionScreen.TemplateIdsAreExact` | src/render/layout_bridge/expansion.rs:304-311 | the children given back are those of the template's nodes that are laid out, in order |
| `ExpansionScreen.StylesAreExact` | src/render/layout_bridge/expansion.rs:370-376 | a column by its properties, and the default style a node without layout is copied with |
| `Expander.BuildRow` | src/render/layout_bridge/expansion.rs:319-346 | the code of one row makes the specified row |
| `Expander.BuildSpacer` | src/render/layout_bridge/helpers.rs:19-34 | the code of a spacer, none for no rows |
| `Expander.TemplateSize` | src/render/layout_bridge/expansion.rs:266-269 | the sum of the template's subtree sizes |
| `Expander.Furnish` | src/render/layout_bridge/expansion.rs:315-376 | rows, spacers and the container's new children and style are as specified |
| `Expander.ExpandEach` | src/render/layout_bridge/expansion.rs:242-380 | the body of the loop over blocks, with its skips, is the specified step |
| `Expander.RestoreChildren` | src/render/layout_bridge/expansion.rs:132-148 | every recorded container gets its children back, in whatever order the map yields them |
| `Expander.TearDown` | src/render/layout_bridge/expansion.rs:128-178 | the code of teardown leaves the torn-down arena, and never removes a node that is not there |
| `Expander.ExpandEachNodes` | src/render/layout_bridge/expansion.rs:116-383 | the code of a full rebuild is the specified rebuild |
| `Expander.ExpandFrames` | src/render/layout_bridge/expansion.rs:61-63 | frame after frame, the code is the specified run |
| `Debounce.StorageWriteDebouncer.constructor` | src/network/worker/storage_debounce.rs:103-113 | nothing is pending |
| `Debounce.StorageWriteDebouncer.Submit` | src/network/worker/storage_debounce.rs:115-159 | a submission is merged, and either starts a timer, flushes a full batch at once, or does neither |
| `Debounce.StorageWriteDebouncer.TimerWakes` | src/network/worker/storage_debounce.rs:141-157 | a timer takes whatever its domain has pending, or nothing |
| `Debounce.EveryRunKeepsInv` | src/network/worker/storage_debounce.rs:115-159 | the invariant of batches, timers and hand-offs in every reachable state |
| `Debounce.MergeReplays` | src/network/worker/storage_debounce.rs:115-159 | merging a batch is replaying the writes it was built from |
| `Debounce.NothingIsLost` | src/network/worker/storage_debounce.rs:115-159 | for every interleaving the removed batches in order and then the pending one give the last write to each key, and each submitted write is in exactly one batch |
| `Debounce.EveryBatchHasATimer` | src/network/worker/storage_debounce.rs:123-157 | a buffered domain has between one and max_keys - 1 keys and an unfired timer due at most one window after its first write, stale timers or not |
| `Debounce.SubmissionIsExact` | src/network/worker/storage_debounce.rs:126-139 | a submission takes the batch out if and only if it then has at least max_keys keys, and asks for a timer if and only if it does not and nothing was buffered |
| `Debounce.BatchIsExact` | src/network/worker/storage_debounce.rs:126-134 | the batch taken out or kept has the buffered keys and the new one, with the new value last; other domains are untouched |
| `Debounce.SubmissionInARun` | src/network/worker/storage_debounce.rs:115-149 | so from every reachable state, with the timer due exactly one window later |
| `Debounce.EveryTimerWasStarted` | src/network/worker/storage_debounce.rs:144-148 | in every run a sleeping timer is due exactly one window after a first write to its domain |
| `Debounce.SmallBatchesWait` | src/network/worker/storage_debounce.rs:145-157 | in every run a batch of fewer than max_keys keys is handed off by a timer, no earlier than one window after a first write to its domain |
| `Debounce.BufferedIsFlushedInTime` | src/network/worker/storage_debounce.rs:145-157 | from every reachable state, after one window a timer of each buffered domain may fire and hands exactly its batch off |
| `Utf8.OffsetIsBoundary` | src/render/chrome_vello/state.rs:47-71 | the offset of a character is a boundary within the text |
| `Utf8.BoundaryIsOffset` | src/render/chrome_vello/state.rs:47-71 | and every boundary is the offset of a character |
| `Utf8.DecodeAtOffset` | src/render/chrome_vello/state.rs:98-129 | decoding at the offset of a character gives that character |
| `Utf8.OctetsOf` | src/render/chrome_vello/state.rs:47-71 | how many octets a character takes, by the ranges of section 3 of RFC 3629 |
| `Utf8.StandardExamples` | src/render/chrome_vello/state.rs:47-71 | the encodings given in section 7 of RFC 3629 |
| `CharEditor.TypeThenBackspace` | src/render/chrome_vello/state.rs:81-115 | typing a character and deleting it is no change beyond the selection it replaced; a stripped control leaves the deletion to the character before |
| `CharEditor.CutThenPaste` | src/render/chrome_vello/state.rs:270-279 | cutting and pasting back puts the stripped selection in its place, so it restores the text if and only if no override control was selected |
| `CharEditor.StripBidiOverrides` | src/render/bidi/mod.rs:116-142 | no override or isolate control is left, and text without any is unchanged |
| `CharEditor.StripJoins` | src/render/bidi/mod.rs:116-142 | stripping goes character by character, so every other character stays, in order |
| `ChromeOverrides.CommandKeepsPlain` | src/render/chrome_vello/state.rs:73-96 | in one command a text without override controls stays so if and only if what the command displays, chooses or completes is without them |
| `ChromeOverrides.OverridesStayOut` | src/render/chrome_vello/state.rs:73-96 | over any commands the text is without override controls all along if and only if every text displayed, suggestion chosen and completion accepted was |
| `ChromeBar.DeleteRefines` | src/render/chrome_vello/state.rs:81-130 | deleting bytes between two character offsets deletes those characters |
| `ChromeBar.InsertRefines` | src/render/chrome_vello/state.rs:81-96 | inserting encoded text at a character offset inserts those characters |
| `ChromeBar.ChromeState.OffsetsAreBoundaries` | src/render/chrome_vello/state.rs:22-279 | cursor and both ends of the selection are character boundaries within the text, so no slice can fail |
| `ChromeBar.ChromeState.SetDisplayedUrl` | src/render/chrome_vello/state.rs:22-27 | the text is replaced as given, with the cursor at its end and neither selection nor completion |
| `ChromeBar.ChromeState.SelectionRange` | src/render/chrome_vello/state.rs:32-35 | the ends of a selection in order, also of an empty one, and nothing without a selection |
| `ChromeBar.ChromeState.PrevCharBoundary` | src/render/chrome_vello/state.rs:47-57 | the offset of the character before |
| `ChromeBar.ChromeState.NextCharBoundary` | src/render/chrome_vello/state.rs:59-71 | the offset of the character after |
| `ChromeBar.ChromeState.InsertText` | src/render/chrome_vello/state.rs:81-96 | inserts like the character editor, over the selection |
| `ChromeBar.ChromeState.DeleteBackward` | src/render/chrome_vello/state.rs:98-115 | deletes the selection or the character before, like the character editor |
| `ChromeBar.ChromeState.DeleteForward` | src/render/chrome_vello/state.rs:117-135 | deletes the selection or the character after |
| `ChromeBar.ChromeState.MoveLeft` | src/render/chrome_vello/state.rs:137-157 | moves or extends to the left, or collapses the selection |
| `ChromeBar.ChromeState.MoveRight` | src/render/chrome_vello/state.rs:159-178 | moves or extends to the right, or collapses the selection |
| `ChromeBar.ChromeState.SelectWordAtCursor` | src/render/chrome_vello/state.rs:212-263 | selects the run of characters around the cursor that a word is |
| `ChromeBar.ChromeState.CutText` | src/render/chrome_vello/state.rs:270-275 | returns the selected bytes and deletes them |
| `ChromeBar.ChromeState.HandleKey` | src/render/chrome_vello/state.rs:317-439 | each key does to the bytes what it does to the characters, and yields the same action |
| `ChromeBar.ChromeState.PerformAll` | src/render/chrome_vello/state.rs:22-439 | after any sequence of keys, edits, selections, cuts, pastes and placements the bytes encode the character editor's text and the offsets are those of its positions |
| `ChromeKeys.DeletingASelection` | src/render/chrome_vello/state.rs:98-135 | Backspace and Delete with a selection remove exactly it |
| `ChromeKeys.BackspaceKey` | src/render/chrome_vello/state.rs:393-396 | without one Backspace removes the character before the cursor |
| `ChromeKeys.DeleteKey` | src/render/chrome_vello/state.rs:397-400 | and Delete the character after it |
| `ChromeKeys.MovingWithShift` | src/render/chrome_vello/state.rs:137-203 | with Shift arrows, Home and End move the cursor and keep the anchor of the selection |
| `ChromeKeys.MovingWithoutShift` | src/render/chrome_vello/state.rs:137-203 | without it they drop the selection; arrows go to its lower or upper end, or one position on; Home and End to the ends of the text |
| `ChromeKeys.LeftAndRight` | src/render/chrome_vello/state.rs:137-178 | Left and Right undo each other away from the ends |
| `ChromeKeys.TypingIsExact` | src/render/chrome_vello/state.rs:427-436 | of a key's text exactly the characters are inserted, in order, that are neither controls nor bidi overrides or isolates, by code point |
| `ChromeKeys.TypingKey` | src/render/chrome_vello/state.rs:427-438 | they take the place of the selection with the cursor after them; a text of controls alone is ignored |
| `ChromeKeys.TypingAndBackspace` | src/render/chrome_vello/state.rs:317-438 | typing a character and then Backspace is no change |
| `ChromeKeys.ControlKeys` | src/render/chrome_vello/state.rs:417-426 | with Control, A selects everything, C, X and V ask for the clipboard and change nothing, other keys are ignored |
| `ChromeKeys.EscapeKey` | src/render/chrome_vello/state.rs:353-360 | Escape keeps the text and gives up selection, focus and suggestions |
| `ChromeKeys.DownKey` | src/render/chrome_vello/state.rs:377-392 | Down goes from no suggestion through all of them and back to none |
| `ChromeKeys.UpAndDown` | src/render/chrome_vello/state.rs:361-392 | Up and Down undo each other |
| `ChromeKeys.TrimIsExact` | src/render/chrome_vello/state.rs:331-338 | trimming takes exactly the white space off both ends, by code point |
| `ChromeKeys.EnterKey` | src/render/chrome_vello/state.rs:327-352 | Enter navigates to the chosen suggestion, the completed text or the trimmed text, with the default scheme if and only if it has none, and closes the bar on it |
| `ChromeKeys.WordSelection` | src/render/chrome_vello/state.rs:212-260 | a word selection is the longest run without separators around the cursor, or the separator under it, with the cursor at its end |
| `ChromeKeys.StrippingIsExact` | src/render/bidi/mod.rs:116-142 | stripping keeps exactly the characters outside the two ranges, in order |
| `ChromeKeys.Copying` | src/render/chrome_vello/state.rs:38-44 | what is copied is exactly what is selected |
| `ChromeKeys.Cutting` | src/render/chrome_vello/state.rs:270-275 | cutting removes exactly that, and nothing without a selection |
| `ChromeKeys.Pasting` | src/render/chrome_vello/state.rs:277-279 | pasting puts the stripped text in the place of the selection |
| `ChromeKeys.EditingKeysAreHandled` | src/render/chrome_vello/state.rs:393-416 | keys that edit or move are always handled |
| `ChromeKeys.DisplayingAndPointing` | src/render/chrome_vello/state.rs:22-27 | displaying replaces the text and forgets the completion; pointing moves the cursor, dragging the selection along when extending it |
| `Quota.CapabilityPolicy.constructor` | crates/core/src/security/quota.rs:116-138 | the quota of the document's tier, an empty window, the shared ledger |
| `Quota.CapabilityPolicy.CheckStorageWrite` | crates/core/src/security/quota.rs:156-178 | a write's effect on the policy's window and the origin's total, and its verdict |
| `Quota.CapabilityPolicy.CheckWriteBudget` | crates/core/src/security/quota.rs:193-226 | accepted writes stay within quota and window; refused ones change no total |
| `Quota.TierQuotas` | crates/core/src/security/quota.rs:9-13 | the quota of each tier in bytes, and what a new policy starts with |
| `Quota.AcceptanceIsExact` | crates/core/src/security/quota.rs:156-226 | from every reachable state a write is accepted if and only if fewer than ten were accepted in the window and the bytes fit the quota; what it then changes, and that a refused one changes no total |
| `Quota.EveryRunKeepsInv` | crates/core/src/security/quota.rs:105-226 | ledger, quotas and rates in every state that any number of policies on one ledger reach |
| `Quota.TotalsAreConserved` | crates/core/src/security/quota.rs:68-71 | an origin's total is the sum of the bytes accepted for it, never falls, and is within the quota of some policy that wrote to it |
| `Quota.AtMostTwentyPerSecond` | crates/core/src/security/quota.rs:165-178 | at most ten writes in a window and twenty in any second of any run |
| `Quota.AtMostTenWithoutTurn` | crates/core/src/security/quota.rs:165-178 | in every run, at most ten in a second strictly inside which no write turned the window |
| `Quota.TwentyInOneSecond` | crates/core/src/security/quota.rs:165-178 | for every point strictly inside a second, a run that turns its window there and accepts twenty writes in that second |
| `Pool.H3ConnectionPool.LeastRecentlyUsed` | src/network/worker/h3_pool.rs:184-187 | an entry used no later than any other |
| `Pool.H3ConnectionPool.MakeRoom` | src/network/worker/h3_pool.rs:176-193 | idle entries go, then least recently used ones until a slot is free |
| `Pool.H3ConnectionPool.GetOrConnect` | src/network/worker/h3_pool.rs:197-252 | a hit refreshes its entry, a miss makes room, and only a completed handshake adds an entry |
| `Pool.H3ConnectionPool.Evict` | src/network/worker/h3_pool.rs:258-260 | the entry is gone and the rest unchanged |
| `Pool.DroppedForAReason` | src/network/worker/h3_pool.rs:176-193 | a dropped entry was idle past the limit or no more recently used than every survivor; survivors are unchanged and not idle |
| `Pool.RoomIsExact` | src/network/worker/h3_pool.rs:176-193 | every entry unused for the limit goes, of the others only the least recently used and only as many as leave one slot free, and survivors are unchanged |
| `Pool.RequestIsExact` | src/network/worker/h3_pool.rs:203-260 | a hit refreshes the time of its entry and no more, a handshake adds its own entry or none, and an eviction takes out one |
| `Pool.EveryRunIsBounded` | src/network/worker/h3_pool.rs:197-260 | with a limit of at least one, no run of hits, handshakes, failures and evictions exceeds it |
| `Pool.ZeroLimitIsExceeded` | src/network/worker/h3_pool.rs:176-193 | with a limit of zero the first success does |
| `Sandbox.NormalizePathComponents` | crates/core/src/security/sandbox.rs:8-25 | the loop computes the normalised path |
| `Sandbox.NormalizeFromWalks` | crates/core/src/security/sandbox.rs:8-25 | from any buffer, it gives up exactly when the walk climbs past it, and otherwise ends where the walk does |
| `Sandbox.NormalizationIsTheWalk` | crates/core/src/security/sandbox.rs:8-25 | the result is empty exactly when the walk climbs above its start or a relative one ends there, holds no `.` or `..`, leads where the path leads from any directory, and is its own normal form |
| `Sandbox.ContainmentIsSubtree` | crates/core/src/security/sandbox.rs:49-60 | lexical containment holds if and only if neither path escapes, both are absolute or both relative, and the target's end point lies in the base's subtree |
| `HitTesting.NodeScreenRect` | src/render/inspector/mod.rs:558-595 | the bottom-up loop computes the rectangle found top down, and nothing for an unmapped node |
| `HitTesting.PositionsAreExact` | src/render/hit_test/mod.rs:44-79 | a child lies at its own location within its parent, moved up by the parent's scrolling, with its own size; unmapped nodes have neither |
| `HitTesting.RootPosition` | src/render/hit_test/mod.rs:44-58 | the root lies at its own location from where the page is placed |
| `HitTesting.RectHasItsEdges` | src/render/hit_test/mod.rs:60-63 | a rectangle has its edges |
| `HitTesting.HitTestFinds` | src/render/hit_test/mod.rs:38-85 | on every tree, mapped or not, the recursion returns the node of a hit, and nothing exactly outside the root |
| `HitTesting.HitMatchesScreen` | src/render/hit_test/mod.rs:19-85 | nothing is hit exactly outside the root's screen rectangle; otherwise the screen rectangles of the node hit and all its ancestors have the point, those of its children do not, nor those of earlier siblings at any level; unmapped nodes have no extent |
| `Accessibility.AccessIdsDiffer` | src/render/accessibility/mod.rs:68-70 | identifiers are equal if and only if the numbers are, and the generations are or, for the last number, differ in the lowest bit at most |
| `Accessibility.ResolvesOnlyItsOwn` | src/render/accessibility/mod.rs:80-90 | an identifier resolves if and only if the generation is its own and the number not the last, and then to its node |
| `Accessibility.OnlyIdentifiersResolve` | src/render/accessibility/mod.rs:80-90 | an identifier that resolves is that of the node it leads to |
| `Accessibility.LastNumberCollides` | src/render/accessibility/mod.rs:68-70 | two generations share the identifier of the last number if and only if they differ in the lowest bit at most |
| `Accessibility.BuildNode` | src/render/accessibility/mod.rs:163-248 | the recursion appends the subtree's entries |
| `Accessibility.BuildTree` | src/render/accessibility/mod.rs:120-158 | entries, root and focus of an update |
| `Accessibility.FocusIsDeclared` | src/render/accessibility/mod.rs:147-157 | the focus is one of the entries if and only if the focused node is exposed or, when it is not numbered or there is none, the root is numbered |
| `Accessibility.ListsExactlyTheExposed` | src/render/accessibility/mod.rs:160-248 | an update lists a node if and only if it and all its ancestors are numbered |
| `Accessibility.EntryIsExact` | src/render/accessibility/mod.rs:238-247 | an entry has its node's identifier and refers to exactly its numbered children, in document order |
| `Accessibility.UpdateIsATree` | src/render/accessibility/mod.rs:160-248 | each exposed node once and under its own identifier, children before parents, every reference declared, everything reached from the root |
| `Accessibility.GenerationsAreDisjoint` | src/render/accessibility/mod.rs:55-70 | updates of different generations share no identifier |

## Left out

- Partial rebuilds of the expansion (`dirty_list_names` given): their record covers row containers only, so the conservation and budget laws are not theirs.
- The order of `dom.nodes()`: blocks come in any order, given with the document; the search for them in the tree is not modelled.
- Expander.ExpandEachNodes: requires the arena as `build_taffy_tree` leaves it; style resolution and the construction of that arena are not modelled.
- Pool.EveryRunIsBounded: the handshake itself is a parameter, and requests come one after the other because the lock is held throughout.
- Debounce.NothingIsLost: the order is that of removal from the map; the commits run on a blocking pool and are not ordered by the code.
- WorkerHosting.WorkerHost.DispatchEvent: takes what the operating system says of a broken channel as a parameter, and knows the Unix signals of a sandbox kill only, because the Windows codes need its own exit statuses.
- ChromeBar.ChromeState.PerformAll: a click lands on some character position; finding it takes font metrics.
- Sandbox.ContainmentIsSubtree: is about the lexical branch; `canonicalize`, symbolic links and Windows prefixes are outside.
- Accessibility.BuildNode: does not model roles, names and actions of entries.
- Texts of error messages are reduced to their reasons.
- QUIC, HTTP/3, TLS, DNS, the keyring, the database, shared memory and the operating system's sandboxes.
- Painting, text shaping, fonts, colours and images.
- The evaluator, the checkers, style merging, the wire format and `resolve_endpoint_url`, which are parameters where they are needed.
- Navigation, focus, the inspector's panels and rows, the sidebar and forms: easy members that would add nothing harder.
