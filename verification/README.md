# A model of lumux, and what holds of it

lumux is a terminal multiplexer: one server keeps shells running in panes, panes are arranged by
split trees in windows, windows belong to sessions, and any number of clients attach. This project
models the parts of it that decide something and proves what they promise:

- the **layout engine**: rectangles from a split tree, hit-testing, grabbing and dragging dividers,
  moving the focus (`Layout`, `LayoutHit`, `LayoutDrag`, `LayoutFocus`, `Screen`);
- the **agent lifecycle**: claims, reports and clears delivered in any order (`Agent`, `Lifecycle`);
- the **visibility coordinator**: a finished agent is acknowledged exactly when its pane is on screen
  for somebody (`Model`, `Visibility`, `EventLoop`);
- the **frame-epoch protocol** between server, channel, terminal and input (`FrameEpoch`), and which
  picture a byte is stamped with on its way from the terminal to the server (`InputStamps`);
- the **streaming decoders** for what a terminal sends (`Streaming`, `OuterInput`, `Mouse`,
  `MouseStream`, `DebugInput`);
- the **process walk** behind agent detection (`ProcessTree`, `Detect`);
- **copy mode**, **status formats** and the **sidebar projection** (`CopyMode`, `StatusFormat`,
  `Sidebar`).

Objects the source updates in place are classes whose methods are proved against functions on their
values; the theorems are about those functions. Loops are loops. `Common` holds shared vocabulary.
To check the whole project, run `dafny verify dfyconfig.toml` here.

## Where code and expectation differ

Each of these is a theorem, with the exact condition under which the expectation holds.

- A comment (`crates/lumux-core/src/terminal_input.rs:25`) says at most two bytes are held back; the
  paste markers make it five. More than two are held exactly when the stream ends in three to five
  bytes of a paste marker (`OuterInput.FiveBytesMayBeHeld`, `OuterInput.MoreThanTwoAreHeld`).
- A held mouse prefix keeps one picture number for all its bytes, that of the first. A report that
  starts later in the held bytes is acted on under the wrong picture: over any run of frames, exactly
  when some frame completes a report that started among the held bytes, past the first, under another
  number (`MouseStream.EveryReportHasItsPicture`, `MouseStream.HeldReportsKeepTheirPicture`,
  `MouseStream.StrayIntroducerTakesThePicture`).
- An input is stamped when it is written, not when it is read. A byte carries the number it was read
  under exactly when no picture was published in between, and what waits longer than its own burst is
  what the decoder holds back; so a report whose two reads are cut inside `ESC [ <` is acted on under
  the newer picture, and one cut later is not (`InputStamps.StampsMeetTheirRead`,
  `InputStamps.OnlyHeldBytesLag`, `InputStamps.CutReportMeetsItsPicture`).
- The attached client flushes a picture and then publishes its number, in two steps. An input stamped
  between them is taken for the picture before the one on screen, and only such an input
  (`FrameEpoch.InputsMeetTheirPicture`, `FrameEpoch.UnpublishedInputsLag`).
- A split whose shell cannot be started has already unzoomed the window but is treated as rejected, so
  finished panes it uncovers are not acknowledged (`Visibility.FailedSplitBreaksContract`, and a run
  that gets there: `Visibility.FailedSplitUncoversDone`).
- Swapping a zoomed pane with a pane of another window leaves its window zoomed on a pane it no longer
  has; focusing that window's agent then does not put it on screen (`Model.ZoomStaysOnFocus`,
  `Model.SwappedZoomShowsForeignPane`, `Model.FocusedAgentIsRendered`, and a run that gets there:
  `Model.SwapTakesZoomAway`).
- An unclaimed report that is the newest event of an owned identity decides in every delivery order
  exactly when the pane does not start as that identity's tombstone and no clear is newer than the
  start (`Lifecycle.UnclaimedHighestDecidesIffNoClear`).
- Delivery order may decide what is displayed even where it does not decide the state: a turn that
  starts and ends displays Done in order and idle out of order (`Lifecycle.EndedTurnShowsByOrder`).
  With a newest idle report the display is the same in every order exactly when no clear can come
  before it, if the pane starts out displaying a turn, or no report of a turn, if it does not
  (`Lifecycle.DisplayedAlikeIffNothingBetween`).
- A backward search from below the buffer finds nothing, whatever the buffer holds
  (`CopyMode.BackwardFailsBelow`); copied and highlighted text differ exactly when a stream selection
  reaches more than one row below the buffer (`CopyMode.CopyIsHighlight`); and a stream selection,
  documented as including the cursor's cell, copies as if it did exactly when its last cell is blank
  or beyond its row (`CopyMode.StreamExcludesItsEnd`).
- A branch of a conditional format survives exactly when it has no comma outside its braces; one with
  such a comma, as in a style of two parts, is cut there
  (`StatusFormat.BranchesSurviveWithoutOuterCommas`, `StatusFormat.StrayCommaCutsBranch`).
- Letter case and blanks do not matter for identifying an agent, except at the extension: `.exe` is
  taken off only in small letters and at the very end (`Detect.OnlyPlainExtensionsStrip`).
- Re-encoding a parsed mouse report gives back its bytes exactly when they were canonical
  (`Mouse.ParsedPrintsBack`).

## Model

| member | source | states |
|---|---|---|
| `Layout.Tiling` | crates/lumux-core/src/layout.rs:42-102 | in every viewport, zero-sized ones included, and for every ratio, each cell has exactly one owner, a pane rectangle or one split's divider line, and cells outside have none |
| `Layout.ExtentIsNearest` | crates/lumux-core/src/layout.rs:68-75 | a ratio gives the first child the whole number of cells nearest to its share of the usable ones, a half rounded up; none below zero, all above one |
| `Layout.SplitFollowsItsRatio` | crates/lumux-core/src/layout.rs:66-102 | in coordinates, horizontally and vertically: the children fill the area one cell apart, keep the other axis whole, and the first is nearest to its share; half a split of an even side is exactly half |
| `Layout.PanesAreDisjoint` | crates/lumux-core/src/layout.rs:42-64 | no two panes of a computed layout share a cell |
| `Layout.AreaIsConserved` | crates/lumux-core/src/layout.rs:42-102 | pane areas and divider cells add up to the viewport's area |
| `Layout.OriginsStayInReach` | crates/lumux-core/src/layout.rs:68-102 | a pane of zero size starts outside the viewport by at most one cell per nested split; a pane of positive size never leaves it; so 16-bit cells suffice while viewport plus depth fits |
| `LayoutHit.PaneAtIsTheOwner` | crates/lumux-core/src/layout.rs:106-111 | hit-testing a computed layout returns a pane if and only if that pane owns the cell |
| `LayoutHit.GrabbedPathNamesASplit` | crates/lumux-core/src/layout.rs:118-157 | every path a press returns names a split of the tree whose divider line is within one cell of the press |
| `LayoutHit.ReachIsOneCell` | crates/lumux-core/src/layout.rs:118-217 | a point is within reach of a divider if and only if it is at most one cell, across the line, from a cell that divider owns |
| `LayoutHit.OutermostDividerWins` | crates/lumux-core/src/layout.rs:118-157 | a press near a split's divider grabs exactly that split if and only if no split above it is within reach |
| `LayoutHit.EveryCellHits` | crates/lumux-core/src/layout.rs:106-157 | a viewport cell over no pane always grabs some divider |
| `LayoutDrag.DragChangesOneRatio` | crates/lumux-core/src/layout.rs:164-208 | a drag succeeds exactly on a path that names a split, and then changes that split's ratio only; otherwise nothing |
| `LayoutDrag.DragLeavesTheRest` | crates/lumux-core/src/layout.rs:164-208 | a drag keeps shape and leaf order, and the rectangle of every pane outside the named split |
| `LayoutDrag.DragIsExact` | crates/lumux-core/src/layout.rs:164-208 | the divider lands under the cursor if and only if the cursor's offset is within half a cell of lying between 5% and 95% of the usable span; otherwise it stops at the cell nearest to the end passed |
| `LayoutDrag.RegrabAfterDrag` | crates/lumux-core/src/layout.rs:118-208 | pressing again where an exact drag ended grabs the same path if and only if no split above has a divider within one cell |
| `LayoutFocus.Neighbor` | crates/lumux-core/src/layout.rs:232-294 | returns the least pane by edge distance, centre offset and id among those on that side with perpendicular overlap, and none exactly when there is none |
| `LayoutFocus.BestIsUnique` | crates/lumux-core/src/layout.rs:275-294 | at most one pane is the best neighbour in a direction |
| `LayoutFocus.CandidatesShareALine` | crates/lumux-core/src/layout.rs:243-259 | a candidate starts on the requested side and shares a row, or a column, with the pane, and nothing else is one |
| `LayoutFocus.BestIsNearest` | crates/lumux-core/src/layout.rs:263-294 | against any other candidate, in coordinates: the facing edge is nearer, overlaps counting as touching; on a tie the centre is nearer by rows when moving left or right and by columns when moving up or down; then the id is smaller |
| `LayoutFocus.TieBreakIgnoresTravel` | crates/lumux-core/src/layout.rs:263-283 | the tie-break does not change along the travel axis, and is zero if and only if the centres align across it |
| `LayoutFocus.SomeNeighbourBack` | crates/lumux-core/src/layout.rs:232-294 | a pane found in one direction has some neighbour in the opposite one |
| `LayoutFocus.EdgeDistanceNeedsNoClamp` | crates/lumux-core/src/layout.rs:246-272 | on computed layouts with panes of positive size, clamping the edge distance at zero changes nothing |
| `Screen.EveryScreenCellHasOneOwner` | crates/lumux-server/src/daemon.rs:3155-3194 | with the width the sidebar settings give, every screen cell belongs to exactly one of sidebar, status row, pane and divider, zoomed or not; a hidden sidebar takes no cell and a shown one none in the right half |
| `Screen.SidebarTakesItsColumns` | crates/lumux-server/src/daemon.rs:3155-3194 | above the status row, which is the last, the sidebar owns exactly the columns below its configured width when expanded, below three when collapsed, half of the screen where that is less, and none when hidden |
| `Screen.ZoomedPaneTakesTheRest` | crates/lumux-server/src/daemon.rs:3155-3162 | a zoomed pane owns every cell right of the sidebar and above the status row, and no other |
| `Agent.AgentStatus.constructor` | crates/lumux-core/src/agent.rs:181-189 | a first report gives a status that is Done only if the report said so |
| `Agent.AgentStatus.ApplyReport` | crates/lumux-core/src/agent.rs:194-199 | the new status is the specified one for the old status and the report, and Done is never stored |
| `Agent.AgentStatus.ApplyReportInner` | crates/lumux-core/src/agent.rs:201-236 | exactly which reports leave a completion unseen |
| `Agent.ShownStatesEvolveAlone` | crates/lumux-core/src/agent.rs:180-263 | what is shown after a report or an acknowledgement depends on what is shown before, not on what is stored: a turn shown as working, blocked, already done, or unknown for the same agent ends as Done when idle is reported, and acknowledging turns Done into idle and changes nothing else |
| `Agent.AgentStatus.Acknowledge` | crates/lumux-core/src/agent.rs:256-263 | afterwards Done is not shown; true exactly when it was |
| `Agent.DoneMeansUnseen` | crates/lumux-core/src/agent.rs:180-263 | over every history of reports and acknowledgements, Done is shown if and only if a completion happened after the last acknowledgement and was not withdrawn since; unseen implies idle; Done is never stored |
| `Lifecycle.AgentLifecycle.Report` | crates/lumux-server/src/daemon.rs:187-236 | a report changes the lifecycle as the delivery specification says; true exactly when the visible status changed |
| `Lifecycle.AgentLifecycle.Clear` | crates/lumux-server/src/daemon.rs:238-244 | a clear removes only its own identity's status, and leaves a tombstone |
| `Lifecycle.Registry.Handle` | crates/lumux-server/src/daemon.rs:2665-2703 | events reach live panes only, first events open a lifecycle, other panes are untouched |
| `Lifecycle.Registry.Acknowledge` | crates/lumux-server/src/daemon.rs:2707-2712 | acknowledges the visible status of that pane and nothing else |
| `Lifecycle.OwnershipIsKept` | crates/lumux-server/src/daemon.rs:187-244 | a rejected event changes nothing, an accepted one raises the sequence, the identity changes only by a newer claim, and another identity's clear removes nothing |
| `Lifecycle.OwnershipOverRuns` | crates/lumux-server/src/daemon.rs:187-244 | over every run the sequence never decreases, and a changed identity was claimed by a newer event of the run |
| `Lifecycle.LostStatusWasCleared` | crates/lumux-server/src/daemon.rs:187-244 | a status lost over a run was cleared by the identity that ends up owning the pane |
| `Lifecycle.ReplacementStartsFresh` | crates/lumux-server/src/daemon.rs:222-231 | an accepted report of another identity displays exactly its own state, whatever the owner before it was doing |
| `Lifecycle.HighestClaimDisplays` | crates/lumux-server/src/daemon.rs:187-236 | over every run, whoever else reports, a highest claim displays itself, except that an idle claim displays Done if and only if the pane was its own identity's before and displayed something other than idle |
| `Lifecycle.TakeoverDisplaysItsClaim` | crates/lumux-server/src/daemon.rs:222-231 | in every order in which the pane was another identity's just before it, a highest claim displays its own state |
| `Lifecycle.OwnedTombstoneStays` | crates/lumux-server/src/daemon.rs:187-207 | an owned tombstone stays invisible through every run without a claim |
| `Lifecycle.HighestClaimDecides` | crates/lumux-server/src/daemon.rs:187-236 | whatever the order, a claiming report with the highest sequence decides identity and state |
| `Lifecycle.HighestClearLeavesATombstone` | crates/lumux-server/src/daemon.rs:238-244 | when one identity sends all events, a highest clear always leaves a tombstone |
| `Lifecycle.HighestUnownedEventDecides` | crates/lumux-server/src/daemon.rs:187-244 | when one unowned identity sends all events, the highest of any kind decides |
| `Lifecycle.UnclaimedHighestDecidesIffNoClear` | crates/lumux-server/src/daemon.rs:187-244 | the remaining case, from any older start: with an owned identity a highest unclaimed report decides in every order if and only if the start is not its tombstone and no clear is newer than the start |
| `Lifecycle.DeliveryOrderIsIrrelevant` | crates/lumux-server/src/daemon.rs:187-244 | in the deciding cases, from any older start, all permutations of the events end with the same identity, sequence and semantic state |
| `Lifecycle.HighestReportDisplays` | crates/lumux-server/src/daemon.rs:187-236 | among events of one identity, where no tombstone can keep it out, a highest report displays itself, except that idle displays Done if and only if something other than idle was displayed before it |
| `Lifecycle.DisplayedAlikeIffNothingBetween` | crates/lumux-server/src/daemon.rs:187-244 | for one identity, except where an owned tombstone makes even the state depend on the order: a highest report of another state than idle displays itself in every order; a highest idle report displays the same in every order if and only if no newer clear is delivered, where the pane starts out displaying another state, or no newer report of another state, where it does not |
| `Lifecycle.EndedTurnShowsByOrder` | crates/lumux-server/src/daemon.rs:187-236 | the failing input: working and then idle displays Done in order, idle out of order |
| `Model.EditsShowOwnPanes` | crates/lumux-core/src/model/mod.rs:143-420 | focusing, zooming, splitting, breaking out and swapping show no pane the session did not have, apart from one they create, wherever the zooms are |
| `Model.EditsKeepWellFormed` | crates/lumux-core/src/model/mod.rs:143-420 | every edit keeps an active window, the focus of each window on one of its panes, and every pane in one place |
| `Model.ZoomStaysOnFocus` | crates/lumux-core/src/model/mod.rs:143-178 | every edit keeps a zoom on the focused pane of its own window, except that a swap across windows does so if and only if it moves no zoomed pane |
| `Model.PanesAreConserved` | crates/lumux-core/src/model/mod.rs:143-420 | no edit loses a pane, and none but a split adds one |
| `Model.ZoomTwiceRestores` | crates/lumux-core/src/model/mod.rs:165-178 | zooming shows the focused pane alone, zooming again restores the session |
| `Model.ZoomNeedsCompany` | crates/lumux-core/src/model/mod.rs:165-178 | a window with one pane does not zoom; a zoomed one unzooms, whatever it shows |
| `Model.SplitGoesBehindTheFocus` | crates/lumux-core/src/model/mod.rs:345-354 | a split puts the new pane right behind the focused one, keeps the others in order, and focuses it |
| `Model.BreakTakesTheFocused` | crates/lumux-core/src/model/mod.rs:766-776 | breaking out moves the focused pane alone to the new, active window and focuses the first of those left, in their order; an only pane stays |
| `Model.SwapExchangesPlaces` | crates/lumux-core/src/model/mod.rs:834-876 | a swap across windows exchanges two panes place for place, the focus staying on its place |
| `Model.FocusMovesOnlyItself` | crates/lumux-core/src/model/mod.rs:143-163 | focusing changes the active window and the focus of its window only, and ends that window's zoom if and only if the focus moves |
| `Model.FocusedAgentIsRendered` | crates/lumux-server/src/eventloop.rs:1083-1106 | focusing an agent's pane is all or nothing, and puts it on screen unless it had the focus of a window zoomed on another pane |
| `Model.SwappedZoomShowsForeignPane` | crates/lumux-core/src/model/mod.rs:834-876 | swapping a zoomed pane across windows leaves a window that shows only a pane it no longer has |
| `Model.SwapTakesZoomAway` | crates/lumux-core/src/model/mod.rs:834-876 | a run of edits from a single pane that gets there, after which focusing the agent in the focused pane is accepted and leaves it off screen |
| `Visibility.StepKeeps` | crates/lumux-server/src/eventloop.rs:884-996 | after each kind of step, nothing displayed as Done is in view of a client that may be looking |
| `Visibility.NothingDoneStaysInView` | crates/lumux-server/src/eventloop.rs:884-996 | the same over whole runs of connects, focus changes, input, switches, arbitrary focus and topology changes, exits, kills, reports, clears and detection |
| `Visibility.ActorsHaveSeen` | crates/lumux-server/src/eventloop.rs:884-919 | whoever attaches, types, gains focus or switches may look at once, is routed to that session, and nothing on screen there displays Done |
| `Visibility.AcknowledgedOnlyInView` | crates/lumux-server/src/eventloop.rs:884-968 | a step acknowledges a pane only if that pane ends up in view; otherwise it does to the lifecycle what the step itself says |
| `Visibility.AcknowledgedForAWatcher` | crates/lumux-server/src/eventloop.rs:884-968 | spelled out: a step acknowledges a pane only for a client whose terminal has not lost focus, in a session whose active window renders it |
| `Visibility.ClientsComeAndGo` | crates/lumux-server/src/eventloop.rs:884-919 | a client stays until it goes or its session ends, changes session by a switch to an existing one only, and its focus is what it last said |
| `Visibility.LossHidesTheClient` | crates/lumux-server/src/eventloop.rs:894-899 | after a focus loss that client may not be looking; nothing else changes, and its session is observed exactly if another client there may be |
| `Visibility.LastWordDecides` | crates/lumux-server/src/eventloop.rs:884-964 | over every run, a client may be looking if and only if the last of its connects, inputs and focus reports was no loss of focus |
| `Visibility.UnseenCompletionShows` | crates/lumux-server/src/eventloop.rs:803-821 | a completion reported while nobody may be looking at the session displays Done |
| `Visibility.DoneWaitsToBeSeen` | crates/lumux-server/src/eventloop.rs:884-968 | a pane displaying Done in a session nobody looks at keeps displaying it, through every run, until somebody there acts or its own agent is heard of again |
| `Visibility.CompletionWaitsForItsClients` | crates/lumux-server/src/eventloop.rs:884-968 | the two together: reported while every client of the session has lost focus, a completed turn is displayed as Done until one of them acts |
| `Visibility.PanesComeAndGo` | crates/lumux-server/src/eventloop.rs:3167-3194 | a pane takes reports from its start to its end, and belongs to the session it was started in until it is taken away, which a kept dead pane is not |
| `Visibility.SessionsComeAndGo` | crates/lumux-server/src/eventloop.rs:492-514 | a session is there from its opening to its end, changes by its own steps only, and a new window shows its one pane and keeps the others |
| `Visibility.DetectionShows` | crates/lumux-server/src/daemon.rs:2735-2781 | detection shows an agent it finds as idle where no hook reports, leaves hook reports alone, and drops what a pane showed of an agent that is gone |
| `Visibility.FailedSplitBreaksContract` | crates/lumux-server/src/daemon.rs:5153-5168 | after a split that failed to start its shell, the contract holds if and only if the split did not uncover a finished pane in a session somebody may be looking at |
| `Visibility.FailedSplitUncoversDone` | crates/lumux-server/src/daemon.rs:5153-5168 | an allowed run from the empty server to a zoom hiding a finished pane, which a failed split then leaves on screen displaying Done |
| `Visibility.EditsAreAllowed` | crates/lumux-server/src/eventloop.rs:970-1106 | the model's edits meet the coordinator's premise, wherever the zooms are: rejected ones change nothing, accepted ones show no foreign pane |
| `Visibility.EditRunsAreAllowed` | crates/lumux-server/src/eventloop.rs:970-1106 | every run of edits, cross-window swaps included, is a run of allowed steps, and so keeps the contract |
| `EventLoop.Loop.constructor` | crates/lumux-server/src/eventloop.rs:207-225 | the loop starts within the contract |
| `EventLoop.Loop.SessionHasObservingClient` | crates/lumux-server/src/eventloop.rs:960-964 | true exactly when some client of the session may be looking |
| `EventLoop.Loop.ObservablePanesOf` | crates/lumux-server/src/eventloop.rs:923-943 | the rendered panes of an observed session, and none otherwise |
| `EventLoop.Loop.AcknowledgeAll` | crates/lumux-server/src/eventloop.rs:910-918 | every pane of the list is acknowledged, no other; true exactly when something changed |
| `EventLoop.Loop.CoordinateVisibility` | crates/lumux-server/src/eventloop.rs:884-919 | the new state is the specified one for the transition |
| `EventLoop.Loop.Attach` | crates/lumux-server/src/eventloop.rs:390-450 | attaching is the specified step; this and each handler below keeps the contract, nothing in view displaying Done, whenever the step is allowed |
| `EventLoop.Loop.SwitchClientSession` | crates/lumux-server/src/eventloop.rs:850-875 | switching is the specified step, also to the current or to an unknown session |
| `EventLoop.Loop.CoordinateTopology` | crates/lumux-server/src/eventloop.rs:970-996 | an accepted change is applied and exposed, a rejected one changes nothing |
| `EventLoop.Loop.FocusAgent` | crates/lumux-server/src/eventloop.rs:1083-1106 | both focus changes or none, accepted exactly when window and pane exist together; keeps the contract for a well-formed session, wherever the zooms are |
| `EventLoop.Loop.ReportAgentState` | crates/lumux-server/src/eventloop.rs:803-821 | reporting is the specified step: a completion on screen is acknowledged at once; true exactly when the report changed the visible status or something was acknowledged |
| `EventLoop.Loop.ClearAgentState` | crates/lumux-server/src/eventloop.rs:822-827 | clearing is the specified step; true exactly when the visible status changed |
| `EventLoop.Loop.ClientGone` | crates/lumux-server/src/eventloop.rs:290-301 | leaving is the specified step, and keeps the contract |
| `EventLoop.Loop.FocusChanged` | crates/lumux-server/src/eventloop.rs:632-642 | gaining and losing focus are the specified steps, and keeps the contract |
| `EventLoop.Loop.InputArrived` | crates/lumux-server/src/eventloop.rs:527-534 | input is the specified step; true exactly when something was acknowledged |
| `EventLoop.Loop.PaneSpawned` | crates/lumux-server/src/eventloop.rs:3167-3171 | a started pane belongs to its session and can be reported on, and keeps the contract |
| `EventLoop.Loop.OpenWindow` | crates/lumux-server/src/eventloop.rs:3181-3194 | a new window is the specified step, and keeps the contract |
| `EventLoop.Loop.OpenSession` | crates/lumux-server/src/eventloop.rs:492-514 | a new session is the specified step, and keeps the contract |
| `EventLoop.Loop.KeepDeadPane` | crates/lumux-server/src/daemon.rs:3026-3040 | a kept dead pane loses its lifecycle and takes no reports, and keeps the contract |
| `EventLoop.Loop.ClosePanes` | crates/lumux-server/src/eventloop.rs:3432-3487 | closing is the specified step: what is uncovered is exposed, an ended session loses its clients |
| `EventLoop.Loop.KillWholeSession` | crates/lumux-server/src/eventloop.rs:832-845 | killing is the specified step, and keeps the contract |
| `EventLoop.Loop.DisconnectClientsOf` | crates/lumux-server/src/eventloop.rs:836-843 | the loop removes the clients of the session and no other |
| `EventLoop.Loop.RefreshDetected` | crates/lumux-server/src/daemon.rs:2735-2781 | detection of one pane is the specified step; a change of what is shown is reported |
| `FrameEpoch.ClientHandle.EmitClient` | crates/lumux-server/src/eventloop.rs:3589-3624 | sends or skips as specified; either way the newest remembered map is the current one |
| `FrameEpoch.ClientHandle.InputFrame` | crates/lumux-server/src/eventloop.rs:1890-1906 | no number means the live picture, otherwise the first remembered one of that number or none |
| `FrameEpoch.EmittingStaysContiguous` | crates/lumux-server/src/eventloop.rs:3589-3620 | remembered numbers are consecutive, nonzero and at most 32, the wrap-around of the 64-bit counter included |
| `FrameEpoch.NumbersAreUnique` | crates/lumux-server/src/eventloop.rs:1890-1906 | a number names at most one remembered picture, and zero names none |
| `FrameEpoch.StepKeeps` | crates/lumux/src/attach.rs:170-200 | every step of emit, channel, reader, stamp and receipt keeps the protocol's invariant |
| `FrameEpoch.InputsMeetTheirPicture` | crates/lumux/src/attach.rs:170-200 | over every interleaving an input is taken for the very picture it is stamped with or for none, with the exact condition for none; and that is the picture on the terminal if and only if it had been published |
| `FrameEpoch.NewestPictureArrives` | crates/lumux/src/attach.rs:167-200 | from every state a run reaches with the reader between messages and no end on its way, once it has dealt with those the newest picture sent is on the terminal and published, and an input typed then is taken for it |
| `FrameEpoch.MapsBelongToTheirFrame` | crates/lumux-server/src/eventloop.rs:3589-3620 | a picture's map is the one of the same emission; nothing is sent if and only if there are no bytes and the newest map is the current one |
| `FrameEpoch.UnpublishedInputsLag` | crates/lumux/src/attach.rs:178-190 | a run in which an input typed between flush and publication is taken for the picture before |
| `InputStamps.StepKeeps` | crates/lumux/src/attach.rs:247-330 | every read, idle flush, write and publication keeps what is written, queued and held together with what was read, in order, and no byte is stamped before it was read |
| `InputStamps.FollowsTheDecoder` | crates/lumux/src/attach.rs:247-282 | reads and idle flushes leave the client's decoder in the state, and queue the items, that the decoder's own step says |
| `InputStamps.StampsMeetTheirRead` | crates/lumux/src/attach.rs:247-330 | over every interleaving the bytes written, waiting and held are the bytes read, and a written byte carries the number it was read under if and only if no picture was published between its read and its write |
| `InputStamps.OnlyHeldBytesLag` | crates/lumux/src/attach.rs:247-316 | of a burst written before the next picture, exactly the held bytes read under an earlier picture are stamped late, at most five |
| `InputStamps.CutReportMeetsItsPicture` | crates/lumux/src/attach.rs:247-330 | end to end: a report in two reads with a newer picture between them is acted on once, under the picture of its first byte if and only if the cut is past its introducer |
| `Streaming.ScanAppend` | crates/lumux-core/src/terminal_input.rs:36-96 | scanning in two reads is scanning once, where every decision of the first still stands |
| `Streaming.CutMattersUnlessStanding` | crates/lumux-server/src/eventloop.rs:1601-1887 | two reads decode as one exactly when every decision of the first still stands |
| `Streaming.ChunkingDoesNotMatter` | crates/lumux-core/src/terminal_input.rs:36-96 | a decoder whose decisions stand decodes every partition of a stream alike |
| `Streaming.ScanConserves` | crates/lumux-core/src/terminal_input.rs:36-96 | what is emitted and what is held back spell the stream |
| `OuterInput.FeedBuffer` | crates/lumux-core/src/terminal_input.rs:36-96 | the loop returns the one merged event list of the decoded stream, and holds back and remembers what the specification says |
| `OuterInput.OuterInputDecoder.Feed` | crates/lumux-core/src/terminal_input.rs:36-96 | one read after what was held back, with the merged events, the held bytes and the mode |
| `OuterInput.OuterInputDecoder.FlushPending` | crates/lumux-core/src/terminal_input.rs:99-111 | held bytes are released as input, and releasing a held paste end leaves paste mode |
| `OuterInput.FlushLeavesPaste` | crates/lumux-core/src/terminal_input.rs:99-111 | after a flush a focus report is recognised, unless a paste had nothing held, in which it is text |
| `OuterInput.HeldIsLegal` | crates/lumux-core/src/terminal_input.rs:36-96 | the front is held back if and only if it is a proper prefix of a marker legal in the current mode |
| `OuterInput.GroupIsUnique` | crates/lumux-core/src/terminal_input.rs:114-118 | adjacent inputs merged, there is one event list for a stream |
| `OuterInput.GroupKeepsItems` | crates/lumux-core/src/terminal_input.rs:114-118 | merging keeps the stream: its items can be read off the events |
| `OuterInput.CutsDoNotMatter` | crates/lumux-core/src/terminal_input.rs:36-96 | however a stream is cut into reads, the items and the final state are those of one read |
| `OuterInput.CutsDoNotMatterToEvents` | crates/lumux-core/src/terminal_input.rs:36-118 | however a stream is cut into reads, the events of all reads put together, adjacent inputs merged, are those of one read, and so are mode and held bytes |
| `OuterInput.DecodeConserves` | crates/lumux-core/src/terminal_input.rs:36-96 | inputs, recognised focus reports and held bytes reproduce the stream, and what is held is legal |
| `OuterInput.NothingIsLost` | crates/lumux-core/src/terminal_input.rs:36-111 | the same over every run of reads and idle flushes |
| `OuterInput.ReportsOutsidePaste` | crates/lumux-core/src/terminal_input.rs:36-96 | a focus report is recognised at a byte if and only if it starts there outside every bracketed paste, read off the stream independently |
| `OuterInput.FiveBytesMayBeHeld` | crates/lumux-core/src/terminal_input.rs:24-31 | at most five bytes are held, and five may be |
| `OuterInput.MoreThanTwoAreHeld` | crates/lumux-core/src/terminal_input.rs:24-31 | more than two bytes are held if and only if the stream ends in three to five bytes of the paste marker that would be taken there |
| `Mouse.Parse` | crates/lumux-core/src/mouse.rs:50-86 | the scanning loop returns the specified report and length |
| `Mouse.EncodedReadsBack` | crates/lumux-core/src/mouse.rs:50-102 | an encoded report, whatever follows, reads back exactly, to its full length, if and only if its button decodes and neither coordinate is 65535 |
| `Mouse.ButtonsMean` | crates/lumux-core/src/mouse.rs:104-134 | a button number put together from button, modifiers, motion, wheel and the rest means what its parts say; modifiers and the rest make no difference |
| `Mouse.SignAndZerosDoNotMatter` | crates/lumux-core/src/mouse.rs:66-69 | a plus sign and leading zeros are accepted and change nothing; too large a number is refused |
| `Mouse.ClicksOnTheWire` | crates/lumux-core/src/mouse.rs:50-86 | two reports spelled out in ASCII, a press and a release |
| `Mouse.ParsedPrintsBack` | crates/lumux-core/src/mouse.rs:88-102 | a parsed report re-encodes to its own bytes if and only if they are canonical |
| `MouseStream.ExtractReports` | crates/lumux-server/src/eventloop.rs:1601-1887 | the loop handles the reports of held and new bytes in order, passes on the keyboard bytes, and holds what is undecided with the number of its first byte |
| `MouseStream.ClientInput.ExtractAndHandleMouse` | crates/lumux-server/src/eventloop.rs:1590-1887 | the same as a change of the client's held bytes and of the server's state |
| `MouseStream.StreamIsAccountedFor` | crates/lumux-server/src/eventloop.rs:1601-1887 | the items are the stream front to back: a complete report wherever one starts outside another, under its first byte's number and acted on in order, every other byte as a key, and what is left over undecided |
| `MouseStream.CutMattersOnlyInsideIntroducer` | crates/lumux-server/src/eventloop.rs:1601-1887 | one read or two give the same reports, keys and server state if and only if the cut does not fall inside an introducer with no selection pending |
| `MouseStream.IntroducerCutNeedsSelection` | crates/lumux-core/src/mouse.rs:184-193 | a complete report cut after its first or second byte survives if and only if a selection is pending |
| `MouseStream.FramesDoNotMatter` | crates/lumux-server/src/eventloop.rs:1601-1887 | a stream cut anywhere but inside introducers decodes as one, each report with the number of its first byte |
| `MouseStream.SelectionHoldsIntroducers` | crates/lumux-server/src/eventloop.rs:1850-1871 | with a selection pending throughout, the stream may be cut anywhere |
| `MouseStream.HeldReportsKeepTheirPicture` | crates/lumux-server/src/eventloop.rs:1601-1635 | a frame decodes with the right numbers if and only if every complete report that starts among the held bytes, past the first, came with the first one's number |
| `MouseStream.PendingMayBeHeld` | crates/lumux-server/src/eventloop.rs:1852-1878 | what is held back is nothing, a cut-off report, or a bare `ESC` or `ESC [` |
| `MouseStream.EveryReportHasItsPicture` | crates/lumux-server/src/eventloop.rs:1601-1887 | over every run of frames, from whatever may be held, every report is acted on under its first byte's number if and only if no frame completes a report that started, under another number, past the first of the held bytes; the server then ends in the same state |
| `MouseStream.StrayIntroducerTakesThePicture` | crates/lumux-server/src/eventloop.rs:1625-1630 | a stray introducer in an earlier frame makes any report cut across frames get the wrong number |
| `DebugInput.DecodeRead` | crates/lumux/src/debug_input.rs:102-121 | prints one line per report and per stretch of text, and holds a cut-off report |
| `DebugInput.MirrorsTheServer` | crates/lumux/src/debug_input.rs:102-121 | without a selection the diagnostic and the server decode every stream alike |
| `ProcessTree.DescendantsOf` | crates/lumux-backend-unix/src/pty.rs:188-213 | on every table, cyclic or with repeated pids, lists each proper descendant once, in order of shortest depth, with a name the table gives it there |
| `ProcessTree.ByParent` | crates/lumux-backend-unix/src/pty.rs:190-193 | groups the table by parent, in table order |
| `Detect.FindMapIsFirst` | crates/lumux-core/src/detect.rs:71-79 | the first name that answers, and none exactly when none does |
| `Detect.FirstIsShallowest` | crates/lumux-core/src/detect.rs:71-79 | along a listing by depth, nothing strictly shallower answers |
| `Detect.IdentifiedAreSpellings` | crates/lumux-core/src/detect.rs:23-64 | a process name is identified with a label if and only if it spells a listed name of that label: in any case, after any directory, between any blanks, with or without `.exe` |
| `Detect.ListedNamesIdentify` | crates/lumux-core/src/detect.rs:23-64 | every listed name is identified with its own label |
| `Detect.OnlyPlainExtensionsStrip` | crates/lumux-core/src/detect.rs:48-54 | a listed name with `.exe` in any case and blanks after it is identified if and only if the extension is in small letters and nothing follows it |
| `Detect.DetectionIsCompleteAndShallowest` | crates/lumux-core/src/detect.rs:71-79 | on every table, the agent found is named by an entry on a shortest chain, no deeper than any pid that is an agent by all its entries there, and one is found if there is such a pid; where no pid is listed twice, an agent is found if and only if some proper descendant is one, at the least depth of any |
| `CopyMode.Find` | crates/lumux-core/src/copymode.rs:154-187 | the nearest match strictly after or before the position, and none exactly when there is none, or when searching back from below the buffer |
| `CopyMode.CopyMode.Search` | crates/lumux-core/src/copymode.rs:114-128 | moves to the nearest match and shows it, or stays; remembers the query either way |
| `CopyMode.CopyMode.SearchRepeat` | crates/lumux-core/src/copymode.rs:132-148 | moves to the nearest match in the remembered or the opposite direction |
| `CopyMode.RepeatAndReverseReturns` | crates/lumux-core/src/copymode.rs:132-187 | from a cursor on a match, a repeat that moves and its reverse come back, in either direction |
| `CopyMode.BackwardFailsBelow` | crates/lumux-core/src/copymode.rs:170-185 | a backward search fails if and only if there is no match before or it starts below the buffer |
| `CopyMode.FindInRow` | crates/lumux-core/src/copymode.rs:518-525 | the least column from the start on where the query stands |
| `CopyMode.FindInRowRev` | crates/lumux-core/src/copymode.rs:530-544 | the greatest column before the limit where the query stands |
| `CopyMode.MatchesStopAtTrailingBlanks` | crates/lumux-core/src/copymode.rs:408-415 | a match is the query standing in the row, character for character, ending no later than the row's last character that is not blank |
| `CopyMode.NextWordStart` | crates/lumux-core/src/copymode.rs:437-465 | the nearest word start after the cursor, and the end of the last row only when there is none |
| `CopyMode.NextWordEnd` | crates/lumux-core/src/copymode.rs:496-513 | the nearest word end after the cursor, and the last character only when there is none |
| `CopyMode.PreviousWordStart` | crates/lumux-core/src/copymode.rs:469-491 | the nearest word start before the cursor, and the top only when there is none |
| `CopyMode.StartsAndEndsBoundWords` | crates/lumux-core/src/copymode.rs:437-513 | in a maximal run of word characters the first is the only word start and the last the only word end |
| `CopyMode.EveryWordIsBounded` | crates/lumux-core/src/copymode.rs:437-513 | every word character lies in such a run, and no other character starts or ends anything |
| `CopyMode.CopyMode.Enter` | crates/lumux-core/src/copymode.rs:50-64 | copy mode starts at the live tail with its cursor shown |
| `CopyMode.CopyMode.ScrollToCursor` | crates/lumux-core/src/copymode.rs:290-299 | the cursor's row is shown, the view stays in the buffer, and no view that does both is a smaller move |
| `CopyMode.CopyMode.ToggleRectangle` | crates/lumux-core/src/copymode.rs:96-102 | switches the mode and starts a selection if there is none |
| `CopyMode.CopyMode.SelectedText` | crates/lumux-core/src/copymode.rs:304-336 | the copied text of the selection |
| `CopyMode.CopyMode.SelectedStream` | crates/lumux-core/src/copymode.rs:311-335 | the copied text of a stream |
| `CopyMode.CopyMode.SelectedBlock` | crates/lumux-core/src/copymode.rs:378-398 | the copied text of a block |
| `CopyMode.SelectedCells` | crates/lumux-core/src/copymode.rs:338-376 | a stream selects exactly the cells from the earlier of anchor and cursor up to, not including, the later, in reading order; a block exactly those between them by row and by column |
| `CopyMode.RowsShowTheirCells` | crates/lumux-core/src/copymode.rs:311-398 | what a row contributes is the text of its selected cells in order, less the blanks at its end |
| `CopyMode.CopyIsHighlight` | crates/lumux-core/src/copymode.rs:304-398 | on rows no longer than the width, the newline-joined trimmed slices of the highlighted spans equal the copied text if and only if no stream selection reaches more than one row below the buffer |
| `CopyMode.EndsAreInterchangeable` | crates/lumux-core/src/copymode.rs:304-408 | swapping anchor and cursor changes neither highlight nor copied text |
| `CopyMode.StreamExcludesItsEnd` | crates/lumux-core/src/copymode.rs:301-336 | a stream copies what it would with its last cell included if and only if that cell is blank or beyond its row |
| `CopyMode.FreshSelection` | crates/lumux-core/src/copymode.rs:79-81 | a selection just started copies nothing as a stream and the cursor's cell as a block |
| `StatusFormat.Format` | crates/lumux-core/src/status.rs:187-264 | the loop returns spans, none empty, that spell the styled text the format stands for |
| `StatusFormat.SubstituteBlock` | crates/lumux-core/src/status.rs:292-310 | the text of a variable or of the branch taken, the recursion through formats ending because branches are shorter |
| `StatusFormat.SplitTopLevel` | crates/lumux-core/src/status.rs:343-372 | the loop splits as specified |
| `StatusFormat.ReadBlock` | crates/lumux-core/src/status.rs:224-245 | the loop reads a block to its matching brace |
| `StatusFormat.Chosen` | crates/lumux-core/src/status.rs:292-307 | the branch a conditional takes is strictly shorter than the block |
| `StatusFormat.JoinSplit` | crates/lumux-core/src/status.rs:343-372 | joining the pieces with the separator gives back the string, from every depth |
| `StatusFormat.SplitOff` | crates/lumux-core/src/status.rs:343-372 | splitting after a balanced piece splits the piece and the rest |
| `StatusFormat.WholeIffNoTop` | crates/lumux-core/src/status.rs:343-372 | a string is one piece if and only if no separator stands outside its braces; otherwise its first piece is shorter |
| `StatusFormat.BlockReadsBalanced` | crates/lumux-core/src/status.rs:224-245 | a balanced body is read exactly to the brace that closes it |
| `StatusFormat.FormatsCompose` | crates/lumux-core/src/status.rs:187-264 | finished tokens followed by more stand for the one and then the other, in the style the first leaves |
| `StatusFormat.WrittenFormatsMean` | crates/lumux-core/src/status.rs:187-310 | a format written from any tokens, conditionals within conditionals included, stands for what the tokens mean: characters, variables, times, styles, names and the branch a condition chooses |
| `StatusFormat.EscapedTextStands` | crates/lumux-core/src/status.rs:222-259 | any text survives with its format characters doubled |
| `StatusFormat.ConditionalExpands` | crates/lumux-core/src/status.rs:187-310 | in every context, a conditional with balanced branches expands to the text of the branch chosen; that is the first when its condition holds if and only if the first has no outer comma, and after such a first, when it fails, the second if and only if that has none |
| `StatusFormat.BranchesSurviveWithoutOuterCommas` | crates/lumux-core/src/status.rs:292-310 | which piece is chosen, for all branches: the exact condition for each branch to survive, and what is taken when it does not |
| `StatusFormat.StrayCommaCutsBranch` | crates/lumux-core/src/status.rs:292-310 | the failing inputs: an outer comma in the first branch cuts it, and the rest is taken for the second |
| `Sidebar.ScrollingStaysInBounds` | crates/lumux-server/src/daemon.rs:552-562 | scrolling stays in bounds, moves the right way, and by less than a step only at an end |
| `Sidebar.RevealingMovesLeast` | crates/lumux-server/src/daemon.rs:564-577 | revealing shows the item with the least move, and fails exactly when nothing can show it |
| `Sidebar.RowsAgree` | crates/lumux-server/src/daemon.rs:613-717 | an entry is hit on a row if and only if it is painted there, for every height, lists and offsets |
| `Sidebar.WhatEachRowShows` | crates/lumux-server/src/daemon.rs:613-717 | which header or item each row shows, for every height, lists and offsets: the sessions on top with the odd row, the agents below, each list from the first item its offset and room allow |
| `Sidebar.ButtonsDoWhatTheyShow` | crates/lumux-server/src/daemon.rs:1098-1127 | a click collapses, or opens a session, if and only if that mark is painted under it, a rail expands wherever it is clicked, and nothing outside the sidebar is clicked |
| `Sidebar.WheelFindsItsList` | crates/lumux-server/src/daemon.rs:1130-1136 | over a captured frame the wheel finds the sessions above the agents header, the agents from it on, and nothing on a rail or outside |
| `Sidebar.NormalisingIsIdempotent` | crates/lumux-server/src/daemon.rs:719-724 | projecting with normalised offsets changes nothing |
| `Sidebar.Capture` | crates/lumux-server/src/daemon.rs:1067-1096 | the loop records, row by row, what the projection shows |
| `Sidebar.FramePicksWhatIsPainted` | crates/lumux-server/src/daemon.rs:1098-1136 | a click on a captured frame picks an entry if and only if it was painted on that row of an expanded sidebar |
| `Sidebar.ScrollState.ScrollSection` | crates/lumux-server/src/daemon.rs:3249-3271 | one client's section scrolls by three rows, the other section and other clients stay |
| `Sidebar.ScrollState.EnsureSessionVisible` | crates/lumux-server/src/daemon.rs:3277-3293 | afterwards the session's row is shown wherever there is room for any |
| `Sidebar.ScrollState.Normalize` | crates/lumux-server/src/daemon.rs:4031-4049 | stores offsets that storing again does not change |

## Left out

- LayoutDrag.DragIsExact: ratios are reals, so 32-bit float rounding and NaN are not modelled; rounding is half away from zero and clamping is as in the code.
- Layout.ExtentIsNearest: the share is exact here, while the source multiplies 32-bit floats.
- Layout.OriginsStayInReach: cells are unbounded naturals; the bound says when 16-bit arithmetic would agree.
- LayoutDrag.DragChangesOneRatio: the ratio is written in place through nested boxes in the source; here a new tree is returned.
- FrameEpoch.InputsMeetTheirPicture: assumes fewer steps than there are 64-bit numbers; the wrap-around itself is covered for the server's memory only.
- InputStamps.StampsMeetTheirRead: published numbers rise, as `FrameEpoch` shows below the wrap-around; a failed write ends the client and is not a step here.
- FrameEpoch.StepKeeps: the channel is a lossless queue, and thread failure is possible only while reading, writing or flushing.
- MouseStream.ExtractReports: what a report does (focus, drag, forwarding, menus) is a parameter turning one state of the server into the next.
- Mouse.Parse: the UTF-8 check is implied, since a body with bytes above 127 parses in neither.
- Visibility.NothingDoneStaysInView: a step may change one session arbitrarily, provided rejected changes change nothing and no pane of another session appears; the failed split, which breaks that premise, is treated on its own. Closing panes here also forgets detected agents, which the source does for single panes only; a detected agent never displays Done.
- Model.EditsShowOwnPanes: a window's tree is its panes in layout order; preset layouts, joining and rotating are arbitrary mutations.
- CopyMode.Find: one character per cell, no display width or wide glyphs; which characters make words is a parameter.
- StatusFormat.Format: what a variable or time letter and a name stand for is a parameter, and a style is the list of specifications applied so far.
- ProcessTree.DescendantsOf: of several entries for one pid at its shortest depth, the contract does not say which one gives the name.
- Simple cursor keys of copy mode, clearing a selection, the agent's urgency order, window-list entries and menu hover: easy members.
- PTYs, sockets, raw terminal modes, process listing, files, clocks and rendering to cells: no logic of their own.
- The terminal emulator, the keymap machine, the wire codec and the configuration parser are not part of this model.
