# GDB/MI actions of the Code::Blocks GDB/MI debugger plugin, in Dafny

This project models the action engine of the plugin's GDB/MI back end (`src/actions.cpp`).
An *action* issues GDB/MI commands and gets back an identifier for each one. It folds each
reply (a result class and a value tree) into the model it maintains. When it has no more
replies to wait for, it asks the presentation layer for a refresh and finishes. The
actions modelled:

- `BreakpointAddAction` (`breakpoints.dfy`): `-break-insert`, then `-break-disable` for a
  disabled breakpoint.
- `GenerateBacktrace` (`backtrace.dfy`): three stack commands whose replies may arrive in
  any order, then the frame selection.
- `GenerateThreadsList` (`threads.dfy`): `-thread-info` and the rows of the threads dialog.
- `WatchBaseAction` (`watch_list.dfy`): the shared `-var-list-children` machinery. It keeps
  a map from list command to parent watch, counts the replies it still waits for, and
  merges a children list into the watch tree with a mark-and-sweep of stale children.
- `WatchCreateAction`, `WatchExpandedAction` and `WatchCollapseAction` (`watch_actions.dfy`),
  and `WatchesUpdateAction` (`watch_update.dfy`).

Shared pieces:

- `reply.dfy` holds the reply value tree, the dotted-path `Lookup`, and decimal formatting
  and parsing.
- `action.dfy` holds the part of the action base class the actions use: `Execute`,
  `Finish`, and the refresh notifications, which are recorded as events.
- `watch_tree.dfy` holds the watch tree. It is an arena of nodes addressed by handle, and
  every child is allocated after its parent.
- `quoting.dfy` holds the quoting of a watch expression inside `-var-create`.

Each operation that the source performs in place is a method of a class. Its result is
stated as a function of the old state: a `Forest` value for the watch tree, and a
`ListState` for a watch action. The properties are proved about those functions.

Behaviour followed as the code has it, which a reader might not expect:

- The threads action clears its list before it looks at the reply. A reply without a
  `current-thread-id`, or without a `threads` tuple or list, therefore leaves the list
  empty, not stale. It still finishes the action, before the rebuild.
- The create action never sends a list command, and the set-range command is not counted
  as a pending reply. The create reply therefore always ends the action
  (`WatchActions.CreateEndsAtFirstReply`). A watch without children is finished twice on
  that reply: once in the `StepCreate` branch, once because no reply is pending.
- An error reply to `-var-update 1 *` finishes the update action twice: once in
  `ParseUpdate`, once in `OnCommandOutput`.
- A typed child gets an `updating...` placeholder each time a children list names it, also
  when `AddChild` found it already. A second identical list reply under an expanded parent
  therefore adds one more placeholder (`WatchList.ExpandableAgainGrows`; see Findings).
- A breakpoint condition is sent unquoted, so a condition with a space reaches GDB as its
  first word followed by stray arguments (`Breakpoints.SpacedConditionGarbles`; see Findings).
  The location is sent unquoted too, so a location with a space leaves words over, and
  GDB refuses the command (`Breakpoints.SpacedLocationRefused`; see Findings). The
  decoder `Breakpoints.DecodeLocation` refuses such a location part in the same way.

## Model

| member | source | states |
|---|---|---|
| Action.ActionCore.Execute | src/actions.cpp:24 | the command is appended to the issued log, and its identifier is its position there, so every identifier is fresh |
| Action.ActionCore.Finish | src/actions.cpp:73 | finishing is counted, so that a second `Finish` shows; nothing else changes |
| Action.ActionCore.Notify | src/actions.cpp:210 | a presentation refresh is recorded in order; nothing else changes |
| Reply.FieldIn | src/actions.cpp:259 | the member found is a member with that name, and a smaller value than the tuple; none is found only when no member has the name |
| Reply.Field | src/actions.cpp:106 | `GetTupleValue` of a plain name finds a value exactly when the value is a tuple with a member of that name |
| Reply.FieldAt | src/actions.cpp:259 | the member found is the first one with the name |
| Reply.Split | src/actions.cpp:38 | a dotted path cuts into at least one segment, none of which holds a dot |
| Reply.JoinSplit | src/actions.cpp:38 | joining the segments of a path with dots gives the path back |
| Reply.SplitJoin | src/actions.cpp:38 | cutting dot-joined, dot-free segments gives the segments back |
| Reply.SplitPlain | src/actions.cpp:106 | a name without a dot is one segment |
| Reply.SplitDotted | src/actions.cpp:189 | `a.rest` cuts into `a` followed by the segments of `rest` |
| Reply.DottedLookup | src/actions.cpp:38 | looking up `bkpt.number` is looking up `number` inside the tuple `bkpt` |
| Reply.PlainLookup | src/actions.cpp:106 | a path without a dot names one member of a tuple |
| Reply.LookupString | src/actions.cpp:66 | `Lookup` into a string succeeds exactly when the path leads to a leaf |
| Reply.FieldString | src/actions.cpp:256 | the text read is the leaf of a member of that name |
| Reply.FieldLookup | src/actions.cpp:252-256 | single-member lookups agree with dotted-path `Lookup` for names without a dot |
| Reply.FormatInt | src/actions.cpp:21-23 | `%d` gives a non-empty text of digits and signs |
| Reply.DigitsRoundTrip | src/actions.cpp:43 | the digits of a natural number read back as that number |
| Reply.FormatParse | src/actions.cpp:43-50 | every number written with `%d` reads back with `ToLong(&n, 10)` as itself |
| Breakpoints.ConditionRoundTrip | src/actions.cpp:18-19 | for a one-word condition, the `-c <cond> ` clause, when present, reads back as the condition, and absent leaves the text alone |
| Breakpoints.IgnoreRoundTrip | src/actions.cpp:20-21 | the `-i <n> ` clause, when present, reads back as the ignore count |
| Breakpoints.SplitLocationRoundTrip | src/actions.cpp:23 | splitting `location:line` at the last colon gives back the location and line, even when the location holds colons |
| Breakpoints.LocationRoundTrip | src/actions.cpp:23 | an unquoted `location:line` whose location holds no space reads back as location and line, even when the location holds colons |
| Breakpoints.SpacedLocationPart | src/actions.cpp:23 | (as written) an unquoted `location:line` whose location part holds a space is refused |
| Breakpoints.ClauseRoundTrip | src/actions.cpp:18-21 | a flagged one-word clause reads back as its word and the rest of the command |
| Breakpoints.InsertRoundTrip | src/actions.cpp:16-23 | the insert command is unambiguous: reading it back gives condition, ignore count, location and line, for a one-word condition and a location that holds no space and does not start with a dash |
| Breakpoints.IndexOfPrefix | src/actions.cpp:19 | the first space of a text that holds one is also the first space of that text with anything appended |
| Breakpoints.SpacedToken | src/actions.cpp:19 | the token read off a condition holding a space, followed by anything, is the condition's first word, and the rest follows the first space |
| Breakpoints.SpacedClause | src/actions.cpp:19 | (as written) a `-c` clause whose condition holds a space yields the condition's first word, and leaves the remaining words in front of the rest of the command |
| Breakpoints.DecodedSpaced | src/actions.cpp:16-19 | (as written) a decoded command whose `-c` argument holds a space carries the first word as its condition |
| Breakpoints.InsertWithCondition | src/actions.cpp:16-23 | the insert command with a condition is the prefix, then `-c `, the condition, a space, and the ignore and location clauses |
| Breakpoints.SpacedConditionGarbles | src/actions.cpp:18-19 | (as written) for a condition holding a space, a decoded insert command carries the condition's first word, never the whole condition |
| Breakpoints.ExampleSpacedCondition | src/actions.cpp:18-23 | (as written) the command for the condition `i == 3` is refused: `i` is read as the condition, and `== 3` is left in front of the location |
| Breakpoints.ExampleConditionClause | src/actions.cpp:19 | (as written) the `-c` clause of `i == 3` yields `i` and leaves `== 3` in front of the rest of the command |
| Breakpoints.LeftoverWords | src/actions.cpp:19-23 | (as written) the words `== 3` are not read as an ignore clause, and make the location part spaced, so it is refused |
| Breakpoints.SpacedLocationRefused | src/actions.cpp:16-23 | (as written) an insert command whose location holds a space is refused, for every one-word condition and ignore count |
| Breakpoints.ExampleSpacedLocation | src/actions.cpp:23 | (as written) the breakpoint at `My Docs/a.cpp:3` is refused |
| Breakpoints.QuotedLocationRoundTrip | src/actions.cpp:23 | (corrected) a quoted, escaped `"location:line"` reads back as exactly the location and line, whatever it holds |
| Breakpoints.QuotedConditionRoundTrip | src/actions.cpp:18-19 | (corrected) a quoted, escaped `-c "<cond>" ` clause reads back as exactly the condition, whatever characters it holds, and leaves the rest of the command alone |
| Breakpoints.CorrectedInsertRoundTrip | src/actions.cpp:16-23 | (corrected) with the condition and the location quoted, reading the insert command back gives condition, ignore count, location and line for every breakpoint |
| Breakpoints.ExampleCommands | src/actions.cpp:16-23 | `-break-insert -f main.cpp:12` for a plain breakpoint; `-break-disable 7` |
| Breakpoints.NumberedReply | src/actions.cpp:36-43 | the reply `^done,bkpt={number="7"}` reports breakpoint 7 |
| Breakpoints.BreakpointAddAction.OnStart | src/actions.cpp:14-26 | exactly the insert command for the breakpoint is issued, and its identifier remembered |
| Breakpoints.BreakpointAddAction.OnCommandOutput | src/actions.cpp:28-81 | the insert reply sets the index when it reports an integer number; a disabled breakpoint then issues `-break-disable n` and does not finish; every other insert reply finishes once; the disable reply finishes; any other reply changes nothing |
| Breakpoints.InsertScenario | src/actions.cpp:14-81 | for breakpoint 7: an enabled breakpoint finishes on the insert reply; a disabled one issues `-break-disable 7` and finishes once, on its reply |
| Backtrace.IndexOfFirstValid | src/actions.cpp:133-134 | (corrected) the position among the rows of the first row with source, or -1 when no row has source |
| Backtrace.FramesFromEntries | src/actions.cpp:117-137 | every row comes from an entry the frame parser accepted, is numbered by that entry's position, and is its `cbStackFrame` |
| Backtrace.FramesOrdered | src/actions.cpp:117-136 | rows keep the order of their entries, and their numbers stay below the entry count |
| Backtrace.FramesComplete | src/actions.cpp:117-137 | every accepted entry has its row |
| Backtrace.WithArguments | src/actions.cpp:154-172 | the row count stays; only symbols change, and only by growing; an unparsed reply or one with a different count changes nothing |
| Backtrace.ArriveAllRecords | src/actions.cpp:142-178 | after any sequence of replies, each of the three flags is set exactly when its reply came |
| Backtrace.CompleteWhenAllArrived | src/actions.cpp:194 | in whatever order the replies come, the action concludes exactly once all three have come |
| Backtrace.SelectionOutOfRange | src/actions.cpp:198-205 | as written, the selection can lie past the end of the backtrace: a user frame of 2, or a first valid index counted over a refused entry |
| Backtrace.SelectFrame | src/actions.cpp:198-204 | the corrected selection is a row of the backtrace, and it is the user's frame whenever that is one |
| Backtrace.FramesCount | src/actions.cpp:117-137 | the rows of the first n entries are fewer than n exactly when the parser refused one of them |
| Backtrace.FirstValidRows | src/actions.cpp:133-134 | the entry position recorded as written lies among the entries; with none there is no row with source, otherwise the row position counts the accepted entries before that entry |
| Backtrace.SelectFrameAgrees | src/actions.cpp:198-202 | the entry position of line 134 equals the row position exactly when no entry before it was refused; then an in-range selection as written equals the corrected one, and with auto-switching and no user frame the two agree exactly then |
| Backtrace.AutoSwitchSelectsFirstValid | src/actions.cpp:199-200 | (corrected) with auto-switching and no user frame, the row selected is the first one with source, when there is one |
| Backtrace.GenerateBacktrace.constructor | src/actions.cpp:83-95 | no first valid frame, no active frame, none of the three replies parsed |
| Backtrace.GenerateBacktrace.OnStart | src/actions.cpp:214-219 | the three commands are issued in order, and their identifiers kept |
| Backtrace.GenerateBacktrace.ReadStack | src/actions.cpp:115-140 | the rows are replaced by the rows of the accepted entries, and the first valid row is kept or found, as a row position (corrected) |
| Backtrace.GenerateBacktrace.ReadArguments | src/actions.cpp:154-173 | the symbols are annotated as `WithArguments` says |
| Backtrace.GenerateBacktrace.Conclude | src/actions.cpp:194-212 | a non-empty backtrace selects its frame (corrected selection) and switches to it only when it is not the active one; the dialog is reloaded and the action finishes |
| Backtrace.GenerateBacktrace.OnCommandOutput | src/actions.cpp:102-213 | each reply updates only its own part: rows, first valid row, arguments or active frame; the action concludes, with the corrected selection, exactly when all three have arrived |
| Threads.ThreadOfRow | src/actions.cpp:251-253 | an entry gives a row exactly when its `id` is an integer; the row is active exactly for the current thread, and carries the entry's description |
| Threads.ThreadsFromEntries | src/actions.cpp:246-288 | every row comes from an entry of `threads`, and there are no more rows than entries |
| Threads.ThreadsComplete | src/actions.cpp:246-288 | every entry with an integer `id` has its row |
| Threads.FramelessInfo | src/actions.cpp:255-261 | a thread without a frame is described by its `target-id`, or by nothing |
| Threads.InfoStartsWithTarget | src/actions.cpp:255-285 | the description always starts with the `target-id` |
| Threads.ExampleAddress | src/actions.cpp:265-266 | a frame address is written after a space |
| Threads.ExampleFunction | src/actions.cpp:267-275 | a function whose arguments cannot be read is written with `()` |
| Threads.ExampleLocation | src/actions.cpp:277-284 | a frame without a file and line is located by its library |
| Threads.ExampleFrameInfo | src/actions.cpp:259-285 | `{addr="0x40",func="poll",from="libc.so"}` is described as ` 0x40 poll() in libc.so` |
| Threads.GenerateThreadsList.constructor | src/actions.cpp:221-226 | the action starts with the container and current thread it is given |
| Threads.GenerateThreadsList.OnStart | src/actions.cpp:293-296 | exactly `-thread-info` is issued |
| Threads.GenerateThreadsList.ReadThreads | src/actions.cpp:246-288 | one row is appended per entry with an integer `id`, in order |
| Threads.GenerateThreadsList.OnCommandOutput | src/actions.cpp:228-291 | every reply finishes the action once; the list becomes the rows of a well-formed reply, or empty; the dialog is reloaded only for a well-formed reply |
| Quoting.UnquoteEscape | src/actions.cpp:636-639 | the corrected escaping reads back as exactly the expression, up to the closing quote |
| Quoting.UnquoteEscapeQuotes | src/actions.cpp:638 | the escaping as written reads back correctly for every expression without a backslash |
| Quoting.EscapeQuotesGarbles | src/actions.cpp:638 | as written, `'\\'` is passed unchanged and reads back as `'\'` |
| Watches.OrderFrom | src/actions.cpp:343 | the walk visits only nodes, every listed node included |
| Watches.OrderAt | src/actions.cpp:343 | a subtree walk starts at its root and visits only nodes below it |
| Watches.Order | src/actions.cpp:343 | the depth-first walk from the container visits only nodes |
| Watches.FirstWithId | src/actions.cpp:343 | the first handle with the id, or none when no handle has it |
| Watches.Find | src/actions.cpp:343 | `FindWatch` finds a live watch with that id, and finds none only when no live watch has it |
| Watches.Update | src/actions.cpp:315-322 | changing what a node holds keeps the tree well formed and every node |
| Watches.UpdateSameShape | src/actions.cpp:346-351 | a change keeps the shape of the tree exactly when it keeps the id |
| Watches.Attach | src/actions.cpp:357 | `cbWatch::AddChild` allocates one node and appends it to exactly the parent's children |
| Watches.RemoveChildren | src/actions.cpp:486 | the watch has no children left, and nothing else changes |
| Watches.AppendNullChild | src/actions.cpp:331-334 | adding the placeholder keeps the tree well formed |
| Watches.MarkChildrenRemoved | src/actions.cpp:717 | exactly the direct children are marked for removal; shape and everything else stay |
| Watches.Unmarked | src/actions.cpp:529 | the children kept are exactly the unmarked ones |
| Watches.RemoveMarkedChildren | src/actions.cpp:529 | the sweep keeps the tree well formed and every node in the arena |
| Watches.ClearChanged | src/actions.cpp:767-768 | clearing the change marks keeps the shape of the tree |
| Watches.ExpandOnce | src/actions.cpp:483-487 | the first list empties the watch and marks it expanded; later lists leave it alone |
| Watches.AddChild | src/actions.cpp:336-362 | without a `name` nothing changes and no child is returned; a live watch with that id only takes the new value and type (where given), is unmarked and returned, and no node is added; otherwise exactly one new node is made, the entry's id, value and type with the given symbol, no children and the parent's tooltip flag; the parent's record changes only by that node appended to its children, and the node is returned |
| Watches.AddChildLive | src/actions.cpp:336-362 | under a live parent, a named entry always yields a live child with that id, and the parent stays live with its expansion flag |
| Watches.LiveAfterNullChild | src/actions.cpp:507 | `AppendNullChild` on a live watch appends one placeholder node to its children, keeps every live watch live and changes no other node |
| Watches.OrderFromSameShape | src/actions.cpp:343 | the walk depends only on the shape of the tree |
| Watches.OrderAtSameShape | src/actions.cpp:343 | a subtree walk depends only on the shape of the tree |
| Watches.FindSameShape | src/actions.cpp:343 | `FindWatch` depends only on ids and shape, not on values, types or marks |
| Watches.OrderFromAttach | src/actions.cpp:357 | after an attach, the walk reaches what it did before, plus the new node exactly when it reached the parent |
| Watches.OrderAtAttach | src/actions.cpp:357 | the same for a subtree walk |
| Watches.OrderFromAppend | src/actions.cpp:357 | walking a list with one more root appends that root's subtree |
| Watches.LiveAfterAttach | src/actions.cpp:357 | attaching under a live parent makes exactly the new child live as well |
| Watches.FindAttached | src/actions.cpp:353-357 | a child attached under a live parent with a new id is what a search for the id finds |
| Watches.AddChildAgainFound | src/actions.cpp:343-361 | describing a found child again changes nothing more |
| Watches.AddChildAgainNew | src/actions.cpp:353-361 | describing a new child again finds the node the first call made |
| Watches.AddChildIdempotent | src/actions.cpp:336-362 | `AddChild` is idempotent under a live parent |
| Watches.SweepKeepsUnmarked | src/actions.cpp:529 | after the sweep no child is marked and the unmarked ones are kept in order; only the swept node's child list changes |
| Watches.ClearChangedClears | src/actions.cpp:767-768 | after clearing, no watch the container reaches is marked changed, and the shape is the same; every node differs at most in its change mark, and one the container does not reach keeps it |
| WatchStore.WatchTree.Set | src/actions.cpp:315-322 | in place: see `Watches.Update` |
| WatchStore.WatchTree.ExpandOnce | src/actions.cpp:483-487 | in place: see `Watches.ExpandOnce` |
| WatchStore.WatchTree.RemoveChildren | src/actions.cpp:486 | in place: see `Watches.RemoveChildren` |
| WatchStore.WatchTree.AppendNullChild | src/actions.cpp:331-334 | in place: see `Watches.AppendNullChild` |
| WatchStore.WatchTree.MarkChildrenRemoved | src/actions.cpp:717 | in place: see `Watches.MarkChildrenRemoved` |
| WatchStore.WatchTree.RemoveMarkedChildren | src/actions.cpp:529 | in place: see `Watches.RemoveMarkedChildren` |
| WatchStore.WatchTree.ClearChanged | src/actions.cpp:767-768 | in place: see `Watches.ClearChanged` |
| WatchStore.WatchTree.AddChild | src/actions.cpp:336-362 | in place: see `Watches.AddChild`, and the same child is returned |
| WatchList.DisplayHint | src/actions.cpp:417-426 | the hint is a map exactly when `displayhint` is `map` |
| WatchList.ParseWatchInfo | src/actions.cpp:298-310 | dynamic and has-more are set exactly when they read as 1; the child count is -1 when `numchild` is missing or unreadable |
| WatchList.ListCommandShape | src/actions.cpp:540-544 | the list command quotes the watch id right after its fixed prefix |
| WatchList.Issue | src/actions.cpp:534-548 | one command issued, its parent remembered under its identifier, and one more reply pending |
| WatchList.IssueGrows | src/actions.cpp:546-547 | issuing a list command grows the state by exactly one pending reply |
| WatchList.LeafChild | src/actions.cpp:482-497 | a leaf child grows the state, one pending reply per command |
| WatchList.ExpandableChild | src/actions.cpp:498-513 | an expandable child changes only the tree, which grows |
| WatchList.ExpandableFoundGrows | src/actions.cpp:498-507 | (as written) a typed child that `AddChild` finds already still gets one more placeholder node, appended to its children |
| WatchList.ExpandedFindsAgain | src/actions.cpp:498-506 | after a typed child has been added under an expanded parent, the same entry finds that child again |
| WatchList.ExpandableAgainGrows | src/actions.cpp:498-507 | (as written) the same typed child entry handled twice under an expanded parent adds one more node the second time |
| WatchList.CorrectedExpandableNew | src/actions.cpp:498-507 | (corrected) a typed child not yet under the parent becomes a new node with exactly one placeholder child |
| WatchList.CorrectedExpandableFound | src/actions.cpp:498-507 | (corrected) a typed child that is found already adds no node |
| WatchList.CorrectedExpandableAgain | src/actions.cpp:498-507 | (corrected) the same typed child entry handled twice under an expanded parent adds no node the second time |
| WatchList.ChildStep | src/actions.cpp:469-520 | a child entry grows the state |
| WatchList.HasMoreListsUnderParent | src/actions.cpp:469-474 | a dynamic child with more children is never attached: the tree is unchanged, and one list command for its id is issued with the parent remembered for its reply |
| WatchList.DynamicLeafListsUnderItself | src/actions.cpp:482-495 | a named dynamic child without children is added or found under the parent and kept on collapse; one list command for its id is issued, with that child remembered for its reply |
| WatchList.EntryStep | src/actions.cpp:440-527 | an entry grows the state; the map key changes exactly at a map key entry |
| WatchList.ScanEntries | src/actions.cpp:438-528 | the walk keeps the state well formed and the parent in the tree |
| WatchList.AnyFaultyExists | src/actions.cpp:477-481 | the error flag is set exactly when some entry has no readable child count |
| WatchList.ParseList | src/actions.cpp:399-532 | a reply to a command without a remembered parent changes nothing and is refused |
| WatchList.ScanGrows | src/actions.cpp:438-528 | the walk only grows the state and waits for exactly one reply per command it issues, each with a parent |
| WatchList.NewChildSymbol | src/actions.cpp:482-513 | a leaf or typed child whose id is not yet in the tree becomes the node at the next handle, with that id and the symbol given |
| WatchList.MapKeyStep | src/actions.cpp:459-463 | a map key entry records its `value` as the key and changes nothing else |
| WatchList.MapValueStep | src/actions.cpp:465-506 | a map value entry that adds a new child labels it with the last key read |
| WatchList.MapPairs | src/actions.cpp:457-506 | in a map, the entry at an even position leaves the state alone and records its key; the new child the next entry adds is labelled with that key |
| WatchList.ParseListSweeps | src/actions.cpp:529 | after a reply with children, no child of the parent is still marked for removal |
| WatchList.ParseListResult | src/actions.cpp:480-531 | the reply is accepted exactly when no entry lacks a readable child count |
| WatchList.ParseListGrows | src/actions.cpp:399-532 | a reply only grows the state, with one pending reply per command it causes |
| WatchList.WatchBase.constructor | src/actions.cpp:385-392 | no parents remembered, no pending replies, the range as given |
| WatchList.WatchBase.ExecuteListCommand | src/actions.cpp:534-548 | in place: see `Issue`, under the given parent or the watch itself |
| WatchList.WatchBase.ExecuteListCommandById | src/actions.cpp:550-566 | no parent: nothing changes; otherwise see `Issue` |
| WatchList.WatchBase.AddLeafChild | src/actions.cpp:482-497 | in place: see `LeafChild` |
| WatchList.WatchBase.AddExpandableChild | src/actions.cpp:498-513 | in place: see `ExpandableChild` |
| WatchList.WatchBase.HandleChild | src/actions.cpp:469-520 | in place: see `ChildStep` |
| WatchList.WatchBase.ParseEntry | src/actions.cpp:440-527 | in place: see `EntryStep`; the error flag also records a faulty entry |
| WatchList.WatchBase.ScanStep | src/actions.cpp:438-528 | one more entry handled, as `ScanEntries` and `AnyFaulty` say |
| WatchList.WatchBase.ScanLoop | src/actions.cpp:438-528 | all entries handled, as `ScanEntries` and `AnyFaulty` say |
| WatchList.WatchBase.ScanChildren | src/actions.cpp:436-528 | the walk over a children list, from the current state |
| WatchList.WatchBase.ParseListCommand | src/actions.cpp:399-532 | in place: see `ParseList` |
| WatchActions.CreateCommandQuotes | src/actions.cpp:636-639 | GDB reads the create command's argument back as exactly the watch expression, when it holds no backslash |
| WatchActions.CreateCommandGarbles | src/actions.cpp:638 | as written, the expression `'\\'` reaches GDB as `'\'` |
| WatchActions.CorrectedCreateCommandQuotes | src/actions.cpp:636-639 | the corrected command is read back as exactly the watch expression, whatever it holds |
| WatchActions.CreateDone | src/actions.cpp:586-607 | the create reply keeps the parent map and pending count, and only grows the tree |
| WatchActions.CreateByStep | src/actions.cpp:584-611 | a done reply, by step, only grows the tree |
| WatchActions.CreateOutput | src/actions.cpp:576-618 | a reply keeps the state well formed and the watch in the tree |
| WatchActions.CreateEndsAtFirstReply | src/actions.cpp:576-640 | the create reply always ends the action; it finished early exactly for a done reply that left the step at create |
| WatchActions.CreateDoneFillsWatch | src/actions.cpp:586-603 | the watch takes name, value and type; a placeholder child is added exactly when children are reported; the range command is sent only for a dynamic watch with more children |
| WatchActions.CreateFailure | src/actions.cpp:613-618 | a reply that is not done is an error and ends the action; only an error reply replaces the watch's value |
| WatchActions.WatchCreateAction.constructor | src/actions.cpp:569-574 | the action starts at step create with nothing pending |
| WatchActions.WatchCreateAction.OnStart | src/actions.cpp:634-641 | exactly the create command, with only quotes escaped, is issued, and one reply is pending |
| WatchActions.WatchCreateAction.HandleCreated | src/actions.cpp:586-607 | in place: see `CreateDone` |
| WatchActions.WatchCreateAction.HandleByStep | src/actions.cpp:581-612 | in place: see `CreateByStep` |
| WatchActions.WatchCreateAction.HandleReply | src/actions.cpp:578-618 | in place: see `CreateOutput` |
| WatchActions.WatchCreateAction.Fail | src/actions.cpp:615-616 | only an error reply sets the watch's value |
| WatchActions.WatchCreateAction.Conclude | src/actions.cpp:620-631 | the watches are refreshed, then the action finishes |
| WatchActions.WatchCreateAction.OnCommandOutput | src/actions.cpp:576-632 | the state as `CreateOutput` says; refreshed and finished exactly after an error or once nothing is pending |
| WatchActions.ExpandedList | src/actions.cpp:808-820 | a list reply keeps the state well formed and only grows the tree |
| WatchActions.ExpandedOutput | src/actions.cpp:801-821 | the same for any reply |
| WatchActions.ExpandedPending | src/actions.cpp:801-821 | every reply but the update command's settles one pending reply, and adds one per list command it causes |
| WatchActions.ExpandedEmptyListEnds | src/actions.cpp:795-821 | a children-less reply to the start command ends the action, changing nothing else |
| WatchActions.WatchExpandedAction.OnStart | src/actions.cpp:795-799 | the update command is issued, then the watch's children are listed under the watch |
| WatchActions.WatchExpandedAction.ListReply | src/actions.cpp:806-809 | in place: see `ExpandedOutput` |
| WatchActions.WatchExpandedAction.Conclude | src/actions.cpp:812-819 | the watch's view is refreshed (tooltip or watches window), then the action finishes |
| WatchActions.WatchExpandedAction.OnCommandOutput | src/actions.cpp:801-821 | the state as `ExpandedOutput` says; refreshed and finished exactly when it says the action ends |
| WatchActions.Collapse | src/actions.cpp:833-835 | a collapse keeps the tree well formed and every node |
| WatchActions.CollapseLeavesPlaceholder | src/actions.cpp:833-835 | after a collapse the watch has exactly one child, a fresh placeholder, and counts as never expanded; other nodes stay |
| WatchActions.ExpandAfterCollapse | src/actions.cpp:483-487 | expanding a collapsed watch again drops the placeholder |
| WatchActions.WatchCollapseAction.OnStart | src/actions.cpp:824-827 | exactly `-var-delete -c <id>` is issued |
| WatchActions.WatchCollapseAction.OnCommandOutput | src/actions.cpp:829-839 | a done reply collapses the watch and refreshes its view; every reply finishes once |
| WatchUpdate.OutOfScope | src/actions.cpp:695-704 | the watch is collapsed and childless with the given text; no other node changes |
| WatchUpdate.NewValue | src/actions.cpp:720-723 | the watch shows the value and is marked changed; nothing else changes |
| WatchUpdate.Relist | src/actions.cpp:708-714 | the children go; exactly when the new count is positive, one list command for the watch is issued and its reply lands under the watch |
| WatchUpdate.StaticChildren | src/actions.cpp:733-739 | a new number of children drops them, and relists them under the watch exactly when the count is positive; nothing else changes |
| WatchUpdate.StaticApply | src/actions.cpp:731-751 | the watch then shows its new value and is marked changed, or shows an empty value and keeps its mark; no other node changes |
| WatchUpdate.DynamicRelistUpdate | src/actions.cpp:708-714 | a dynamic watch with a new number of children loses them, and is relisted under itself exactly when the count is positive |
| WatchUpdate.DynamicMoreUpdate | src/actions.cpp:715-719 | a dynamic watch with more children has them marked for removal and one list command issued under itself |
| WatchUpdate.DynamicValueUpdate | src/actions.cpp:720-729 | a dynamic watch with only a new value shows it and is marked changed; with nothing new it is left alone |
| WatchUpdate.ApplyUpdate | src/actions.cpp:693-753 | an entry only grows the state, one pending reply per command |
| WatchUpdate.Target | src/actions.cpp:676-688 | the entry's watch is a live watch whose id is the entry's `name` |
| WatchUpdate.UpdateStep | src/actions.cpp:674-754 | one entry only grows the state |
| WatchUpdate.UpdateEntries | src/actions.cpp:668-757 | the entries keep the state well formed |
| WatchUpdate.ParseUpdate | src/actions.cpp:661-759 | the reply is refused exactly when it is an error, and then nothing changes |
| WatchUpdate.UpdateOutput | src/actions.cpp:763-785 | a reply to the update command is accepted exactly when it is not an error |
| WatchUpdate.NamedInExists | src/actions.cpp:676-681 | an id is named in the change list exactly when some entry's `name` is it |
| WatchUpdate.RelistMarks | src/actions.cpp:708-714 | relisting keeps ids and marks nothing changed |
| WatchUpdate.OutOfScopeMarks | src/actions.cpp:695-704 | going out of scope keeps ids and marks at most the watch |
| WatchUpdate.NewValueMarks | src/actions.cpp:720-723 | a new value marks at most the watch |
| WatchUpdate.DynamicMarks | src/actions.cpp:706-730 | a dynamic entry marks at most its watch |
| WatchUpdate.StaticMarks | src/actions.cpp:731-751 | a plain entry marks at most its watch |
| WatchUpdate.ApplyMarks | src/actions.cpp:693-753 | applying an entry keeps every id and marks at most its watch |
| WatchUpdate.StepMarks | src/actions.cpp:674-754 | one entry marks at most the watch its `name` names |
| WatchUpdate.UpdateMarksOnlyNamed | src/actions.cpp:668-757 | a change list keeps every id, and marks changed only watches some entry names |
| WatchUpdate.UpdateGrows | src/actions.cpp:668-757 | a change list waits for exactly one reply per list command it issues |
| WatchUpdate.OutOfScopeClears | src/actions.cpp:695-704 | a watch out of scope or invalid shows the fixed text, is collapsed and childless, and no command is issued |
| WatchUpdate.WatchesUpdateAction.constructor | src/actions.cpp:650-653 | nothing pending, no parents remembered |
| WatchUpdate.WatchesUpdateAction.OnStart | src/actions.cpp:655-659 | exactly `-var-update 1 *` is issued, and one reply is pending |
| WatchUpdate.WatchesUpdateAction.UpdateEntry | src/actions.cpp:674-754 | in place: see `UpdateStep` |
| WatchUpdate.WatchesUpdateAction.GoOutOfScope | src/actions.cpp:695-704 | in place: see `OutOfScope` |
| WatchUpdate.WatchesUpdateAction.SetNewValue | src/actions.cpp:720-723 | in place: see `NewValue` |
| WatchUpdate.WatchesUpdateAction.RelistChildren | src/actions.cpp:708-714 | in place: see `Relist` |
| WatchUpdate.WatchesUpdateAction.ApplyDynamic | src/actions.cpp:706-730 | in place: see `ApplyUpdate` |
| WatchUpdate.WatchesUpdateAction.ApplyStatic | src/actions.cpp:731-751 | in place: see `ApplyUpdate` |
| WatchUpdate.WatchesUpdateAction.ApplyTo | src/actions.cpp:693-753 | in place: see `ApplyUpdate` |
| WatchUpdate.WatchesUpdateAction.ParseUpdateReply | src/actions.cpp:661-759 | in place: see `ParseUpdate`; an error reply finishes here already |
| WatchUpdate.WatchesUpdateAction.HandleReply | src/actions.cpp:765-785 | in place: see `UpdateOutput` |
| WatchUpdate.WatchesUpdateAction.OnCommandOutput | src/actions.cpp:761-793 | the state as `UpdateOutput` says, with one reply fewer pending; a failure finishes (twice after an error reply to the update command); otherwise it refreshes and finishes exactly when nothing is pending |

## Left out

- Logging (`m_logger`) is left out. Error messages of replies (`msg`) are only logged by the source.
- The presentation layer is recorded as refresh events in `ActionCore.refreshes`. This covers the backtrace and threads dialogs, the watches window and the value tooltip.
- The transport, command queueing and the GDB/MI line parser are left out. A reply arrives as an already-parsed `Result`.
- `Frame::ParseFrame`, `FrameArguments` and `UpdatedVariable::Parse` are not part of this model. The actions receive them as function parameters.
- The backtrace container, the current-frame holder and the frame switcher (`SwitchToFrameInvoker`) are fields of the backtrace action: `backtrace`, `currentFrame` and the list of `switches`.
- The auto-switch configuration flag and the user-selected frame are constructor arguments.
- `FindWatch` is not part of this model. `Watches.Find` takes it to be a depth-first search over the watches the container reaches.
- Integer widths are not modelled: `long`/`int` conversions and `ToLong` overflow. Numbers are unbounded, and `ParseInt` accepts an optional sign and decimal digits.
- `Watches.RemoveMarkedChildren` sweeps the direct children of the parent only. Removed nodes stay in the arena, as shared pointers held elsewhere would keep them alive.
- `m_start` and `m_end` are fixed per action (`rangeStart`, `rangeEnd`). Nothing in this file sets them.
- Null watch pointers are not modelled: a parent-map entry holding a null watch, or a missing expanded or collapsed watch. Handles always name nodes.
- The tooltip action's destructor, which shows the value tooltip, is left out, as is the plugin code that constructs and schedules actions.
- Backtrace.GenerateBacktrace.ReadStack, Backtrace.GenerateBacktrace.Conclude and Backtrace.GenerateBacktrace.OnCommandOutput use the corrected frame selection of the first Findings row. They record the first valid frame as a row position and select with `SelectFrame`. The code records the entry position (line 134) and indexes the backtrace with it unchecked. When the frame parser refused an entry before the first valid one, the code selects a different row, or one past the end. `SelectFrameAgrees` states exactly when the two agree.
- CreateCommandQuotes: holds only for expressions without a backslash, since the create command escapes only double quotes (line 638). `CorrectedCreateCommandQuotes` states the round trip for every expression.
- WatchList.LeafChild and WatchList.ExpandableChild: a `child` entry without a `name` makes `AddChild` return a null watch. The code then dereferences it: `SetDeleteOnCollapse` for a dynamic leaf (line 491), and `AppendNullChild` and `GetDebugString` for a typed child (lines 507 and 510). That is undefined behaviour. The model skips such an entry and changes nothing but the expansion of the parent.
- Breakpoints.InsertRoundTrip and Breakpoints.ConditionRoundTrip: hold only for a one-word condition. Line 19 sends the condition unquoted, and GDB/MI splits it at spaces (see Findings). `CorrectedInsertRoundTrip` holds for every condition, with the condition quoted.
- WatchList.ExpandableChild, WatchList.WatchBase.AddExpandableChild and the list walk append the placeholder as the code does (line 507), also under a child that was found already. `CorrectedExpandableChild` appends it only under a new child. It is a separate function that the walk does not use.
- Breakpoints.LocationRoundTrip and Breakpoints.InsertRoundTrip: hold only for a location without spaces. Line 23 sends the location unquoted, and GDB/MI splits it at spaces; `-break-insert` then refuses the words left over (see Findings). `CorrectedInsertRoundTrip` holds for every location, with the location quoted.
- `Quoting.Unquote` models only the `\\` and `\"` escapes of a quoted GDB/MI argument.
- `WatchHasType` is used as "`type` is present", through `FieldString`.
- WatchList.ChildStep: the temporary watch built for a dynamic child with more children (`dynamic && has_more`) is not materialised. Only its list command is issued, under the parent, with the child's `name` as id (empty when absent).
- Watches.ClearChanged: clears the change mark of every node the container reaches, which is what `MarkAsChangedRecursive(false)` on each top-level watch does. Nodes outside the container keep their marks.
- Watches.AddRoot and WatchStore.WatchTree.AddWatch: adding a top-level watch is done by the plugin, outside this file. It is modelled only to build trees.

## Findings

| source | as written | input that shows it | evidently intended | confidence | as-written member | corrected member |
|---|---|---|---|---|---|---|
| src/actions.cpp:198-205 | the selected frame is used as an index into the backtrace without a range check; `m_first_valid` records the entry's position in the reply, not the row's position in the backtrace | a user-selected frame of 2 with a one-row backtrace; or a `stack` whose first entry the frame parser refuses and whose second is valid, giving index 1 into a one-row backtrace | the frame is a row of the backtrace: the user's when in range, else the first row with source, else row 0 | medium, not executed | Backtrace.SelectionOutOfRange | Backtrace.SelectFrame |
| src/actions.cpp:638 | only double quotes are escaped in the `-var-create` argument | the expression `'\\'` (a character literal holding a backslash) reaches GDB as `'\'` | backslashes are escaped too, so GDB reads the expression back unchanged | medium, not executed | WatchActions.CreateCommandGarbles | WatchActions.CorrectedCreateCommandQuotes |
| src/actions.cpp:19 | the breakpoint condition follows `-c ` unquoted | the condition `i == 3`: GDB/MI takes `i` as the condition and `== 3` as further arguments | the condition is quoted and escaped, so GDB reads it back whole | medium, not executed | Breakpoints.SpacedConditionGarbles | Breakpoints.CorrectedInsertRoundTrip |
| src/actions.cpp:23 | the breakpoint location is written unquoted with `%s:%d` | the location `My Docs/a.cpp` at line 3: GDB/MI reads `My` and `Docs/a.cpp:3` as two arguments, and the command is refused | the location is quoted and escaped, so GDB reads it back whole | medium, not executed | Breakpoints.SpacedLocationRefused | Breakpoints.CorrectedInsertRoundTrip |
| src/actions.cpp:506-507 | `AppendNullChild` runs for every typed child, also one that `AddChild` found already | a parent already expanded, and a children list naming a typed child with children (`numchild` > 0) received twice, as after a `has_more` update (lines 715-718): the child gets a second `updating...` node | the placeholder is added only to a newly attached child | medium, not executed | WatchList.ExpandableAgainGrows | WatchList.CorrectedExpandableAgain |
