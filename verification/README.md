# Virtual office core: time travel, dimensions and presence

This project models, in Dafny, the state logic of a virtual-office web
application. People appear as avatars on an office floor plan and can walk
around with the arrow keys. The application can record what happens and
replay it ("time travel"). It can also branch the office into alternate
"dimensions" and merge them again. The modelled parts are:

- **Time travel** (`hooks/use-time-travel.tsx`; `time_travel.dfy`, `projection.dfy`).
  - The virtual clock: ticking at a speed, pausing, jumping to a recorded event.
  - The event log.
  - The replay `getUsersAtTime`. It seeds a map keyed by user id with the
    current users, keeps the events up to the requested time, sorts them
    stably by timestamp, and applies moves and status changes.
- **Dimensions** (`hooks/use-dimensions.tsx`; `forest.dfy`, `dimensions.dfy`).
  - The list of dimensions, linked to their parents by id.
  - The per-dimension user snapshots and the active dimension.
  - Creating a branch, switching, patching and merging.
  - The ancestry walk and the children filter.
- **Office configuration per dimension** (`lib/dimension-office-config.ts`;
  `dimension_office_config.dfy`). The projector of the future office, the
  desk-free open plan, and per-area decorations.
- **Presence**
  - The live user list of `hooks/use-virtual-office.tsx` (`office_presence.dfy`).
  - The session-side connection of `hooks/use-virtual-office.ts` (`office_connection.dfy`).
- **The view glue** of `components/virtual-office/virtual-office.tsx`
  (`office_view.dfy`).
  - Which user list is replayed.
  - Arrow-key moves.
  - When moves and status changes are recorded.
  - The side-panel toggle and the timeline filter.
- **Smaller components**, each with its own file:
  - the side-panel chat and user search (`side_panel.dfy`);
  - the employee API route (`eve_employees.dfy`);
  - the department layouts (`department_configs.dfy`);
  - the department stepper (`navigation.dfy`);
  - the keyword responder and conversation of the assistant chat (`chat_with_eve.dfy`);
  - the recording clock of the voice recorder (`voice_recorder.dfy`).

**Modelling choices.**
- Code that only computes is modelled as functions and lemmas.
- A hook or component whose state changes is modelled as a `class`:
  - its fields are the hook's state;
  - its methods are the callbacks;
  - each method states the whole new state in terms of the old one;
  - an effect that a callback re-triggers by changing its dependency is part of
    that callback: a status change re-runs the connect effect.
- **Left to parameters:**
  - clock readings (`Date.now()`, `new Date()`) and generated ids (`uuid`,
    `Date.now().toString()`, random suffixes);
  - microphone access and session checks.
- **JavaScript semantics:**
  - Times are integers of milliseconds, and JavaScript numbers are reals.
  - `||` defaults follow truthiness: `""` and `null` are falsy, and an array,
    even an empty one, is truthy.
  - A `Map` keeps insertion order, so it is a sequence of users with distinct ids.
  - `Array.prototype.sort` is stable, so it is an insertion sort.
  - A `Record` is a Dafny `map`.

## Model

| member | source | states |
|---|---|---|
| Base.FindUser | hooks/use-virtual-office.tsx:88 | `findIndex` by id: the first position holding the id, or none exactly when no entry has it |
| Base.FindUserDistinct | hooks/use-virtual-office.tsx:88-94 | on a list with distinct ids, the entry at a position is found at that position |
| Text.Lower | components/chat-with-eve.tsx:158 | `toLowerCase` keeps the length and maps every character to its lower-case form |
| Text.LowerIdempotent | components/chat-with-eve.tsx:158 | lowering twice is lowering once |
| Text.ContainsEmpty | components/virtual-office/navigation.tsx:24 | every string includes the empty string |
| TimeTravel.Trunc | hooks/use-time-travel.tsx:26 | the millisecond count of `new Date(x)` is `x` truncated toward zero, within one of `x` on the side of zero |
| TimeTravel.TruncMonotone | hooks/use-time-travel.tsx:26 | truncation never reverses the order of two times |
| TimeTravel.TruncInt | hooks/use-time-travel.tsx:26 | a whole millisecond count is kept exactly |
| TimeTravel.Advanced | hooks/use-time-travel.tsx:21-28 | one tick moves the clock by the elapsed real time times the speed, up to the truncation |
| TimeTravel.AdvancedMonotone | hooks/use-time-travel.tsx:21-28 | at a non-negative speed and elapsed time the clock never goes back |
| TimeTravel.AdvancedAtNormalSpeed | hooks/use-time-travel.tsx:26 | at speed 1 the clock advances by exactly the elapsed time |
| TimeTravel.Clock.constructor | hooks/use-time-travel.tsx:8-15 | the clock starts at the current time, at speed 1, neither recording nor paused, with an empty log |
| TimeTravel.Clock.Tick | hooks/use-time-travel.tsx:18-39 | a paused clock does not move; otherwise it advances by `Advanced` and remembers the reading; nothing else changes |
| TimeTravel.Clock.ToggleRecording | hooks/use-time-travel.tsx:42-44 | flips recording and nothing else |
| TimeTravel.Clock.TogglePause | hooks/use-time-travel.tsx:47-54 | flips the pause; resuming restarts the elapsed-time count from the resume time |
| TimeTravel.Clock.AddTimePoint | hooks/use-time-travel.tsx:57-59 | the event is appended to the log, and the earlier log is its prefix |
| TimeTravel.Clock.JumpToTimePoint | hooks/use-time-travel.tsx:62-65 | the clock shows the event's time and is paused |
| TimeTravel.Clock.SetCurrentTime | hooks/use-time-travel.tsx:8 | sets the clock and nothing else |
| TimeTravel.Clock.SetTimeSpeed | hooks/use-time-travel.tsx:9 | sets the speed and nothing else |
| TimeTravel.Clock.UsersAtTime | hooks/use-time-travel.tsx:68-103 | with an empty log the given users; otherwise each of their ids once, in first-occurrence order |
| TimeTravel.JumpThenTicks | hooks/use-time-travel.tsx:18-65 | after a jump, any sequence of ticks leaves the clock paused at the event's time with the log unchanged |
| TimeTravel.RecordLater | hooks/use-time-travel.tsx:57-103 | recording an event stamped after `t` does not change the replay at `t` |
| Projection.Due | hooks/use-time-travel.tsx:80-81 | an event is kept exactly when its timestamp is at or before the requested time; a one-event log keeps its event exactly when it is due |
| Projection.DueAppend | hooks/use-time-travel.tsx:80-81 | the filter keeps log order: the due events of two logs in a row are those of the first followed by those of the second |
| Projection.DueConstantBetween | hooks/use-time-travel.tsx:80-81 | with no event between two times, both keep the same events |
| Projection.InsertPos | hooks/use-time-travel.tsx:82 | the stable insertion point: after every event at or before the new one, before the first later one |
| Projection.InsertKeepsOrder | hooks/use-time-travel.tsx:82 | inserting into a sorted log keeps it sorted and adds exactly the one event |
| Projection.SortByTime | hooks/use-time-travel.tsx:82 | the sorted log is ordered by timestamp and is a permutation of the input |
| Projection.Put | hooks/use-time-travel.tsx:76 | `Map.set` keeps ids distinct and stores the user |
| Projection.PutIds | hooks/use-time-travel.tsx:75-77 | setting an existing key keeps the key order; a new key goes last |
| Projection.PutAt | hooks/use-time-travel.tsx:75-77 | after `set`, the entry under the key is the new user and every other entry is unchanged |
| Projection.Dedup | hooks/use-time-travel.tsx:72-77 | the same ids, none repeated, in the order of their first occurrence |
| Projection.LastById | hooks/use-time-travel.tsx:75-77 | the user the map ends up holding for an id comes from the base list |
| Projection.Seed | hooks/use-time-travel.tsx:72-77 | the seeded map has distinct ids |
| Projection.SeedIds | hooks/use-time-travel.tsx:72-77 | the seeded map holds each base id once, in first-occurrence order |
| Projection.SeedLast | hooks/use-time-travel.tsx:75-77 | each seeded entry is the last base user with that id |
| Projection.Step | hooks/use-time-travel.tsx:83-100 | one event keeps the ids; a join, a leave or an unknown user changes nothing; other users are untouched |
| Projection.Apply | hooks/use-time-travel.tsx:80-100 | replaying events keeps the number and order of the ids |
| Projection.Project | hooks/use-time-travel.tsx:68-102 | an empty log returns the caller's list; otherwise one entry per seeded id, in the same order |
| Projection.UsersAtTimeAsWired | hooks/use-time-travel.tsx:68-103 | the memoised callback sees the empty log of the first render, so it returns the caller's list unchanged |
| Projection.LastOf | hooks/use-time-travel.tsx:83-100 | the last event of a given user and kind in a log, if any |
| Projection.LatestIndex | hooks/use-time-travel.tsx:80-82 | the latest matching event, the last among equal timestamps, or none when nothing matches |
| Projection.Latest | hooks/use-time-travel.tsx:80-82 | the latest event of a user and kind is one of the log's events and matches |
| Projection.LatestIsUnique | hooks/use-time-travel.tsx:82 | there is only one latest matching event |
| Projection.LastOfConcat | hooks/use-time-travel.tsx:83-100 | the last match in a concatenation comes from the second part when it has one |
| Projection.InsertPosSuffix | hooks/use-time-travel.tsx:82 | in a sorted log every event after the insertion point is later than the inserted one |
| Projection.LastOfInsert | hooks/use-time-travel.tsx:82-100 | the inserted event becomes the last match exactly when it matches and is not earlier than the previous last match |
| Projection.SortedLastIsLatest | hooks/use-time-travel.tsx:82-100 | after the stable sort, the last matching event is the latest one of the unsorted log |
| Projection.IdsDistinct | hooks/use-time-travel.tsx:72-102 | a list with the same ids as one with distinct ids has distinct ids |
| Projection.StepAt | hooks/use-time-travel.tsx:84-98 | one event patches the position of its user on a move and the status on a status change |
| Projection.ApplyEntry | hooks/use-time-travel.tsx:83-100 | after a replay, each user has the position of its last move and the status of its last status change |
| Projection.LatestOfDue | hooks/use-time-travel.tsx:80-82 | the latest due event of a kind is due, matches, and no due matching event is later |
| Projection.ProjectEntry | hooks/use-time-travel.tsx:68-102 | each projected user is its seed patched by its latest due move and latest due status change |
| Projection.ProjectedPositionIsLatestMove | hooks/use-time-travel.tsx:88-92 | a projected position is that of the latest move at or before `t`, or the seed's when there is none |
| Projection.ProjectFrame | hooks/use-time-travel.tsx:93-97 | replay changes only position and status, and the status is that of the latest due status event |
| Projection.ProjectIds | hooks/use-time-travel.tsx:72-102 | the projection holds each base id once, in first-occurrence order |
| Projection.ProjectIgnoresLaterEvent | hooks/use-time-travel.tsx:80-81 | an event after `t` does not change the projection at `t` |
| Projection.ProjectConstantBetween | hooks/use-time-travel.tsx:80-81 | the projection is constant between consecutive event times |
| Projection.ExampleDue | hooks/use-time-travel.tsx:80-81 | moves at 10 and 20: at 15 one is due, at 25 both, at 5 none |
| Projection.ExampleSort | hooks/use-time-travel.tsx:82 | an already ordered log is left as it is |
| Projection.ExampleApply | hooks/use-time-travel.tsx:83-100 | the replays of one and of two moves end at the last move's position |
| Projection.ExampleReplay | hooks/use-time-travel.tsx:68-102 | the user is at (5,5) at 15, at (9,9) at 25, and at the start position at 5 |
| Projection.StaleProjectionIgnoresLog | hooks/use-time-travel.tsx:103 | with the same log, the callback as written shows the start position at 15, where the replay gives (5,5) |
| Forest.FindDim | hooks/use-dimensions.tsx:105 | `find` by id: the first dimension with the id, or none exactly when no dimension has it |
| Forest.FindDimAppend | hooks/use-dimensions.tsx:89 | appending a dimension does not change where earlier ids are found |
| Forest.AcyclicAppend | hooks/use-dimensions.tsx:65-89 | appending a dimension with a fresh id and a parent other than itself keeps parent links pointing to earlier dimensions |
| Forest.LinksFind | hooks/use-dimensions.tsx:194 | the lookup table has an id exactly when `find` finds it, and holds the dimension `find` returns |
| Forest.LinksAppend | hooks/use-dimensions.tsx:89 | appending a dimension under a new id adds exactly its entry to the lookup table |
| Forest.Walk | hooks/use-dimensions.tsx:193-201 | the walk collects at most one dimension per pass |
| Forest.WalkFacts | hooks/use-dimensions.tsx:193-201 | each collected dimension is the one its pass found, its parent key is the next pass's id, and a walk cut short has reached an id that stops it |
| Forest.WalkSnoc | hooks/use-dimensions.tsx:194-198 | a pass on a found id collects its dimension at the end |
| Forest.HaltedStays | hooks/use-dimensions.tsx:193 | once the walk holds an id that stops the loop, further passes stay there |
| Forest.IdAfterSnoc | hooks/use-dimensions.tsx:197 | one more pass moves to the parent key of the id reached |
| Forest.IdAfterAdd | hooks/use-dimensions.tsx:193-201 | passes compose: walking a passes and then b is walking a+b |
| Forest.WalkSettles | hooks/use-dimensions.tsx:193-201 | once the walk has stopped, more passes collect nothing more |
| Forest.NeverHaltsFrom | hooks/use-dimensions.tsx:193-201 | a walk that reaches a found id twice never stops after the first visit |
| Forest.RepeatNeverEnds | hooks/use-dimensions.tsx:193-201 | a walk that revisits a found id never ends: the loop runs forever |
| Forest.Reverse | hooks/use-dimensions.tsx:203 | `reverse` puts each element at the mirrored position |
| Forest.ReverseCons | hooks/use-dimensions.tsx:203 | reversing a list with one element in front puts that element last |
| Forest.AncestryShape | hooks/use-dimensions.tsx:188-204 | the root-first chain: empty exactly for an id that stops the loop, ending with the dimension, each link a parent link, starting at a dimension whose parent finds nothing |
| Forest.WalkChain | hooks/use-dimensions.tsx:193-201 | a stopped walk, front to back: each dimension's parent key finds the next and the last one's finds nothing |
| Forest.AncestryIsWalk | hooks/use-dimensions.tsx:188-204 | the chain is the reversed walk of any number of passes after which the loop has stopped |
| Forest.AncestryOfHalt | hooks/use-dimensions.tsx:193-200 | an empty id, or one no dimension has, gives the empty chain |
| Forest.AncestryAddOther | hooks/use-dimensions.tsx:89 | adding an entry nothing links to keeps every other id's chain |
| Forest.AppendChildAncestry | hooks/use-dimensions.tsx:89 | a dimension appended under a fresh id gets its parent's chain followed by itself |
| Forest.AppendChild | hooks/use-dimensions.tsx:89 | appending a child under a fresh id makes the id find it, keeps links pointing backwards, and extends the parent's chain |
| Forest.AcyclicStops | hooks/use-dimensions.tsx:188-206 | where links point backwards, the walk stops within the rank of the id |
| Forest.AcyclicWalkEnds | hooks/use-dimensions.tsx:188-206 | where links point backwards, every walk ends |
| Forest.WalkAddOther | hooks/use-dimensions.tsx:89 | an entry under a key nothing links to changes no pass of a walk from another id |
| Forest.IdsOfHas | hooks/use-dimensions.tsx:193-201 | an id is among the collected ids exactly when a collected dimension has it |
| Forest.StepFromFound | hooks/use-dimensions.tsx:194-197 | from a found id, n+1 passes are one step to the parent key and n passes from there |
| Forest.DistinctSnoc | hooks/use-dimensions.tsx:193-201 | collecting an id not yet collected keeps the collected ids distinct |
| Forest.GuardedStep | hooks/use-dimensions.tsx:193-201 | one pass of the guarded walk extends the walk and keeps every collected id distinct |
| Forest.StoppedWalk | hooks/use-dimensions.tsx:193-203 | a walk stopped at an id that ends it or repeats one is, reversed, the chain whenever the walk ends, with distinct ids, and its oldest dimension links to nothing found or back into the chain |
| Forest.AncestryStep | hooks/use-dimensions.tsx:193-201 | the walk from a found dimension ends exactly when the walk from its parent key does, and its chain is the parent's chain followed by the dimension |
| Forest.Children | hooks/use-dimensions.tsx:211 | a dimension is a child exactly when it names the id as its parent; a one-dimension list is kept exactly when it does |
| Forest.ChildrenAppend | hooks/use-dimensions.tsx:211 | the filter keeps list order: the children of two lists in a row are those of the first followed by those of the second |
| Forest.ChildrenOrder | hooks/use-dimensions.tsx:211 | every cut of the list splits its children the same way |
| Forest.ChildExtendsAncestry | hooks/use-dimensions.tsx:188-214 | a child's chain is its parent's chain followed by the child |
| Forest.MergeUsers | hooks/use-dimensions.tsx:158-167 | the merged list starts with the whole target list and adds at most the source users; which ones and in what order is stated by MergeUsersFirst and MergeUsersOrder |
| Forest.MergeUsersSnoc | hooks/use-dimensions.tsx:161-167 | one more source user is dropped or appended last; when appended, its id is new to the target and first occurs at the end of the source |
| Forest.MergeUsersFirstAt | hooks/use-dimensions.tsx:161-167 | an appended user is the first source user with its id, and its id is not in the target |
| Forest.MergeUsersFirst | hooks/use-dimensions.tsx:161-167 | every appended user is the first source user with its id, so later same-id source users are dropped |
| Forest.MergeUsersOrderAt | hooks/use-dimensions.tsx:161-167 | two appended users keep the order of their first occurrences in the source |
| Forest.MergeUsersOrder | hooks/use-dimensions.tsx:161-167 | the appended users come in source order of first occurrence |
| Forest.MergeUsersIds | hooks/use-dimensions.tsx:161-167 | every merged user comes from one side, and an id is merged exactly when one side has it |
| Forest.MergeUsersDistinct | hooks/use-dimensions.tsx:161-167 | a target with distinct ids gives a merge with distinct ids |
| Forest.MergeUsersSelf | hooks/use-dimensions.tsx:162-167 | merging a list with part of itself gives back the list |
| Forest.FindUserIn | hooks/use-dimensions.tsx:164 | a listed user's id is found |
| Dimensions.InitialDimensions | hooks/use-dimensions.tsx:9-56 | three starting dimensions: default, open-plan and future-office |
| Dimensions.InitialForest | hooks/use-dimensions.tsx:9-56 | the starting list links backwards, and both branches' chains are the default dimension then the branch |
| Dimensions.TwoBranchForest | hooks/use-dimensions.tsx:9-56 | any root with two children of the starting list's shape links backwards, and each child's chain is the root then itself |
| Dimensions.TwoBranchAcyclic | hooks/use-dimensions.tsx:9-56 | such a list links backwards |
| Dimensions.ThreeLinks | hooks/use-dimensions.tsx:9-56 | the three seeded ids find the three dimensions in order |
| Dimensions.ReparentedForest | hooks/use-dimensions.tsx:114-116 | with one branch moved under the other, links no longer point backwards, yet the walk ends and the chain runs root, other branch, moved branch |
| Dimensions.ReparentedHistory | hooks/use-dimensions.tsx:114-116 | moving "open-plan" under "future-office" on the starting list gives a three-long chain for "open-plan" |
| Dimensions.ClosedCycleNeverEnds | hooks/use-dimensions.tsx:188-206 | with the root linked under a branch, no walk from any of the three ids ever ends |
| Dimensions.ClosingPatchLoops | hooks/use-dimensions.tsx:114-116 | linking "default" under "open-plan" on the starting list makes every walk loop forever |
| Dimensions.InitialChildren | hooks/use-dimensions.tsx:9-56 | the children of the default dimension are the two branches |
| Dimensions.Branch | hooks/use-dimensions.tsx:67-87 | a new branch is a child of the active dimension, copies its office configuration, and has one portal, back to the parent |
| Dimensions.MergedAnomalies | hooks/use-dimensions.tsx:137 | the merged anomaly list is the target's followed by the source's: its length is the sum, and an anomaly is in it exactly when one side has it |
| Dimensions.Merged | hooks/use-dimensions.tsx:127-153 | a merged dimension is a child of the target, carries the anomalies of both sides and has portals to the target and then the source |
| Dimensions.ParentPatch | hooks/use-dimensions.tsx:114-116 | the update that sets only the parent link |
| Dimensions.PatchDimension | hooks/use-dimensions.tsx:115 | the empty patch changes nothing; the id and the parent link follow the patch when it carries them and stay otherwise |
| Dimensions.PatchIdempotent | hooks/use-dimensions.tsx:115 | applying the same update twice is applying it once |
| Dimensions.UpdateAll | hooks/use-dimensions.tsx:115 | every dimension with the id gets the patch and every other one is unchanged |
| Dimensions.UpdateKeepsForest | hooks/use-dimensions.tsx:114-116 | a patch that touches neither id nor parent keeps every lookup, and keeps links pointing backwards if they did |
| Dimensions.SameIdsSameFind | hooks/use-dimensions.tsx:115 | lists with the same ids find an id at the same place |
| Dimensions.DimensionManager.constructor | hooks/use-dimensions.tsx:9-59 | the three starting dimensions, no snapshots, and the default dimension active |
| Dimensions.DimensionManager.CurrentDimension | hooks/use-dimensions.tsx:62 | the active dimension when it exists, otherwise the first one |
| Dimensions.DimensionManager.CreateDimension | hooks/use-dimensions.tsx:65-100 | appends a branch of the active dimension, stores the given users as its snapshot, makes it active, keeps links pointing backwards if they did, and whenever the old active walk ends, the new chain is the old active chain followed by the branch |
| Dimensions.DimensionManager.SwitchDimension | hooks/use-dimensions.tsx:103-111 | a known id becomes active; an unknown one changes nothing |
| Dimensions.DimensionManager.UpdateDimension | hooks/use-dimensions.tsx:114-116 | patches matching dimensions; a patch without id or parent keeps the active id found and links pointing backwards |
| Dimensions.CombineUsers | hooks/use-dimensions.tsx:158-167 | the loop over the source users builds exactly the target-first merge of the two snapshots |
| Dimensions.DimensionManager.MergeDimensions | hooks/use-dimensions.tsx:119-177 | with either id unknown nothing changes; otherwise appends the merged dimension, stores the target-first merge of both snapshots, makes it active, keeps links pointing backwards if they did, and extends the target's chain |
| Dimensions.DimensionManager.GetDimensionData | hooks/use-dimensions.tsx:180-185 | the stored snapshot, or none exactly when the id has none |
| Dimensions.DimensionManager.GetDimensionHistory | hooks/use-dimensions.tsx:188-206 | the unguarded walk-then-reverse loop returns exactly when the walk ends, and then returns the root-first chain |
| Dimensions.DimensionManager.GetDimensionHistoryGuarded | hooks/use-dimensions.tsx:188-206 | the walk with a guard against a repeated id always returns: the chain whenever the walk ends, otherwise the reversed walk up to the first repeat, each id once |
| Dimensions.DimensionManager.GetDimensionChildren | hooks/use-dimensions.tsx:209-214 | exactly the dimensions whose parent is the id, in list order: any cut of the list splits them into the children of each part |
| DimensionOfficeConfig.Projector | lib/dimension-office-config.ts:28-34 | the added furniture is a holographic projector |
| DimensionOfficeConfig.WithoutDesks | lib/dimension-office-config.ts:41 | an item is kept exactly when it is neither a desk nor a chair |
| DimensionOfficeConfig.WithoutDesksAppend | lib/dimension-office-config.ts:41 | the filter distributes over concatenation |
| DimensionOfficeConfig.WithoutDesksNone | lib/dimension-office-config.ts:41 | a list without desks or chairs is left as it is |
| DimensionOfficeConfig.AdjustArea | lib/dimension-office-config.ts:21-49 | only the furniture of an area changes, and existing furniture stays a list |
| DimensionOfficeConfig.AdjustFloor | lib/dimension-office-config.ts:18-51 | a floor keeps its id and connections, and each area is adjusted in place |
| DimensionOfficeConfig.AdjustConfig | lib/dimension-office-config.ts:15-51 | the adjusted record has the same floor keys, each floor adjusted |
| DimensionOfficeConfig.AdjustAreas | lib/dimension-office-config.ts:21-50 | the in-place loop leaves each area of the copy adjusted |
| DimensionOfficeConfig.GetDimensionBasedOfficeConfig | lib/dimension-office-config.ts:5-54 | no dimension returns the base record; a dimension returns a fresh adjusted copy |
| DimensionOfficeConfig.DecorationsComeLast | lib/dimension-office-config.ts:45-49 | decorations are appended after the dimension-specific changes |
| DimensionOfficeConfig.FutureOfficeProjector | lib/dimension-office-config.ts:23-49 | in the future office every area has a projector; an area without one keeps its furniture, then gets the new projector, then its decorations; an area with one and no decorations is unchanged |
| DimensionOfficeConfig.OpenPlanClearsDesks | lib/dimension-office-config.ts:38-43 | in the open plan no desk or chair remains except those the decorations add |
| DimensionOfficeConfig.NeutralDimension | lib/dimension-office-config.ts:14-53 | any other dimension without decorations leaves the configuration unchanged |
| DimensionOfficeConfig.AdjustAreaIdempotent | lib/dimension-office-config.ts:21-49 | without decorations, adjusting twice is adjusting once |
| OfficePresence.MockUsers | hooks/use-virtual-office.tsx:13-82 | six demonstration users with ids 2 to 7, all distinct |
| OfficePresence.Without | hooks/use-virtual-office.tsx:106 | a user remains exactly when its id is not the departing one; a one-user list keeps its user exactly when the ids differ |
| OfficePresence.WithoutAppend | hooks/use-virtual-office.tsx:106 | the filter keeps list order: removing from two lists in a row leaves the first's survivors followed by the second's |
| OfficePresence.WithoutAbsent | hooks/use-virtual-office.tsx:106 | removing an absent id changes nothing |
| OfficePresence.MovedTo | hooks/use-virtual-office.tsx:112 | the matching users take the position and every other user is unchanged |
| OfficePresence.PresenceStore.constructor | hooks/use-virtual-office.tsx:8-83 | after the mount effect the list is the demonstration users, not connected |
| OfficePresence.PresenceStore.ConnectToOffice | hooks/use-virtual-office.tsx:85-103 | a known id is replaced in its slot, a new one appended; the user is listed, connected, and ids stay distinct |
| OfficePresence.PresenceStore.DisconnectFromOffice | hooks/use-virtual-office.tsx:105-109 | the user's entries are removed and the store is disconnected |
| OfficePresence.WithoutDropsId | hooks/use-virtual-office.tsx:106 | after the removal no entry has the id, so the next connect appends |
| OfficePresence.PresenceStore.Rejoin | components/virtual-office/virtual-office.tsx:135-151 | the connect effect re-run for a changed user: its entries are removed and the user is appended last, connected |
| OfficePresence.PresenceStore.UpdateUserPosition | hooks/use-virtual-office.tsx:111-113 | the user's entries move and nothing else changes |
| OfficePresence.ConnectThenDisconnect | hooks/use-virtual-office.tsx:85-109 | a new user joining then leaving leaves the list as it was |
| OfficePresence.ReconnectKeepsOthers | hooks/use-virtual-office.tsx:88-94 | reconnecting keeps the length, every other entry and the id order |
| OfficePresence.MovedToKeepsIds | hooks/use-virtual-office.tsx:112 | moving keeps the id order |
| OfficeConnection.OverlayLaws | hooks/use-virtual-office.ts:36-41 | overlaying the same record twice is overlaying once, a full record replaces the old entry, and the entry is active |
| OfficeConnection.FindSession | hooks/use-virtual-office.ts:33 | `findIndex` by id: first match, or none exactly when absent |
| OfficeConnection.MarkedInactive | hooks/use-virtual-office.ts:58-60 | the user's entries become inactive and every other entry is unchanged |
| OfficeConnection.Repositioned | hooks/use-virtual-office.ts:70 | the user's entries take the position and every other entry is unchanged |
| OfficeConnection.Connection.constructor | hooks/use-virtual-office.ts:21-23 | disconnected, empty, no current user |
| OfficeConnection.Connection.ConnectToOffice | hooks/use-virtual-office.ts:26-50 | always succeeds; the user becomes current and is overlaid on its entry or appended as active |
| OfficeConnection.Connection.DisconnectFromOffice | hooks/use-virtual-office.ts:53-66 | always succeeds; with a current user it marks that user inactive and disconnects, otherwise nothing changes |
| OfficeConnection.Connection.UpdateUserPosition | hooks/use-virtual-office.ts:69-75 | moves the user's entries, and the current user too when it is that user |
| OfficeConnection.ConnectedUserIsActive | hooks/use-virtual-office.ts:26-50 | after connecting, the user is current, listed and active, and the list grew only if the user was new |
| OfficeConnection.ConnectThenDisconnect | hooks/use-virtual-office.ts:26-66 | after connecting and disconnecting, the user stays listed but every entry of it is inactive |
| OfficeView.KeyDirection | hooks/use-keyboard-navigation.tsx:11-26 | each of the four arrow keys gives its direction, and only that key gives it |
| OfficeView.StepPosition | components/virtual-office/virtual-office.tsx:99-115 | a move shifts exactly one coordinate by 20, up and left toward smaller values |
| OfficeView.DataKey | components/virtual-office/virtual-office.tsx:78 | the snapshot key is the active id, or "default" when that is empty |
| OfficeView.ProjectionBase | components/virtual-office/virtual-office.tsx:79 | a stored snapshot, even an empty one, is replayed instead of the live list |
| OfficeView.InDimension | components/virtual-office/virtual-office.tsx:404 | an event is shown exactly when it was recorded in the given dimension; a one-event log is kept or dropped whole; order is stated by InDimensionAppend |
| OfficeView.InDimensionAppend | components/virtual-office/virtual-office.tsx:404 | the filter keeps log order and multiplicity: the events of a concatenation are the first part's followed by the second's |
| OfficeView.InDimensionOrder | components/virtual-office/virtual-office.tsx:404 | every cut of the log splits the filtered events the same way |
| OfficeView.SignedInIsNotMock | hooks/use-user.tsx:11-21 | the signed-in user is not one of the demonstration users |
| OfficeView.VirtualOffice.constructor | components/virtual-office/virtual-office.tsx:32-75 | the signed-in user, no open panel, the demonstration users, valid dimensions and an empty, non-recording clock |
| OfficeView.VirtualOffice.ConnectSignedIn | components/virtual-office/virtual-office.tsx:135-151 | a signed-in user replaces the first entry with its id, or is appended, and the store is connected; without one neither the list nor the connection changes |
| OfficeView.VirtualOffice.TimeAdjustedUsers | components/virtual-office/virtual-office.tsx:78-79 | the replay runs over the stored snapshot when the active dimension has one, otherwise over the live list: with an empty log that list itself, otherwise each of its ids once, in first-occurrence order |
| OfficeView.VirtualOffice.TimelineEvents | components/virtual-office/virtual-office.tsx:404 | the timeline shows exactly the events of the active dimension, in log order: any cut of the log splits it into the two parts' events |
| OfficeView.VirtualOffice.OnMove | components/virtual-office/virtual-office.tsx:97-131 | paused or signed out, nothing changes; otherwise the user moves one step and the move is logged exactly when recording; the clock is untouched |
| OfficeView.VirtualOffice.OnKeyDown | hooks/use-keyboard-navigation.tsx:11-26 | an arrow key moves the signed-in user one step in its direction and logs the move while recording, unless paused or signed out; any other key changes nothing; the clock is untouched |
| OfficeView.VirtualOffice.HandleUserPositionChange | components/virtual-office/virtual-office.tsx:203-220 | any user moves; only the signed-in user's move is logged, and only while recording; the clock settings and the connection stay |
| OfficeView.VirtualOffice.HandleStatusChange | components/virtual-office/virtual-office.tsx:222-239 | only the signed-in user's status changes, and it is logged at the current position while recording; the new user object re-runs the connect effect, so its live entries are replaced by one appended entry with the new status at `useUser`'s position, connected; another id changes neither the user nor the list; the clock settings stay |
| OfficeView.VirtualOffice.HandlePanelToggle | components/virtual-office/virtual-office.tsx:184-189 | asking for the open panel closes it; any other request opens that panel |
| OfficeView.TogglePanelTwice | components/virtual-office/virtual-office.tsx:184-189 | toggling the same panel twice closes it again |
| OfficeView.RecordedMoveIsOnTimeline | components/virtual-office/virtual-office.tsx:119-129 | a recorded move is appended and appears on the active dimension's timeline |
| OfficeView.StartUp | components/virtual-office/virtual-office.tsx:135-151 | at start-up the list is the demonstration users followed by the signed-in user, connected |
| OfficeView.StatusChangeReconnects | components/virtual-office/virtual-office.tsx:135-151 | after start-up, a right arrow and a status change, the signed-in user is back at the end of the list at its starting position with the new status |
| OfficeView.MovedAfterOthers | hooks/use-virtual-office.tsx:111-113 | moving the last user of a list whose other ids differ moves only it |
| OfficeView.WithoutAfterOthers | hooks/use-virtual-office.tsx:106 | dropping the last user's id from such a list leaves the others |
| SidePanel.InitialMessages | components/virtual-office/side-panel.tsx:28-50 | three starting messages in the default dimension, none later than now |
| SidePanel.SendKey | components/virtual-office/side-panel.tsx:67 | a sent message is filed under a non-empty active id, and under "default" exactly when there is none or it is empty or "default" |
| SidePanel.FilteredMessages | components/virtual-office/side-panel.tsx:75-79 | a message is shown exactly when it is not later than the clock and is in the active or the default dimension; a one-message list is kept or dropped whole; order is stated by FilteredMessagesAppend |
| SidePanel.FilteredMessagesAppend | components/virtual-office/side-panel.tsx:75-79 | the filter keeps the chat's order and multiplicity: a concatenation shows the first part's messages followed by the second's |
| SidePanel.VisibleUnlessAlt | components/virtual-office/side-panel.tsx:75-79 | a message is shown exactly when it is not later than the clock and would not carry the other-dimension marker |
| SidePanel.VisibleNeverAlt | components/virtual-office/side-panel.tsx:134 | no shown message carries the other-dimension marker |
| SidePanel.SentIsShownLast | components/virtual-office/side-panel.tsx:59-79 | a message sent now is shown last |
| SidePanel.AllVisibleShown | components/virtual-office/side-panel.tsx:75-79 | when every message is visible the filter keeps them all, in order |
| SidePanel.InitialMessagesShown | components/virtual-office/side-panel.tsx:28-79 | the starting messages are all shown from their creation on |
| SidePanel.FilteredUsers | components/virtual-office/side-panel.tsx:82-87 | a user is listed exactly when name, role or status contains the query, ignoring case; a one-user list is kept or dropped whole; order is stated by FilteredUsersAppend |
| SidePanel.FilteredUsersAppend | components/virtual-office/side-panel.tsx:82-87 | the search keeps the people list's order and multiplicity: a concatenation lists the first part's matches followed by the second's |
| SidePanel.EmptyQueryKeepsAll | components/virtual-office/side-panel.tsx:82-87 | the empty query lists every user |
| SidePanel.Panel.constructor | components/virtual-office/side-panel.tsx:26-51 | opens on the given tab with an empty draft and the starting messages |
| SidePanel.Panel.HandleSendMessage | components/virtual-office/side-panel.tsx:59-72 | a blank draft sends nothing; otherwise the draft is appended as the user's message and cleared |
| SidePanel.Panel.SetMessage | components/virtual-office/side-panel.tsx:27 | sets the draft and nothing else |
| SidePanel.SendThenShow | components/virtual-office/side-panel.tsx:59-79 | a sent message is shown at the end of the filtered list |
| EveEmployees.OrElse | app/api/eve-employees/route.ts:72-78 | a missing or empty field takes the fallback |
| EveEmployees.Owner | app/api/eve-employees/route.ts:65 | the owner is never empty |
| EveEmployees.NewEntry | app/api/eve-employees/route.ts:68-80 | the new record is human, owned by the request's owner, stamped now, with the given name and department; a non-empty role, photo or status and any given position or introduction are kept, otherwise the defaults "Employee", [0, 0.5, 0], the placeholder photo, "" and "online" apply |
| EveEmployees.FindOwn | app/api/eve-employees/route.ts:66 | the first human entry of the owner, or none exactly when the owner has none |
| EveEmployees.Upsert | app/api/eve-employees/route.ts:83-93 | saving replaces one entry or appends the record, and leaves every assistant and every other owner's entry where it was |
| EveEmployees.UpsertLaws | app/api/eve-employees/route.ts:83-93 | saving grows the store by at most one, leaves assistants and other owners alone, keeps one human entry per owner, and stores the record under the kept id |
| EveEmployees.UpsertFrame | app/api/eve-employees/route.ts:83-93 | saving changes at most the owner's slot, never an assistant's or another owner's entry, and appends exactly when the owner had none |
| EveEmployees.UpsertSlot | app/api/eve-employees/route.ts:83-93 | after saving, the owner's first entry is the slot, holding the new record under the kept id |
| EveEmployees.UpsertKeepsOneEntry | app/api/eve-employees/route.ts:83-93 | saving keeps at most one human entry per owner |
| EveEmployees.UpsertAgain | app/api/eve-employees/route.ts:83-93 | saving the same request again changes nothing |
| EveEmployees.Store.constructor | app/api/eve-employees/route.ts:5-36 | three seeded assistants and no human entries |
| EveEmployees.Store.Post | app/api/eve-employees/route.ts:45-100 | 401 without a session, 500 for a body that is not JSON, 400 without name or department, all leaving the store alone; otherwise the entry is saved and returned under the kept or new id |
| EveEmployees.PostTwice | app/api/eve-employees/route.ts:64-93 | two requests from one owner give the same id and grow the store at most once |
| DepartmentConfigs.Desks | lib/department-configs.ts:167-172 | a desk grid has one desk per column and row |
| DepartmentConfigs.Row | lib/department-configs.ts:167-168 | a row has one desk per column |
| DepartmentConfigs.ExplicitConfigs | lib/department-configs.ts:13-150 | seven departments have hand-made layouts |
| DepartmentConfigs.GridPosition | lib/department-configs.ts:158-162 | the department at index `i` sits in column `i % 5` and row `i / 5`, inside the five-column band |
| Base.FirstIndex | lib/department-configs.ts:155 | the first position of a name in the list |
| DepartmentConfigs.FillInKeeps | lib/department-configs.ts:155-180 | the loop keeps every existing layout and adds a key for each listed department |
| DepartmentConfigs.FillInDefaults | lib/department-configs.ts:155-180 | every listed department has a layout, and one that had none gets the default for its first index |
| Base.FirstIndexPrefix | lib/department-configs.ts:155 | appending to the list does not move a first occurrence |
| DepartmentConfigs.Configs.constructor | lib/department-configs.ts:13-150 | the record as declared |
| DepartmentConfigs.Configs.AddDefaults | lib/department-configs.ts:155-180 | the `forEach` loop leaves the record filled in for the whole list |
| DepartmentConfigs.Load | lib/department-configs.ts:13-180 | every listed department has a layout, hand-made ones are kept, and others sit in their grid cell with four desks and one meeting area |
| Navigation.IndexOf | components/virtual-office/navigation.tsx:20 | the first position of the department, or -1 exactly when it is absent |
| Navigation.PrevDepartment | components/virtual-office/navigation.tsx:21 | the department before the current one, present exactly when the index is positive |
| Navigation.NextDepartment | components/virtual-office/navigation.tsx:22 | the department after the current one, present exactly when the index is below the last |
| Navigation.CallIfTruthy | components/virtual-office/navigation.tsx:26-36 | the handler calls back exactly when the department is non-null and non-empty |
| Navigation.HandlePrevious | components/virtual-office/navigation.tsx:26-30 | calls back with the department before the current one exactly when there is one and its name is not empty |
| Navigation.HandleNext | components/virtual-office/navigation.tsx:32-36 | calls back with the department after the current one exactly when there is one and its name is not empty |
| Navigation.FilteredDepartments | components/virtual-office/navigation.tsx:24 | a department is listed exactly when its name contains the query, ignoring case |
| Navigation.HandleSearch | components/virtual-office/navigation.tsx:38-43 | a call goes to a listed department that matches the query, and no call is made exactly when none matches |
| Navigation.SearchPicksFirstMatch | components/virtual-office/navigation.tsx:38-43 | the search goes to the first matching department, and makes no call exactly when none matches |
| Navigation.EmptySearchPicksFirst | components/virtual-office/navigation.tsx:24-43 | the empty query goes to the first department |
| Navigation.PrevNextInverse | components/virtual-office/navigation.tsx:20-22 | on a list without repeats, previous and next undo each other |
| Navigation.AbsentCurrent | components/virtual-office/navigation.tsx:20-22 | an absent department has no previous one and the first as its next |
| ChatWithEve.GenerateEveResponse | components/chat-with-eve.tsx:157-171 | each keyword class gets its fixed reply and only that class does, the classes tried in the order greeting, help, thanks, bye; other text is quoted back |
| ChatWithEve.EchoTail | components/chat-with-eve.tsx:169 | the text after the quoted input starts with the closing quote |
| ChatWithEve.EchoQuotesInput | components/chat-with-eve.tsx:169 | the fallback reply quotes the typed text verbatim, followed by a closing quote |
| ChatWithEve.Classify | components/chat-with-eve.tsx:157-170 | a greeting exactly when the lowered text contains "hello" or "hi"; help exactly when it contains "help" and no greeting; thanks exactly when it contains "thank" and neither a greeting nor "help"; bye exactly when it contains "bye" and none of the earlier keywords; the echo exactly when it contains none of the keywords |
| ChatWithEve.ClassifyIgnoresCase | components/chat-with-eve.tsx:158 | a text and its lower-case form get the same reply class |
| ChatWithEve.ThisIsAGreeting | components/chat-with-eve.tsx:160 | "this" contains "hi" and so gets the greeting |
| ChatWithEve.GreetingWins | components/chat-with-eve.tsx:160-161 | a text containing "hello" is greeted whatever else it contains |
| ChatWithEve.Conversation.constructor | components/chat-with-eve.tsx:29-31 | empty conversation, empty input, not loading |
| ChatWithEve.Conversation.HandleSendMessage | components/chat-with-eve.tsx:61-88 | a blank input sends nothing; otherwise the input is appended, cleared, loading starts and a reply to that text is scheduled |
| ChatWithEve.Conversation.HandleKeyPress | components/chat-with-eve.tsx:90-95 | Enter without Shift on a non-blank draft sends it, clears the draft, queues it for a reply and sets loading; any other key, or a blank draft, changes nothing |
| ChatWithEve.Conversation.DeliverReply | components/chat-with-eve.tsx:77-87 | the oldest scheduled reply is appended and loading ends |
| ChatWithEve.SendThenReply | components/chat-with-eve.tsx:61-88 | a send and its timer leave the text and the reply to that very text at the end |
| VoiceRecorder.DigitChar | components/chat/voice-recorder.tsx:89 | a digit value gives a digit character |
| VoiceRecorder.DigitValue | components/chat/voice-recorder.tsx:89 | a digit character gives a value below ten |
| VoiceRecorder.DigitRoundTrip | components/chat/voice-recorder.tsx:89 | digit to character and back is the identity |
| VoiceRecorder.Decimal | components/chat/voice-recorder.tsx:89 | `toString` gives at least one digit, and exactly one for values below ten |
| VoiceRecorder.ParseDecimal | components/chat/voice-recorder.tsx:89 | reading the digits back gives the number |
| VoiceRecorder.PadStart2 | components/chat/voice-recorder.tsx:89 | padding gives at least two characters and leaves longer strings alone |
| VoiceRecorder.ParseLeadingZero | components/chat/voice-recorder.tsx:89 | a leading zero does not change the value |
| VoiceRecorder.ParsePadded | components/chat/voice-recorder.tsx:89 | padding keeps the digits and the value |
| VoiceRecorder.FormatTime | components/chat/voice-recorder.tsx:86-90 | the display has a colon before the last two characters |
| VoiceRecorder.FormatTimeRoundTrip | components/chat/voice-recorder.tsx:86-90 | at least two minute digits, exactly two second digits below 60, and minutes times 60 plus seconds is the count |
| VoiceRecorder.Recorder.constructor | components/chat/voice-recorder.tsx:15-19 | not recording, counter at zero, no timer |
| VoiceRecorder.Recorder.StartRecording | components/chat/voice-recorder.tsx:32-71 | with microphone access recording starts from zero with the timer running; without it nothing changes |
| VoiceRecorder.Recorder.Tick | components/chat/voice-recorder.tsx:65-67 | a running timer adds one second |
| VoiceRecorder.Recorder.StopRecording | components/chat/voice-recorder.tsx:73-84 | recording and the timer stop; the counter keeps its value |
| VoiceRecorder.StartAndTickTwice | components/chat/voice-recorder.tsx:32-90 | a fresh recording shows 00:02 after two ticks |

## Left out

- Rendering, styling, animation, zoom and pan, the mini-map, modals and
  every component that only draws state. None of them changes the modelled state.
- Spatial audio (`hooks/use-spatial-audio`). It calls the Web Audio API.
- Other configuration modules:
  - The time-of-day office configuration (`lib/time-office-config`) is not part of this model.
  - The department list (`lib/departments.ts`) is not part of this model. The layouts and the stepper take it as a parameter.
  - `types/chat.ts` is not part of this model. The side-panel message fields are those the component uses.
- Timers and I/O are not modelled:
  - `setInterval`, `setTimeout`, `Date.now()` and `new Date()` are not modelled. A tick, a fired timer and a clock reading are explicit calls or parameters.
  - The GET route, which only returns the store after a half-second delay, is not modelled.
- Browser-only effects are not modelled:
  - `MediaRecorder` and microphone streams (access is a boolean parameter).
  - The simulated transcription.
  - File uploads and `localStorage`.
  - The chat greeting read from `localStorage`.
  - Routing.
  - The window-size check.
- React rendering order. Each hook's mount effect is taken to have run before any callback.
- Projection.LastById: states only that the result comes from the base under the id. That it is the last such entry is stated by Projection.SeedLast.
- Projection.Put: states distinctness and membership. The placement is stated by Projection.PutIds and Projection.PutAt.
- Projection.Apply: states only the ids. What each entry becomes is stated by Projection.ApplyEntry.
- TimeTravel.Clock.Tick: does not model the 100 ms interval. Each call is one firing with the reading passed in.
- Dimensions.DimensionManager.MergeDimensions: accepts a source equal to the target, as the code does. The merge then copies one dimension's anomalies twice.
- OfficeView.VirtualOffice.OnMove: moves from the position the signed-in user record holds. The code never writes moves back to that record, so repeated key presses do not accumulate.
- Dimensions.DimensionManager.GetDimensionHistory: requires that the walk from the id ends. When a patch closes a cycle of parent links, the code's loop never returns, so there is no result to model (see "Findings").
- Callbacks read the state as left by the calls before them. The code's callbacks read the state of the render that created them; for example the disconnect of `hooks/use-virtual-office.ts` reads `currentUser` from its closure. The model does not capture a callback acting on stale state, except for the replay described under "Findings".
- A spread field that is present but `undefined` is modelled as absent: `{ ...a, ...b }` with `b.x === undefined` keeps `a.x` in the model, where the code sets it to `undefined` (OfficeConnection.Overlay and Dimensions.PatchDimension).
- Text.Lower: lowers only the ASCII letters; full Unicode case mapping is not modelled.
- DepartmentConfigs.Load: states the position and the desk and meeting-area counts of a default layout, not its colours and decorations.

## Findings

| source | as written | input that shows it | evidently intended | confidence | as-written member | corrected member |
|---|---|---|---|---|---|---|
| hooks/use-time-travel.tsx:68-103 | `getUsersAtTime` is memoised with an empty dependency list, so it keeps the log of the first render, which is empty, and always returns the users it is given | a user at (0,0) with recorded moves to (5,5) at time 10 and (9,9) at time 20, asked for time 15: the callback returns (0,0) | replay the current log, giving (5,5) | not executed | Projection.UsersAtTimeAsWired (shown by Projection.StaleProjectionIgnoresLog) | Projection.Project (used by TimeTravel.Clock.UsersAtTime and OfficeView.VirtualOffice.TimeAdjustedUsers) |
| hooks/use-dimensions.tsx:188-206 | `getDimensionHistory` follows parent links with no guard against an id it has already visited; `updateDimension` (114-116) accepts any `parentId`, so a cycle can be made | `updateDimension("default", { parentId: "open-plan" })` on the starting list, then `getDimensionHistory("default")`: the loop alternates between "default" and "open-plan" forever | stop at the first repeated id and return the chain collected so far | not executed | Dimensions.DimensionManager.GetDimensionHistory, whose precondition Dimensions.ClosingPatchLoops shows unmet (every walk is endless) | Dimensions.DimensionManager.GetDimensionHistoryGuarded (same chain whenever the walk ends; always returns) |
