# Dispatch core: a verified model

This project models the parts of the dispatch system that keep state, race, recurse or do arithmetic, and
proves what they promise. Each module is named for what it covers and says at its head which file it models.

Code that changes state step by step is a class or a method here, proved against a pure specification: a
step function, a recursion, a predicate. The promises are lemmas about that specification, over every input,
every run or every reachable state. What comes from outside (the file a host serves, the outcome of an
ingestion, a time zone, what counts as an IP address, a case folding) is a parameter of the theorems.

| module | models |
|---|---|
| `ForeignKeys` | the demo reset's graph of foreign keys, and where the recursion over it ends |
| `CascadeDelete` | the demo reset: recursive deletion over a foreign-key graph read at run time |
| `SidecarStore` | the image slots' shared store: one read racing with changes, serialised writes |
| `ReplaceMachine` | the image slot's replace machine: which image wins, when the mask comes off |
| `ViewGeometry` | the image slot's pan, zoom, resize and clamp |
| `HeaderBinding` | binding a vendor's column headers to canonical fields |
| `Timestamps` | the baseline's times, with an offset from UTC or without, and what comparing them comes to |
| `BaselineLoading` | loading the two exports with a full account of the lines that do not parse |
| `EngagedHours` | engaged hours from the best source each driver-day has |
| `ClientIp` | who a request is taken for behind proxies, and the diagnostic chain |
| `RateLimit` | the per-caller rate limit over a trace of requests |
| `PublicOrders` | the idempotent order API under concurrency |
| `ManifestUpload` | grouping, chunking, submitting and reporting a delivery manifest |
| `LikeSearch` | LIKE escaping and the order search |
| `ClientRates` | versioned client rates |
| `WorkbookImport` | importing the experiment workbook as sites, routes and stops |
| `HubCalendar` | a hub's own days and months as spans of instants |
| `Strings`, `Counting`, `Wrappers` | what blanks are and what stripping leaves; counting by a property; options and results |

## What the proofs found

Where the code and what is written about it differ, the code was followed and the difference proved.

* **The reset's recursion guard.** The docstring says the guard stops a cycle of foreign keys. It skips a
  table's edge to itself and nothing longer: from a given table the recursion returns exactly when no walk
  down the foreign keys comes back to where it was (`ReturnsIff`), and from two tables that point at each other
  it never does (`TwoTablesForEver`).
* **Rows that point at their own table.** The docstring also says no row of this schema does. One can:
  `locations.merged_into_id` (`app/models/location.py:97-98`). The database refuses a reset exactly when some
  row's turn to be deleted comes before that of a row of its own table that points at it (`DeleteTree`). Such
  a row leads to one the reset set out to delete, so a merged location alone never refuses one.
* **The order of the keys can decide.** The query that lists the foreign keys asks for no order. Two listings
  of the same keys over the same rows, and one cascade is refused where the other is not
  (`OrderOfKeysDecides`).
* **A cleared slot could get its image back.** Changes made before the read and after it come to the same
  entry unless the last is a framing without an image over an image on disk (`HydrationCommutesIff`). For a
  framing alone that is the intent the comment states. For a slot cleared and then framed the file's image
  returns (`ClearedImageReturns`): only a caller of `setSlot(id, null)` could cause it, and the three there
  are (`site/image-slot.js:485`, `913`, `1064`) all pass a value.
* **A read that returns nothing.** After a failed read, or one that finds no object, the first write drops
  every entry of the file the page did not touch. Writes keep untouched entries exactly when the read
  returned them or there are none (`WritesKeepFileIff`); a failed read, one slot set, and the write holds that
  slot alone (`FailedReadDropsTheFile`).
* **The rate limit's bound.** In any window's length of time a caller passes at most `2M - 1` times, one
  fewer than two full windows' worth, because the first request of a window is the one that starts it; and
  `2M - 1` can be had (`AdmittedIsBounded`, `BoundIsAttained`).
* **DELETE is not idempotent in a race.** Of the DELETEs that answer when their order is cancelled, exactly
  those that had read it while it could still be cancelled answer 409 (`CancelledDeleteIsRefusedIff`); a run
  from a fresh table reaches that with two of them (`RacingDeleteIsRefused`).
* **An order can go unannounced.** An order made here has its one event unless the POST that made it is, or
  died, between insert and publish, whatever other requests do (`OneClaimOneEvent`). A five-event run ends
  with the order and no event (`OrderWithoutEvent`), and every retry answers `duplicate: true` without sending
  one (`RetriesAnswerTheSame`).
* **One mixed record loses a whole export.** A time with an offset does not compare with one without: Python
  raises, and nothing catches it. The activity load completes exactly when, on each record with a driver and a
  completion time, both shift times carry an offset or neither does (`LoadActivity`, `LoadRaisesIff`); a shift
  from `2024-05-01T08:00:00+00:00` to `17:00` is enough to lose the file (`OneLineLosesTheFile`). Engaged hours
  raise exactly when some driver-day's clock times are mixed, or its completions are and it has to fall back on
  them (`DayRaisesIff`, `HoursRaiseIff`). A file whose own completion and shift times are of one kind never
  makes either raise (`OneKindIsSafe`).
* **A reported line may not be the line.** The loaders number the reader's records from 2. That is the line of
  the file the record begins on exactly when no blank line and no line break within a cell comes before it
  (`NumberIsTheLineIff`).
* **Trusting too many proxies.** The answer is independent of what the caller sends exactly when the trusted
  count is no more than the number of proxies; above it the caller can be any address (`IndependentIff`).
* **A proxy that adds a line is not read.** A comment says repeated headers reach the code joined
  (`app/api/internal_routes.py:337-338`). `Headers.get` of Starlette hands over the first line, and then only
  the proxies that extend that line count: the count of all of them is safe exactly when all of them do
  (`IndependentOfLinesIff`, `CountingAllIsSafeIff`).
* **Shifts with a date on one end only.** Pushing a clock-only end over midnight makes a shift of two clock
  times last under a day. With a date on one end alone, away from the placeholder day, it never does: with an
  offset there too the load is lost; without, the shift ends that long after its start or before it
  (`LastsUnderADayIff`).
* **A manifest that reads like a run.** Rows with no manifest share a route exactly by day and driver, but a
  manifest spelt like the name made up for such a run joins it (`SameRouteIff`).

## Model

| member | source | states |
|---|---|---|
| CascadeDelete.Session.Delete | demo/reset.py:98 | one DELETE removes exactly the rows its nested query selects at that moment, or, when a survivor points at one of them, nothing |
| CascadeDelete.SelectedIff | demo/reset.py:92-98 | what a nested query selects, row by row |
| CascadeDelete.Session.DeleteChild | demo/reset.py:92-97 | one child's cascade, run on what those before it left, with its text read then, is its part of that plan |
| CascadeDelete.Session.DeleteChildren | demo/reset.py:87-97 | the loop over the children, the guard included, is the children's part of the plan, or stops at the first refusal |
| CascadeDelete.Session.DeleteRows | demo/reset.py:79-98 | terminates where no walk from the table comes back to where it was; ends well if and only if, in the plan drawn up from the rows it began with, no row's turn comes before that of a row of its own table that points at it, and then what is gone is the rows planned for; `CascadeMeans` says what that is |
| CascadeDelete.Session.DeleteTree | demo/reset.py:101-114 | a reset is committed if and only if no row's turn comes before that of a row of its own table that points at it; committed, it removes exactly the least reference-closed set holding the driver's routes, their stops and the hub's orders, and keeps the foreign keys intact; refused, it changes nothing, and some row points at another of its own table that leads to one of those |
| CascadeDelete.EvalIgnoresOtherTables | demo/reset.py:92-98 | a nested id query answers the same as long as the tables it reads are untouched |
| CascadeDelete.UntouchedQuery | demo/reset.py:87-98 | the queries carried down the recursion read only ancestors, which are untouched until their own turn, so they still select what they did at the start |
| CascadeDelete.LeastClosedIsUnique | demo/reset.py:79-98 | what a cascade must remove is one set, not one of several |
| CascadeDelete.AcceptedIff | demo/reset.py:87-98 | statement after statement is accepted if and only if no row goes before one that points at it |
| CascadeDelete.PlanPutsOthersFirst | demo/reset.py:87-98 | children first: in a cascade no row goes before a row of another table that points at it |
| CascadeDelete.PlanIsTheClosure | demo/reset.py:79-98 | the rows a cascade selects are the least set that holds its own and every row of another table that points into it |
| CascadeDelete.CascadeMeans | demo/reset.py:79-98 | a cascade in order removes that closure and leaves no survivor pointing into it; one out of order has a row pointing at another of its own table from which references lead to one of its rows |
| CascadeDelete.PlanOnTheRest | demo/reset.py:87-98 | a cascade planned on the rows earlier ones left is the one planned on the rows there were, less what is gone |
| CascadeDelete.CascadeAsPlanned | demo/reset.py:87-114 | so a cascade run after others is accepted, and removes, as one plan for all of them says |
| CascadeDelete.QueryBeforeChild | demo/reset.py:92-98 | the children's cascades leave a query of the parent's its answer |
| CascadeDelete.TreePlanIsTheClosure | demo/reset.py:102-113 | the three cascades together select the closure of the driver's stops, routes and the hub's orders |
| CascadeDelete.OrderOfKeysDecides | demo/reset.py:67-76 | over the same rows and keys, one order of listing the keys has the cascade refused and the other does not |
| CascadeDelete.CommittedCascadeIsExact | demo/reset.py:101-114 | a cascade the database accepts is the least set closed under every foreign key, self-references included |
| CascadeDelete.ExactMeansLeadsToASeed | demo/reset.py:79-98 | a row is removed if and only if some chain of references leads from it to a seed |
| CascadeDelete.ExactKeepsIntact | demo/reset.py:58-65 | no foreign key is left dangling |
| CascadeDelete.TreeSeeds | demo/reset.py:102-111 | each of the three nested selections, evaluated when its turn comes, means the rows of the original database that are left of the driver's stops, the driver's routes or the hub's orders |
| CascadeDelete.DemoRowsAre | demo/reset.py:102-104 | the rows a reset sets out to delete are the driver's routes, the stops on them, and the hub's orders |
| CascadeDelete.SelectedById | demo/reset.py:109-111 | selecting by id the ids of a selection is that selection |
| ForeignKeys.ReturnsUnlessCycle | demo/reset.py:82-91 | the recursion returns from every table if and only if the tables can be ranked, if and only if no foreign keys run in a circle through two tables or more |
| ForeignKeys.ReturnsIff | demo/reset.py:82-97 | from a given table the recursion returns if and only if no walk down its child edges, table to other table, comes back to where it was |
| ForeignKeys.ReturningIsRanked | demo/reset.py:87-97 | over the tables it returns from, the depth of the recursion falls along every edge |
| ForeignKeys.TwoTablesForEver | demo/reset.py:90-91 | two tables that point at each other: the guard skips nothing and the recursion does not return |
| SidecarStore.Sidecar.StartReading | site/image-slot.js:172-173 | the read is started once |
| SidecarStore.Sidecar.Set | site/image-slot.js:243-252 | a set or clear is the machine's change step: entry, tombstone, and a save now or once the read is done |
| SidecarStore.Sidecar.OnReadSettled | site/image-slot.js:176-194 | the loop that merges the file under memory comes to the pointwise merge: an entry per id by set, inherited image, file or tombstone |
| SidecarStore.Sidecar.OnLoaded | site/image-slot.js:195 | the loaded mark is set after the merge, as a step of its own |
| SidecarStore.Sidecar.OnDeferredSave | site/image-slot.js:251 | each change made before the read saves once after it |
| SidecarStore.Sidecar.SaveNow | site/image-slot.js:222-230 | a save writes the whole store, or marks it dirty while one is in flight, or does nothing with no writer |
| SidecarStore.Sidecar.OnWriteSettled | site/image-slot.js:227-229 | the end of a write clears the mark and writes again if it was dirty |
| SidecarStore.Sidecar.FlushNow | site/image-slot.js:216-221 | the unload flush writes the store only after the read |
| SidecarStore.ChangesApply | site/image-slot.js:243-252 | over any run without the read, each id holds its last change, and a tombstone marks exactly the ids last cleared |
| SidecarStore.HydrationLosesNothing | site/image-slot.js:172-197 | over every interleaving with the one successful read, each id ends as its own last change and the file say: set, absent, inherited image or untouched |
| SidecarStore.LastChangeIs | site/image-slot.js:243-252 | the last change to an id is that of the last event that changes it, a set or a clear |
| SidecarStore.ImageIsInherited | site/image-slot.js:184-189 | over every such run: a slot framed before the read without an image of its own, and not changed after, has the image on disk, whether the file holds it as a string or in an object |
| SidecarStore.OwnChangesStand | site/image-slot.js:181-194 | an id never changed is as the file has it, one last set after the read or with an image of its own before it is as it was set, and one last cleared is gone |
| SidecarStore.HydrationCommutesIff | site/image-slot.js:181-189 | over runs: the same changes made before the read and after it leave the same entry if and only if the last is no framing without an image over an image on disk |
| SidecarStore.ClearedImageReturns | site/image-slot.js:184-189 | a slot cleared and then framed before the read has the file's image after it, and none where both came after the read |
| SidecarStore.NoWriteBeforeRead | site/image-slot.js:212-217 | no run hands the host a write before the read has settled |
| SidecarStore.WritesAreMoments | site/image-slot.js:220-227 | every snapshot written is the store at some moment of the run |
| SidecarStore.FlushWrites | site/image-slot.js:216-221 | the page going away writes the store as it is, if and only if the read has been merged and marked and there is a way to write |
| SidecarStore.EveryWriteIsRight | site/image-slot.js:248-251 | every snapshot written holds, for every id, what the changes made by then and the file say |
| SidecarStore.WritesKeepFileIff | site/image-slot.js:174-194 | a write keeps the file's untouched entries if and only if the read returned them or there are none |
| SidecarStore.FailedReadDropsTheFile | site/image-slot.js:174-194 | after a failed read, one slot set is one write that holds that slot alone |
| SidecarStore.StepKeepsSerialised | site/image-slot.js:199-230 | every event keeps: at most one save in flight, dirty only while saving, and no change without a snapshot or a save to come |
| SidecarStore.RunsKeepSerialised | site/image-slot.js:199-230 | every run keeps it from any such state |
| SidecarStore.SavesAreSerialised | site/image-slot.js:199-252 | in every state a page can reach, one save in flight and a dirty mark only while it is, however the read ended; and after a read that returned the file, no change without a snapshot or a save to come |
| SidecarStore.RunsKeepOneSave | site/image-slot.js:222-230 | every run keeps one save at a time, after a failed read too |
| SidecarStore.QuietMeansNothingInternal | site/image-slot.js:222-251 | the protocol is at rest exactly when no event of its own is possible |
| SidecarStore.SavesSettle | site/image-slot.js:222-251 | once changes stop, a bounded number of events brings it to rest with the last snapshot equal to the store |
| ReplaceMachine.Slot.Release | site/image-slot.js:959-967 | the mask comes off only with no encode pending and the image settled |
| ReplaceMachine.Slot.RenderContent | site/image-slot.js:1096-1172 | the content part of a render is the machine's render: what to show, mask, pending load, wiped image |
| ReplaceMachine.Slot.OnStoreNotice | site/image-slot.js:716-719 | a store notice renders a slot on the page and no other |
| ReplaceMachine.Slot.OnConnect | site/image-slot.js:705-730 | a slot put on the page subscribes and renders |
| ReplaceMachine.Slot.OnDisconnect | site/image-slot.js:732-733 | a slot taken off it unsubscribes and keeps its frame |
| ReplaceMachine.Slot.Ingest | site/image-slot.js:879-900 | an accepted drop is a new generation and masks a shown image |
| ReplaceMachine.Slot.OnEncoded | site/image-slot.js:903-916 | a finished encode commits in its own generation and does nothing in another |
| ReplaceMachine.Slot.OnEncodeFailed | site/image-slot.js:917-923 | a failed encode gives up its claim and lets a settled frame be shown |
| ReplaceMachine.Slot.OnSrcWritten | site/image-slot.js:847-853 | a write that changes `src`, an empty one over a missing one included, is a newer intent: new generation, dead claim cleared |
| ReplaceMachine.Slot.OnCreditWritten | site/image-slot.js:852 | a credit write renders |
| ReplaceMachine.Slot.OnImageSettled | site/image-slot.js:603-611 | a load or error ends the pending load and may take the mask off |
| ReplaceMachine.StepKeepsConsistent | site/image-slot.js:847-967 | every event keeps: on the page the frame shows what it should, and a mask is owed the end of the newest encode or of a load |
| ReplaceMachine.EveryRunIsConsistent | site/image-slot.js:847-967 | so it holds after every interleaving from a new element |
| ReplaceMachine.ShowsWhatItShould | site/image-slot.js:1096-1119 | a slot on the page shows the user's image if there is one, failing that what `src` names unless it needs a credit and there is none, and failing that nothing |
| ReplaceMachine.UnwrittenStays | site/image-slot.js:847-916 | `src`, the credit, the user's image and being on the page stay as they were while no event writes them |
| ReplaceMachine.LastWritten | site/image-slot.js:847-916 | and are as the last event that writes them wrote them |
| ReplaceMachine.MaskComesOffSettled | site/image-slot.js:946-967 | a step that takes the mask off leaves an empty frame, or the same image, settled, with no encode pending |
| ReplaceMachine.ReplacementIsMasked | site/image-slot.js:1126-1144 | a drop over a shown image and every change of a shown image leave the mask on; a wipe is remembered exactly when it was for want of a credit |
| ReplaceMachine.QuietMeansNothingInternal | site/image-slot.js:879-927 | the machine is at rest exactly when no encode or load is left |
| ReplaceMachine.SettlesUnmasked | site/image-slot.js:946-967 | letting encodes and loads settle ends, in a bounded number of events, unmasked and showing what it should |
| ReplaceMachine.GenerationCounts | site/image-slot.js:885-888 | over any run the generation is unchanged if and only if no newer drop or `src` write came |
| ReplaceMachine.EncodeCommitsIff | site/image-slot.js:904-913 | an encode is stored and shown if and only if nothing newer came before it finished, and otherwise changes nothing |
| ReplaceMachine.EmptySrcStopsTheEncode | site/image-slot.js:848-850 | an empty `src` over a missing one shows nothing new and still stops the encode of an earlier drop |
| ViewGeometry.Reframing.Clamp | site/image-slot.js:988-996 | the clamp, in place |
| ViewGeometry.Reframing.Pan | site/image-slot.js:661-668 | a pan is the clamped start plus the pointer's travel |
| ViewGeometry.Reframing.Wheel | site/image-slot.js:687-702 | a wheel step is the clamped zoom about the cursor, and nothing at either end of the range |
| ViewGeometry.Geom | site/image-slot.js:977-986 | there is a geometry exactly when the image has loaded and the slot has a box; it holds their sizes, and its base is the fit's |
| ViewGeometry.FitIs | site/image-slot.js:977-986 | at its base the image fills the frame on both axes, or goes into it on both, and does just that on one |
| ViewGeometry.ClampSIs | site/image-slot.js:232-233 | a scale in 1 to 5 stays, and another goes to the end it is past |
| ViewGeometry.ShownIs | site/image-slot.js:1030-1041 | a view shows the image at its base and scale, its centre that share of the frame from the frame's |
| ViewGeometry.Reframing.Grab | site/image-slot.js:637-648 | a pointer-down takes its grip on the image as the view shows it |
| ViewGeometry.Reframing.Resize | site/image-slot.js:649-659 | a corner drag, by the grip taken on the view it began with, is the clamped scale and the clamped centre that goes with it |
| ViewGeometry.ResizeComesTo | site/image-slot.js:646-662 | a drag comes to the scale asked for, or the end of 1 to 5 it is past, and to the view that leaves the opposite corner where it was, clamped so that no axis it overflows shows a gap, and as it is where it covers both |
| ViewGeometry.ClampAxis | site/image-slot.js:989-995 | on an axis: covers when it can, and is the nearest offset that does; centres when it cannot; idempotent |
| ViewGeometry.CoverLeavesNoGap | site/image-slot.js:977-996 | a clamped cover view at any scale from 1 to 5 leaves no part of the frame uncovered |
| ViewGeometry.ContainCoversOrCentres | site/image-slot.js:977-996 | a clamped contain view covers each axis it overflows and is centred on the rest |
| ViewGeometry.ClampIsIdempotent | site/image-slot.js:988-996 | clamping twice is clamping once |
| ViewGeometry.ZoomFixesTheCursor | site/image-slot.js:685-699 | before the clamp the view has the scale asked for, the image point under the cursor stays under it, and zooming back restores the view |
| ViewGeometry.ResizeFixesTheOppositeCorner | site/image-slot.js:633-656 | before the clamp, whatever the scale, the corner of the image opposite the one dragged is shown where it was |
| ViewGeometry.EdgesMove | site/image-slot.js:642-656 | on one axis, the far edge stays and the near one is the scale's share of the diagonal from it |
| ViewGeometry.DraggedCornerFollowsThePointer | site/image-slot.js:646-652 | at the scale asked for, the corner dragged is shown at the point of the image's diagonal nearest the pointer |
| HeaderBinding.IndexHeaders | app/baseline/columns.py:178-180 | the index holds each normal form's first header and nothing else |
| HeaderBinding.PinOverrides | app/baseline/columns.py:184-196 | the overrides loop is the recursion on overrides, with its two errors |
| HeaderBinding.Detect | app/baseline/columns.py:203-208 | one field's loop finds the first candidate to be had |
| HeaderBinding.AutoDetect | app/baseline/columns.py:198-208 | the automatic pass is the recursion on fields, and its set is what it bound |
| HeaderBinding.Missing | app/baseline/columns.py:210 | the required fields left unbound, in order |
| HeaderBinding.Resolve | app/baseline/columns.py:162-219 | the three loops together come to `Binding` |
| HeaderBinding.BindingIsSound | app/baseline/columns.py:169-219 | required fields bound, pins held, a field automatic exactly where no override names it, no automatic header shared, and a field left out only when every candidate is absent or taken |
| HeaderBinding.BindingIsGreedy | app/baseline/columns.py:199-208 | every field not pinned has the first candidate in listed order not pinned or bound to an earlier field |
| HeaderBinding.CanonicalThenSynonyms | app/baseline/columns.py:199-208 | a field not pinned has the header of its own spelling unless there is none or it was pinned or bound earlier; failing that, that of its first synonym as listed that was to be had; it is unbound if and only if neither it nor any synonym was |
| HeaderBinding.FirstIsFirst | app/baseline/columns.py:178-180 | of headers of one normal form the first in the file stands for them |
| HeaderBinding.NormalizeIs | app/baseline/columns.py:118-120 | spelling, character by character: letters in lower case, digits, and nothing else |
| HeaderBinding.BindingFails | app/baseline/columns.py:184-219 | a binding fails at the first override of an unknown field or an absent column, saying which; and if none is, if and only if a required field is unbound, naming those |
| HeaderBinding.UnboundInOrder | app/baseline/columns.py:210 | the missing fields are in the order they were asked for |
| HeaderBinding.PinningChangesNothing | app/baseline/columns.py:182-208 | turning any automatic bindings into overrides leaves the mapping as it was |
| HeaderBinding.PinsAreStable | app/baseline/columns.py:198-208 | the automatic pass gives the same mapping from any part of its own result |
| HeaderBinding.AutoBindExtends | app/baseline/columns.py:198-208 | the pass keeps what is bound and gives each field a header of its own |
| HeaderBinding.PickIsFree | app/baseline/columns.py:203-208 | the header picked is free, and every candidate before it was absent or taken |
| HeaderBinding.RespellingBindsTheSameColumns | app/baseline/columns.py:118-120 | headers and overrides written in other spellings bind the same columns, and fail in the same way |
| HeaderBinding.ColumnIs | app/baseline/columns.py:178-180 | the column a header stands for is the first of its normal form |
| BaselineLoading.Bump | app/baseline/loaders.py:221-223 | one row adds one to each field it carries and to no other |
| BaselineLoading.Load | app/baseline/loaders.py:236-284 | the loop raises if and only if some line does; otherwise it gives the parsed rows, the issues and, field by field, how many rows carry it |
| BaselineLoading.LoadActivity | app/baseline/loaders.py:226-286 | the activity load is lost if and only if some line with a driver and a completion time has an offset on one shift time and none on the other; otherwise every line is a row or an issue |
| BaselineLoading.LoadInvoices | app/baseline/loaders.py:289-325 | the invoice load never raises, and every line is a row or an issue |
| BaselineLoading.ActivityRowIs | app/baseline/loaders.py:237-281 | an activity row holds its own record's cells, each from the column bound to its field, blanks around it aside, as it parses |
| BaselineLoading.ShiftEndIs | app/baseline/loaders.py:253-266 | its shift's end is its own cell's time, a day later for a clock time before the start |
| BaselineLoading.ActivityIssueIs | app/baseline/loaders.py:241-251 | a record is an issue for want of a driver, of a completion time, or of one that parses, in that order |
| BaselineLoading.InvoiceRowIs | app/baseline/loaders.py:299-326 | an invoice row holds its own record's cells |
| BaselineLoading.InvoiceIssueIs | app/baseline/loaders.py:300-309 | a record is an issue for want of an amount, or of one that parses |
| BaselineLoading.ActivityCarries | app/baseline/loaders.py:279-284 | a row carries a text field if and only if its record has the text, and a time or number if and only if its record's parses |
| BaselineLoading.InvoiceCarries | app/baseline/loaders.py:324-327 | so does an invoice |
| BaselineLoading.LineRaisesIff | app/baseline/loaders.py:253-266 | a line raises exactly on such a shift |
| BaselineLoading.LoadRaisesIff | app/baseline/loaders.py:236-266 | so does the load, exactly when some line does |
| BaselineLoading.OneLineLosesTheFile | app/baseline/loaders.py:260-265 | a zoned ISO shift start with a clock-time end, anywhere in a file, loses the file |
| BaselineLoading.LoadingLosesNothing | app/baseline/loaders.py:236-284 | in a load that completes, each record is one row or one issue, never both, under its own number and in file order, and nothing else is |
| BaselineLoading.NumberIsTheLineIff | app/baseline/loaders.py:212-236 | a record is reported under its place among the records, which is the line of the file it begins on if and only if no blank line and no line break within a cell comes before it, and otherwise less |
| BaselineLoading.BothLoadersNumberTheirLines | app/baseline/loaders.py:299-319 | each loader's row or issue bears the number its record was read under |
| BaselineLoading.CoverageIsAShare | app/baseline/loaders.py:192-203 | coverage is in [0, 1], 1 exactly when every row carries the field, 0 exactly when none does, and None exactly when the column is unmapped |
| BaselineLoading.CoverageIsTheRows | app/baseline/loaders.py:192-203 | coverage is how many of the rows carry the field over how many there are, and nothing of no rows |
| BaselineLoading.NoFieldUncounted | app/baseline/loaders.py:282-327 | every field a row can carry is counted |
| BaselineLoading.UnmappedIsEmpty | app/baseline/loaders.py:268-323 | a field with no column is carried by no row of either export |
| BaselineLoading.CompleteIff | app/baseline/metrics.py:479-488 | unrounded completeness is in [0, 100] and is 100 if and only if neither file has an issue |
| BaselineLoading.CompletenessIsTheShare | app/baseline/metrics.py:470-490 | completeness is the rows that parsed, of both files, in per cent of all that were read, and none when none were |
| BaselineLoading.LastsUnderADayIff | app/baseline/loaders.py:253-266 | a loaded shift lasts from nothing to under a day if and only if both its times are clock times, or both are dated, compare and are that far apart; a date on one end alone, away from the placeholder day, never makes one |
| EngagedHours.DriverDays | app/baseline/metrics.py:94-98 | the grouping loop gives each driver-day its rows in order, days by first appearance |
| EngagedHours.SameDriverDayIff | app/baseline/metrics.py:94-98 | two rows are of one driver-day if and only if they are one driver's and completed on one date, each by its own clock |
| EngagedHours.EngagedHoursOf | app/baseline/metrics.py:101-158 | grouping and accumulating come to `Hours`, raising included |
| EngagedHours.Accumulate | app/baseline/metrics.py:113-144 | the accumulation loop comes to the days' shares added up, or raises at the first that does |
| EngagedHours.DayRaisesIff | app/baseline/metrics.py:118-140 | a driver-day raises if and only if it has both clock-ins and clock-outs of both kinds, or has neither clocked nor stated hours and completions of both kinds |
| EngagedHours.HoursRaiseIff | app/baseline/metrics.py:117-144 | engaged hours raise if and only if some driver-day does |
| EngagedHours.MixedDropsLoseTheHours | app/baseline/metrics.py:138-140 | one driver-day with nothing but completions of both kinds loses the hours of every driver |
| EngagedHours.OneKindIsSafe | app/baseline/loaders.py:102-123 | in a file whose own completion and shift times are of one kind, neither the load nor the hours raise |
| Timestamps.MaxIs | app/baseline/metrics.py:121 | `max` raises exactly when some time does not compare with the first, and otherwise is the latest |
| Timestamps.MinIs | app/baseline/metrics.py:121 | so does `min`, for the earliest |
| Timestamps.BetweenIs | app/baseline/metrics.py:121 | a span raises exactly when two of its times do not compare, and otherwise is the longest any end is after any start |
| Timestamps.BetweenByElements | app/baseline/metrics.py:118-121 | only which times there are matters to a span |
| Timestamps.LessIs | app/baseline/loaders.py:260-265 | two times with offsets compare and subtract as instants, two without as clock readings, and a mixed pair raises |
| Timestamps.DateIs | app/baseline/loaders.py:161-163 | a time's date is the day its own clock is in |
| EngagedHours.RowOrderDoesNotMatter | app/baseline/metrics.py:101-158 | the total, coverage and source, and whether it raises, are the same for every permutation of the rows |
| EngagedHours.ReportsTheWeakest | app/baseline/metrics.py:104-107 | the source reported was used, and no weaker one was |
| EngagedHours.BestSourceWins | app/baseline/metrics.py:117-144 | each day takes the clock if it has one, then stated hours, then the span of its drops, told by the rows alone; the clock comes to the longest any clock-out is after any clock-in, and the drops to the longest any is after another |
| EngagedHours.RepeatedTotalCountsOnce | app/baseline/metrics.py:129-132 | on a day with no clock, one total stated by every row that states any is the day's hours, once |
| EngagedHours.DifferentTotalsAddUp | app/baseline/metrics.py:129-132 | two different totals, and the day's hours are all that its rows state, added up |
| EngagedHours.OneMoreStated | app/baseline/metrics.py:129-132 | that sum grows by what one more row states |
| EngagedHours.OneDayIsItsShare | app/baseline/metrics.py:101-158 | the hours of rows of one driver-day are its share, of one day covered of one |
| EngagedHours.RepeatedDayCountsOnce | app/baseline/metrics.py:129-158 | so a day's total repeated on each of its drops counts once |
| EngagedHours.DifferentDayAddsUp | app/baseline/metrics.py:129-158 | and different ones all count |
| EngagedHours.HoursAdd | app/baseline/metrics.py:113-158 | rows of other driver-days add their hours and the days they cover, and raise if and only if either does |
| EngagedHours.DriverDaysAreDistinct | app/baseline/metrics.py:94-98 | the driver-days reported are how many different ones the rows have |
| EngagedHours.SpanFallbackIsLower | app/baseline/metrics.py:138-144 | taking the clock and stated hours from any days whose drops fell within the clock never makes it raise, raises the total, nor lowers drops per hour |
| ClientIp.ChainGrows | app/client_ip.py:106 | through any number of proxies the entries are the caller's own followed by the peers the proxies saw |
| ClientIp.EntriesSeesAppended | app/client_ip.py:106 | splitting, stripping and dropping blanks reads one more entry per append, whatever text came before |
| ClientIp.EntriesAre | app/client_ip.py:106 | the entries are the header's parts between commas, stripped, but for the blank ones |
| ClientIp.HeaderHasNoSay | app/client_ip.py:95-113 | behind at least as many proxies as are trusted, the answer is what a proxy wrote, for any header text |
| ClientIp.FirstProxySawTheCaller | app/client_ip.py:86-113 | with the count right, the caller is the address the first proxy saw |
| ClientIp.ConnectionIsTheFallback | app/client_ip.py:86-113 | the TCP peer is the caller where no proxy is trusted, no header came, it is shorter than what is trusted, or what stands there is no address; and "unknown" where there is no peer |
| ClientIp.IndependentIff | app/client_ip.py:106-113 | no header changes the answer if and only if the count is no more than the proxies there are |
| ClientIp.CallerChooses | app/api/internal_routes.py:315-318 | with a greater count there is a header naming any address |
| ClientIp.LinesHaveNoSay | app/client_ip.py:88-113 | behind at least as many proxies that extend the first line as are trusted, nothing in any line the caller sent has a say |
| ClientIp.IndependentOfLinesIff | app/api/internal_routes.py:336-340 | no lines the caller can send change the answer if and only if the count is no more than the proxies that extend the first line |
| ClientIp.CountingAllIsSafeIff | app/api/internal_routes.py:312-340 | the count of all the proxies is safe if and only if every one extends the first line |
| ClientIp.ChainAgrees | app/api/internal_routes.py:333-357 | each chain entry is the answer for the count it suggests when it is an address, and no other count finds one |
| ClientIp.ChainIs | app/api/internal_routes.py:350-357 | the chain lists the entries from the right, each with its place counted from there |
| RateLimit.Limiter.Incr | app/rate_limit.py:74 | INCR: one more on a live key, one on a missing or lapsed key, with no expiry |
| RateLimit.Limiter.ExpireIfNone | app/rate_limit.py:75 | EXPIRE NX: an expiry only where there is none |
| RateLimit.Limiter.Dispatch | app/rate_limit.py:65-87 | a request is the trace's step and its verdict, and never leaves a key without an expiry |
| RateLimit.ExemptPass | app/rate_limit.py:56-58 | the five exempt paths pass and are not counted; any other request is, passes up to the limit, and past it is told to wait out the window |
| RateLimit.EveryTraceTallies | app/rate_limit.py:73-78 | after every trace the counter tells who was let through since it was made, in it and around it |
| RateLimit.AdmittedAre | app/rate_limit.py:65-87 | who is counted as let through: the caller's own counted requests of that time, each answered so when it came |
| RateLimit.AdmittedIsBounded | app/rate_limit.py:73-87 | at most 2M - 1 in any window's length of time |
| RateLimit.AdmittedPerLife | app/rate_limit.py:75-78 | at most M in one life of the key |
| RateLimit.RejectedOnlyAfterM | app/rate_limit.py:78-85 | a rejection means M were let through in the window's length up to it |
| RateLimit.BoundIsAttained | app/rate_limit.py:73-87 | an ordered trace that gets 2M - 1 through exists for every limit |
| RateLimit.RetryAfterIsEnough | app/rate_limit.py:81-85 | a rejected caller silent for the advertised time is admitted |
| RateLimit.OwnDecides | app/rate_limit.py:61-62 | a caller's key depends on that caller's own requests alone |
| RateLimit.CallersAreIndependent | app/rate_limit.py:61-76 | histories alike in one caller's requests answer its next one alike |
| RateLimit.HeadersBuyNothing | app/rate_limit.py:70-76 | behind proxies counted right, no choice of headers gets a sender more than the bound |
| RateLimit.AdmittedFromAre | app/rate_limit.py:65-87 | and the requests really sent from one address, whatever their headers say |
| PublicOrders.Api.ExistingOrder | app/api/public_api_routes.py:206-222 | the order under the client's own reference and this source system, or none |
| PublicOrders.Api.SubmitOrder | app/api/public_api_routes.py:61-154 | each piece of a POST between awaits is the machine's step |
| PublicOrders.Api.GetOrder | app/api/public_api_routes.py:157-174 | a GET answers with the order or 404 |
| PublicOrders.Api.CancelOrder | app/api/public_api_routes.py:177-197 | each piece of a DELETE is the machine's step, its write conditional on the status at that moment |
| PublicOrders.StepKeeps | app/api/public_api_routes.py:84-154 | every event keeps: keys unique, requests name their own orders, one creator per order, one event per creator that announced |
| PublicOrders.RunsKeep | app/api/public_api_routes.py:84-154 | every run keeps it |
| PublicOrders.OneOrderPerReference | app/ingestion/service.py:721-738 | over every interleaving each reference has at most one order, and every answer that names an order names it |
| PublicOrders.OneClaimOneEvent | app/api/public_api_routes.py:137-154 | at most one `duplicate: false` and one event per order ever; an order made here has its event if and only if its maker has got past its insert, and its claim if and only if its maker has answered, whatever other requests do |
| PublicOrders.OrderWithoutEvent | app/api/public_api_routes.py:111-145 | a POST that dies right after its insert, over any table without the reference, leaves its order and no event |
| PublicOrders.KeysStay | app/api/public_api_routes.py:177-197 | no run frees a reference, cancellation included |
| PublicOrders.RetriesAnswerTheSame | app/api/public_api_routes.py:68-92 | a POST of a reference that has an order answers with it and changes nothing else, whatever became of it |
| PublicOrders.AnswersTellTheTable | app/api/public_api_routes.py:111-185 | over every run: a GET answers with the order under the caller's own reference or not found, a DELETE of none not found, a POST whose addresses name no place is refused; none changes the table |
| PublicOrders.DeleteByStatus | app/orders/cancellation.py:40-45 | one DELETE on its own, status by status: received, classified, held and queued are cancelled and answered with, cancelled is answered with, and any other is refused |
| PublicOrders.DeleteMeansCancelled | app/api/public_api_routes.py:185-197 | a DELETE that answered with an order has it cancelled, then and for good |
| PublicOrders.CancelledDeleteIsRefusedIff | app/api/public_api_routes.py:185-197 | over every run: a DELETE that answers when its order is cancelled answers 409 if and only if it had read the order while it could still be cancelled |
| PublicOrders.WaitingReadInTime | app/orders/cancellation.py:87-97 | a DELETE waits to write only after such a read |
| PublicOrders.LateCancelIsRefusedIff | app/orders/cancellation.py:87-97 | over every run, whatever became of the order: a DELETE is refused if and only if the order can no longer be cancelled, unless it is cancelled and the DELETE had not read it before; it cancels, and is answered with, exactly an order it had read in time that can still be |
| PublicOrders.RacingDeleteIsRefused | app/api/public_api_routes.py:185-187 | from a fresh table, two DELETEs of one order a client may cancel can end with the order cancelled and the second refused |
| ManifestUpload.SubmitBatch | app/api/client_routes.py:1060-1131 | one result per row at its index, unless a row finds the shop missing |
| ManifestUpload.AddLines | app/api/client_routes.py:1661-1670 | batch indexes go back to the file's lines |
| ManifestUpload.GroupByDeadline | app/api/client_routes.py:1634-1636 | rows by their own or the default deadline, in order, deadlines by first appearance |
| ManifestUpload.SubmitChunk | app/api/client_routes.py:1640-1670 | one call's results follow those before it |
| ManifestUpload.SubmitGroup | app/api/client_routes.py:1639-1670 | a group goes out in its chunks, or is cut short at the first call that finds the shop missing |
| ManifestUpload.SubmitAll | app/api/client_routes.py:1638-1670 | so do all groups in turn |
| ManifestUpload.Upload | app/api/client_routes.py:1617-1679 | an upload makes exactly the planned calls and reports their results, or a prefix of them ending at a missing shop; every call it makes is of 1 to 25 rows, each for the call's deadline or, having none, the default |
| ManifestUpload.PlanIsExact | app/api/client_routes.py:1622-1645 | every parsed row is submitted exactly once, in a call for its own deadline or the default if it has none, in calls of 1 to 25 rows, in file order per deadline |
| ManifestUpload.GroupIs | app/api/client_routes.py:1634-1636 | a group grows by one more row for its deadline, and by no other |
| ManifestUpload.FirstAppearance | app/api/client_routes.py:1634-1638 | each deadline is some row's, and deadlines come in the order their first rows do |
| ManifestUpload.ChunksAreFull | app/api/client_routes.py:1639-1640 | all of a deadline's calls but its last are of 25 rows |
| ManifestUpload.EveryRowIsSent | app/api/client_routes.py:1638-1658 | as many rows are sent as were parsed |
| ManifestUpload.PartsAreComplete | app/api/client_routes.py:1617-1670 | every parse error and every submitted row has its result under its own line |
| ManifestUpload.PartsAccepted | app/api/client_routes.py:1673 | what is counted as accepted is the rows answered with an order, a replay of an order already there included |
| ManifestUpload.SortSorts | app/api/client_routes.py:1672 | the sort orders by line and permutes |
| ManifestUpload.SortIsStable | app/api/client_routes.py:1672 | results of one line keep their order |
| ManifestUpload.OfLineIs | app/api/client_routes.py:1672 | the results of one line, one more result at a time |
| ManifestUpload.ReportIsComplete | app/api/client_routes.py:1672-1679 | the report is a line-sorted permutation of all the results, one per error and row, with accepted and failed adding up |
| WorkbookImport.SetDefault | scripts/import_experiment_0.py:318 | one `setdefault` numbers by first appearance, and the number it gives is for good |
| WorkbookImport.NumbersAreOwn | scripts/import_experiment_0.py:318 | every element has a number of its own, below how many there are |
| WorkbookImport.NoNumberIsSkipped | scripts/import_experiment_0.py:318 | the numbers are dense |
| WorkbookImport.NumbersStay | scripts/import_experiment_0.py:318 | numbers once given stay, and what is first seen later gets a later one |
| WorkbookImport.PlaceSites | scripts/import_experiment_0.py:264-292 | each site id is where its last located site is, with the point of that location |
| WorkbookImport.OnePointPerLocation | scripts/import_experiment_0.py:287-290 | two sites have one handoff point if and only if they are at one location |
| WorkbookImport.PointsAre | scripts/import_experiment_0.py:287-292 | there is a handoff point for each place some site is at, and for no other |
| WorkbookImport.PairAddresses | scripts/import_experiment_0.py:297-307 | the pairs are exactly those a site declares with a business at another location, so none is reflexive |
| WorkbookImport.IndexBusinesses | scripts/import_experiment_0.py:297 | a business is its last site |
| WorkbookImport.IndexAccounts | scripts/import_experiment_0.py:310 | an account is its last site |
| WorkbookImport.ImportRow | scripts/import_experiment_0.py:317-338 | a row's driver number, route, place on it, kind and point |
| WorkbookImport.Write | scripts/import_experiment_0.py:330-339 | the report's counter stays the count of the stops written, tag by tag |
| WorkbookImport.ImportDeliveries | scripts/import_experiment_0.py:316-339 | every row becomes its one stop, in file order, and unparsed times are counted |
| WorkbookImport.CountSite | scripts/import_experiment_0.py:349-360 | a site's stops are as many as it counted, one after another |
| WorkbookImport.ImportCounts | scripts/import_experiment_0.py:342-361 | the counted sites' stops follow in turn, and the position is their total |
| WorkbookImport.ImportWorkbook | scripts/import_experiment_0.py:234-372 | the import writes exactly the row stops and then the counted stops, and the report says so |
| WorkbookImport.RunNameTells | scripts/import_experiment_0.py:319 | a made-up route name determines its day and its driver's number |
| WorkbookImport.SameRouteIff | scripts/import_experiment_0.py:318-323 | two rows share a route if and only if they are of one run: one manifest, or neither and one day and driver, or a manifest that is the other's made-up name |
| WorkbookImport.SequencesGoUp | scripts/import_experiment_0.py:324 | along a route sequence numbers go up in file order |
| WorkbookImport.SequencesSkipNone | scripts/import_experiment_0.py:324 | and leave none out, from 1 |
| WorkbookImport.ImportConserves | scripts/import_experiment_0.py:314-361 | stops written are the rows plus the sheet's own counts, added up, of the sites whose account has no row, a negative one adding nothing; and the counter agrees source by source |
| WorkbookImport.OneMoreCount | scripts/import_experiment_0.py:342-361 | one more site adds its own count, if it is positive and no row bears its account |
| WorkbookImport.SiteAddsItsCount | scripts/import_experiment_0.py:349-361 | a site adds as many stops as it counts, none for a negative count, each of its kind and at its point |
| WorkbookImport.OneMoreSite | scripts/import_experiment_0.py:348-361 | sites are written one after another |
| WorkbookImport.CountedInOrder | scripts/import_experiment_0.py:343 | and in the sheet's order |
| WorkbookImport.TaggedIs | scripts/import_experiment_0.py:339-360 | the counter has, per source and kind, how many stops there are of it |
| WorkbookImport.UnparsedIs | scripts/import_experiment_0.py:325-328 | the rows counted as unparsed are those that lack either time |
| WorkbookImport.AccountIs | scripts/import_experiment_0.py:310 | an account is the last site that bears it |
| WorkbookImport.BusinessIs | scripts/import_experiment_0.py:297 | a business is the last site of that name |
| WorkbookImport.LocationIs | scripts/import_experiment_0.py:264-274 | a site id is where its last site is whose address names a place |
| WorkbookImport.RowStopTells | scripts/import_experiment_0.py:317-338 | a row's stop has the kind and the handoff point of the last site of its account, and is a dropoff at no point where no site bears it |
| WorkbookImport.DriverNumberIs | scripts/import_experiment_0.py:318-337 | a driver goes by one more than how many drivers came before the first row of theirs |
| WorkbookImport.RunNameIs | scripts/import_experiment_0.py:319 | a run with no manifest is called by its day and its driver's number in decimal |
| WorkbookImport.CountedAreCounts | scripts/import_experiment_0.py:348-356 | counted stops are numbered 1 and up along the one route |
| WorkbookImport.CountedIff | scripts/import_experiment_0.py:342-343 | a site is counted if and only if it has a count and no row bears its account |
| WorkbookImport.RideAlongIsApart | scripts/import_experiment_0.py:345 | the counts' route is no row's route |
| LikeSearch.EscapesEachOnce | app/api/client_routes.py:321-328 | the three replacements in turn escape each character once |
| LikeSearch.BackslashLastAgreesIff | app/api/client_routes.py:325-326 | escaping the backslash last would agree if and only if there is no `%` or `_` to escape |
| LikeSearch.EscapedIsLiteral | app/api/client_routes.py:321-328 | an escaped term in a pattern matches itself and nothing else |
| LikeSearch.PercentsContain | app/api/client_routes.py:621 | between two percents, an escaped term matches exactly the texts that contain it |
| LikeSearch.FoldEscaped | app/api/client_routes.py:621-628 | folding case and escaping commute |
| LikeSearch.MapIs | app/api/client_routes.py:621-628 | folding goes character by character |
| LikeSearch.PatternFindsTerm | app/api/client_routes.py:621-628 | a column matches if and only if, case aside, it contains the term |
| LikeSearch.SearchMeansContains | app/api/client_routes.py:620-630 | the search keeps an order if and only if the query is blank or some column contains it, stripped and case aside |
| Strings.StripIs | app/api/client_routes.py:620 | what is stripped off either end is blank, and what is left begins and ends with something |
| Strings.SpacesAre | app/api/client_routes.py:620 | which characters are blank, in Latin-1 |
| ClientRates.RateCard.Upsert | app/api/admin_routes.py:1986-2022 | an unknown tier changes nothing; otherwise a version beginning now is written, or corrected if one began at this instant |
| ClientRates.TiersAre | app/api/admin_routes.py:175 | the tiers a PUT is accepted for |
| ClientRates.ListRates | app/api/admin_routes.py:1944-1946 | the de-duplicating loop gives every tier the version in force, and lists no other tier |
| ClientRates.InForceIsLatest | app/api/admin_routes.py:1936-1943 | the version in force is the latest not in the future, and none exactly when there is none |
| ClientRates.TierCountIsTheList | app/api/admin_routes.py:1878-1893 | the client list's tier count is the number of rates the rate list returns |
| ClientRates.PutRows | app/models/client_rate.py:39-47 | a PUT keeps versions unique and every other version as it was |
| ClientRates.PutChangesOnlyFromNow | app/api/admin_routes.py:1976-1984 | a PUT changes the answer for its own tier from its instant until the next version, and no other answer |
| ClientRates.HistoryIsKept | app/api/admin_routes.py:1976-1984 | after any number of PUTs the rate in force at any instant is the last that had been PUT by then |
| HubCalendar.HubDays | app/hub_calendar.py:42-57 | the loop terminates with the consecutive days from that of `since` up to the last that begins before `until` |
| HubCalendar.MonthIsThere | app/hub_calendar.py:60-64 | a month has bounds if and only if it is one of the years 1 to 9999 and not the last |
| HubCalendar.EachInstantOnce | app/hub_calendar.py:42-57 | an instant of the period lies in exactly one day returned |
| HubCalendar.ReturnedIffOverlaps | app/hub_calendar.py:43-44 | a local day is returned if and only if it overlaps the period |
| HubCalendar.DaysTile | app/hub_calendar.py:42-57 | the days are contiguous, tile the period and overlap it, and their lengths add up, whatever the length of a day, a skipped one included |
| HubCalendar.FollowingMonth | app/hub_calendar.py:63 | the first of the following month is as many days on as the month has, year ends and leap years included |
| HubCalendar.MonthLengths | app/hub_calendar.py:60-64 | how long each month is |
| HubCalendar.OrdinalsStart | app/hub_calendar.py:60-64 | days are numbered from the first of January of the year 1 |
| HubCalendar.OrdinalsGoOn | app/hub_calendar.py:60-64 | and one after another within a month |
| HubCalendar.WholeDays | app/hub_calendar.py:36-57 | over a period of whole days, exactly those days, if and only if the zone skips neither the first nor the last |
| HubCalendar.WholeDaysSpan | app/hub_calendar.py:36-57 | skipped days or none, the days returned run from the start of such a period to its end and add up to its length |
| HubCalendar.MonthSpan | app/hub_calendar.py:60-64 | a month spans its number of days |
| HubCalendar.MonthsAbut | app/hub_calendar.py:60-64 | the next month, year ends included, begins where a month ends |
| HubCalendar.MonthIsItsDays | app/hub_calendar.py:42-64 | the days of a month's bounds are that month's days if and only if the zone skips neither its first nor its last, and in any case span it |
| HubCalendar.ZonesThatKeep | app/hub_calendar.py:67-74 | clocks that keep what is assumed of a zone: one that never changes, and one that skips a day |

## Left out

- Import: reading the workbook's sheets, the facts set on a location, the check for an earlier import, tiers, and counts the report takes of sites and weights. A stop's pieces and times are not carried, and the record ids the database draws are numbers here.
- BaselineLoading.Load: reading the CSV itself but for which lines it skips or joins, and the text of an issue's reason.
- The other baseline metrics of `app/baseline/metrics.py` but completeness, which are counts and ratios over the same rows.
- The order's page of stops (`_stop_facts`), portal forms, authentication, webhooks, geocoding, pricing and everything the order API calls inside ingestion but its lookup, its resolution of addresses and its insert.
- Floating-point rounding: hours, offsets and scales are reals, so row-order independence of hours is of the exact total.
- Parsing of timestamps and numbers, which are parameters (a parsed time may carry an offset or not), and of uploaded files, which arrive parsed; how many rows a body may hold is checked only as the call size proved.
- Time zones: two functions, of which only that no day begins before the one it follows and that an instant falls in its own day is assumed; a zone that sets its clock back across midnight, so that a date comes twice, is outside the proofs. `hub_days` near year 9999, where dates run out, is not modelled.
- Case beyond ASCII in headers; the synonym table is a parameter. Case folding in the search is any folding that leaves the metacharacters alone, character by character.
- Reset: the count before it, the dry run and the tables without an `id` column. Ids are unique in their table and every foreign key refers to `id`.
- CascadeDelete.Session.Delete: a null action or cascade set in the schema itself is not modelled.
- CascadeDelete.Session.DeleteRows: what a refused cascade had deleted by then is not stated, since the reset undoes it.
- Sidecar: a `null` or empty-string entry in the file or a value with an empty image, the entries' other properties, and the sharing of one value object by the store and its caller. Whether the host offers a writer is fixed for a run; the original looks each time.
- Sidecar: what the host does with a write. The proofs are about the order of the snapshots handed over.
- Replace machine: the drawing, the editing mode and the error text; a stored value that is no data URL counts as no image. The browser's `complete` flag may lag behind an assignment and catches up in a step of its own.
- ViewGeometry.Reframing.Resize: the frame's size is taken not to change during a drag; the original measures the drag by the box at its start and the clamp by the box at each move. The length of the diagonal is given, being a square root.
- Redis: a key is gone from the very tick it is due; the two commands run as one transaction, which is one step here. An unreachable Redis, which fails the request, is not modelled.
- Rate limit: the window and the limit do not change during a trace, and the clock does not run backwards.
- ClientIp: the test for an address is a parameter. Which line of several the web framework hands over is not in this repository: the proofs about lines take it to be the first, those about one header text hold of whatever text is handed over.
- PublicOrders.OneClaimOneEvent: a request may die at any await, and an answer that fails after the publish is such a death; how a request dies is not modelled.
- PublicOrders: a run holds the order API's requests and nothing else, so no order is deleted in one and the winner of an insert is there when the loser reads again; the demo reset, which deletes orders, is `CascadeDelete`, and `KeysStay` says nothing across one. A generic database error ends a request and is a death too. Other intake paths write under their own source system.
- Upload: each row's outcome is given by a function of how many rows went before it; logging, the reply's other fields and a client that is not approved are left out. The refusals a batch makes before its first row are too.
- ClientRates.ListRates: takes the query's answer as any list with each tier's latest version first, which is what its ordering gives; the order of tiers in the reply is not modelled.
