# Issue board core, modelled in Dafny

This project models the state logic of a React Kanban issue board. Issues sit
in three columns: Backlog, In Progress and Done. A user can do four things:

- move an issue to the adjacent column with the card buttons;
- drag it within a column or across columns;
- filter the board by title/tag search, assignee and severity;
- open an issue's detail page, mark the issue as resolved, and undo that.

A shared store holds:

- the issue list;
- a list of recently accessed ids, bounded and de-duplicated;
- the polling interval;
- the state of a poll cycle that replaces the list wholesale.

A sidebar lists the recent issues and remembers whether it is open.

Modules (one per file):

- `Common` (common.dfy): `Option`, and the JavaScript array operations the code relies on:
  - `indexOf`;
  - `splice` for removal and insertion (an insertion start past the end appends);
  - `filter(y => y !== x)`;
  - `Array.from(new Set(...))`;
  - the subsequence relation used to state "keeps the order".
- `Issues` (issues.dfy): the `Issue` record, `Partial<Issue>` patches and their `{ ...issue, ...patch }` overlay, the status filter, and `find`/`findIndex` by id.
  - Status is a plain string. The list arrives through JSON casts, so nothing makes it one of the three columns, and every comparison is exact string equality.
- `IssueCard` (issue_card.dfy): the move-button guards and the avatar initials.
- `MoveEngine` (move_engine.dfy): the button move `moveIssue`, the drag-and-drop transition `onDragEnd`, the `LastAction` undo record, and undo.
  - `onDragEnd` is specified by the function `DropResult`. The method `OnDragEnd` has the source's two rebuilding loops and is proved equal to it.
  - Lemmas state what each branch does to the list.
  - Methods apply the moves and undo to the store.
- `BoardView` (board_view.dfy): the `processedIssues` filter, the three display columns and the assignee option list.
- `IssuesContext` (issues_context.dfy): `updateIssue`, `addToRecentlyAccessed`, and the class `IssuesStore`. The class holds the provider's state and its transitions: set, update, undo, add-recent, restore-from-storage, the polling effect's start and teardown, and the two halves of a poll cycle.
- `Settings` (settings.dfy): the polling-interval clamp and its display in seconds.
- `IssueDetail` (issue_detail.dfy): the detail page's lookup, its visit effect on the recents, "Mark as Resolved" and its undo.
- `RecentSidebar` (recent_sidebar.dfy): resolving recent ids to issues, the rendered state, and the class `Sidebar` with its open flag and the stored value of that flag.

The model follows the code:

- **No role check.** No move reads the user.
- **No guard in `moveIssue`.** It dereferences `find(...)!` and indexes `columns[newIndex]` unchecked. The model makes the first issue carrying the id, and the target index being in [0, 2], a precondition. `IssueCard`'s guards discharge it (`MoveEngine.EnabledButtonAllowsMove`).
- **`destination.index` names a slot in the filtered display column.** The code applies it to the unfiltered column, and so does the model. Every positional property is stated against the unfiltered column.
- **A cross-column drop loses off-column issues.** It rebuilds the list column by column, Backlog, In Progress, Done, so issues whose status is none of the three are dropped.

## Model

| member | source | states |
|---|---|---|
| Common.IndexOf | src/components/IssueCard/IssueCard.tsx:17 | `columns.indexOf`: -1 exactly when absent, otherwise the first index holding the value |
| Common.RemoveAt | src/components/IssueBoard/IssueBoard.tsx:106 | `splice(d, 1)`: one shorter, prefix kept, suffix shifted left, multiset loses exactly the removed element |
| Common.InsertAt | src/components/IssueBoard/IssueBoard.tsx:110 | `splice(k, 0, x)`: x lands at min(k, length); removing it there gives back the original; multiset gains exactly x |
| Common.Without | src/context/IssuesContext.tsx:132 | `filter(id => id !== issueId)`: the id is gone, every other element stays, order is kept, no duplicates are introduced, unchanged when the id is absent |
| Common.WithoutMultiplicity | src/context/IssuesContext.tsx:132 | the filter keeps every copy of every other element and none of the removed one |
| Common.Dedup | src/components/IssueBoard/IssueBoard.tsx:187 | `Array.from(new Set(s))`: no duplicates, same elements, ordered by first occurrence |
| Issues.Overlay | src/context/IssuesContext.tsx:84 | `{ ...issue, ...patch }`: each field present in the patch replaces the issue's, every absent one is kept |
| Issues.EmptyPatch | src/context/IssuesContext.tsx:84 | overlaying `{}` leaves every issue unchanged |
| Issues.StatusPatch | src/pages/IssueDetailPage/IssueDetailPage.tsx:28 | overlaying `{ status }` changes the status and nothing else |
| Issues.WithStatus | src/components/IssueBoard/IssueBoard.tsx:99 | the status filter: everything kept has the status, every issue with it is kept, nothing new appears |
| Issues.WithStatusMultiplicity | src/components/IssueBoard/IssueBoard.tsx:99 | the status filter keeps every copy of an issue with the status and no copy of any other |
| Issues.WithStatusSubsequence | src/components/IssueBoard/IssueBoard.tsx:99 | the status filter keeps the list's order |
| Issues.ColumnsPartition | src/components/IssueBoard/IssueBoard.tsx:161-163 | when every status is a column, the three column filters split the list exactly (multiset sum) |
| Issues.IndexOfId | src/components/IssueBoard/IssueBoard.tsx:101 | `findIndex` by id: -1 exactly when no issue has the id, otherwise the first such index |
| Issues.FindById | src/components/IssueBoard/IssueBoard.tsx:72 | `find` by id: None exactly when no issue has the id, otherwise the first issue carrying it |
| IssueCard.CanMoveLeft | src/components/IssueCard/IssueCard.tsx:17-18 | left is enabled exactly for In Progress and Done (so not for Backlog or an unknown status), and then the target index is in range |
| IssueCard.CanMoveRight | src/components/IssueCard/IssueCard.tsx:17-19 | right is enabled exactly when the status is not Done (an unknown status included), and then the target index is in range |
| IssueCard.GetInitials | src/components/IssueCard/IssueCard.tsx:14 | one character: "?" for an absent or empty name, otherwise the upper-cased first character |
| MoveEngine.TargetIndex | src/components/IssueBoard/IssueBoard.tsx:74-75 | the column index plus one to the right or minus one to the left; an unknown status counts as -1, so it gives -2 or 0 |
| MoveEngine.Restatus | src/components/IssueBoard/IssueBoard.tsx:77-79 | setting the status of the issues carrying an id: same length, other issues untouched |
| MoveEngine.TargetColumn | src/components/IssueBoard/IssueBoard.tsx:74-76 | an in-range target is the adjacent column; from an unknown status only a right move is in range and it lands in Backlog |
| MoveEngine.RestatusFind | src/components/IssueBoard/IssueBoard.tsx:72-79 | a status change keeps the id order, and `find` then returns the found issue with its new status |
| MoveEngine.MoveIssue | src/components/IssueBoard/IssueBoard.tsx:69-82 | same length and id order; only issues carrying the id change, and only in status, to the column adjacent to the first one's (Backlog for an unknown status moved right); the undo record holds the id, old and new status and the input list |
| MoveEngine.EnabledButtonAllowsMove | src/components/IssueCard/IssueCard.tsx:17-19 | an enabled move button on a card showing the first issue with its id meets moveIssue's precondition |
| MoveEngine.DroppedInPlace | src/components/IssueBoard/IssueBoard.tsx:87-92 | the two early returns: no destination, or the same column and the same index |
| MoveEngine.DropResult | src/components/IssueBoard/IssueBoard.tsx:85-148 | no action and no change exactly when there is no destination, the card is dropped where it was, or the id is not in the source column; otherwise the record holds the id, both columns and the input list |
| MoveEngine.Refill | src/components/IssueBoard/IssueBoard.tsx:111-118 | the same-column rebuild as a function: each position of the column's status takes the next queued issue, every other position keeps its issue |
| MoveEngine.RebuildSameColumn | src/components/IssueBoard/IssueBoard.tsx:111-118 | the `push`/`shift()!` loop computes the same-column rebuild, and the queue never runs dry |
| MoveEngine.Group | src/components/IssueBoard/IssueBoard.tsx:131-137 | what the cross-column rebuild pushes for one column: the shortened source column, the grown destination column, or the column's filter of the old list |
| MoveEngine.Regroup | src/components/IssueBoard/IssueBoard.tsx:130-138 | the groups of the given columns concatenated in column order |
| MoveEngine.RebuildAcrossColumns | src/components/IssueBoard/IssueBoard.tsx:130-139 | the `for (const col of columns)` loop computes the grouped rebuild |
| MoveEngine.OnDragEnd | src/components/IssueBoard/IssueBoard.tsx:85-148 | the imperative handler, with its splices and loops, returns exactly DropResult's list and record |
| MoveEngine.DraggedIndexFound | src/components/IssueBoard/IssueBoard.tsx:101-103 | an id present in the source column gives a valid dragged index |
| MoveEngine.RefillHead | src/components/IssueBoard/IssueBoard.tsx:112-117 | one step of the rebuild: a source-status position takes the queue's head, any other keeps its issue |
| MoveEngine.RefillKeepsOthers | src/components/IssueBoard/IssueBoard.tsx:112-117 | the rebuild keeps the length and every position of another status |
| MoveEngine.RefillStatuses | src/components/IssueBoard/IssueBoard.tsx:112-117 | rebuilding with a column of that status keeps the length and every position's status |
| MoveEngine.RefillReadsBack | src/components/IssueBoard/IssueBoard.tsx:112-117 | rebuilding with a column of that status, the column filtered back out is the queue, in order |
| MoveEngine.RefillMultiset | src/components/IssueBoard/IssueBoard.tsx:112-117 | the rebuild trades the column's old issues for the queue's issues |
| MoveEngine.SameColumnDrop | src/components/IssueBoard/IssueBoard.tsx:106-118 | same-column reorder: an action is recorded; length and every status kept; other-status issues keep their absolute index; the column becomes the old one with the dragged issue moved to min(destination.index, length); the result is a permutation of the input |
| MoveEngine.GroupedColumns | src/components/IssueBoard/IssueBoard.tsx:131-139 | concatenating a Backlog, an In Progress and a Done group gives a list grouped in column order |
| MoveEngine.WithStatusOfGroups | src/components/IssueBoard/IssueBoard.tsx:131-139 | filtering the grouped list for a column gives back that column's group |
| MoveEngine.RegroupColumns | src/components/IssueBoard/IssueBoard.tsx:131-139 | the rebuild is the Backlog group, then In Progress, then Done |
| MoveEngine.CrossColumnDrop | src/components/IssueBoard/IssueBoard.tsx:128-139 | cross-column move: the result is grouped by column and holds only column statuses (off-column issues dropped); the destination column gains the re-statused dragged issue at min(destination.index, length); the source column loses it; the third column is unchanged; when all statuses are columns, the multiset is the input's with the dragged issue swapped for its moved copy |
| MoveEngine.CrossColumnGroups | src/components/IssueBoard/IssueBoard.tsx:131-139 | the grouped rebuild holds only column statuses, in column order, and each column filtered out of it is the group pushed for it |
| MoveEngine.CrossColumnMultiset | src/components/IssueBoard/IssueBoard.tsx:131-139 | the three pushed groups trade exactly the dragged issue for its moved copy |
| MoveEngine.PerformMoveIssue | src/components/IssueBoard/IssueBoard.tsx:62-82 | the store's list becomes MoveIssue's list and the returned record is its record; no other field changes |
| MoveEngine.PerformDrop | src/components/IssueBoard/IssueBoard.tsx:85-148 | the store's list and the record are DropResult's; no other field changes |
| MoveEngine.UndoMove | src/components/IssueBoard/IssueBoard.tsx:27-28 | undo sets the list to the record's snapshot |
| MoveEngine.MoveThenUndo | src/components/IssueBoard/IssueBoard.tsx:45-47 | a button move followed by its Undo restores the list |
| MoveEngine.DropThenUndo | src/components/IssueBoard/IssueBoard.tsx:45-47 | a drop followed by the Undo of its record, if any, restores the list |
| BoardView.Lower | src/components/IssueBoard/IssueBoard.tsx:152 | `toLowerCase` (ASCII): same length, each character lower-cased |
| BoardView.Includes | src/components/IssueBoard/IssueBoard.tsx:154 | `includes`: true exactly when the query occurs at some index |
| BoardView.MatchesSearch | src/components/IssueBoard/IssueBoard.tsx:152-155 | the lower-cased title, or some lower-cased tag, contains the lower-cased query; absent tags are the empty list |
| BoardView.MatchesAssignee | src/components/IssueBoard/IssueBoard.tsx:156 | no filter, or the empty string (falsy), passes every issue; otherwise the assignee must be equal |
| BoardView.MatchesSeverity | src/components/IssueBoard/IssueBoard.tsx:157 | no filter, or 0 (falsy), passes every issue; otherwise the severity must be equal |
| BoardView.ProcessedIssues | src/components/IssueBoard/IssueBoard.tsx:151-159 | a subsequence of the issues, each of which passes the search, assignee and severity tests, and no passing issue is left out |
| BoardView.ProcessedMultiplicity | src/components/IssueBoard/IssueBoard.tsx:151-159 | the filter keeps every copy of a passing issue and no copy of a failing one |
| BoardView.NoFilterShowsAll | src/components/IssueBoard/IssueBoard.tsx:151-159 | an empty query and no filters show every issue |
| BoardView.FalsyFiltersFilterNothing | src/components/IssueBoard/IssueBoard.tsx:156-157 | an empty assignee filter with a zero severity filter shows exactly what no filters show |
| BoardView.Partition | src/components/IssueBoard/IssueBoard.tsx:161-163 | the three columns are the order-keeping status filters of the processed issues; they are pairwise disjoint, omit off-column statuses, and together hold all the processed issues when every status is a column |
| BoardView.BoardShowsFilteredIssues | src/components/IssueBoard/IssueBoard.tsx:151-163 | every card shown is an issue of the list that passes the filters, and every column keeps the list's order |
| BoardView.AssigneeOptions | src/components/IssueBoard/IssueBoard.tsx:187 | the assignee options have no duplicates, list every assignee, and follow first-occurrence order |
| IssuesContext.UpdateIssues | src/context/IssuesContext.tsx:81-87 | same length and positions; issues with the id get the patch overlaid; all others are unchanged |
| IssuesContext.UpdateEmptyPatch | src/context/IssuesContext.tsx:81-87 | updating with `{}` is the identity |
| IssuesContext.UpdateMissingId | src/context/IssuesContext.tsx:81-87 | updating an id no issue has is the identity |
| IssuesContext.UpdateStatusOnly | src/context/IssuesContext.tsx:81-87 | a status-only update keeps the id order and every other field |
| IssuesContext.AddToRecentlyAccessed | src/context/IssuesContext.tsx:132-135 | the head is the id; 1 to 5 entries; the id occurs once; the rest keep prev's order; no duplicates if prev had none; nothing is lost while prev has fewer than 5; a full prev with a new id loses its oldest entry; the length is min(5, 1 + the filtered list's length) and the tail is that filtered list's prefix, so a revisited id moves to the front with every other entry kept in order |
| IssuesContext.AddTwice | src/context/IssuesContext.tsx:132-135 | adding the same id twice in a row equals adding it once |
| IssuesContext.IssuesStore.constructor | src/context/IssuesContext.tsx:31-42 | the initial list, no recents, no sync time, 10000 ms interval, not syncing |
| IssuesContext.IssuesStore.IsMounted | src/context/IssuesContext.tsx:58-76 | a fetch of run `run` sees `isMounted` true exactly while that run is the current one and its cleanup has not happened |
| IssuesContext.IssuesStore.SetIssues | src/context/IssuesContext.tsx:31 | the list is replaced; nothing else changes |
| IssuesContext.IssuesStore.UpdateIssue | src/context/IssuesContext.tsx:81-87 | the list becomes UpdateIssues of the old list; nothing else changes |
| IssuesContext.IssuesStore.UndoMoveDirect | src/context/IssuesContext.tsx:89-90 | the list equals the snapshot; nothing else changes |
| IssuesContext.IssuesStore.AddRecent | src/context/IssuesContext.tsx:130-139 | the recents become AddToRecentlyAccessed of the old recents; nothing else changes |
| IssuesContext.IssuesStore.RestoreRecentlyAccessed | src/context/IssuesContext.tsx:46-55 | a non-empty stored value that parses replaces the recents; otherwise they stay |
| IssuesContext.IssuesStore.StartPolling | src/context/IssuesContext.tsx:57-72 | a new effect run starts with its isMounted true and the previous run's false, and its immediate first fetch sets isSyncing |
| IssuesContext.IssuesStore.Teardown | src/context/IssuesContext.tsx:75-77 | after cleanup no run is mounted; the data is unchanged |
| IssuesContext.IssuesStore.SetPollingIntervalMs | src/context/IssuesContext.tsx:41-79 | the interval is set; a changed value tears the old run down and starts a new one whose first fetch is under way (isSyncing); an unchanged value leaves the effect and isSyncing alone |
| IssuesContext.IssuesStore.BeginFetch | src/context/IssuesContext.tsx:61 | isSyncing becomes true; nothing else changes |
| IssuesContext.IssuesStore.CompleteFetch | src/context/IssuesContext.tsx:62-70 | success while mounted replaces the list, sets the sync time and clears isSyncing; success after teardown changes nothing and leaves isSyncing set; failure keeps list and time and clears isSyncing |
| IssuesContext.IssuesStore.PollCycle | src/context/IssuesContext.tsx:60-71 | one full cycle: the same three outcomes, with isSyncing left true by a success after teardown |
| Settings.HandleChange | src/pages/SettingsPage.tsx:9-13 | the interval is at least 5000 ms; s >= 5 gives s*1000; NaN or below 5 gives 5000 |
| Settings.DisplaySeconds | src/pages/SettingsPage.tsx:23 | the displayed seconds times 1000 are the interval |
| Settings.DisplayRoundTrip | src/pages/SettingsPage.tsx:9-23 | typing s >= 5 displays s again |
| Settings.DisplayAtLeastMinimum | src/pages/SettingsPage.tsx:9-23 | the display never shows less than 5 seconds |
| Settings.OnIntervalInput | src/pages/SettingsPage.tsx:9-13 | the store's interval becomes the clamped value, at least 5000 ms; a changed value restarts polling (new run mounted, old run not, isSyncing set), an unchanged one leaves the effect alone |
| IssueDetail.Lookup | src/pages/IssueDetailPage/IssueDetailPage.tsx:13 | not found exactly when no issue has the route id; otherwise the first issue carrying it |
| IssueDetail.VisitRecents | src/pages/IssueDetailPage/IssueDetailPage.tsx:15-19 | a non-empty route id, whether or not an issue has it, ends up at the head of the recents, exactly once, with at most 5 entries and the rest in their old order, nothing lost while there were fewer than 5; otherwise the recents stay |
| IssueDetail.MarkAsResolved | src/pages/IssueDetailPage/IssueDetailPage.tsx:25-28 | a Done issue changes nothing and leaves nothing to undo; otherwise issues with its id become Done, all else unchanged, and the undo holds the old status |
| IssueDetail.UndoResolve | src/pages/IssueDetailPage/IssueDetailPage.tsx:39-41 | undo writes back only the captured status of the issues with that id |
| IssueDetail.ResolveThenUndo | src/pages/IssueDetailPage/IssueDetailPage.tsx:28-40 | resolve followed by undo is the identity when the issues with that id share the shown status |
| IssueDetail.OpenPage | src/pages/IssueDetailPage/IssueDetailPage.tsx:13-19 | the page shows the lookup of the route id, and a non-empty id ends up at the head of the recents; only the recents change |
| IssueDetail.ResolveOnPage | src/pages/IssueDetailPage/IssueDetailPage.tsx:21-28 | a not-found page offers no resolve, so nothing changes; otherwise the store gets MarkAsResolved's list; only the list changes |
| IssueDetail.UndoOnPage | src/pages/IssueDetailPage/IssueDetailPage.tsx:39-41 | the store's list becomes UndoResolve's; only the list changes |
| RecentSidebar.RecentIssues | src/components/RecentlyAccessedSidebar/RecentlyAccessedSidebar.tsx:19-21 | no longer than the recents; each entry's id is a recent id and the entry is the first issue with that id; every resolvable recent id is listed |
| RecentSidebar.RecentIssuesInOrder | src/components/RecentlyAccessedSidebar/RecentlyAccessedSidebar.tsx:19-21 | the listed issues' ids follow the recents' order |
| RecentSidebar.RecentIssuesMultiplicity | src/components/RecentlyAccessedSidebar/RecentlyAccessedSidebar.tsx:19-21 | a recent id is listed once per occurrence when some issue has it, and never otherwise, so repeated ids are listed repeatedly |
| RecentSidebar.Render | src/components/RecentlyAccessedSidebar/RecentlyAccessedSidebar.tsx:23-55 | with no resolvable recents: collapsed whatever isOpen is, with an Expand button; otherwise open/listing exactly as isOpen says, with a toggle |
| RecentSidebar.InitialOpen | src/components/RecentlyAccessedSidebar/RecentlyAccessedSidebar.tsx:12-17 | open exactly when the key is absent or holds "true" |
| RecentSidebar.ShowFlag | src/components/RecentlyAccessedSidebar/RecentlyAccessedSidebar.tsx:43 | `String(next)` read back at mount gives next |
| RecentSidebar.Sidebar.constructor | src/components/RecentlyAccessedSidebar/RecentlyAccessedSidebar.tsx:10 | isOpen starts true |
| RecentSidebar.Sidebar.MountEffect | src/components/RecentlyAccessedSidebar/RecentlyAccessedSidebar.tsx:12-17 | a stored value sets isOpen to whether it is "true"; an absent one keeps it |
| RecentSidebar.Sidebar.PressButton | src/components/RecentlyAccessedSidebar/RecentlyAccessedSidebar.tsx:26-44 | with no recents the button opens and stores "true"; otherwise it flips isOpen and stores the new value; afterwards the stored flag reproduces isOpen |

## Left out

- JSX rendering and styling are presentation, so they are not modelled. That covers IssueColumn.tsx, MainLayout.tsx, BoardPage.tsx, App.tsx (the route table) and index.tsx.
- react-toastify (`toast`, `toast.dismiss`, autoClose) is foreign presentation code. The only part modelled is the toast's Undo button calling `undoMoveDirect` with the record's snapshot.
- The undo timeout (`setTimeout(() => {}, 5000)`) has a no-op callback, so it is not modelled.
- `navigate("/")` after resolving is routing and is not modelled.
- Timers: `setInterval`/`clearInterval` scheduling is not modelled. A poll is two discrete events, its start and `CompleteFetch`. The effect's immediate first fetch starts inside `StartPolling` (and so inside a changed `SetPollingIntervalMs`); each later interval tick is a `BeginFetch`. Each effect run is numbered so that a late response can be matched with its own `isMounted` flag.
- Fetches overlapping in time share the one `isSyncing` flag, as in the code. Their interleavings are not enumerated.
- localStorage and JSON:
  - The recents are not written to storage.
  - `RestoreRecentlyAccessed` receives the result of `JSON.parse` as a parameter. A parse that yields something other than a string array is not modelled.
  - The sidebar's stored flag, kept under the key `recentSidebarOpen`, is the field `Sidebar.stored`.
- UserContext.tsx, LoginPage.tsx and RequireAuth.tsx are persistence, a form and a redirect. No move or resolve checks a role, so no role gate is modelled.
- src/pages/IssueDetailPage.tsx is an older duplicate that is not routed. It is not part of this model.
- `mockFetchIssues`, issues.json, ThemeContext (the dark-mode checkbox on the settings page) and Navigation are not part of this model. A fetch is an opaque outcome: a list, or a failure.
- `Number(...)` parsing is the parameter `Option<real>`, with None for NaN. `Infinity` is not modelled.
- `Date` values are an integer supplied by the caller, and date formatting is not modelled.
- `toLowerCase`/`toUpperCase` are ASCII-only. Unicode case mapping is not modelled.
- React machinery is not modelled: hooks, context, re-render scheduling, and StrictMode's double call of the `setIssues` updater. Each transition is applied to the store's current list.
- The `{ ...i }` copies in `moveIssue`/`onDragEnd` and the JSON deep copy in `undoMoveDirect` are equal values, so the model does not distinguish them from the originals.
- The model follows the code where one might expect otherwise:
  - An unknown id or an out-of-range button move is not a no-op. The code dereferences and indexes unchecked, so the model has a precondition.
  - Status matching is exact string equality, with no case folding or trimming.
  - A cross-column drop regroups the list by column and drops off-column issues.
  - There is no role gate on moves or on resolving.
- Settings.DisplayRoundTrip: `secs * 1000` and `pollingIntervalMs / 1000` are exact `real` arithmetic here. The code uses IEEE-754 doubles, whose rounding can make the displayed value differ from the typed one in the last digit, and that rounding is not modelled.
- MoveEngine.CrossColumnDrop: it gives no permutation claim when the source or the destination id is not a column, or when some status is not a column. In those cases the code drops issues, and the lemma states only what remains.
