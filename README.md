# Studio production tracker — a verified model of its core rules

The tracker is a single-page web app (`App.jsx`) in which a creative studio
schedules project tasks and social-media assets on a shared timeline,
follows each task phase by phase, and moves ideas through a three-stage
pipeline before promoting them into tasks. This project models, in Dafny,
the deterministic rules at the heart of the app:

- **Project-task form** (`project_form.dfy`, module `ProjectForm`). It covers:
  - how `TaskForm` fills itself when it opens;
  - how its phase rows are added, edited and removed;
  - how a submit turns the form into a task record. A phase row without an
    end date takes the deadline, or else the start date. The phases are then
    sorted stably by end date, coloured by position and given ids, and the
    deadline is resolved.
- **Social-asset form** (`social_form.dfy`, module `SocialForm`). It covers
  the `"<platform>: "` name prefix, which is stripped when a task is opened
  and put back on save. It also covers the submit, with its single
  "Production" phase and its rule that the first phase ends on the deadline.
- **Timeline geometry** (`geometry.dfy`, module `Geometry`). It covers:
  - `getPositionStyles` on exact reals;
  - the 40-day viewport as a class whose start the arrows move;
  - the `calendarDays` loop;
  - the bars of a task's phases.
- **Timeline rows** (`layout.dfy`, module `Layout`). `groupedTasks` collects
  the tasks into a dictionary keyed by resource in a loop. It then sorts the
  resource names with "Unassigned" last, and sorts each row stably by start
  date.
- **The app's state** (`stores.dfy`, module `Stores`). A `Studio` class holds
  the task list, the idea list and the resource roster. Its handlers are:
  save (replace by id or append), delete, the progress update of one phase,
  adding, editing, moving and deleting an idea, and adding a resource. The
  save is modelled as written, and beside it a corrected save that also
  drops the promoted idea from the list in memory. Each handler is proved equal to a
  function on lists, and the lemmas about those functions carry the
  properties.
- **Dashboard figures** (`dashboard.dfy`, module `Dashboard`). These are the
  completed count, the project/social split, the tasks due in the coming
  week, and the per-resource workload built in a loop.

Shared pieces:

- `records.dfy` (module `Records`) holds the records: tasks, phases and ideas.
- `sorting.dfy` (module `Sorting`) holds a stable insertion sort. It stands
  for JavaScript's `Array.prototype.sort`, which is stable. Its lemmas say the
  result is ordered, is a permutation of the input, and leaves an
  already-ordered input unchanged.

Dates are whole day numbers. An empty date input of a form is `None`.
Percentages are exact reals. The current time and `Date.now()` are parameters.

## Model

| member | source | states |
|---|---|---|
| Geometry.PositionStyles | App.jsx:61-87 | hidden exactly when the span starts after the viewport's end or ends before its start; otherwise left lies in [0, 100] and width is at least 0; a span starting before the viewport is pinned to left 0 with width (end − viewStart)/total·100, any other starts at (start − viewStart)/total·100 with width max(0, (end − start)/total·100), which is not cut at the right edge |
| Geometry.SpanInsideViewport | App.jsx:61-87 | a span inside the viewport is drawn with width equal to its length as a percentage of the viewport and ends no further right than 100 percent |
| Geometry.ClippingExamples | App.jsx:74-80 | in a 40-day viewport from day 0, the span −5..5 is clipped to left 0, width 12.5, the span 50..60 is hidden, and the span 30..60 is drawn at left 75, width 75, running past the right edge |
| Geometry.MarkerAtColumn | App.jsx:577 | the "today" marker for day viewStart + i sits at i·2.5 percent, the left edge of column i |
| Geometry.Viewport.constructor | App.jsx:502 | the viewport starts ten days before today |
| Geometry.Viewport.StepBack | App.jsx:546 | the left arrow moves the start seven days back |
| Geometry.Viewport.StepForward | App.jsx:548 | the right arrow moves the start seven days on |
| Geometry.Viewport.ResetToToday | App.jsx:549 | "today" puts the start ten days before today |
| Geometry.Viewport.CalendarDays | App.jsx:508 | forty columns, column i is day start + i, and a day is a column exactly when it lies in [start, end) |
| Geometry.SpansAbut | App.jsx:61-87 | two spans meeting at a day inside the viewport are drawn end to start |
| Geometry.PhaseBarsAbut | App.jsx:625-628 | consecutive phase bars inside the viewport abut: each ends where the next begins |
| SocialForm.ComposeName | App.jsx:267 | the stored name starts with `platform + ": "` and continues with the typed name |
| SocialForm.StripPrefix | App.jsx:229-231 | a name carrying the platform prefix loses exactly that prefix; any other name is kept |
| SocialForm.StripCompose | App.jsx:229-231 | stripping the prefix from a composed name gives back the typed name |
| SocialForm.ComposeStrip | App.jsx:229-231 | putting the prefix back on a stripped name gives back the stored name, with no doubled prefix |
| SocialForm.Open | App.jsx:226-251 | an edited task opens with its prefix stripped, an empty platform read as Instagram, and its resource, briefing, folder link and dates; a new form opens without name, briefing or folder link, on the first resource of the roster (the empty name when the roster is empty), on Instagram, starting today, with no deadline |
| SocialForm.Submit | App.jsx:259-284 | the task is a social asset on the form's platform; start defaults to today and deadline to start; the name is composed with the prefix; an empty resource becomes "Unassigned"; the briefing and folder link are the form's; an edit keeps its id, a new task is named after `now` |
| SocialForm.NewSocialTask | App.jsx:273-279 | a new social task has exactly one phase: "Production", colour social, progress 0, ending on the deadline |
| SocialForm.FirstPhaseOnDeadline | App.jsx:273-281 | on every save the first phase ends on the deadline; an edit keeps the number of phases, every later phase, and all of the first phase except its end date |
| SocialForm.EditKeepsName | App.jsx:229-267 | opening a stored social task and saving it without touching the name stores the same name |
| SocialForm.ResaveUnchanged | App.jsx:226-284 | a saved social task, opened and saved again unchanged, is the same record |
| ProjectForm.Open | App.jsx:354-388 | an edited task opens with its name, resource, briefing, folder link, dates and one row per phase; a new form opens on the first resource of the roster, or "Artist" when the roster is empty or its first name is empty, without folder link, with the promoted idea's title and description as name and briefing (empty without one), starting today, without deadline, with one blank row "Phase 1" |
| ProjectForm.AddPhase | App.jsx:392 | appends one blank row named after its position and changes nothing else |
| ProjectForm.SetPhaseEnd | App.jsx:393 | changes only the end date of row idx |
| ProjectForm.SetPhaseName | App.jsx:393 | changes only the name of row idx |
| ProjectForm.RemovePhase | App.jsx:394 | drops exactly row idx, keeping the others in order; an index past the end changes nothing |
| ProjectForm.ColorAt | App.jsx:421-424 | red exactly for the last position, yellow exactly for the one before it, the filler colours by index mod 4 before that |
| ProjectForm.PhaseId | App.jsx:426 | a phase keeps its id when it has one, and otherwise gets a nonempty generated one |
| ProjectForm.Submit | App.jsx:396-436 | rejects the form exactly when the name or the start date is empty; otherwise a project task with the form's name, start date, resource (as typed, empty included), briefing and folder link, keeping the edited task's id or else named `String(now)` |
| ProjectForm.SavedPhases | App.jsx:399-405 | one saved phase per row, in non-decreasing end-date order, and the saved phases are the rows up to order, with a missing end date replaced by the deadline or else the start date |
| ProjectForm.SavedColors | App.jsx:420-425 | last phase red, second-to-last yellow, earlier phase i takes [green, blue, purple, orange][i mod 4], and no other phase is red |
| ProjectForm.SavedDeadline | App.jsx:409 | the deadline is the typed one; else the end of the last sorted phase, which no phase ends after; else the start date |
| ProjectForm.RepaintSaved | App.jsx:405-431 | phases already sorted, with ids and the colours of their positions, come back unchanged from a submit |
| ProjectForm.ResaveUnchanged | App.jsx:354-436 | a saved project task, opened and saved again unchanged, is the same record |
| ProjectForm.BlankFormSave | App.jsx:376-436 | the blank form, once named, saves one red "Phase 1" ending on the start date, which is also the deadline |
| ProjectForm.PromotedSave | App.jsx:366-375 | a task from a promoted idea takes its title as name and its description as briefing, and saves exactly when the title is nonempty |
| ProjectForm.DeadlineNotTiedToPhases | App.jsx:396-436 | a typed deadline is kept when the last phase ends earlier, and a form without rows saves a task without phases |
| Sorting.Sort | App.jsx:405 | the sorted sequence has the same elements with the same multiplicities |
| Sorting.SortSorted | App.jsx:405 | the sorted sequence is ordered by the comparator when it is a total preorder |
| Sorting.SortOfSorted | App.jsx:405 | an already ordered sequence comes back unchanged |
| Sorting.SortMapMultiset | App.jsx:405 | sorting permutes whatever is projected out of the elements |
| Sorting.SortStable | App.jsx:405 | the sort is stable: the elements tied with any given element come out in their input order, so phases with equal end dates keep the order of their rows and with it their colours |
| Sorting.SortDistinct | App.jsx:520 | sorting a sequence without repetitions gives one without repetitions |
| Layout.ArtistLeTotal | App.jsx:520-524 | the row order is a total preorder |
| Layout.ArtistLeAntisymmetric | App.jsx:520-524 | two different names are never tied in the row order |
| Layout.TasksOfMembers | App.jsx:513-517 | a row holds exactly the tasks whose resource, or "Unassigned" when it is empty, names it |
| Layout.GroupKeysMembers | App.jsx:513-517 | a name is a row exactly when some task is listed under it |
| Layout.UnassignedLast | App.jsx:520-524 | in a row order without repeats, "Unassigned" is last |
| Layout.Push | App.jsx:513-517 | pushing one task onto its row keeps the rows equal to those of the tasks seen so far |
| Layout.CollectGroups | App.jsx:512-518 | the row names, each once, are exactly the names of the tasks, and each row holds that resource's tasks in their order |
| Layout.SortGroups | App.jsx:526-528 | every named row is sorted by start date and every other one kept |
| Layout.GroupTasks | App.jsx:511-530 | rows named once each in name order with "Unassigned" last; each row is exactly its resource's tasks, sorted stably by start date and a permutation of them; every task is in its row |
| Stores.FindTask | App.jsx:919 | finds a task with the id exactly when the list has one, and it is the first task with that id |
| Stores.Upsert | App.jsx:897-901 | when the id is present the length is kept, otherwise the task is appended; the task is in the list, entries with other ids keep their place, and nothing else is added |
| Stores.FindAfterUpsert | App.jsx:897-901 | after a save the id finds the saved task and any other id finds what it found before |
| Stores.UpsertIdempotent | App.jsx:897-901 | saving the same task twice is saving it once |
| Stores.UpsertUnique | App.jsx:897-901 | a save keeps task ids pairwise different |
| Stores.RemoveTask | App.jsx:913 | the tasks left are exactly those with another id |
| Stores.RemoveTaskAppend | App.jsx:913 | the delete filters task by task: it distributes over concatenation and keeps a single task exactly when its id differs, so the kept tasks keep their order and multiplicity |
| Stores.RemoveAfterUpsert | App.jsx:897-913 | deleting right after saving is the same as deleting alone |
| Stores.FindAfterRemove | App.jsx:913 | after a delete the id finds nothing and any other id finds what it found before |
| Stores.RemoveUnique | App.jsx:913 | a delete keeps task ids pairwise different |
| Stores.SetProgress | App.jsx:922 | each phase keeps everything but progress; progress becomes val exactly on the phases with the id |
| Stores.WithProgress | App.jsx:922 | the task keeps everything but its phases, whose progress is set |
| Stores.UpdateProgress | App.jsx:918-927 | length kept; tasks with other ids untouched; nothing changes when no task has the id |
| Stores.ProgressChangesOnePhase | App.jsx:919-924 | with unique ids, only the progress of the matching phase of the matching task changes |
| Stores.ProgressIsSave | App.jsx:922-924 | a progress update changes the list exactly as saving the updated task would |
| Stores.MoveTarget | App.jsx:949-951 | a target stage exists exactly when the index plus dir lies in 0..2, and it sits at that index |
| Stores.MoveAndBack | App.jsx:949-951 | a step back undoes a step forward and the other way round |
| Stores.MoveIdea | App.jsx:946-957 | length kept, ideas with other ids untouched, nothing changes when the move leaves the pipeline |
| Stores.MoveChangesOnlyStage | App.jsx:946-957 | with unique ids, a move changes only the moved idea's stage, to the target stage |
| Stores.MoveThereAndBack | App.jsx:946-957 | moving an idea and moving it back restores the pipeline |
| Stores.ReplaceIdeaUnique | App.jsx:938-944 | replacing the ideas of an id by an idea with that id keeps idea ids pairwise different |
| Stores.MoveUnique | App.jsx:946-957 | a move keeps idea ids pairwise different |
| Stores.RemoveIdea | App.jsx:963 | the ideas left are exactly those with another id |
| Stores.RemoveIdeaAppend | App.jsx:963 | removing ideas filters idea by idea: it distributes over concatenation and keeps a single idea exactly when its id differs |
| Stores.RemoveIdeaUnique | App.jsx:963 | removing ideas keeps idea ids pairwise different |
| Stores.PromotedIdeaLingers | App.jsx:888-901 | a signed-in studio that adds an idea under id "1" and saves a task promoted from it still lists idea "1" |
| Stores.PromotedIdeaRetired | App.jsx:888-901 | the same sequence with the corrected save leaves no idea listed |
| Stores.IdeasAfterSave | App.jsx:892-895 | after a save from a promoted idea no idea with its id remains and every other idea does |
| Stores.AddName | App.jsx:969-979 | the name is in the roster afterwards; the old roster is a prefix; at most one name is added; a present name changes nothing |
| Stores.AddNameDistinct | App.jsx:969-979 | a roster without repeats keeps that property |
| Stores.Studio.constructor | App.jsx:804-807 | no tasks, no ideas, the roster Salini, Jeki; ids and names unique |
| Stores.Studio.SaveTask | App.jsx:888-909 | signed in: tasks upserted and the ideas in memory left as they were, promoted idea or not; signed out: nothing changes; uniqueness kept |
| Stores.Studio.SaveTaskRetiringIdea | App.jsx:888-909 | the corrected save: as SaveTask, and in addition the ideas become IdeasAfterSave of them, so the promoted idea is gone |
| Stores.Studio.DeleteTask | App.jsx:910-916 | signed in: the task's id removed; signed out: nothing changes; uniqueness kept |
| Stores.Studio.UpdatePhaseProgress | App.jsx:918-927 | signed in: the list becomes UpdateProgress of it; signed out: nothing changes; uniqueness kept |
| Stores.Studio.Move | App.jsx:946-957 | signed in: the ideas become MoveIdea of them; signed out: nothing changes; uniqueness kept |
| Stores.Studio.AddIdea | App.jsx:929-936 | signed in: the idea is appended under the id String(now); signed out: nothing changes; uniqueness kept when no idea has that id yet |
| Stores.Studio.UpdateIdea | App.jsx:938-944 | signed in: the edited idea replaces the entry with its id; signed out: nothing changes; uniqueness kept |
| Stores.Studio.DeleteIdea | App.jsx:959-965 | signed in: the ideas become RemoveIdea of them; signed out: nothing changes; uniqueness kept |
| Stores.Studio.AddResource | App.jsx:969-979 | signed in: the roster becomes AddName of it; signed out: nothing changes; no name listed twice |
| Dashboard.CountWhere | App.jsx:697 | at most the length, and zero exactly when no element qualifies |
| Dashboard.CompletedCount | App.jsx:697 | no more completed tasks than tasks, and none exactly when no task has its last phase at 100 |
| Dashboard.CompletedExamples | App.jsx:697 | a task without phases is never completed; one whose last phase is at 100 always is |
| Dashboard.KindsPartition | App.jsx:699-700 | social count plus project count is the number of tasks |
| Dashboard.DueThisWeek | App.jsx:705 | no more tasks due than tasks, and none exactly when no deadline falls in the coming seven days |
| Dashboard.DueSoonDays | App.jsx:705 | a counted task is due after today and at most seven days on; any task due one to six days on is counted |
| Dashboard.CountArtist | App.jsx:698 | no more tasks for a resource than tasks, and none exactly when no task names it |
| Dashboard.Tally | App.jsx:698 | adding a task to its resource's tally keeps every count equal to the count over the tasks seen |
| Dashboard.ArtistLoad | App.jsx:698 | one entry exactly for each resource some task names, holding the number of tasks naming it |
| Dashboard.WorkloadIsRow | App.jsx:698 | a named resource's workload is the number of tasks in its timeline row |
| Dashboard.CountsStep | App.jsx:697-705 | one more task adds one to the completed count, the due-this-week count and its resource's count exactly when it qualifies for each, and leaves them as they were otherwise |
| Dashboard.UnassignedRow | App.jsx:698 | the "Unassigned" row holds the tasks counted under "Unassigned" plus those counted under the empty name |

## Left out

- The remote API (`apiFetch`, the `api` object, the Azure Functions under `api/`) is not part of this model. Each handler is modelled by its local effect when the remote call does not reject, and the order in which asynchronous calls complete is not modelled. `apiFetch` rejects on an HTTP error status, and then the save, the progress update and the idea handlers leave the local lists as they were; that path is not modelled. `api.deleteTask` and `api.deleteIdea` are raw `fetch` calls (App.jsx:29, App.jsx:33), which reject only on a network failure, so an HTTP error still removes the entry locally, as `Studio.DeleteTask` and `Studio.DeleteIdea` do. `handleAddResource` appends to the roster before it persists and only logs a failed write (App.jsx:972-976), as `Studio.AddResource` does.
- `msalConfig.js`, `main.jsx`, sign-in and first-use seeding (App.jsx:829-872) are not modelled. Sign-in is the `signedIn` flag of `Studio`.
- React rendering, modal open/close state, `BriefModal`, `SocialView`, `StrategyView` and the retail cycles are presentation and are not modelled.
- JavaScript `Date` is abstracted to whole day numbers. Parsing, time zones, daylight-saving days, invalid dates and `formatDateForInput` are left out. A "due this week" deadline is read as midnight at the start of its day.
- `Date.now()` ids are built from a `now` parameter. Idea fields other than id, title, description and stage (`createdAt`, `userId`) are not modelled. Two saves in the same millisecond, which would collide, are not modelled.
- `localeCompare` is modelled as code-unit lexicographic order. The proofs use only that it is a total order in which different names never tie.
- Percent strings and floating-point rounding in the CSS are left out. Percentages are exact reals.
- Idea stages are an enumeration. A stage string outside the three, for which `indexOf` gives −1, is not modelled.
- `Layout.GroupTasks` does not model the iteration order of `Object.keys`. The names are sorted right after, so the order does not matter.
- ProjectForm.SetPhaseEnd: the source writes the new value into the row object it shares with the previous form state (App.jsx:393). The model builds a new form value, so that aliasing is not captured. The same holds for `newTask.phases[0].endDate` in `SocialForm.Submit` (App.jsx:281), which writes into the phase object of the task being edited.
- ProjectForm.Submit: `p.progress || 0` is modelled for integer progress, which it leaves unchanged. Progress values that are missing or not numbers are not modelled.
- SocialForm.ResaveUnchanged: it requires a nonempty platform. An empty platform is read back as Instagram when the form opens, so the saved task would change.
- The form's own validation that the deadline exists, `SocialForm.SubmitEnabled` (App.jsx:333), is a predicate without a contract about the submit.
- Layout.CollectGroups: the rows are a plain JavaScript object. A resource named after a property that `Object.prototype` already defines (`toString`, `constructor`, `__proto__`, …), which Add Resource accepts (App.jsx:969-979), makes `groups[artist].push(t)` throw at App.jsx:515-516, so the timeline does not render. The model's map has no such names and returns a row for them; names that `Object.prototype` defines are excluded from what the model promises.
- Layout.GroupTasks: the same exclusion, since it collects its rows with `Layout.CollectGroups`.
- Dashboard.ArtistLoad: the load is a plain JavaScript object too. For a name that `Object.prototype` defines, `load[t.artist] || 0` starts from the inherited property (App.jsx:698): `toString` gives a string, and `__proto__` gives no entry at all. The model counts those names like any other; names that `Object.prototype` defines are excluded from what it promises.

Four behaviours of the code that a reader might expect otherwise:

- A project save does not force the last phase to end on the deadline. A typed deadline is kept as it is, and all phase rows may be removed (`ProjectForm.DeadlineNotTiedToPhases`).
- A new project form starts on the first resource of the roster, or on "Artist" when the roster is empty or its first name is empty (`ProjectForm.Open`). A new social form starts on the first resource too, but on the empty name in those cases (`SocialForm.Open`). So a project saved without choosing a resource from an empty roster lands in a timeline row and a workload entry called "Artist", not "Unassigned".
- A project task's resource is saved as the form holds it (`ProjectForm.Submit`). Only the social form turns an empty resource into "Unassigned" (`SocialForm.Submit`).
- The workload counts by the raw resource name, so "" and "Unassigned" are separate entries (`Dashboard.UnassignedRow`).

## Findings

| source | as written | input that shows it | evidently intended | confidence | as-written member | corrected member |
|---|---|---|---|---|---|---|
| App.jsx:892-901 | saving a task promoted from an idea deletes the idea in the store but leaves it in the idea list in memory | a signed-in studio adds idea "1", then saves a task promoted from idea "1": idea "1" is still listed and can be moved or promoted again (`Stores.PromotedIdeaLingers`; with the correction, `Stores.PromotedIdeaRetired` lists none) | the idea also leaves the list in memory, as `handleDeleteIdea` makes it do | medium, not executed | Stores.Studio.SaveTask | Stores.Studio.SaveTaskRetiringIdea |
