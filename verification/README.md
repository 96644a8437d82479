# GC Tracker core, modelled in Dafny

GC Tracker is a demonstration project-tracking dashboard for general
contractors. A project is split into sub-trades, a sub-trade into scopes, and
each scope holds punch items. A punch item is a defect or follow-up with a
status, a priority and an optional due date. The whole project list lives in the
browser's local storage.

This project models the logic in `src/lib/projects.ts` and the dashboard's
view logic in `src/app/page.tsx`:

- the data model and the built-in demo projects;
- `formatLabel`, which turns an enum value such as `on_hold` into `On Hold`;
- `isOverdue` on punch items;
- `getProjectPunchItems`, which flattens a project's punch items;
- `loadProjects` / `saveProjects`, which work against local storage;
- the dashboard's status and search filter;
- its four stat cards (total, active, open punch items, overdue);
- the "New Project" submission.

Modules:

- `Text` (`text.dfy`): the JavaScript string operations the code relies on.
  These are the `\w` class, ASCII case mapping, `trim`, `includes`, the
  string `<` operator and `Number.prototype.toString`. It also proves that `<`
  on `YYYY-MM-DD` strings is calendar order.
- `Seqs` (`seqs.dfy`): `Array.prototype.filter` and the subsequence relation.
- `Projects` (`projects.dfy`): everything in `src/lib/projects.ts` that is
  modelled.
- `Dashboard` (`dashboard.dfy`): the view logic of `src/app/page.tsx`, with the
  `trades`/`subs` mix-up corrected.
- `DashboardAsWritten` (`dashboard_as_written.dfy`): the parts of that page
  that throw as written.

Inputs from the outside world are parameters:

- "today": what `new Date().toISOString().slice(0, 10)` returns.
- the clock reading `Date.now()`.
- `JSON.stringify`: a function from project lists to strings.
- `JSON.parse`: a function from strings to a `ParseResult`. The result is
  `Malformed` (the parse throws), `NotAnArray`, or an array.
- local storage: an `Option<map<string, string>>`, which is `None` when there
  is no `window`.

Notes on the code:

- `loadProjects` returns the parsed array exactly as parsed. It only checks
  that the parsed value is an array.
- `formatLabel` replaces only the first underscore, because `String.replace`
  with a string pattern replaces one occurrence.
- The dashboard builds a new project with `trades: []` and no `subs`. Its list
  rows read `project.trades`. The library's `Project` type has `subs` and no
  `trades`. Both are defects (see "## Findings"). As written, the page renders
  only when no row is listed, so the first render of the demo data throws.
  `Dashboard` models the evident intent, and `DashboardAsWritten` models the
  code as written. `Project` carries an optional `endDate`, which the dashboard
  sets and the demo data leaves out.

## Model

| member | source | states |
|---|---|---|
| Text.Trim | src/app/page.tsx:55-56 | `trim` keeps a contiguous piece of the input with no whitespace at either end; everything cut off is whitespace; the result is empty exactly when the input is all whitespace |
| Text.TrimOfPadded | src/app/page.tsx:33 | trimming undoes padding: `Trim(pre + core + post) == core` for whitespace `pre`/`post` and a `core`, possibly empty, with no whitespace at its ends |
| Text.TrimIdempotent | src/app/page.tsx:33 | trimming twice is trimming once |
| Text.ToLowerIdempotent | src/app/page.tsx:33 | lowercasing twice is lowercasing once, and leaves no uppercase ASCII letter |
| Text.Includes | src/app/page.tsx:38-39 | `includes` is true exactly when the needle occurs at some position of the text |
| Text.LexLessIff | src/lib/projects.ts:153 | string `<`: either a proper prefix, or at the first differing position the left string has the smaller character |
| Text.LexLessIrreflexive | src/lib/projects.ts:153 | no string is `<` itself |
| Text.LexLessTransitive | src/lib/projects.ts:153 | string `<` is transitive |
| Text.LexLessTotal | src/lib/projects.ts:153 | of two distinct strings, one is `<` the other |
| Text.IsoDateLexIsChronological | src/lib/projects.ts:152-153 | on `YYYY-MM-DD` dates, string `<` holds exactly when the first date is earlier by year, then month, then day |
| Text.DecimalString | src/app/page.tsx:54 | the id text is non-empty decimal digits with no leading zero, and denotes the clock reading it came from |
| Seqs.Filter | src/app/page.tsx:34-42 | `filter` returns an order-preserving subsequence that holds every accepted value as many times as the input does, and no rejected value |
| Seqs.FilterIsUnique | src/app/page.tsx:34-42 | that description admits one result only: any such subsequence is the filter's result |
| Seqs.FilterKeepsAll | src/app/page.tsx:33-37 | a filter that accepts every element returns the list unchanged |
| Seqs.FilterStricter | src/app/page.tsx:101-106 | a stricter filter's result is a subsequence of a looser one's, so it is never longer |
| Projects.FirstIndexOf | src/lib/projects.ts:137 | finds the first occurrence of a character: that position holds it, no earlier one does, and `|s|` means absent |
| Projects.FormatLabel | src/lib/projects.ts:136-137 | the label keeps the length; only the first `_` becomes a space; apart from that only lowercase letters change, and they become uppercase exactly when they start a word |
| Projects.LabelIsUnique | src/lib/projects.ts:136-137 | that description of a label allows one string only, so it fully determines `formatLabel` |
| Projects.FormatLabelOnHold | src/lib/projects.ts:136-137 | `on_hold` is shown as `On Hold` |
| Projects.FormatLabelInProgress | src/lib/projects.ts:136-137 | `in_progress` is shown as `In Progress` |
| Projects.FormatLabelTwoUnderscores | src/lib/projects.ts:136-137 | `in_progress_now` is shown as `In Progress_now`: the second `_` stays, and the letter after it is not capitalised |
| Projects.IsOverdue | src/lib/projects.ts:147-154 | never overdue without a due date, with an empty due date, or when resolved; otherwise overdue exactly when the due date sorts before today |
| Projects.OverdueMeansPastDue | src/lib/projects.ts:147-154 | for well-formed dates: overdue exactly when unresolved and due on an earlier calendar day than today |
| Projects.OverdueIsMonotoneInToday | src/lib/projects.ts:152-153 | an overdue item stays overdue on every later day, and is not overdue on its own due date |
| Projects.ProjectPunchItems | src/lib/projects.ts:185-188 | a project without sub-trades has no punch items |
| Projects.SubPunchItemsAppend | src/lib/projects.ts:185-188 | flattening keeps the sub-trade order: the items of earlier sub-trades come first |
| Projects.ProjectPunchItemsMembership | src/lib/projects.ts:185-188 | an item is listed exactly when some scope of some sub-trade of the project holds it |
| Projects.CountPunchItems | src/lib/projects.ts:185-188 | the flattened list's length is the sum, over every sub-trade and scope, of the scope's punch-item count |
| Projects.CollectPunchItems | src/lib/projects.ts:185-188 | a nested sub-trade/scope loop collects exactly the flattened list |
| Projects.DefaultProjectPunchItems | src/lib/projects.ts:54-134 | demo project "1" lists p1, p2, p3 in that order; projects "2" and "3" have no punch items |
| Projects.LoadProjects | src/lib/projects.ts:156-175 | demo data with no window, no stored value, an empty value, a failed parse or a non-array; otherwise the parsed array unchanged |
| Projects.LoadReadsOnlyStorageKey | src/lib/projects.ts:161 | loading depends on no storage key but `gc-tracker-projects` |
| Projects.SaveProjects | src/lib/projects.ts:177-183 | with a window, `gc-tracker-projects` holds the whole list's serialisation and every other key is unchanged; without one, nothing is stored |
| Projects.LoadAfterSave | src/lib/projects.ts:156-183 | a load after a save returns the saved list, provided parsing undoes serialising |
| Projects.NoWindowIgnoresSaves | src/lib/projects.ts:156-183 | outside a browser a save stores nothing and a load returns the demo data |
| Dashboard.FilteredProjects | src/app/page.tsx:32-43 | the shown projects form an order-preserving subsequence, so "Showing N of M" has N ≤ M; a project is shown exactly when its status passes and the trimmed, lowercased search text is empty or occurs in its lowercased name or address; a shown project appears as often as in the list |
| Dashboard.ShowAllWhenBlank | src/app/page.tsx:33-37 | with "all" statuses and a whitespace-only search, every project is shown, in order |
| Dashboard.SearchIgnoresPaddingAndCase | src/app/page.tsx:33 | padding the search text with whitespace, or changing its ASCII case, shows the same projects |
| Dashboard.NeedleOfPadded | src/app/page.tsx:33 | the compared search text of padded text is that of the lowercased text |
| Dashboard.AllPunchItems | src/app/page.tsx:45-48 | an item is among all punch items exactly when some project lists it |
| Dashboard.AllPunchItemsAppend | src/app/page.tsx:45-48 | the items of two lists joined are the first list's items followed by the second's |
| Dashboard.StatusBadgeLabel | src/app/page.tsx:161-162 | the status badge reads `Active`, `Completed` or `On Hold`, the same text as the drop-down's options at lines 124-127 |
| Dashboard.DashboardStats | src/app/page.tsx:93-108 | total is the project count; active ≤ total; open ≤ all punch items; overdue ≤ open |
| Dashboard.OverdueItemsAreOpenItems | src/app/page.tsx:101-106 | the overdue items are exactly the overdue ones among the open items, in the same order |
| Dashboard.DefaultStatsExample | src/app/page.tsx:93-108 | on the demo data with today 2026-02-17 the cards read 3 total, 2 active, 2 open, 2 overdue |
| Dashboard.NewProject | src/app/page.tsx:53-61 | the new project's id is the clock reading in decimal; name and address are trimmed; an empty end date is left out; it has no punch items |
| Dashboard.ScopeCount | src/app/page.tsx:143 | the task total is zero exactly when no sub-trade has a scope, and then there are no punch items |
| Dashboard.ProjectRowCounts | src/app/page.tsx:143-144 | a row counts one trade per sub-trade and the project's flattened punch items; no tasks exactly when no sub-trade has a scope; no trades means no tasks, and no tasks means no punch items |
| Dashboard.CountTasks | src/app/page.tsx:143 | the `reduce` loop over the trades adds up to the row's task count |
| Dashboard.NewProjectRowCounts | src/app/page.tsx:53-61 | a new project's row reads 0 trades, 0 tasks, 0 punch items |
| Dashboard.SubmitNewProject | src/app/page.tsx:50-72 | when the required fields are filled, the list grows by one, with the new project first and the old ones after it unchanged and in order; otherwise the list is unchanged |
| Dashboard.SubmitUpdatesStats | src/app/page.tsx:45-108 | a submission raises the total by one and the active count by one only for an active project; the open and overdue counts stay the same |
| Dashboard.NewProjectShownFirst | src/app/page.tsx:32-63 | with "all" statuses and a blank search, the new project is the first one shown |
| Dashboard.SubmissionSurvivesReload | src/app/page.tsx:28-30 | the list saved after a submission is the list the next load returns |
| DashboardAsWritten.AllEntryPunchItems | src/app/page.tsx:45-48 | as written, collecting all punch items succeeds exactly when every listed entry is a library project, not a record built by the form |
| DashboardAsWritten.AllEntryPunchItemsOfProjects | src/app/page.tsx:45-48 | on library projects, the collection as written equals the corrected one |
| DashboardAsWritten.StatsAsWritten | src/app/page.tsx:93-108 | as written, the stat values are computed exactly when every entry is a library project, and then the total is the list's length |
| DashboardAsWritten.SubmitAsWritten | src/app/page.tsx:50-72 | as written, a filled form puts in front a record with the corrected project's fields but `trades: []` in place of `subs`; otherwise the list is unchanged |
| DashboardAsWritten.SubmissionBreaksStats | src/app/page.tsx:45-108 | before a submission the stat values as written are the corrected ones; after one, computing them throws |
| DashboardAsWritten.RowCountsAsWritten | src/app/page.tsx:143-144 | as written, computing a row's counts throws for every entry |
| DashboardAsWritten.DemoRowThrows | src/app/page.tsx:142-144 | on the demo data the first row throws, where the corrected counts read 2 trades, 2 tasks, 3 punch items |
| DashboardAsWritten.ShownEntries | src/app/page.tsx:139-142 | no row is listed exactly when the filter shows no entry |
| DashboardAsWritten.RenderAsWritten | src/app/page.tsx:74-175 | as written, the page renders exactly when every entry is a library project and the filter shows none of them, and then the cards hold the stat values |
| DashboardAsWritten.ShownRowThrows | src/app/page.tsx:139-144 | as written, with "all" statuses and an empty search, any non-empty list makes the render throw |
| DashboardAsWritten.DemoFirstRenderThrows | src/app/page.tsx:16-19 | as written, the first render of the demo data throws, so no card is shown |
| DashboardAsWritten.EmptyListSubmissionBreaksRender | src/app/page.tsx:50-72 | as written, the page over an empty list renders 0/0/0/0; after a filled form is submitted there, the next render throws |

## Left out

- `formatTimestamp` (`src/lib/projects.ts:139-145`): its output depends on locale date formatting.
- `statusColors` and `priorityColors`: CSS class names, used only for presentation.
- React state, hooks, the modal, the `StatCard`/`InputField` components and all markup.
- The singular/plural wording of the row counts (`src/app/page.tsx:166-167`): markup only.
- The landing page, the layout and `next.config.ts`: markup, routing and cache headers only.
- The projects-list page (`src/app/projects/page.tsx`): it loads the stored list and renders it. It also imports `formatDate`, which `src/lib/projects.ts` does not export.
- The project-detail page (`src/app/project/[id]/page.tsx`): it is outside the modelled core. It is written against a different `Project` type, one with trades and tasks. It imports `TaskStatus`, `TaskMode`, `formatDate`, `formatDateTime`, `taskStatusColors` and `punchStatusColors`, none of which `src/lib/projects.ts` exports. Its add-trade, add-task and add-punch-item handlers (lines 91-196), its status cycling (lines 197-245) and its Gantt chart (lines 746-852) all work on that trades/tasks shape. That is the same shape the dashboard's row counts read (see Findings).
- Time and randomness: `new Date()` and `Date.now()` are parameters.
- Storage and JSON: local storage is an abstract map, and `JSON.parse` / `JSON.stringify` are abstract functions. The parsed elements are taken to be projects, as the source's cast assumes; the source checks only that the value is an array.
- Projects.LoadProjects: `window.localStorage.getItem` (`src/lib/projects.ts:161`) is outside the `try`. It can throw, for example a SecurityError when storage is blocked, and the source does not catch it. The model's load always returns a list.
- Projects.SaveProjects: `window.localStorage.setItem` (`src/lib/projects.ts:182`) can throw a QuotaExceededError or SecurityError, and the source does not catch it. The model's save always succeeds.
- Dashboard.ProjectRowCounts: reading a task as a scope is inferred. The library has no tasks; it only calls each sub-trade a trade (`src/lib/projects.ts:186`).
- Projects.Project: statuses are enums, so a stored status outside the declared values cannot be represented. The source would carry such a value through without checking it.
- Dashboard.FilteredProjects: case-insensitive matching folds only ASCII letters. `toLowerCase` also folds other scripts.
- Text.LexLessIff: compares Unicode code points. JavaScript compares UTF-16 code units, which orders the two ranges differently only for characters above U+FFFF against U+E000–U+FFFF.
- Dashboard.SubmitNewProject: the `required` check is the browser's form validation, modelled as "the field is not the empty string". A name of spaces passes it and becomes an empty name after trimming. Ids from `Date.now()` are not proved unique.
- The save-on-change effect (`src/app/page.tsx:28-30`) and the initial `loadProjects()` call are not state machines here. They are covered by `SaveProjects`, `LoadProjects` and `SubmissionSurvivesReload`.

## Findings

| source | as written | input that shows it | evidently intended | confidence | as-written member | corrected member |
|---|---|---|---|---|---|---|
| src/app/page.tsx:53-61 | the new record has `trades: []` and no `subs`. On the next render, `allPunchItems` (line 46) calls `getProjectPunchItems`, and its `project.subs.flatMap` (src/lib/projects.ts:186) throws a TypeError | a filled form submitted from the page over an empty stored list (`[]`), one of the lists on which the page as written renders at all | a new project with an empty sub-trade list, which adds no punch items and leaves the open and overdue counts as they were | high; not executed | DashboardAsWritten.EmptyListSubmissionBreaksRender | Dashboard.SubmitUpdatesStats |
| src/app/page.tsx:143-144 | each row calls `project.trades.reduce`. Library projects have `subs` and no `trades`, so the call throws. On the created record, line 144 throws instead. The cards and the rows are one returned expression, so no card is shown either | the first render of the demo data, with "all" statuses and an empty search | trades counted from `subs`, tasks from their scopes, punch items from `getProjectPunchItems` | medium (the trade and task reading is inferred); not executed | DashboardAsWritten.DemoFirstRenderThrows | Dashboard.ProjectRowCounts |
