# Task manager and dashboard data, modelled in Dafny

This project models the logic of two React components of a portfolio site.

- **The task manager** (`client/src/components/TaskGrid.tsx`):
  - the state the component holds: the task list, the draft form, the
    edited id, the two filters, the sort key and direction, and the
    notification;
  - the handlers that change that state: add, update, delete, toggle,
    start and cancel editing, the sort toggle, and the form and filter
    setters;
  - what is derived on every render: the filtered and sorted list, each
    task's due-date status, the summary counts, and the Active and
    Completed tabs.
- **The analytics dashboard** (`client/src/components/DashboardGrid.tsx`):
  the fixed twelve-month data set and the timeframe selector, which shows
  the last quarter, the last half year or the whole year.

Modules:

- `Seqs` (`seqs.dfy`): `Array.prototype.filter` and counting what a filter
  keeps, with their laws (subsequence, multiset contents, partition).
- `IsoDate` (`iso_date.dfy`): `YYYY-MM-DD` strings, defined through
  `IsIsoDate`; their calendar key `DateKey` (year·10000 + month·100 + day);
  and JavaScript's `<` on strings (`StrLess`). `DateOrderAgrees` proves that
  on valid dates the string order *is* the calendar order. The code relies
  on that fact when `getDueDateStatus` compares strings with `<`.
- `StableSort` (`stable_sort.dfy`): `Array.prototype.sort` as ECMA-262
  (section 23.1.3.30) specifies it for a consistent comparator:
  - the result is sorted and a permutation of the input;
  - the sort is stable;
  - and `StableSortUnique` shows the result is *determined*: any sorted,
    tie-preserving permutation equals it.
- `TaskModel` (`task_model.dfy`): the task record, the draft, the
  notifications, `String.prototype.trim`, the validation the add and update
  handlers share, and the five sample tasks.
- `TaskList` (`task_list.dfy`): the new lists the handlers pass to
  `setTasks`, namely `filter` by id, `map` toggling a flag and `map`
  merging the draft.
- `TaskView` (`task_view.dfy`): the filter–sort pipeline, the due-date
  status, `getTaskCounts` and the two tabs.
- `TaskStore` (`task_store.dfy`): class `TaskGrid`, whose fields are the
  component's `useState` slots and whose methods are its handlers.
  - Each method states the whole new state.
  - `Valid()` is an invariant that every handler preserves: every task
    carries valid dates, and the draft's due date is empty or valid.
- `TaskExamples` (`task_examples.dfy`): the default view of the sample
  tasks, and the counts for tasks due yesterday, today and later.
- `Dashboard` (`dashboard.dfy`): `monthlyData`, `slice` with one argument,
  and `getFilteredData`.

Clock reads are parameters:

- `Date.now()` for a new task's id;
- `new Date().toISOString().split('T')[0]` for the creation date and for
  "today";
- the computed string for "tomorrow".

State that React batches into one render is updated in one method call.

Points where the model follows the code's details:

- `updateTask` returns early on `!editingTaskId`. Both `null` and the id
  `0` are falsy, so the test is true for either, and `NotEditing` covers both.
- `deleteTask` leaves `editingTaskId` in place. If the edited task is
  deleted and the form is then saved, `updateTask` reports
  "Task updated successfully", but the list is unchanged
  (`TaskList.AbsentIdChangesNothing`).
- `sortBy` can be `createdAt`, and the comparator handles it, but no column
  header calls `toggleSort('createdAt')`. Only title, priority and due date
  have buttons (TaskGrid.tsx:348-367).
- `getDueDateStatus` compares the date strings with `<`. That agrees with
  the calendar only while both years have four digits. A date input also
  accepts years of five or more digits, and for those it does not agree:
  `TaskExamples.FiveDigitYearIsOverdue` shows a task due in the year 20251
  classified as overdue in 2026.

## Model

| member | source | states |
|---|---|---|
| TaskModel.Rank | client/src/components/TaskGrid.tsx:95-96 | the priority ranks lie in 1..3; High is exactly rank 3 and Low exactly rank 1 |
| TaskModel.TrimCutsEnds | client/src/components/TaskGrid.tsx:108 | `trim()` returns a contiguous middle part of the string, with only white space before it and after it |
| TaskModel.TrimEmptyIff | client/src/components/TaskGrid.tsx:108 | `trim()` yields the empty string exactly when every character is ECMA-262 white space or a line terminator |
| TaskModel.BlankIsTrimEmpty | client/src/components/TaskGrid.tsx:108 | the blank-title test holds exactly when `trim()` yields the empty string, and exactly when every character is white space |
| TaskModel.DraftError | client/src/components/TaskGrid.tsx:108-116 | a draft passes exactly when its title has a non-space character and its due date is non-empty; every refusal is an error notification |
| TaskModel.DraftErrorSpec | client/src/components/TaskGrid.tsx:108-116 | the title error is reported exactly when the title trims to nothing; the due-date error exactly when the title is present but the date is empty; both directions |
| TaskModel.Trim | client/src/components/TaskGrid.tsx:108 | `trim()` never lengthens a string; what it returns is empty or starts and ends with a non-space character; a string that already does so comes back unchanged |
| TaskModel.NewTask | client/src/components/TaskGrid.tsx:119-124 | the new task has the clock's id and creation date, starts open, and its five form fields are the draft's |
| TaskModel.ApplyDraft | client/src/components/TaskGrid.tsx:152 | `{ ...task, ...newTask }` is the task a new task from the form would be, but with the old task's id, completed flag and creation date |
| TaskModel.DraftOf | client/src/components/TaskGrid.tsx:181-187 | the form filled from a task is exactly what, merged back over that task, gives the task back |
| TaskModel.InitialTasks | client/src/components/TaskGrid.tsx:8-59 | the five sample tasks, field by field |
| TaskModel.InitialIdsUnique | client/src/components/TaskGrid.tsx:8-59 | the five sample tasks have distinct ids |
| TaskModel.InitialTasksWellDated | client/src/components/TaskGrid.tsx:8-59 | every sample due date and creation date is a valid calendar date |
| IsoDate.StrLess | client/src/components/TaskGrid.tsx:226 | JavaScript's `<` on strings never holds between a string and itself, and a proper prefix is below the longer string |
| IsoDate.DateKey | client/src/components/TaskGrid.tsx:93-100 | a valid date's key lies within its year's band (year·10000 + 101 to year·10000 + 1231), so an earlier year always has a smaller key; a non-date gets key 0 |
| IsoDate.DateOrderAgrees | client/src/components/TaskGrid.tsx:226-227 | on valid dates, string `<` holds exactly when the calendar key is smaller, and string equality exactly when the keys are equal |
| IsoDate.StrLessTotal | client/src/components/TaskGrid.tsx:226 | any two strings are equal or ordered one way by `<` |
| IsoDate.StrLessTransitive | client/src/components/TaskGrid.tsx:226 | string `<` is transitive |
| StableSort.Sort | client/src/components/TaskGrid.tsx:89 | the sort's output is a permutation of its input |
| StableSort.SortIsSorted | client/src/components/TaskGrid.tsx:89-104 | for a consistent comparator the sort's output is ordered |
| StableSort.SortIsStable | client/src/components/TaskGrid.tsx:89-104 | the elements that compare equal to any given one keep their relative order |
| StableSort.SortIsTheStableSort | client/src/components/TaskGrid.tsx:89-104 | every sorted, order-preserving permutation of the input equals the sort's output, so the stable sort is unique |
| StableSort.FilterSorted | client/src/components/TaskGrid.tsx:486 | filtering an ordered list leaves it ordered |
| TaskList.RemoveId | client/src/components/TaskGrid.tsx:168 | every task kept is from the list and has another id; every task of the list with another id is kept |
| TaskList.RemoveIdSpec | client/src/components/TaskGrid.tsx:167-168 | deleting keeps, in order, exactly the tasks with another id, with every copy of each; the length drops by the number of tasks with that id; an absent id changes nothing |
| TaskList.RemovePresentId | client/src/components/TaskGrid.tsx:167-168 | with distinct ids, deleting a present id removes exactly one task |
| TaskList.ToggleId | client/src/components/TaskGrid.tsx:172-178 | the length is kept; tasks with the id have only their completed flag flipped; every other task is untouched |
| TaskList.ToggleTwice | client/src/components/TaskGrid.tsx:172-178 | toggling the same id twice restores the list |
| TaskList.UpdateId | client/src/components/TaskGrid.tsx:150-154 | the length is kept; tasks with the id take the form's five fields and keep their id, completed flag and creation date; every other task is untouched |
| TaskList.UpdateWithOwnDraft | client/src/components/TaskGrid.tsx:150-154 | with distinct ids, saving a task's own form back over it leaves the list unchanged |
| TaskList.AbsentIdChangesNothing | client/src/components/TaskGrid.tsx:150-154 | an id no task carries leaves the list unchanged under a toggle and under an update |
| TaskList.IdsKept | client/src/components/TaskGrid.tsx:150-154 | toggle and update never change any task's id |
| TaskList.AppendKeepsUniqueIds | client/src/components/TaskGrid.tsx:119-126 | appending a task whose id is new keeps the ids distinct |
| TaskList.RemoveKeepsUniqueIds | client/src/components/TaskGrid.tsx:167-168 | deleting never creates duplicate ids |
| TaskList.ToggleKeepsUniqueIds | client/src/components/TaskGrid.tsx:172-178 | toggling never creates duplicate ids |
| TaskList.UpdateKeepsUniqueIds | client/src/components/TaskGrid.tsx:150-154 | updating never creates duplicate ids |
| TaskView.FilterTasks | client/src/components/TaskGrid.tsx:84-88 | every task kept is from the list and matches both selections; every task of the list that matches is kept |
| TaskView.FilterTasksSpec | client/src/components/TaskGrid.tsx:83-88 | the filter keeps, in order, exactly the tasks whose category and priority match the selections ('All' matches anything), with every copy of each; with both set to 'All' it keeps the whole list |
| TaskView.KeyCompare | client/src/components/TaskGrid.tsx:90-101 | before the direction applies, a task sorts first when it is due earlier, has the higher priority, has the alphabetically smaller title, or was created later; it ties exactly when that key is equal |
| TaskView.Compare | client/src/components/TaskGrid.tsx:103 | 'asc' keeps the key's order, 'desc' reverses which task goes first; ties stay ties in both |
| TaskView.TitleCompare | client/src/components/TaskGrid.tsx:98 | the title comparison is negative exactly when the first title sorts first, and zero exactly for equal titles |
| TaskView.ComparatorConsistent | client/src/components/TaskGrid.tsx:89-104 | the sort callback is a consistent comparator (antisymmetric in sign, transitive) for every key and direction |
| TaskView.Visible | client/src/components/TaskGrid.tsx:83-104 | the visible list is a permutation of the filtered list, so it is no longer than the task list |
| TaskView.VisibleSpec | client/src/components/TaskGrid.tsx:83-104 | the visible list is a permutation of the filtered list, ordered by the callback, and tasks that compare equal keep their list order |
| TaskView.VisibleIsTheStableSort | client/src/components/TaskGrid.tsx:83-104 | any stable sort of the filtered list, which ECMA-262 requires `sort` to be, equals the visible list |
| TaskView.VisibleKeyOrder | client/src/components/TaskGrid.tsx:89-104 | in the visible list: due dates ascend, High precedes Low, titles are alphabetical, and creation dates run newest first; 'desc' reverses each of these |
| TaskView.DueDateStatus | client/src/components/TaskGrid.tsx:220-230 | 'today' exactly for the today string; 'overdue' only for strings before today; 'tomorrow' only for the tomorrow string when it is not today; 'upcoming' only for the rest |
| TaskView.DueDateStatusByCalendar | client/src/components/TaskGrid.tsx:220-230 | on valid dates, overdue holds exactly for dates before today and due-today exactly for today; a later date is 'tomorrow' when it equals the tomorrow string and 'upcoming' otherwise |
| TaskView.Counts | client/src/components/TaskGrid.tsx:233-240 | the total is the list length; the completed count is the size of the Completed tab of the list, so it counts every completed task whatever its dates; the overdue, due-today and completed counts sum to at most the total |
| TaskView.CountsByCalendar | client/src/components/TaskGrid.tsx:233-240 | on valid dates the overdue count is the number of open tasks due before today, and the due-today count those due on today |
| TaskView.CountsAfterDelete | client/src/components/TaskGrid.tsx:167-168 | with distinct ids, deleting a present task lowers the total by one |
| TaskView.ActiveTab | client/src/components/TaskGrid.tsx:486 | the Active tab holds tasks of the visible list that are open, and every open visible task |
| TaskView.CompletedTab | client/src/components/TaskGrid.tsx:579 | the Completed tab holds tasks of the visible list that are completed, and every completed visible task |
| TaskView.TabsPartition | client/src/components/TaskGrid.tsx:486 | the Active and Completed tabs are subsequences of the visible list, hold only open and only completed tasks respectively, and together hold every visible task once |
| TaskView.TabsSorted | client/src/components/TaskGrid.tsx:579 | both tabs keep the visible list's order |
| TaskStore.TaskGrid.constructor | client/src/components/TaskGrid.tsx:63-76 | the initial state: the sample tasks, an empty draft (Work, Medium), nothing edited, both filters 'All', due date ascending, no notification; the invariant holds |
| TaskStore.TaskGrid.NotEditing | client/src/components/TaskGrid.tsx:138 | the test `!editingTaskId`: true for no id and for the falsy id 0 |
| TaskStore.TaskGrid.VisibleTasks | client/src/components/TaskGrid.tsx:83-104 | the rendered list never holds more copies of a task than the task list does |
| TaskStore.TaskGrid.CurrentCounts | client/src/components/TaskGrid.tsx:233-242 | the summary total is the number of tasks and bounds the other three counts; completed is the number of completed tasks, whatever their dates; in a valid state and for a valid today, overdue counts the open tasks due before today and due-today those due on it |
| TaskStore.TaskGrid.AddTask | client/src/components/TaskGrid.tsx:107-135 | a refused draft sets only the error; otherwise the new task (clock id, form fields, open, today's creation date) is appended, the form resets and success is reported; filters, sort and edited id are unchanged; a fresh id keeps ids distinct; the invariant holds |
| TaskStore.TaskGrid.UpdateTask | client/src/components/TaskGrid.tsx:137-165 | with no edited id (null or 0) nothing changes; a refused draft sets only the error; otherwise every task with the edited id takes the form, the form resets, editing ends and success is reported; the invariant holds |
| TaskStore.TaskGrid.DeleteTask | client/src/components/TaskGrid.tsx:167-170 | the list loses the tasks with that id and "Task deleted" is shown; nothing else changes; the invariant holds |
| TaskStore.TaskGrid.ToggleTaskCompletion | client/src/components/TaskGrid.tsx:172-178 | the list becomes the toggled list; no notification; nothing else changes; the invariant holds |
| TaskStore.TaskGrid.StartEditing | client/src/components/TaskGrid.tsx:180-189 | the form holds the task's five fields and the edited id is the task's; nothing else changes |
| TaskStore.TaskGrid.CancelEditing | client/src/components/TaskGrid.tsx:191-200 | the form resets and nothing is edited; nothing else changes |
| TaskStore.TaskGrid.ToggleSort | client/src/components/TaskGrid.tsx:202-210 | the current key flips direction; another key becomes the key, ascending; nothing else changes |
| TaskStore.TaskGrid.SetFilterCategory | client/src/components/TaskGrid.tsx:315 | the category filter takes the selected value |
| TaskStore.TaskGrid.SetFilterPriority | client/src/components/TaskGrid.tsx:328 | the priority filter takes the selected value |
| TaskStore.TaskGrid.SetDraftTitle | client/src/components/TaskGrid.tsx:640 | only the form's title changes |
| TaskStore.TaskGrid.SetDraftDescription | client/src/components/TaskGrid.tsx:650 | only the form's description changes |
| TaskStore.TaskGrid.SetDraftCategory | client/src/components/TaskGrid.tsx:662 | only the form's category changes |
| TaskStore.TaskGrid.SetDraftPriority | client/src/components/TaskGrid.tsx:675 | only the form's priority changes |
| TaskStore.TaskGrid.SetDraftDueDate | client/src/components/TaskGrid.tsx:686-689 | only the form's due date changes, to an empty string or a valid date with a four-digit year; the invariant holds |
| TaskStore.EditThenCancel | client/src/components/TaskGrid.tsx:180-200 | starting to edit and then cancelling leaves the list as it was, the form at its defaults and nothing edited |
| TaskStore.ToggleTwiceRestores | client/src/components/TaskGrid.tsx:172-178 | toggling the same task twice through the handler restores the list |
| TaskExamples.InitialDefaultView | client/src/components/TaskGrid.tsx:8-59 | the default view (all categories and priorities, due date ascending) of the sample tasks lists ids 4, 2, 3, 1, 5; the two tasks due on Feb 28 keep their list order |
| TaskExamples.FiveDigitYearIsOverdue | client/src/components/TaskGrid.tsx:226 | a due date in the year 20251, which is not a four-digit-year date, is classified overdue on 2026-10-14, because the string test compares characters, not years |
| TaskExamples.ThreeOpenTasksCounts | client/src/components/TaskGrid.tsx:233-240 | three open tasks due before today, today and after today give overdue 1, due today 1, completed 0, total 3 |
| Dashboard.MonthlyData | client/src/components/DashboardGrid.tsx:11-24 | the twelve monthly rows, Jan to Dec, with the source's figures |
| Dashboard.SliceFrom | client/src/components/DashboardGrid.tsx:66-68 | `slice(start)` is the suffix from the clamped start: a negative start keeps the last `-start` elements, or all of them when there are fewer |
| Dashboard.FilteredData | client/src/components/DashboardGrid.tsx:64-71 | the result is a suffix of the monthly data: 3 months for 'quarter', 6 for 'halfYear', all 12 otherwise |
| Dashboard.QuarterIsLastThree | client/src/components/DashboardGrid.tsx:65-66 | 'quarter' shows Oct, Nov, Dec in that order |
| Dashboard.HalfYearIsLastSix | client/src/components/DashboardGrid.tsx:67-68 | 'halfYear' shows Jul to Dec in that order |
| Dashboard.OtherTimeframesShowAll | client/src/components/DashboardGrid.tsx:64-71 | every other timeframe, including the default 'year', shows all twelve rows unchanged |
| Dashboard.ProfitIsRevenueLessExpenses | client/src/components/DashboardGrid.tsx:11-24 | every month's profit equals its revenue minus its expenses |
| Dashboard.FilteredProfitConsistent | client/src/components/DashboardGrid.tsx:64-71 | every row of every timeframe's view satisfies profit = revenue − expenses |

## Left out

- JSX rendering, CSS classes, icons and the empty-list messages: these are presentation only.
- The `setTimeout` that clears the notification after 3000 ms is timing behaviour. `showNotification` is modelled as setting the notification.
- Clocks are parameters:
  - `Date.now()` and today's date are parameters of `AddTask`;
  - "today" and "tomorrow" are parameters of `DueDateStatus` and `Counts`.
  - Computing tomorrow with `setDate` and converting it to UTC with `toISOString` is not modelled.
- `localeCompare` is modelled as code-point lexicographic order (`StrLess`). Locale collation is not modelled, and neither is the UTF-16 code-unit order of `<` for characters outside the Basic Multilingual Plane.
- `new Date(a) - new Date(b)` is modelled as the difference of calendar keys.
  - This has the same sign as the millisecond difference on valid dates, and only the sign reaches `sort`.
  - An unparsable date, for which JavaScript gives `NaN`, gets key 0 here. Only empty strings and valid dates with four-digit years are in scope. A date input can also give years of five or more digits, which are outside the model (next line).
- TaskStore.TaskGrid.SetDraftDueDate: requires an empty string or a valid date with a four-digit year, and `Valid()` keeps every stored due date to that form. A browser date input also yields years of five or more digits (such as `20251-03-01`), which the source stores and `addTask` appends. For those dates the model does not prove that the due-date status and the counts follow the calendar, and the string test does not: `TaskExamples.FiveDigitYearIsOverdue` shows such a date called overdue. Admitting them would also need `new Date` on such a string, which ECMA-262 leaves to each engine.
- Category, priority, sort key and direction are closed datatypes. The `<select>` string values outside those sets, which the UI never offers, are not modelled.
- Task ids are unbounded integers rather than floating-point numbers.
- The handlers do not require distinct ids, since the clock can repeat a value. Uniqueness is proved as preserved: by the list lemmas for delete, toggle and update, and at the class level by `AddTask` for a fresh id.
- The dashboard's `categoryData`, `regionData`, `kpiData`, colour table, charts, `chartType` state and pie-label percentage formatting are presentation and floating-point output.
- The other pages and components of the site (navigation, hero, project cards, contact form) are not part of this model.
