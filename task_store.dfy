/** The state of the `TaskGrid` component and the handlers that replace it
    (client/src/components/TaskGrid.tsx). Each `useState` slot is a field;
    each handler is a method whose postcondition gives the whole new state.
    Clock reads (`Date.now()`, today's date) are parameters. */
module TaskStore {
  import opened Seqs
  import opened IsoDate
  import opened TaskModel
  import opened TaskList
  import opened TaskView

  class TaskGrid {
    var tasks: seq<Task>
    var draft: Draft
    var editingId: Option<int>
    var filterCategory: Selection<Category>
    var filterPriority: Selection<Priority>
    var sortBy: SortField
    var sortDirection: Direction
    var notification: Option<Notification>

    /** Every task carries valid dates, and the draft's due date is empty or
        a valid date with a four-digit year. */
    ghost predicate Valid()
      reads this
    {
      && AllWellDated(tasks)
      && (draft.dueDate == "" || IsIsoDate(draft.dueDate))
    }

    /** The falsy test `!editingTaskId`: no id, or the id 0. */
    predicate NotEditing()
      reads this
    {
      editingId == None || editingId == Some(0)
    }

    /** The initial `useState` values. */
    constructor ()
      ensures Valid()
      ensures tasks == InitialTasks && draft == EmptyDraft && editingId == None
      ensures filterCategory == All && filterPriority == All
      ensures sortBy == ByDueDate && sortDirection == Asc && notification == None
    {
      InitialTasksWellDated();
      AllWellDatedIff(InitialTasks);
      tasks := InitialTasks;
      draft := EmptyDraft;
      editingId := None;
      filterCategory := All;
      filterPriority := All;
      sortBy := ByDueDate;
      sortDirection := Asc;
      notification := None;
    }

    /** `filteredAndSortedTasks`: drawn from the task list, never more
        copies of a task than the list holds. */
    function VisibleTasks(): (r: seq<Task>)
      reads this
      ensures multiset(r) <= multiset(tasks)
    {
      FilterTasksSpec(tasks, filterCategory, filterPriority);
      VisibleSpec(tasks, filterCategory, filterPriority, sortBy, sortDirection);
      Visible(tasks, filterCategory, filterPriority, sortBy, sortDirection)
    }

    /** `taskCounts`, for the clock's today and tomorrow. The completed
        count is the size of the Completed tab of the whole list. In a valid state
        the string tests count by the calendar: overdue are the open tasks due
        before today, due today the open tasks due on it. */
    function CurrentCounts(today: string, tomorrow: string): (c: TaskCounts)
      reads this
      ensures c.total == |tasks| && c.overdue + c.dueToday + c.completed <= c.total
      ensures c.completed == |CompletedTab(tasks)|
      ensures Valid() && IsIsoDate(today) ==>
                && c.overdue == Count(tasks, (t: Task) => !t.completed && DateKey(t.dueDate) < DateKey(today))
                && c.dueToday == Count(tasks, (t: Task) => !t.completed && DateKey(t.dueDate) == DateKey(today))
    {
      WellDatedCountsByCalendar(tasks, today, tomorrow);
      Counts(tasks, today, tomorrow)
    }

    /** `addTask`, with `Date.now()` as `now` and the current date as
        `currentDate`. A draft without a title or a due date is refused with
        an error notification and nothing else changes; otherwise the new
        task goes at the end, the draft resets and a success notification is
        set. */
    method AddTask(now: int, currentDate: string)
      requires Valid() && IsIsoDate(currentDate)
      modifies this
      ensures Valid()
      ensures DraftError(old(draft)).Some? ==>
                && tasks == old(tasks) && draft == old(draft)
                && notification == DraftError(old(draft))
      ensures DraftError(old(draft)) == None ==>
                && tasks == old(tasks) + [NewTask(now, old(draft), currentDate)]
                && draft == EmptyDraft && notification == Some(TaskAdded)
      ensures editingId == old(editingId)
      ensures filterCategory == old(filterCategory) && filterPriority == old(filterPriority)
      ensures sortBy == old(sortBy) && sortDirection == old(sortDirection)
      ensures (UniqueIds(old(tasks)) && forall i :: 0 <= i < |old(tasks)| ==> old(tasks)[i].id != now)
                ==> UniqueIds(tasks)
    {
      var error := DraftError(draft);
      if error.Some? {
        notification := error;
        return;
      }
      var task := NewTask(now, draft, currentDate);
      if UniqueIds(tasks) && forall i :: 0 <= i < |tasks| ==> tasks[i].id != now {
        AppendKeepsUniqueIds(tasks, task);
      }
      AppendKeepsWellDated(tasks, task);
      tasks := tasks + [task];
      draft := EmptyDraft;
      notification := Some(TaskAdded);
    }

    /** `updateTask`. With no task being edited it does nothing at all. A
        draft without a title or due date is refused as in `AddTask`.
        Otherwise every task with the edited id takes the draft's fields,
        the draft resets, editing ends and a success notification is set. */
    method UpdateTask()
      requires Valid()
      modifies this
      ensures Valid()
      ensures old(NotEditing()) ==>
                && tasks == old(tasks) && draft == old(draft)
                && editingId == old(editingId) && notification == old(notification)
      ensures !old(NotEditing()) && DraftError(old(draft)).Some? ==>
                && tasks == old(tasks) && draft == old(draft)
                && editingId == old(editingId) && notification == DraftError(old(draft))
      ensures !old(NotEditing()) && DraftError(old(draft)) == None ==>
                && tasks == UpdateId(old(tasks), old(editingId).value, old(draft))
                && draft == EmptyDraft && editingId == None
                && notification == Some(TaskUpdated)
      ensures filterCategory == old(filterCategory) && filterPriority == old(filterPriority)
      ensures sortBy == old(sortBy) && sortDirection == old(sortDirection)
    {
      if NotEditing() {
        return;
      }
      var error := DraftError(draft);
      if error.Some? {
        notification := error;
        return;
      }
      UpdateKeepsWellDated(tasks, editingId.value, draft);
      tasks := UpdateId(tasks, editingId.value, draft);
      draft := EmptyDraft;
      editingId := None;
      notification := Some(TaskUpdated);
    }

    /** `deleteTask`: keep the tasks with a different id and report it. */
    method DeleteTask(id: int)
      requires Valid()
      modifies this
      ensures Valid()
      ensures tasks == RemoveId(old(tasks), id) && notification == Some(TaskDeleted)
      ensures draft == old(draft) && editingId == old(editingId)
      ensures filterCategory == old(filterCategory) && filterPriority == old(filterPriority)
      ensures sortBy == old(sortBy) && sortDirection == old(sortDirection)
    {
      RemoveKeepsWellDated(tasks, id);
      tasks := RemoveId(tasks, id);
      notification := Some(TaskDeleted);
    }

    /** `toggleTaskCompletion`: flip the flag of the tasks with that id; no
        notification. */
    method ToggleTaskCompletion(id: int)
      requires Valid()
      modifies this
      ensures Valid()
      ensures tasks == ToggleId(old(tasks), id)
      ensures draft == old(draft) && editingId == old(editingId) && notification == old(notification)
      ensures filterCategory == old(filterCategory) && filterPriority == old(filterPriority)
      ensures sortBy == old(sortBy) && sortDirection == old(sortDirection)
    {
      ToggleKeepsWellDated(tasks, id);
      tasks := ToggleId(tasks, id);
    }

    /** `startEditing`, called from a row of the list: copy the task into
        the draft and remember its id. */
    method StartEditing(task: Task)
      requires Valid() && task in tasks
      modifies this
      ensures Valid()
      ensures draft == DraftOf(task) && editingId == Some(task.id)
      ensures tasks == old(tasks) && notification == old(notification)
      ensures filterCategory == old(filterCategory) && filterPriority == old(filterPriority)
      ensures sortBy == old(sortBy) && sortDirection == old(sortDirection)
    {
      MemberWellDated(tasks, task);
      draft := DraftOf(task);
      editingId := Some(task.id);
    }

    /** `cancelEditing`: reset the draft and stop editing. */
    method CancelEditing()
      requires Valid()
      modifies this
      ensures Valid()
      ensures draft == EmptyDraft && editingId == None
      ensures tasks == old(tasks) && notification == old(notification)
      ensures filterCategory == old(filterCategory) && filterPriority == old(filterPriority)
      ensures sortBy == old(sortBy) && sortDirection == old(sortDirection)
    {
      draft := EmptyDraft;
      editingId := None;
    }

    /** `toggleSort`: the current key flips direction, another key becomes
        the key in ascending direction. */
    method ToggleSort(field: SortField)
      modifies this
      ensures old(sortBy) == field ==>
                sortBy == field && sortDirection == (if old(sortDirection) == Asc then Desc else Asc)
      ensures old(sortBy) != field ==> sortBy == field && sortDirection == Asc
      ensures tasks == old(tasks) && draft == old(draft) && editingId == old(editingId)
      ensures notification == old(notification)
      ensures filterCategory == old(filterCategory) && filterPriority == old(filterPriority)
    {
      if sortBy == field {
        sortDirection := if sortDirection == Asc then Desc else Asc;
      } else {
        sortBy := field;
        sortDirection := Asc;
      }
    }

    /** The category filter's `onChange`. */
    method SetFilterCategory(c: Selection<Category>)
      modifies this`filterCategory
      ensures filterCategory == c
    {
      filterCategory := c;
    }

    /** The priority filter's `onChange`. */
    method SetFilterPriority(p: Selection<Priority>)
      modifies this`filterPriority
      ensures filterPriority == p
    {
      filterPriority := p;
    }

    /** The form fields' `onChange`: `setNewTask({ ...newTask, field: value })`. */
    method SetDraftTitle(title: string)
      modifies this`draft
      ensures draft == old(draft).(title := title)
    {
      draft := draft.(title := title);
    }

    method SetDraftDescription(description: string)
      modifies this`draft
      ensures draft == old(draft).(description := description)
    {
      draft := draft.(description := description);
    }

    method SetDraftCategory(category: Category)
      modifies this`draft
      ensures draft == old(draft).(category := category)
    {
      draft := draft.(category := category);
    }

    method SetDraftPriority(priority: Priority)
      modifies this`draft
      ensures draft == old(draft).(priority := priority)
    {
      draft := draft.(priority := priority);
    }

    /** The date input's `onChange`, for an empty string or a valid date
        with a four-digit year. */
    method SetDraftDueDate(dueDate: string)
      requires Valid() && (dueDate == "" || IsIsoDate(dueDate))
      modifies this`draft
      ensures Valid()
      ensures draft == old(draft).(dueDate := dueDate)
    {
      draft := draft.(dueDate := dueDate);
    }
  }

  /** Every task of `s` is `WellDated`. */
  ghost predicate AllWellDated(s: seq<Task>) {
    s == [] || (WellDated(s[0]) && AllWellDated(s[1..]))
  }

  lemma {:induction false} AllWellDatedIff(s: seq<Task>)
    ensures AllWellDated(s) <==> forall i :: 0 <= i < |s| ==> WellDated(s[i])
  {
    if s != [] {
      AllWellDatedIff(s[1..]);
      assert forall i :: 1 <= i < |s| ==> s[i] == s[1..][i - 1];
    }
  }

  /** The counts of a well-dated list, for a valid today, follow the calendar. */
  lemma WellDatedCountsByCalendar(s: seq<Task>, today: string, tomorrow: string)
    ensures AllWellDated(s) && IsIsoDate(today) ==>
              && Counts(s, today, tomorrow).overdue
                 == Count(s, (t: Task) => !t.completed && DateKey(t.dueDate) < DateKey(today))
              && Counts(s, today, tomorrow).dueToday
                 == Count(s, (t: Task) => !t.completed && DateKey(t.dueDate) == DateKey(today))
  {
    if AllWellDated(s) && IsIsoDate(today) {
      AllWellDatedIff(s);
      CountsByCalendar(s, today, tomorrow);
    }
  }

  /** A task of a well-dated list is well dated. */
  lemma MemberWellDated(s: seq<Task>, t: Task)
    requires AllWellDated(s) && t in s
    ensures WellDated(t)
  {
    AllWellDatedIff(s);
  }

  lemma AppendKeepsWellDated(s: seq<Task>, t: Task)
    requires AllWellDated(s) && WellDated(t)
    ensures AllWellDated(s + [t])
  {
    AllWellDatedIff(s);
    AllWellDatedIff(s + [t]);
  }

  lemma RemoveKeepsWellDated(s: seq<Task>, id: int)
    requires AllWellDated(s)
    ensures AllWellDated(RemoveId(s, id))
  {
    var r := RemoveId(s, id);
    AllWellDatedIff(s);
    AllWellDatedIff(r);
    forall i | 0 <= i < |r| ensures WellDated(r[i]) {
      var j :| 0 <= j < |s| && s[j] == r[i];
    }
  }

  lemma ToggleKeepsWellDated(s: seq<Task>, id: int)
    requires AllWellDated(s)
    ensures AllWellDated(ToggleId(s, id))
  {
    AllWellDatedIff(s);
    AllWellDatedIff(ToggleId(s, id));
  }

  lemma UpdateKeepsWellDated(s: seq<Task>, id: int, d: Draft)
    requires AllWellDated(s) && IsIsoDate(d.dueDate)
    ensures AllWellDated(UpdateId(s, id, d))
  {
    var r := UpdateId(s, id, d);
    AllWellDatedIff(s);
    AllWellDatedIff(r);
    forall i | 0 <= i < |r| ensures WellDated(r[i]) {
      if s[i].id == id {
        assert r[i].dueDate == DraftOf(r[i]).dueDate;
      }
    }
  }

  /** Starting to edit a task and cancelling leaves the list as it was, the
      draft at its defaults and nothing being edited. */
  method EditThenCancel(g: TaskGrid, task: Task)
    requires g.Valid() && task in g.tasks
    modifies g
    ensures g.Valid()
    ensures g.tasks == old(g.tasks) && g.draft == EmptyDraft && g.editingId == None
  {
    g.StartEditing(task);
    g.CancelEditing();
  }

  /** Toggling a task twice through the handler restores the list. */
  method ToggleTwiceRestores(g: TaskGrid, id: int)
    requires g.Valid()
    modifies g
    ensures g.Valid() && g.tasks == old(g.tasks)
  {
    g.ToggleTaskCompletion(id);
    g.ToggleTaskCompletion(id);
    ToggleTwice(old(g.tasks), id);
  }
}
