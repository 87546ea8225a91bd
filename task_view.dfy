/** What TaskGrid.tsx derives from its state on every render: the
    filtered-and-sorted task list, the due-date status of a task, the summary
    counts and the Active / Completed tabs. */
module TaskView {
  import opened Seqs
  import opened IsoDate
  import opened StableSort
  import opened TaskModel
  import opened TaskList

  /** A filter selection: 'All' or one value. */
  datatype Selection<T> = All | Only(value: T)

  /** The `sortBy` keys. */
  datatype SortField = ByDueDate | ByPriority | ByTitle | ByCreatedAt

  datatype Direction = Asc | Desc

  /** The filter callback: category and priority each match or are 'All'. */
  predicate Matches(t: Task, fc: Selection<Category>, fp: Selection<Priority>) {
    (fc.All? || t.category == fc.value) && (fp.All? || t.priority == fp.value)
  }

  function FilterTasks(s: seq<Task>, fc: Selection<Category>, fp: Selection<Priority>): (r: seq<Task>)
    ensures forall i :: 0 <= i < |r| ==> r[i] in s && Matches(r[i], fc, fp)
    ensures forall i :: 0 <= i < |s| && Matches(s[i], fc, fp) ==> s[i] in r
  {
    Filter(s, (t: Task) => Matches(t, fc, fp))
  }

  /** The filter keeps exactly the tasks whose category and priority match
      (or are not filtered), every copy of them, in their original order;
      with both filters at 'All' it keeps the whole list. */
  lemma FilterTasksSpec(s: seq<Task>, fc: Selection<Category>, fp: Selection<Priority>)
    ensures IsSubseq(FilterTasks(s, fc, fp), s)
    ensures forall t :: multiset(FilterTasks(s, fc, fp))[t] ==
              if (fc.All? || t.category == fc.value) && (fp.All? || t.priority == fp.value)
              then multiset(s)[t] else 0
    ensures fc.All? && fp.All? ==> FilterTasks(s, fc, fp) == s
  {
    FilterSpec(s, (t: Task) => Matches(t, fc, fp));
    if fc.All? && fp.All? {
      FilterAll(s, (t: Task) => Matches(t, fc, fp));
    }
  }

  /** `localeCompare`, taken as plain lexicographic order. */
  function TitleCompare(a: string, b: string): (r: int)
    ensures r < 0 <==> StrLess(a, b)
    ensures r == 0 <==> a == b
  {
    if StrLess(a, b) then -1 else if a == b then 0 else 1
  }

  /** The `comparison` of the sort callback before the direction applies.
      Priority and creation date compare `b` against `a`, so 'asc' puts High
      first and the newest first. */
  function KeyCompare(key: SortField, a: Task, b: Task): (r: int)
    ensures key == ByDueDate ==>
              (r < 0 <==> DateKey(a.dueDate) < DateKey(b.dueDate)) && (r == 0 <==> DateKey(a.dueDate) == DateKey(b.dueDate))
    ensures key == ByPriority ==>
              (r < 0 <==> Rank(a.priority) > Rank(b.priority)) && (r == 0 <==> a.priority == b.priority)
    ensures key == ByTitle ==>
              (r < 0 <==> StrLess(a.title, b.title)) && (r == 0 <==> a.title == b.title)
    ensures key == ByCreatedAt ==>
              (r < 0 <==> DateKey(a.createdAt) > DateKey(b.createdAt)) && (r == 0 <==> DateKey(a.createdAt) == DateKey(b.createdAt))
  {
    match key
    case ByDueDate => DateKey(a.dueDate) - DateKey(b.dueDate)
    case ByPriority => Rank(b.priority) - Rank(a.priority)
    case ByTitle => TitleCompare(a.title, b.title)
    case ByCreatedAt => DateKey(b.createdAt) - DateKey(a.createdAt)
  }

  /** The sort callback: 'desc' negates the comparison, which swaps which
      task goes first and keeps ties as ties. */
  function Compare(key: SortField, dir: Direction, a: Task, b: Task): (r: int)
    ensures r < 0 <==> (if dir == Asc then KeyCompare(key, a, b) < 0 else KeyCompare(key, a, b) > 0)
    ensures r == 0 <==> KeyCompare(key, a, b) == 0
  {
    if dir == Asc then KeyCompare(key, a, b) else -KeyCompare(key, a, b)
  }

  function Comparator(key: SortField, dir: Direction): (Task, Task) -> int {
    (a: Task, b: Task) => Compare(key, dir, a, b)
  }

  lemma TitleCompareSigns(a: string, b: string)
    ensures TitleCompare(a, b) < 0 <==> TitleCompare(b, a) > 0
  {
    if StrLess(a, b) {
      StrLessAsymmetric(a, b);
    } else if a != b {
      StrLessTotal(a, b);
    }
  }

  lemma TitleCompareTransitive(a: string, b: string, c: string)
    requires TitleCompare(a, b) <= 0 && TitleCompare(b, c) <= 0
    ensures TitleCompare(a, c) <= 0
  {
    if StrLess(a, b) && StrLess(b, c) {
      StrLessTransitive(a, b, c);
    }
  }

  /** Every key and direction gives a consistent comparator, as
      `Array.prototype.sort` needs for its order to be defined. */
  lemma ComparatorConsistent(key: SortField, dir: Direction)
    ensures IsComparator(Comparator(key, dir))
  {
    var cmp := Comparator(key, dir);
    forall a: Task, b: Task ensures cmp(a, b) < 0 <==> cmp(b, a) > 0 {
      TitleCompareSigns(a.title, b.title);
    }
    forall a: Task, b: Task, c: Task | cmp(a, b) <= 0 && cmp(b, c) <= 0 ensures cmp(a, c) <= 0 {
      if key == ByTitle {
        if dir == Asc {
          TitleCompareTransitive(a.title, b.title, c.title);
        } else {
          TitleCompareSigns(a.title, b.title);
          TitleCompareSigns(b.title, c.title);
          TitleCompareSigns(a.title, c.title);
          TitleCompareTransitive(c.title, b.title, a.title);
        }
      }
    }
  }

  /** `filteredAndSortedTasks`: the filtered tasks, rearranged. */
  function Visible(s: seq<Task>, fc: Selection<Category>, fp: Selection<Priority>,
                   key: SortField, dir: Direction): (r: seq<Task>)
    ensures multiset(r) == multiset(FilterTasks(s, fc, fp))
    ensures |r| <= |s|
  {
    Sort(FilterTasks(s, fc, fp), Comparator(key, dir))
  }

  /** The visible list is a permutation of the filtered list, ordered by the
      comparator, and tasks that compare equal keep their original order. */
  lemma VisibleSpec(s: seq<Task>, fc: Selection<Category>, fp: Selection<Priority>,
                    key: SortField, dir: Direction)
    ensures multiset(Visible(s, fc, fp, key, dir)) == multiset(FilterTasks(s, fc, fp))
    ensures SortedBy(Visible(s, fc, fp, key, dir), Comparator(key, dir))
    ensures forall t :: Ties(Visible(s, fc, fp, key, dir), t, Comparator(key, dir))
                     == Ties(FilterTasks(s, fc, fp), t, Comparator(key, dir))
  {
    ComparatorConsistent(key, dir);
    SortIsSorted(FilterTasks(s, fc, fp), Comparator(key, dir));
    forall t ensures Ties(Visible(s, fc, fp, key, dir), t, Comparator(key, dir))
                  == Ties(FilterTasks(s, fc, fp), t, Comparator(key, dir)) {
      SortIsStable(FilterTasks(s, fc, fp), t, Comparator(key, dir));
    }
  }

  /** Any stable sort of the filtered list, as ECMA-262 requires of
      `Array.prototype.sort`, yields exactly the visible list. */
  lemma VisibleIsTheStableSort(s: seq<Task>, fc: Selection<Category>, fp: Selection<Priority>,
                               key: SortField, dir: Direction, r: seq<Task>)
    requires multiset(r) == multiset(FilterTasks(s, fc, fp))
    requires SortedBy(r, Comparator(key, dir))
    requires forall t :: Ties(r, t, Comparator(key, dir)) == Ties(FilterTasks(s, fc, fp), t, Comparator(key, dir))
    ensures r == Visible(s, fc, fp, key, dir)
  {
    ComparatorConsistent(key, dir);
    SortIsTheStableSort(FilterTasks(s, fc, fp), r, Comparator(key, dir));
  }

  /** What the order means for each key: due date ascending, High before
      Low, titles alphabetically, newest first — each reversed by 'desc'. */
  lemma VisibleKeyOrder(s: seq<Task>, fc: Selection<Category>, fp: Selection<Priority>,
                        key: SortField, dir: Direction, i: nat, j: nat)
    requires i < j < |Visible(s, fc, fp, key, dir)|
    ensures var v := Visible(s, fc, fp, key, dir);
      && (key == ByDueDate ==>
            if dir == Asc then DateKey(v[i].dueDate) <= DateKey(v[j].dueDate)
            else DateKey(v[i].dueDate) >= DateKey(v[j].dueDate))
      && (key == ByPriority ==>
            if dir == Asc then Rank(v[i].priority) >= Rank(v[j].priority)
            else Rank(v[i].priority) <= Rank(v[j].priority))
      && (key == ByTitle ==>
            if dir == Asc then !StrLess(v[j].title, v[i].title)
            else !StrLess(v[i].title, v[j].title))
      && (key == ByCreatedAt ==>
            if dir == Asc then DateKey(v[i].createdAt) >= DateKey(v[j].createdAt)
            else DateKey(v[i].createdAt) <= DateKey(v[j].createdAt))
  {
    var v := Visible(s, fc, fp, key, dir);
    VisibleSpec(s, fc, fp, key, dir);
    assert Comparator(key, dir)(v[i], v[j]) <= 0;
    if key == ByTitle {
      TitleCompareSigns(v[i].title, v[j].title);
      if StrLess(v[j].title, v[i].title) {
        StrLessAsymmetric(v[j].title, v[i].title);
      }
      if StrLess(v[i].title, v[j].title) {
        StrLessAsymmetric(v[i].title, v[j].title);
      }
    }
  }

  /** The classification `getDueDateStatus` returns. */
  datatype DueStatus = Overdue | DueToday | DueTomorrow | Upcoming

  /** `getDueDateStatus`, with the clock's `today` and `tomorrow` as
      parameters; it compares the strings, not dates. */
  function DueDateStatus(due: string, today: string, tomorrow: string): (r: DueStatus)
    ensures r == DueToday <==> due == today
    ensures r == Overdue ==> StrLess(due, today)
    ensures r == DueTomorrow ==> due == tomorrow && due != today
    ensures r == Upcoming ==> !StrLess(due, today) && due != today && due != tomorrow
  {
    if StrLess(due, today) then Overdue
    else if due == today then DueToday
    else if due == tomorrow then DueTomorrow
    else Upcoming
  }

  /** On valid dates the string tests classify by the calendar: overdue is
      before today, due today is today, and a date after today is due
      tomorrow when it is `tomorrow` and upcoming otherwise. */
  lemma DueDateStatusByCalendar(due: string, today: string, tomorrow: string)
    requires IsIsoDate(due) && IsIsoDate(today)
    ensures DueDateStatus(due, today, tomorrow) == Overdue <==> DateKey(due) < DateKey(today)
    ensures DueDateStatus(due, today, tomorrow) == DueToday <==> DateKey(due) == DateKey(today)
    ensures DueDateStatus(due, today, tomorrow) == DueTomorrow <==>
              DateKey(due) > DateKey(today) && due == tomorrow
    ensures DueDateStatus(due, today, tomorrow) == Upcoming <==>
              DateKey(due) > DateKey(today) && due != tomorrow
  {
    DateOrderAgrees(due, today);
  }

  /** The object `getTaskCounts` returns. */
  datatype TaskCounts = TaskCounts(overdue: nat, dueToday: nat, completed: nat, total: nat)

  predicate OverdueOpen(t: Task, today: string, tomorrow: string) {
    !t.completed && DueDateStatus(t.dueDate, today, tomorrow) == Overdue
  }

  predicate DueTodayOpen(t: Task, today: string, tomorrow: string) {
    !t.completed && DueDateStatus(t.dueDate, today, tomorrow) == DueToday
  }

  /** `getTaskCounts`. The total is the list length; the completed count is
      the number of completed tasks, whatever their dates; and the three
      counts together never exceed the total. */
  function Counts(s: seq<Task>, today: string, tomorrow: string): (c: TaskCounts)
    ensures c.total == |s| && c.overdue + c.dueToday + c.completed <= c.total
    ensures c.completed == |CompletedTab(s)|
  {
    FilterLength(s, (t: Task) => t.completed);
    CountDisjoint(s, (t: Task) => OverdueOpen(t, today, tomorrow),
                  (t: Task) => DueTodayOpen(t, today, tomorrow), (t: Task) => t.completed);
    TaskCounts(
      Count(s, (t: Task) => OverdueOpen(t, today, tomorrow)),
      Count(s, (t: Task) => DueTodayOpen(t, today, tomorrow)),
      Count(s, (t: Task) => t.completed),
      |s|)
  }

  /** On valid dates the overdue count is the number of incomplete tasks due
      before today, and the due-today count those due today. */
  lemma CountsByCalendar(s: seq<Task>, today: string, tomorrow: string)
    requires IsIsoDate(today)
    requires forall i :: 0 <= i < |s| ==> IsIsoDate(s[i].dueDate)
    ensures Counts(s, today, tomorrow).overdue
         == Count(s, (t: Task) => !t.completed && DateKey(t.dueDate) < DateKey(today))
    ensures Counts(s, today, tomorrow).dueToday
         == Count(s, (t: Task) => !t.completed && DateKey(t.dueDate) == DateKey(today))
  {
    forall i | 0 <= i < |s| ensures
      && OverdueOpen(s[i], today, tomorrow) == (!s[i].completed && DateKey(s[i].dueDate) < DateKey(today))
      && DueTodayOpen(s[i], today, tomorrow) == (!s[i].completed && DateKey(s[i].dueDate) == DateKey(today))
    {
      DueDateStatusByCalendar(s[i].dueDate, today, tomorrow);
    }
    CountCongruent(s, (t: Task) => OverdueOpen(t, today, tomorrow),
                   (t: Task) => !t.completed && DateKey(t.dueDate) < DateKey(today));
    CountCongruent(s, (t: Task) => DueTodayOpen(t, today, tomorrow),
                   (t: Task) => !t.completed && DateKey(t.dueDate) == DateKey(today));
  }

  /** Deleting a task whose id no other task shares lowers the total by one. */
  lemma CountsAfterDelete(s: seq<Task>, k: nat, today: string, tomorrow: string)
    requires UniqueIds(s) && k < |s|
    ensures Counts(RemoveId(s, s[k].id), today, tomorrow).total == Counts(s, today, tomorrow).total - 1
  {
    RemovePresentId(s, k);
  }

  /** The Active tab: the visible tasks not yet completed. */
  function ActiveTab(v: seq<Task>): (r: seq<Task>)
    ensures forall i :: 0 <= i < |r| ==> r[i] in v && !r[i].completed
    ensures forall i :: 0 <= i < |v| && !v[i].completed ==> v[i] in r
  {
    Filter(v, (t: Task) => !t.completed)
  }

  /** The Completed tab: the visible tasks that are completed. */
  function CompletedTab(v: seq<Task>): (r: seq<Task>)
    ensures forall i :: 0 <= i < |r| ==> r[i] in v && r[i].completed
    ensures forall i :: 0 <= i < |v| && v[i].completed ==> v[i] in r
  {
    Filter(v, (t: Task) => t.completed)
  }

  /** The two tabs split a list: each is a subsequence of it, in the same
      order, holding only tasks of its kind; together they hold every task of
      the list exactly once. */
  lemma TabsPartition(v: seq<Task>)
    ensures IsSubseq(ActiveTab(v), v) && IsSubseq(CompletedTab(v), v)
    ensures forall i :: 0 <= i < |ActiveTab(v)| ==> !ActiveTab(v)[i].completed
    ensures forall i :: 0 <= i < |CompletedTab(v)| ==> CompletedTab(v)[i].completed
    ensures multiset(ActiveTab(v)) + multiset(CompletedTab(v)) == multiset(v)
  {
    FilterSpec(v, (t: Task) => !t.completed);
    FilterSpec(v, (t: Task) => t.completed);
    FilterPartition(v, (t: Task) => !t.completed, (t: Task) => t.completed);
  }

  /** Both tabs of the visible list come out in the visible list's order. */
  lemma TabsSorted(s: seq<Task>, fc: Selection<Category>, fp: Selection<Priority>,
                   key: SortField, dir: Direction)
    ensures SortedBy(ActiveTab(Visible(s, fc, fp, key, dir)), Comparator(key, dir))
    ensures SortedBy(CompletedTab(Visible(s, fc, fp, key, dir)), Comparator(key, dir))
  {
    var v := Visible(s, fc, fp, key, dir);
    VisibleSpec(s, fc, fp, key, dir);
    FilterSorted(v, (t: Task) => !t.completed, Comparator(key, dir));
    FilterSorted(v, (t: Task) => t.completed, Comparator(key, dir));
  }
}
