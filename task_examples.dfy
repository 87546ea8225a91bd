/** The sample tasks through the list pipeline of TaskGrid.tsx: the default
    view, by due date ascending. */
module TaskExamples {
  import opened Seqs
  import opened IsoDate
  import opened StableSort
  import opened TaskModel
  import opened TaskView

  function Ids(s: seq<Task>): (r: seq<int>)
    ensures |r| == |s| && forall i :: 0 <= i < |s| ==> r[i] == s[i].id
  {
    if s == [] then [] else [s[0].id] + Ids(s[1..])
  }

  lemma FebruaryKeys()
    ensures DateKey("2025-02-27") == 20250227 && DateKey("2025-02-28") == 20250228
  {
    assert IsIsoDate("2025-02-27") && IsIsoDate("2025-02-28");
  }

  lemma MarchKeys()
    ensures DateKey("2025-03-03") == 20250303 && DateKey("2025-03-10") == 20250310
  {
    assert IsIsoDate("2025-03-03") && IsIsoDate("2025-03-10");
  }

  /** The sample tasks' due dates as calendar keys. */
  lemma InitialDueKeys()
    ensures DateKey(InitialTasks[0].dueDate) == 20250303
    ensures DateKey(InitialTasks[1].dueDate) == 20250228
    ensures DateKey(InitialTasks[2].dueDate) == 20250228
    ensures DateKey(InitialTasks[3].dueDate) == 20250227
    ensures DateKey(InitialTasks[4].dueDate) == 20250310
  {
    FebruaryKeys();
    MarchKeys();
  }

  /** The due-date comparisons insertion sort makes on the sample tasks. */
  lemma InitialDueComparisons(cmp: (Task, Task) -> int)
    requires cmp == Comparator(ByDueDate, Asc)
    ensures var s := InitialTasks;
      && cmp(s[3], s[4]) <= 0 && cmp(s[2], s[3]) > 0 && cmp(s[2], s[4]) <= 0
      && cmp(s[1], s[3]) > 0 && cmp(s[1], s[2]) <= 0
      && cmp(s[0], s[3]) > 0 && cmp(s[0], s[1]) > 0 && cmp(s[0], s[2]) > 0 && cmp(s[0], s[4]) <= 0
  {
    InitialDueKeys();
  }

  /** With both filters on 'All' nothing is filtered out. */
  lemma ShowsAll(s: seq<Task>)
    ensures FilterTasks(s, All, All) == s
  {
    FilterTasksSpec(s, All, All);
  }

  lemma InsertBefore<T>(x: T, y: T, r: seq<T>, cmp: (T, T) -> int)
    requires cmp(x, y) <= 0
    ensures Insert(x, [y] + r, cmp) == [x, y] + r
  {
  }

  lemma InsertAfter<T>(x: T, y: T, r: seq<T>, cmp: (T, T) -> int)
    requires cmp(x, y) > 0
    ensures Insert(x, [y] + r, cmp) == [y] + Insert(x, r, cmp)
  {
    assert ([y] + r)[1..] == r;
  }

  lemma SortCons<T>(x: T, r: seq<T>, cmp: (T, T) -> int)
    ensures Sort([x] + r, cmp) == Insert(x, Sort(r, cmp), cmp)
  {
    assert ([x] + r)[1..] == r;
  }

  lemma SortLastThree<T>(t3: T, t4: T, t5: T, cmp: (T, T) -> int)
    requires cmp(t4, t5) <= 0 && cmp(t3, t4) > 0 && cmp(t3, t5) <= 0
    ensures Sort([t3] + ([t4] + [t5]), cmp) == [t4] + ([t3] + [t5])
  {
    var e: seq<T> := [];
    assert [t5] == [t5] + e;
    SortCons(t5, e, cmp);
    SortCons(t4, [t5], cmp);
    InsertBefore(t4, t5, e, cmp);
    SortCons(t3, [t4] + [t5], cmp);
    InsertAfter(t3, t4, [t5], cmp);
    InsertBefore(t3, t5, e, cmp);
  }

  lemma InsertSecond<T>(t2: T, t3: T, t4: T, t5: T, cmp: (T, T) -> int)
    requires cmp(t2, t4) > 0 && cmp(t2, t3) <= 0
    ensures Insert(t2, [t4] + ([t3] + [t5]), cmp) == [t4] + ([t2] + ([t3] + [t5]))
  {
    InsertAfter(t2, t4, [t3] + [t5], cmp);
    InsertBefore(t2, t3, [t5], cmp);
  }

  lemma InsertFirst<T>(t1: T, t2: T, t3: T, t4: T, t5: T, cmp: (T, T) -> int)
    requires cmp(t1, t4) > 0 && cmp(t1, t2) > 0 && cmp(t1, t3) > 0 && cmp(t1, t5) <= 0
    ensures Insert(t1, [t4] + ([t2] + ([t3] + [t5])), cmp) == [t4] + ([t2] + ([t3] + ([t1] + [t5])))
  {
    var e: seq<T> := [];
    assert [t5] == [t5] + e;
    InsertAfter(t1, t4, [t2] + ([t3] + [t5]), cmp);
    InsertAfter(t1, t2, [t3] + [t5], cmp);
    InsertAfter(t1, t3, [t5], cmp);
    InsertBefore(t1, t5, e, cmp);
  }

  /** Insertion sort of five elements under those comparisons. */
  lemma SortFive<T>(t1: T, t2: T, t3: T, t4: T, t5: T, cmp: (T, T) -> int)
    requires cmp(t4, t5) <= 0 && cmp(t3, t4) > 0 && cmp(t3, t5) <= 0
    requires cmp(t2, t4) > 0 && cmp(t2, t3) <= 0
    requires cmp(t1, t4) > 0 && cmp(t1, t2) > 0 && cmp(t1, t3) > 0 && cmp(t1, t5) <= 0
    ensures Sort([t1] + ([t2] + ([t3] + ([t4] + [t5]))), cmp) == [t4] + ([t2] + ([t3] + ([t1] + [t5])))
  {
    SortLastThree(t3, t4, t5, cmp);
    SortCons(t2, [t3] + ([t4] + [t5]), cmp);
    InsertSecond(t2, t3, t4, t5, cmp);
    SortCons(t1, [t2] + ([t3] + ([t4] + [t5])), cmp);
    InsertFirst(t1, t2, t3, t4, t5, cmp);
  }

  /** The default view orders the sample tasks by due date: the gym session
      (Feb 27), then the two tasks due Feb 28 in list order, then the
      proposal (Mar 3) and the flights (Mar 10). */
  lemma InitialDefaultOrder()
    ensures var s := InitialTasks;
      Visible(s, All, All, ByDueDate, Asc) == [s[3]] + ([s[1]] + ([s[2]] + ([s[0]] + [s[4]])))
  {
    var s := InitialTasks;
    var cmp := Comparator(ByDueDate, Asc);
    ShowsAll(s);
    InitialDueComparisons(cmp);
    assert s == [s[0]] + ([s[1]] + ([s[2]] + ([s[3]] + [s[4]])));
    SortFive(s[0], s[1], s[2], s[3], s[4], cmp);
  }

  lemma IdsOfFive(a: Task, b: Task, c: Task, d: Task, e: Task)
    ensures Ids([a] + ([b] + ([c] + ([d] + [e])))) == [a.id, b.id, c.id, d.id, e.id]
  {
    var r := Ids([a] + ([b] + ([c] + ([d] + [e]))));
    assert |r| == 5;
  }

  /** The same view by id. */
  lemma InitialDefaultView()
    ensures Ids(Visible(InitialTasks, All, All, ByDueDate, Asc)) == [4, 2, 3, 1, 5]
  {
    var s := InitialTasks;
    InitialDefaultOrder();
    IdsOfFive(s[3], s[1], s[2], s[0], s[4]);
  }

  /** Three open tasks, due before today, today and after today: one is
      overdue, one is due today, and the third is in neither count. */
  lemma ThreeOpenTasksCounts(past: Task, now: Task, later: Task, today: string, tomorrow: string)
    requires !past.completed && !now.completed && !later.completed
    requires IsIsoDate(past.dueDate) && IsIsoDate(now.dueDate) && IsIsoDate(later.dueDate)
    requires IsIsoDate(today)
    requires DateKey(past.dueDate) < DateKey(today) && now.dueDate == today
    requires DateKey(today) < DateKey(later.dueDate)
    ensures Counts([past, now, later], today, tomorrow) == TaskCounts(1, 1, 0, 3)
  {
    DueDateStatusByCalendar(past.dueDate, today, tomorrow);
    DueDateStatusByCalendar(now.dueDate, today, tomorrow);
    DueDateStatusByCalendar(later.dueDate, today, tomorrow);
    CountThree(past, now, later);
  }

  lemma CountThree<T>(a: T, b: T, c: T)
    ensures forall p: T -> bool :: Count([a, b, c], p)
              == (if p(a) then 1 else 0) + (if p(b) then 1 else 0) + (if p(c) then 1 else 0)
  {
    var s := [a, b, c];
    assert s[1..] == [b, c] && [b, c][1..] == [c] && [c][1..] == [];
    forall p: T -> bool
      ensures Count(s, p) == (if p(a) then 1 else 0) + (if p(b) then 1 else 0) + (if p(c) then 1 else 0)
    {
      assert Count([c], p) == if p(c) then 1 else 0;
      assert Count([b, c], p) == (if p(b) then 1 else 0) + Count([c], p);
    }
  }

  /** The year field of that date, read as a number. */
  lemma YearOfFiveDigits()
    ensures AllDigits("20251") && Num("20251") >= 20000
  {
    var y := "20251";
    assert y[1..] == "0251" && y[1..][1..] == "251" && y[1..][1..][1..] == "51";
    assert y[1..][1..][1..][1..] == "1" && y[1..][1..][1..][1..][1..] == "";
    assert Pow10(4) == 10000;
  }

  lemma FiveDigitStringBeforeToday()
    ensures StrLess("20251-03-01", "2026-10-14")
  {
    var due, today := "20251-03-01", "2026-10-14";
    assert due[1..] == "0251-03-01" && today[1..] == "026-10-14";
    assert due[1..][1..] == "251-03-01" && today[1..][1..] == "26-10-14";
    assert due[1..][1..][1..] == "51-03-01" && today[1..][1..][1..] == "6-10-14";
  }

  /** A date input also yields years of five or more digits, which
      `IsIsoDate` leaves out. For the year 20251 the string test calls the
      task overdue in 2026, though the calendar puts it far in the future:
      '5' sorts before '6' in the fourth character. */
  lemma FiveDigitYearIsOverdue()
    ensures !IsIsoDate("20251-03-01") && IsIsoDate("2026-10-14")
    ensures AllDigits("20251") && Num("20251") > Year("2026-10-14")
    ensures DueDateStatus("20251-03-01", "2026-10-14", "2026-10-15") == Overdue
  {
    YearOfFiveDigits();
    FiveDigitStringBeforeToday();
  }
}
