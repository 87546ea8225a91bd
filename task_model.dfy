/** The records of the task manager (client/src/components/TaskGrid.tsx):
    a task, the draft form, the notification, and the validation that the add
    and update handlers share. */
module TaskModel {
  import opened IsoDate

  datatype Option<T> = None | Some(value: T)

  /** The `categories` the form offers. */
  datatype Category = Work | Personal | Health | Travel | Study | Other

  /** The `priorities` the form offers. */
  datatype Priority = High | Medium | Low

  /** The rank the priority sort compares: High 3, Medium 2, Low 1. */
  function Rank(p: Priority): (n: nat)
    ensures 1 <= n <= 3
    ensures p == High <==> n == 3
    ensures p == Low <==> n == 1
  {
    match p
    case High => 3
    case Medium => 2
    case Low => 1
  }

  /** A task record. `id` is a JavaScript number (in practice a millisecond
      timestamp); the two dates are `YYYY-MM-DD` strings. */
  datatype Task = Task(
    id: int,
    title: string,
    description: string,
    category: Category,
    priority: Priority,
    dueDate: string,
    completed: bool,
    createdAt: string)

  /** The draft form `newTask`: the five fields a user types in. */
  datatype Draft = Draft(
    title: string,
    description: string,
    category: Category,
    priority: Priority,
    dueDate: string)

  /** The draft after a reset: Work, Medium and empty strings. */
  const EmptyDraft := Draft("", "", Work, Medium, "")

  datatype NoticeKind = Error | Success | Info

  datatype Notification = Notification(message: string, kind: NoticeKind)

  const TitleMissing := Notification("Please enter a task title", Error)
  const DueDateMissing := Notification("Please set a due date", Error)
  const TaskAdded := Notification("Task added successfully", Success)
  const TaskUpdated := Notification("Task updated successfully", Success)
  const TaskDeleted := Notification("Task deleted", Info)

  /** The characters `String.prototype.trim` strips: ECMA-262's WhiteSpace
      (tab, vertical tab, form feed, space, no-break space, the byte order
      mark and the other space separators) and LineTerminator productions. */
  predicate IsWhiteSpace(c: char) {
    || c == '\t' || c == '\U{000B}' || c == '\U{000C}' || c == ' '
    || c == '\U{00A0}' || c == '\U{FEFF}' || c == '\U{1680}'
    || ('\U{2000}' <= c <= '\U{200A}')
    || c == '\U{202F}' || c == '\U{205F}' || c == '\U{3000}'
    || c == '\n' || c == '\r' || c == '\U{2028}' || c == '\U{2029}'
  }

  /** `s` without its leading white space: a suffix of `s` that starts with a
      non-space character, everything before it being white space. */
  function TrimStart(s: string): (r: string)
    ensures |r| <= |s| && r == s[|s| - |r|..]
    ensures r == [] || !IsWhiteSpace(r[0])
    ensures forall i :: 0 <= i < |s| - |r| ==> IsWhiteSpace(s[i])
  {
    if s == [] || !IsWhiteSpace(s[0]) then s else TrimStart(s[1..])
  }

  /** `s` without its trailing white space: a prefix of `s` that ends with a
      non-space character, everything after it being white space. */
  function TrimEnd(s: string): (r: string)
    ensures |r| <= |s| && r == s[..|r|]
    ensures r == [] || !IsWhiteSpace(r[|r| - 1])
    ensures forall i :: |r| <= i < |s| ==> IsWhiteSpace(s[i])
  {
    if s == [] || !IsWhiteSpace(s[|s| - 1]) then s else TrimEnd(s[..|s| - 1])
  }

  /** `String.prototype.trim`: what remains starts and ends with a
      character that is not white space, and a string that already does is
      left as it is. */
  function Trim(s: string): (r: string)
    ensures |r| <= |s|
    ensures r == [] || (!IsWhiteSpace(r[0]) && !IsWhiteSpace(r[|r| - 1]))
    ensures s == [] || (!IsWhiteSpace(s[0]) && !IsWhiteSpace(s[|s| - 1])) ==> r == s
  {
    var a := TrimStart(s);
    assert a != [] ==> TrimEnd(a)[0] == a[0];
    TrimEnd(a)
  }

  /** `trim()` cuts off exactly the white space at both ends: its result is
      the middle of `s` with only white space before and after it. */
  lemma TrimCutsEnds(s: string)
    ensures exists k :: 0 <= k <= |s| - |Trim(s)| && Trim(s) == s[k..][..|Trim(s)|]
              && (forall i :: 0 <= i < k ==> IsWhiteSpace(s[i]))
              && (forall i :: k + |Trim(s)| <= i < |s| ==> IsWhiteSpace(s[i]))
  {
    var a, r := TrimStart(s), Trim(s);
    var k := |s| - |a|;
    assert a == s[k..];
    assert r == a[..|r|];
    forall i | k + |r| <= i < |s| ensures IsWhiteSpace(s[i]) {
      assert s[i] == a[i - k];
    }
  }

  /** A title trims to the empty string exactly when it is all white space. */
  lemma TrimEmptyIff(s: string)
    ensures Trim(s) == [] <==> forall i :: 0 <= i < |s| ==> IsWhiteSpace(s[i])
  {
    var a := TrimStart(s);
    if Trim(s) == [] {
      forall i | 0 <= i < |s| ensures IsWhiteSpace(s[i]) {
        if i >= |s| - |a| {
          assert s[i] == a[i - (|s| - |a|)];
        }
      }
    } else {
      var r := Trim(s);
      assert r[0] == a[0];
      assert a[0] == s[|s| - |a|];
    }
  }

  /** Every character of `s` is white space: the titles `!title.trim()`
      rejects (`BlankIsTrimEmpty`). */
  predicate Blank(s: string) {
    s == [] || (IsWhiteSpace(s[0]) && Blank(s[1..]))
  }

  /** `Blank` is the test `trim()` to the empty string performs. */
  lemma BlankIsTrimEmpty(s: string)
    ensures Blank(s) <==> Trim(s) == []
    ensures Blank(s) <==> forall i :: 0 <= i < |s| ==> IsWhiteSpace(s[i])
  {
    BlankIsAllWhiteSpace(s);
    TrimEmptyIff(s);
  }

  lemma {:induction false} BlankIsAllWhiteSpace(s: string)
    ensures Blank(s) <==> forall i :: 0 <= i < |s| ==> IsWhiteSpace(s[i])
  {
    if s != [] {
      BlankIsAllWhiteSpace(s[1..]);
      assert forall i :: 1 <= i < |s| ==> s[i] == s[1..][i - 1];
    }
  }

  /** The error the add and update handlers report for `d`, if any: first a
      title that trims to nothing, then an empty due date. */
  function DraftError(d: Draft): (r: Option<Notification>)
    ensures r == None <==> !Blank(d.title) && d.dueDate != ""
    ensures r != None ==> r.value.kind == Error
  {
    if Blank(d.title) then Some(TitleMissing)
    else if d.dueDate == [] then Some(DueDateMissing)
    else None
  }

  /** The validation in the handlers' terms: a title that trims to the empty
      string is reported first, then a missing due date, and a draft passes
      exactly when it has a title with a non-space character and a due date. */
  lemma DraftErrorSpec(d: Draft)
    ensures DraftError(d) == Some(TitleMissing) <==> Trim(d.title) == []
    ensures DraftError(d) == Some(DueDateMissing) <==> Trim(d.title) != [] && d.dueDate == ""
    ensures DraftError(d) == None <==>
              (exists i :: 0 <= i < |d.title| && !IsWhiteSpace(d.title[i])) && d.dueDate != ""
  {
    BlankIsTrimEmpty(d.title);
  }

  /** The task `addTask` builds from the draft: the clock gives `id` and
      `createdAt`; it starts incomplete, and its five form fields are the
      draft's. */
  function NewTask(id: int, d: Draft, createdAt: string): (r: Task)
    ensures r.id == id && !r.completed && r.createdAt == createdAt
    ensures Draft(r.title, r.description, r.category, r.priority, r.dueDate) == d
  {
    Task(id, d.title, d.description, d.category, d.priority, d.dueDate, false, createdAt)
  }

  /** `{ ...task, ...newTask }`: the task a new task from `d` would be, but
      with the id, completed flag and creation date the task had. */
  function ApplyDraft(t: Task, d: Draft): (r: Task)
    ensures r == NewTask(t.id, d, t.createdAt).(completed := t.completed)
    ensures r.id == t.id && r.completed == t.completed && r.createdAt == t.createdAt
  {
    t.(title := d.title, description := d.description, category := d.category,
       priority := d.priority, dueDate := d.dueDate)
  }

  /** The draft `startEditing` copies out of a task: exactly what, merged
      back over the task unchanged, gives the task back. */
  function DraftOf(t: Task): (r: Draft)
    ensures ApplyDraft(t, r) == t
  {
    Draft(t.title, t.description, t.category, t.priority, t.dueDate)
  }

  /** Both dates of a task are well-formed calendar dates. */
  ghost predicate WellDated(t: Task) {
    IsIsoDate(t.dueDate) && IsIsoDate(t.createdAt)
  }

  ghost predicate UniqueIds(s: seq<Task>) {
    forall i, j :: 0 <= i < j < |s| ==> s[i].id != s[j].id
  }

  /** The sample tasks the component starts with. */
  const InitialTasks: seq<Task> := [
    Task(1, "Complete project proposal", "Finish the Q1 marketing campaign proposal",
         Work, High, "2025-03-03", false, "2025-02-23"),
    Task(2, "Schedule team meeting", "Organize weekly progress review",
         Work, Medium, "2025-02-28", false, "2025-02-24"),
    Task(3, "Pay electricity bill", "Online payment due by end of month",
         Personal, High, "2025-02-28", true, "2025-02-22"),
    Task(4, "Gym session", "Cardio and strength training",
         Health, Medium, "2025-02-27", false, "2025-02-25"),
    Task(5, "Book flight tickets", "For the conference next month",
         Travel, Medium, "2025-03-10", false, "2025-02-26")
  ]

  /** The sample tasks have distinct ids. */
  lemma InitialIdsUnique()
    ensures UniqueIds(InitialTasks)
  {
  }

  lemma InitialDueDatesValid()
    ensures IsIsoDate("2025-03-03") && IsIsoDate("2025-02-28")
    ensures IsIsoDate("2025-02-27") && IsIsoDate("2025-03-10")
  {
  }

  lemma InitialCreationDatesValid()
    ensures IsIsoDate("2025-02-22") && IsIsoDate("2025-02-23") && IsIsoDate("2025-02-24")
    ensures IsIsoDate("2025-02-25") && IsIsoDate("2025-02-26")
  {
  }

  /** The sample tasks carry well-formed dates. */
  lemma InitialTasksWellDated()
    ensures forall i :: 0 <= i < |InitialTasks| ==> WellDated(InitialTasks[i])
  {
    InitialDueDatesValid();
    InitialCreationDatesValid();
  }
}
