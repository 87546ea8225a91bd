/** The new task lists the handlers of TaskGrid.tsx compute with
    `filter`, `map` and spread before handing them to `setTasks`. */
module TaskList {
  import opened Seqs
  import opened TaskModel

  /** `tasks.filter(task => task.id !== id)` (deleteTask). */
  function RemoveId(s: seq<Task>, id: int): (r: seq<Task>)
    ensures forall i :: 0 <= i < |r| ==> r[i] in s && r[i].id != id
    ensures forall i :: 0 <= i < |s| && s[i].id != id ==> s[i] in r
  {
    Filter(s, (t: Task) => t.id != id)
  }

  /** Deleting keeps exactly the tasks with a different id, in the same order;
      the list shrinks by the number of tasks that carry `id`, and an id no
      task carries leaves it as it was. */
  lemma RemoveIdSpec(s: seq<Task>, id: int)
    ensures IsSubseq(RemoveId(s, id), s)
    ensures forall t :: multiset(RemoveId(s, id))[t] == if t.id != id then multiset(s)[t] else 0
    ensures |RemoveId(s, id)| == |s| - Count(s, (t: Task) => t.id == id)
    ensures (forall i :: 0 <= i < |s| ==> s[i].id != id) ==> RemoveId(s, id) == s
  {
    var keep := (t: Task) => t.id != id;
    var drop := (t: Task) => t.id == id;
    FilterSpec(s, keep);
    FilterLength(s, keep);
    CountSplit(s, keep, drop);
    if forall i :: 0 <= i < |s| ==> s[i].id != id {
      FilterAll(s, keep);
    }
  }

  /** With distinct ids, deleting a present id removes exactly one task. */
  lemma RemovePresentId(s: seq<Task>, k: nat)
    requires UniqueIds(s) && k < |s|
    ensures |RemoveId(s, s[k].id)| == |s| - 1
  {
    RemoveIdSpec(s, s[k].id);
    CountOnlyAt(s, k);
  }

  lemma {:induction false} CountOnlyAt(s: seq<Task>, k: nat)
    requires UniqueIds(s) && k < |s|
    ensures Count(s, (t: Task) => t.id == s[k].id) == 1
  {
    var id := s[k].id;
    var p := (t: Task) => t.id == id;
    assert s == s[..k] + s[k..];
    assert s[k..] == [s[k]] + s[k + 1..];
    CountAppend(s[..k], s[k..], p);
    CountAppend([s[k]], s[k + 1..], p);
    CountNone(s[..k], id);
    CountNone(s[k + 1..], id);
  }

  lemma {:induction false} CountNone(s: seq<Task>, id: int)
    requires forall i :: 0 <= i < |s| ==> s[i].id != id
    ensures Count(s, (t: Task) => t.id == id) == 0
  {
    if s != [] {
      CountNone(s[1..], id);
    }
  }

  /** `tasks.map(task => task.id === id ? { ...task, completed: !task.completed } : task)`
      (toggleTaskCompletion): the tasks with that id have their flag flipped
      and nothing else, every other task is untouched. */
  function ToggleId(s: seq<Task>, id: int): (r: seq<Task>)
    ensures |r| == |s|
    ensures forall i :: 0 <= i < |s| && s[i].id != id ==> r[i] == s[i]
    ensures forall i :: 0 <= i < |s| && s[i].id == id ==>
              r[i].completed == !s[i].completed && r[i].(completed := s[i].completed) == s[i]
  {
    if s == [] then []
    else
      var t := s[0];
      [if t.id == id then t.(completed := !t.completed) else t] + ToggleId(s[1..], id)
  }

  /** Toggling the same id twice restores the list. */
  lemma ToggleTwice(s: seq<Task>, id: int)
    ensures ToggleId(ToggleId(s, id), id) == s
  {
    var r := ToggleId(ToggleId(s, id), id);
    forall i | 0 <= i < |s| ensures r[i] == s[i] {
      if s[i].id == id {
        assert ToggleId(s, id)[i].id == id;
      }
    }
  }

  /** `tasks.map(task => task.id === id ? { ...task, ...newTask } : task)`
      (updateTask): each task with that id takes the draft's five fields and
      keeps its id, completed flag and creation date; the others are untouched. */
  function UpdateId(s: seq<Task>, id: int, d: Draft): (r: seq<Task>)
    ensures |r| == |s|
    ensures forall i :: 0 <= i < |s| && s[i].id != id ==> r[i] == s[i]
    ensures forall i :: 0 <= i < |s| && s[i].id == id ==>
              && r[i].id == s[i].id && r[i].completed == s[i].completed
              && r[i].createdAt == s[i].createdAt && DraftOf(r[i]) == d
  {
    if s == [] then []
    else
      var t := s[0];
      [if t.id == id then ApplyDraft(t, d) else t] + UpdateId(s[1..], id, d)
  }

  /** An id no task carries selects nothing: toggling or updating it leaves
      the list as it was (as when the task being edited has been deleted). */
  lemma AbsentIdChangesNothing(s: seq<Task>, id: int, d: Draft)
    requires forall i :: 0 <= i < |s| ==> s[i].id != id
    ensures ToggleId(s, id) == s && UpdateId(s, id, d) == s
  {
    assert forall i :: 0 <= i < |s| ==> ToggleId(s, id)[i] == s[i];
    assert forall i :: 0 <= i < |s| ==> UpdateId(s, id, d)[i] == s[i];
  }

  /** The id column does not change under a toggle or an update. */
  lemma IdsKept(s: seq<Task>, id: int, d: Draft)
    ensures forall i :: 0 <= i < |s| ==> ToggleId(s, id)[i].id == s[i].id && UpdateId(s, id, d)[i].id == s[i].id
  {
  }

  /** Saving a task's own draft back over it changes nothing. */
  lemma UpdateWithOwnDraft(s: seq<Task>, k: nat)
    requires UniqueIds(s) && k < |s|
    ensures UpdateId(s, s[k].id, DraftOf(s[k])) == s
  {
    var r := UpdateId(s, s[k].id, DraftOf(s[k]));
    forall i | 0 <= i < |s| ensures r[i] == s[i] {
      if i != k {
        assert s[i].id != s[k].id by {
          if i < k { assert s[i].id != s[k].id; } else { assert s[k].id != s[i].id; }
        }
      }
    }
  }

  /** Appending the new task (`[...tasks, task]`) keeps ids distinct when its id is new. */
  lemma AppendKeepsUniqueIds(s: seq<Task>, t: Task)
    requires UniqueIds(s) && forall i :: 0 <= i < |s| ==> s[i].id != t.id
    ensures UniqueIds(s + [t])
  {
  }

  /** Deleting, toggling and updating never create duplicate ids. */
  lemma RemoveKeepsUniqueIds(s: seq<Task>, id: int)
    ensures UniqueIds(s) ==> UniqueIds(RemoveId(s, id))
  {
    if UniqueIds(s) {
      RemoveIdSpec(s, id);
      SubseqUniqueIds(RemoveId(s, id), s);
    }
  }

  lemma ToggleKeepsUniqueIds(s: seq<Task>, id: int)
    ensures UniqueIds(s) ==> UniqueIds(ToggleId(s, id))
  {
    IdsKept(s, id, EmptyDraft);
  }

  lemma UpdateKeepsUniqueIds(s: seq<Task>, id: int, d: Draft)
    ensures UniqueIds(s) ==> UniqueIds(UpdateId(s, id, d))
  {
    IdsKept(s, id, d);
  }

  lemma {:induction false} SubseqUniqueIds(a: seq<Task>, b: seq<Task>)
    requires IsSubseq(a, b) && UniqueIds(b)
    ensures UniqueIds(a)
    decreases |b|
  {
    if a != [] && b != [] {
      if a[0] == b[0] {
        SubseqUniqueIds(a[1..], b[1..]);
        SubseqMembers(a[1..], b[1..]);
        forall j | 0 < j < |a| ensures a[0].id != a[j].id {
          assert a[j] == a[1..][j - 1];
          var k :| 0 <= k < |b[1..]| && b[1..][k] == a[j];
          assert b[k + 1] == a[j];
        }
      } else {
        SubseqUniqueIds(a, b[1..]);
      }
    }
  }

  lemma {:induction false} SubseqMembers<T>(a: seq<T>, b: seq<T>)
    requires IsSubseq(a, b)
    ensures forall i :: 0 <= i < |a| ==> a[i] in b
    decreases |b|
  {
    if a != [] && b != [] {
      if a[0] == b[0] {
        SubseqMembers(a[1..], b[1..]);
        forall i | 0 < i < |a| ensures a[i] in b {
          assert a[i] == a[1..][i - 1];
        }
      } else {
        SubseqMembers(a, b[1..]);
      }
    }
  }
}
