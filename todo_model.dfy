/** The client's view of a todo and the pure list computations the todo-list component applies
    to its `todos` state: `find`, `findIndex`, and the `map`/`filter` rewrites it installs after a
    successful server call. */
module TodoModel {
  import opened Wrappers

  /** A todo as the client holds it: the server item projected to these three fields. */
  datatype Todo = Todo(todoId: string, title: string, completed: bool)

  /** The item the create handler returns as its 201 body, as the client receives it. */
  datatype CreatedItem = CreatedItem(
    userId: string, todoId: string, title: string, completed: bool,
    createdAt: string, updatedAt: string)

  /** The client keeps only the id, title and flag of a created item. */
  function Project(item: CreatedItem): Todo {
    Todo(item.todoId, item.title, item.completed)
  }

  /** Some element of `s` carries the id `id`. */
  predicate HasId(s: seq<Todo>, id: string) {
    exists i | 0 <= i < |s| :: s[i].todoId == id
  }

  /** No two elements of `s` share an id. */
  predicate UniqueIds(s: seq<Todo>) {
    forall i, j | 0 <= i < j < |s| :: s[i].todoId != s[j].todoId
  }

  /** `todos.findIndex(t => t.todoId === id)`: the position of the first element with that id,
      or -1 when there is none. */
  function FindIndex(s: seq<Todo>, id: string): (r: int)
    ensures -1 <= r < |s|
    ensures r == -1 <==> !HasId(s, id)
    ensures r >= 0 ==> s[r].todoId == id && forall j | 0 <= j < r :: s[j].todoId != id
  {
    if s == [] then -1
    else if s[0].todoId == id then 0
    else
      var k := FindIndex(s[1..], id);
      assert forall j | 1 <= j < |s| :: s[j] == s[1..][j - 1];
      if k == -1 then -1 else k + 1
  }

  /** `todos.find(t => t.todoId === id)`: the first element with that id, if any. */
  function Find(s: seq<Todo>, id: string): (r: Option<Todo>)
    ensures r.None? <==> !HasId(s, id)
    ensures r.Some? ==> r.value in s && r.value.todoId == id
  {
    if s == [] then None
    else if s[0].todoId == id then Some(s[0])
    else
      assert forall j | 1 <= j < |s| :: s[j] == s[1..][j - 1];
      Find(s[1..], id)
  }

  /** `find` returns exactly the element at the index `findIndex` reports. */
  lemma {:induction false} FindIsAtFindIndex(s: seq<Todo>, id: string)
    ensures Find(s, id) == if FindIndex(s, id) == -1 then None else Some(s[FindIndex(s, id)])
  {
    if s != [] && s[0].todoId != id {
      FindIsAtFindIndex(s[1..], id);
    }
  }

  /** In a list without duplicate ids, the element `find` returns is the only one with that id. */
  lemma FindUnique(s: seq<Todo>, id: string, i: nat)
    requires UniqueIds(s) && i < |s| && s[i].todoId == id
    ensures Find(s, id) == Some(s[i])
  {
  }

  /** `t.todoId === id ? { ...t, completed: !t.completed } : t` applied along the list. */
  function MapToggle(s: seq<Todo>, id: string): (r: seq<Todo>)
    ensures |r| == |s|
    ensures forall i | 0 <= i < |s| ::
      && r[i].todoId == s[i].todoId
      && r[i].title == s[i].title
      && (r[i].completed <==> (if s[i].todoId == id then !s[i].completed else s[i].completed))
  {
    if s == [] then []
    else
      var head := if s[0].todoId == id then s[0].(completed := !s[0].completed) else s[0];
      var tail := MapToggle(s[1..], id);
      assert forall i | 1 <= i < |s| :: ([head] + tail)[i] == tail[i - 1] && s[i] == s[1..][i - 1];
      [head] + tail
  }

  /** `t.todoId === id ? { ...t, title } : t` applied along the list. */
  function MapRetitle(s: seq<Todo>, id: string, title: string): (r: seq<Todo>)
    ensures |r| == |s|
    ensures forall i | 0 <= i < |s| ::
      && r[i].todoId == s[i].todoId
      && r[i].completed == s[i].completed
      && r[i].title == (if s[i].todoId == id then title else s[i].title)
  {
    if s == [] then []
    else
      var head := if s[0].todoId == id then s[0].(title := title) else s[0];
      var tail := MapRetitle(s[1..], id, title);
      assert forall i | 1 <= i < |s| :: ([head] + tail)[i] == tail[i - 1] && s[i] == s[1..][i - 1];
      [head] + tail
  }

  /** `todos.filter(t => t.todoId !== id)`: no element with that id is left, and every other
      element is kept. */
  function FilterOut(s: seq<Todo>, id: string): (r: seq<Todo>)
    ensures |r| <= |s|
    ensures forall t :: t in r <==> t in s && t.todoId != id
    ensures |r| == |s| <==> !HasId(s, id)
  {
    if s == [] then []
    else
      var tail := FilterOut(s[1..], id);
      assert forall t :: t in s <==> t == s[0] || t in s[1..];
      assert HasId(s, id) <==> s[0].todoId == id || HasId(s[1..], id) by {
        assert forall j | 1 <= j < |s| :: s[j] == s[1..][j - 1];
      }
      if s[0].todoId == id then tail else [s[0]] + tail
  }

  /** Filtering distributes over concatenation, so the kept elements stay in their original
      relative order. */
  lemma {:induction false} FilterOutConcat(a: seq<Todo>, b: seq<Todo>, id: string)
    ensures FilterOut(a + b, id) == FilterOut(a, id) + FilterOut(b, id)
  {
    if a != [] {
      assert (a + b)[1..] == a[1..] + b;
      FilterOutConcat(a[1..], b, id);
    } else {
      assert a + b == b;
    }
  }

  /** Filtering keeps the multiset of the other elements: nothing is duplicated or lost. */
  lemma {:induction false} FilterOutCounts(s: seq<Todo>, id: string, t: Todo)
    ensures multiset(FilterOut(s, id))[t] == if t.todoId == id then 0 else multiset(s)[t]
  {
    if s != [] {
      assert s == [s[0]] + s[1..];
      FilterOutCounts(s[1..], id, t);
    }
  }

  /** Deleting an id that no element carries changes nothing. */
  lemma {:induction false} FilterOutAbsent(s: seq<Todo>, id: string)
    requires !HasId(s, id)
    ensures FilterOut(s, id) == s
  {
    if s != [] {
      assert s[0].todoId != id;
      assert !HasId(s[1..], id) by {
        assert forall j | 0 <= j < |s| - 1 :: s[1..][j] == s[j + 1];
      }
      FilterOutAbsent(s[1..], id);
    }
  }

  /** Toggling twice restores the list. */
  lemma ToggleTwice(s: seq<Todo>, id: string)
    ensures MapToggle(MapToggle(s, id), id) == s
  {
  }

  /** Toggling or retitling an id that no element carries changes nothing. */
  lemma MapAbsent(s: seq<Todo>, id: string, title: string)
    requires !HasId(s, id)
    ensures MapToggle(s, id) == s && MapRetitle(s, id, title) == s
  {
  }

  /** The three rewrites keep the ids, so they keep `UniqueIds`; appending an item with a new id
      keeps it too. */
  lemma RewritesKeepUniqueIds(s: seq<Todo>, id: string, title: string, t: Todo)
    requires UniqueIds(s)
    ensures UniqueIds(MapToggle(s, id)) && UniqueIds(MapRetitle(s, id, title))
    ensures UniqueIds(FilterOut(s, id))
    ensures !HasId(s, t.todoId) ==> UniqueIds(s + [t])
  {
    FilterOutKeepsUnique(s, id);
  }

  lemma {:induction false} FilterOutKeepsUnique(s: seq<Todo>, id: string)
    requires UniqueIds(s)
    ensures UniqueIds(FilterOut(s, id))
  {
    if s != [] {
      assert UniqueIds(s[1..]) by {
        assert forall j | 0 <= j < |s| - 1 :: s[1..][j] == s[j + 1];
      }
      FilterOutKeepsUnique(s[1..], id);
      var tail := FilterOut(s[1..], id);
      forall t | t in tail ensures t.todoId != s[0].todoId {
        var j :| 0 <= j < |s[1..]| && s[1..][j] == t;
        assert s[j + 1] == t;
      }
    }
  }

  /** The element found after a successful toggle is the one found before with `completed`
      flipped: the local list agrees with the flag the update request carried. */
  lemma {:induction false} ToggleMirrorsRequest(s: seq<Todo>, id: string, t: Todo)
    requires Find(s, id) == Some(t)
    ensures Find(MapToggle(s, id), id) == Some(t.(completed := !t.completed))
  {
    var r := MapToggle(s, id);
    assert r[1..] == MapToggle(s[1..], id);
    if s[0].todoId != id {
      ToggleMirrorsRequest(s[1..], id, t);
    }
  }

  /** After a successful save the found element has the new title and keeps the `completed`
      flag it had in the list. That flag need not be the one the save request sent, which comes
      from the edit-mode snapshot. */
  lemma {:induction false} RetitleKeepsFlag(s: seq<Todo>, id: string, title: string, t: Todo)
    requires Find(s, id) == Some(t)
    ensures Find(MapRetitle(s, id, title), id) == Some(t.(title := title))
  {
    var r := MapRetitle(s, id, title);
    assert r[1..] == MapRetitle(s[1..], id, title);
    if s[0].todoId != id {
      RetitleKeepsFlag(s[1..], id, title, t);
    }
  }

  /** Once an id has been filtered out, a later retitle or toggle on it is a local no-op. */
  lemma RewriteAfterDelete(s: seq<Todo>, id: string, title: string)
    ensures MapRetitle(FilterOut(s, id), id, title) == FilterOut(s, id)
    ensures MapToggle(FilterOut(s, id), id) == FilterOut(s, id)
  {
  }
}
