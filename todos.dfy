/**
 * The task records of the todo list and the pure list transformations the
 * component's handlers apply to them: the `map` that toggles, the `filter`
 * that deletes, and the counts shown in the header.
 */
module Todos {
  import opened Trimming

  /** One task. The id and the creation time come from the clock in the
      component; here they are whatever the caller supplies. */
  datatype Todo = Todo(id: string, text: string, completed: bool, createdAt: int)

  /** A text the list may hold: non-blank and already trimmed, so that
      trimming it again changes nothing (TrimOfTrimmed). */
  predicate IsStoredText(s: string) {
    s != [] && IsTrimmed(s)
  }

  /** Every record's text is a stored text. */
  predicate AllStored(todos: seq<Todo>) {
    forall t :: t in todos ==> IsStoredText(t.text)
  }

  /** No two records share an id. The component does not enforce this: ids come
      from a millisecond clock. */
  predicate UniqueIds(todos: seq<Todo>) {
    forall i, j :: 0 <= i < j < |todos| ==> todos[i].id != todos[j].id
  }

  predicate HasId(todos: seq<Todo>, id: string) {
    exists i :: 0 <= i < |todos| && todos[i].id == id
  }

  /** The text a successful add stores, the trimmed non-blank draft, is a
      stored text. */
  lemma NewTextIsStored(draft: string)
    requires Trim(draft) != []
    ensures IsStoredText(Trim(draft))
  {
  }

  /** How many records carry `id`. */
  function CountId(todos: seq<Todo>, id: string): (n: nat)
    ensures n <= |todos|
    ensures n == 0 <==> !HasId(todos, id)
  {
    if todos == [] then 0
    else (if todos[0].id == id then 1 else 0) + CountId(todos[1..], id)
  }

  /** Flips the completed flag of every record whose id matches: same length,
      same ids, texts and creation times, and the completed flag changes
      exactly on the matching records. */
  function Toggled(todos: seq<Todo>, id: string): (r: seq<Todo>)
    ensures |r| == |todos|
    ensures forall i :: 0 <= i < |r| ==>
      r[i].id == todos[i].id && r[i].text == todos[i].text && r[i].createdAt == todos[i].createdAt
    ensures forall i :: 0 <= i < |r| ==> (r[i].completed != todos[i].completed <==> todos[i].id == id)
  {
    if todos == [] then []
    else
      var head := if todos[0].id == id then todos[0].(completed := !todos[0].completed) else todos[0];
      [head] + Toggled(todos[1..], id)
  }

  /** Keeps the records whose id differs, each as often as before, in their
      original order; the list shrinks by the number of records that matched. */
  function Deleted(todos: seq<Todo>, id: string): (r: seq<Todo>)
    ensures |r| == |todos| - CountId(todos, id)
    ensures forall t :: t in r <==> t in todos && t.id != id
    ensures forall t :: multiset(r)[t] == if t.id == id then 0 else multiset(todos)[t]
    ensures SubsequenceOf(r, todos)
  {
    if todos == [] then []
    else
      var rest := Deleted(todos[1..], id);
      assert todos == [todos[0]] + todos[1..];
      if todos[0].id == id then rest else [todos[0]] + rest
  }

  /** `a` is `b` with some elements left out and the rest in their order. */
  predicate SubsequenceOf<T(==)>(a: seq<T>, b: seq<T>)
    decreases |b|
  {
    if a == [] then true
    else if b == [] then false
    else if a[0] == b[0] then SubsequenceOf(a[1..], b[1..])
    else SubsequenceOf(a, b[1..])
  }

  /** The number of completed records: bounded by the total, zero exactly when
      nothing is done, the total exactly when everything is. */
  function CompletedCount(todos: seq<Todo>): (n: nat)
    ensures n <= |todos|
    ensures n == 0 <==> forall i :: 0 <= i < |todos| ==> !todos[i].completed
    ensures n == |todos| <==> forall i :: 0 <= i < |todos| ==> todos[i].completed
  {
    if todos == [] then 0
    else (if todos[0].completed then 1 else 0) + CompletedCount(todos[1..])
  }

  /** Prepending a record that is not completed adds nothing to the completed
      count. */
  lemma PrependCounts(t: Todo, todos: seq<Todo>)
    requires !t.completed
    ensures CompletedCount([t] + todos) == CompletedCount(todos)
  {
  }

  /** Toggling twice restores the list. */
  lemma ToggledTwice(todos: seq<Todo>, id: string)
    ensures Toggled(Toggled(todos, id), id) == todos
  {
  }

  /** Toggling an id that no record carries changes nothing. */
  lemma ToggledNoMatch(todos: seq<Todo>, id: string)
    requires !HasId(todos, id)
    ensures Toggled(todos, id) == todos
  {
  }

  /** Deleting an id that no record carries changes nothing. */
  lemma {:induction false} DeletedNoMatch(todos: seq<Todo>, id: string)
    requires !HasId(todos, id)
    ensures Deleted(todos, id) == todos
  {
    if todos != [] {
      assert !HasId(todos[1..], id);
      DeletedNoMatch(todos[1..], id);
      assert todos[0].id != id;
    }
  }

  /** The tail of a list with unique ids has unique ids and lacks the head's id. */
  lemma UniqueIdsTail(todos: seq<Todo>)
    requires UniqueIds(todos) && todos != []
    ensures UniqueIds(todos[1..]) && !HasId(todos[1..], todos[0].id)
  {
  }

  /** With unique ids at most one record carries a given id. */
  lemma {:induction false} UniqueIdsCountAtMostOne(todos: seq<Todo>, id: string)
    requires UniqueIds(todos)
    ensures CountId(todos, id) <= 1
  {
    if todos != [] {
      UniqueIdsTail(todos);
      UniqueIdsCountAtMostOne(todos[1..], id);
    }
  }

  /** With unique ids, deleting the id of a listed record removes exactly one record. */
  lemma DeletedUniqueRemovesOne(todos: seq<Todo>, k: nat)
    requires UniqueIds(todos) && k < |todos|
    ensures |Deleted(todos, todos[k].id)| == |todos| - 1
  {
    UniqueIdsCountAtMostOne(todos, todos[k].id);
    assert HasId(todos, todos[k].id);
  }

  /** With unique ids, toggling the id of a listed record moves the completed
      count by one, up if that record was pending and down if it was done. */
  lemma {:induction false} ToggledUniqueCount(todos: seq<Todo>, k: nat)
    requires UniqueIds(todos) && k < |todos|
    ensures CompletedCount(Toggled(todos, todos[k].id)) ==
            if todos[k].completed then CompletedCount(todos) - 1 else CompletedCount(todos) + 1
  {
    var id := todos[k].id;
    var rest := todos[1..];
    var r := Toggled(todos, id);
    assert r[1..] == Toggled(rest, id);
    assert CompletedCount(r) == (if r[0].completed then 1 else 0) + CompletedCount(Toggled(rest, id));
    assert CompletedCount(todos) == (if todos[0].completed then 1 else 0) + CompletedCount(rest);
    UniqueIdsTail(todos);
    if k == 0 {
      ToggledNoMatch(rest, id);
    } else {
      assert rest[k - 1] == todos[k];
      ToggledUniqueCount(rest, k - 1);
    }
  }

  /** Toggling keeps ids unique and texts stored. */
  lemma ToggledKeeps(todos: seq<Todo>, id: string)
    ensures UniqueIds(todos) ==> UniqueIds(Toggled(todos, id))
    ensures AllStored(todos) ==> AllStored(Toggled(todos, id))
  {
  }

  /** Deleting keeps texts stored: every remaining record was there before. */
  lemma DeletedKeepsStored(todos: seq<Todo>, id: string)
    requires AllStored(todos)
    ensures AllStored(Deleted(todos, id))
  {
  }

  /** Deleting keeps ids unique. */
  lemma {:induction false} DeletedKeepsUniqueIds(todos: seq<Todo>, id: string)
    requires UniqueIds(todos)
    ensures UniqueIds(Deleted(todos, id))
  {
    if todos != [] {
      var rest := Deleted(todos[1..], id);
      DeletedKeepsUniqueIds(todos[1..], id);
      if todos[0].id != id {
        forall j | 0 <= j < |rest| ensures todos[0].id != rest[j].id {
          assert rest[j] in todos[1..];
          var m :| 0 <= m < |todos[1..]| && todos[1..][m] == rest[j];
          assert todos[m + 1] == rest[j];
        }
        PrependKeepsUniqueIds(todos[0], rest);
      }
    }
  }

  /** Prepending a record with a stored text keeps texts stored. */
  lemma PrependKeepsStored(t: Todo, todos: seq<Todo>)
    requires AllStored(todos) && IsStoredText(t.text)
    ensures AllStored([t] + todos)
  {
  }

  /** Prepending a record whose id no record carries keeps ids unique. */
  lemma PrependKeepsUniqueIds(t: Todo, todos: seq<Todo>)
    requires UniqueIds(todos) && !HasId(todos, t.id)
    ensures UniqueIds([t] + todos)
  {
  }
}
