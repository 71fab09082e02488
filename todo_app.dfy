/**
 * The `TodoApp` component's state and its event handlers. The two pieces of
 * component state become fields, and each state setter becomes an assignment
 * to its field.
 */
module TodoComponent {
  import opened Trimming
  import opened Todos

  class TodoApp {
    /** The task list, newest first. */
    var todos: seq<Todo>
    /** The draft in the input box. */
    var inputValue: string

    /** Every stored text is non-blank and trimmed: texts are written only by a
        successful add, which trims them, and nothing rewrites them later. */
    ghost predicate Valid()
      reads this
    {
      AllStored(todos)
    }

    /** The initial state: no tasks, empty draft. */
    constructor ()
      ensures Valid() && todos == [] && inputValue == ""
    {
      todos := [];
      inputValue := "";
    }

    /** The input's change handler: the draft is replaced as typed, untrimmed. */
    method SetInputValue(value: string)
      requires Valid()
      modifies this
      ensures Valid()
      ensures inputValue == value && todos == old(todos)
    {
      inputValue := value;
    }

    /** `addTodo`. A blank draft is ignored and left in the input. Otherwise a
        record with the trimmed draft, not completed, is put in front of the old
        list and the draft is cleared. `id` and `createdAt` stand for the clock
        readings the component takes. */
    method AddTodo(id: string, createdAt: int)
      requires Valid()
      modifies this
      ensures Valid()
      ensures Trim(old(inputValue)) == [] ==> todos == old(todos) && inputValue == old(inputValue)
      ensures Trim(old(inputValue)) != [] ==>
        && todos == [Todo(id, Trim(old(inputValue)), false, createdAt)] + old(todos)
        && inputValue == ""
      ensures UniqueIds(old(todos)) && !HasId(old(todos), id) ==> UniqueIds(todos)
    {
      var text := Trim(inputValue);
      if text == [] {
        return;
      }
      var t := Todo(id, text, false, createdAt);
      NewTextIsStored(inputValue);
      PrependKeepsStored(t, todos);
      if UniqueIds(todos) && !HasId(todos, id) {
        PrependKeepsUniqueIds(t, todos);
      }
      todos := [t] + todos;
      inputValue := "";
    }

    /** `toggleTodo`: every record carrying `id` has its completed flag flipped. */
    method ToggleTodo(id: string)
      requires Valid()
      modifies this
      ensures Valid()
      ensures todos == Toggled(old(todos), id) && inputValue == old(inputValue)
      ensures UniqueIds(old(todos)) ==> UniqueIds(todos)
    {
      ToggledKeeps(todos, id);
      todos := Toggled(todos, id);
    }

    /** `deleteTodo`: every record carrying `id` is removed. */
    method DeleteTodo(id: string)
      requires Valid()
      modifies this
      ensures Valid()
      ensures todos == Deleted(old(todos), id) && inputValue == old(inputValue)
      ensures UniqueIds(old(todos)) ==> UniqueIds(todos)
    {
      DeletedKeepsStored(todos, id);
      if UniqueIds(todos) {
        DeletedKeepsUniqueIds(todos, id);
      }
      todos := Deleted(todos, id);
    }

    /** `handleKeyPress`: the Enter key submits the draft as `addTodo` does;
        any other key changes nothing. */
    method HandleKeyPress(key: string, id: string, createdAt: int)
      requires Valid()
      modifies this
      ensures Valid()
      ensures key != "Enter" || Trim(old(inputValue)) == [] ==>
        todos == old(todos) && inputValue == old(inputValue)
      ensures key == "Enter" && Trim(old(inputValue)) != [] ==>
        && todos == [Todo(id, Trim(old(inputValue)), false, createdAt)] + old(todos)
        && inputValue == ""
      ensures UniqueIds(old(todos)) && !HasId(old(todos), id) ==> UniqueIds(todos)
    {
      if key == "Enter" {
        AddTodo(id, createdAt);
      }
    }
  }

  /** Adding to an empty list gives a one-record list with nothing completed. */
  method AddFirstTask()
  {
    var app := new TodoApp();
    app.SetInputValue("Buy milk");
    assert Trim("Buy milk") == "Buy milk" by { TrimOfTrimmed("Buy milk"); }
    app.AddTodo("1", 100);
    assert app.todos == [Todo("1", "Buy milk", false, 100)] && app.inputValue == "";
    assert CompletedCount(app.todos) == 0 && |app.todos| == 1;
  }

  /** The newest task comes first; Enter submits with the draft trimmed. */
  method NewestFirst()
  {
    var app := new TodoApp();
    app.SetInputValue("A");
    assert Trim("A") == "A" by { TrimOfTrimmed("A"); }
    app.AddTodo("1", 100);
    app.SetInputValue("  B ");
    assert Trim("  B ") == "B" by {
      assert Framed("  B ", "  ", "B", " ");
      TrimOfPadded("  B ", "  ", "B", " ");
    }
    app.HandleKeyPress("Enter", "2", 200);
    assert app.todos == [Todo("2", "B", false, 200), Todo("1", "A", false, 100)];
  }

  /** Toggling a task completes it; deleting it empties the list again. */
  method ToggleThenDelete()
  {
    var app := new TodoApp();
    app.SetInputValue("A");
    assert Trim("A") == "A" by { TrimOfTrimmed("A"); }
    app.AddTodo("X", 100);
    app.ToggleTodo("X");
    assert app.todos == [Todo("X", "A", true, 100)];
    assert CompletedCount(app.todos) == 1;
    app.DeleteTodo("X");
    assert app.todos == [];
  }

  /** A blank draft adds nothing and stays in the input. */
  method BlankDraftIgnored()
  {
    var app := new TodoApp();
    app.SetInputValue("   ");
    assert Trim("   ") == [] by { assert AllWhitespace("   "); }
    app.AddTodo("1", 100);
    assert app.todos == [] && app.inputValue == "   ";
  }
}
