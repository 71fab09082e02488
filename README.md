# Todo list widget: a verified model

This project models the state logic of the `TodoApp` component, a single-screen
todo list. The component holds two pieces of state:

- `todos`: the list of task records, newest first. Each record has an id, a
  text, a completed flag and a creation time.
- `inputValue`: the draft typed into the input box.

Three handlers change that state:

- `addTodo` ignores a draft that is blank after trimming. Otherwise it puts a
  new, not completed record with the trimmed draft in front of the list and
  clears the draft.
- `toggleTodo(id)` flips the completed flag of every record with that id.
- `deleteTodo(id)` removes every record with that id.

The header shows two values derived from the list: how many records are
completed (`completedCount`) and how many there are (`totalCount`).

The model has three modules, one file each:

- `trim.dfy` (module `Trimming`): ECMAScript `String.prototype.trim`. It
  removes leading and trailing WhiteSpace and LineTerminator code points.
- `todos.dfy` (module `Todos`): the `Todo` record and the pure list
  transformations. These are the `map` behind toggle (`Toggled`), the `filter`
  behind delete (`Deleted`) and the completed count (`CompletedCount`). The
  module also holds the lemmas about them.
- `todo_app.dfy` (module `TodoComponent`): the component as a class.
  - It has the fields `todos` and `inputValue`, and one method per handler.
  - Its invariant `Valid()` says that every stored text is non-blank and
    already trimmed.
  - Four client methods replay simple walk-throughs against the handlers'
    contracts: add one task, newest first, toggle then delete, blank draft.

`totalCount` is `|todos|`, so it needs no function of its own.

## Model

| member | source | states |
|---|---|---|
| `Trimming.Trim` | src/components/TodoApp.tsx:21-25 | `trim()` on the draft: the result has no whitespace at either end, is no longer than the input, and is empty exactly when the input is all whitespace. This is the "blank" test at line 21. |
| `Trimming.TrimFramed` | src/components/TodoApp.tsx:25 | Trimming removes only whitespace, and only from the two ends: the input is the result with whitespace before it and whitespace after it. |
| `Trimming.TrimOfPadded` | src/components/TodoApp.tsx:25 | Independent characterisation: take a trimmed string and put any whitespace before and after it. Trimming that input gives back exactly the trimmed string. |
| `Trimming.TrimOfTrimmed` | src/components/TodoApp.tsx:25 | Trimming leaves a string unchanged exactly when neither of its ends is whitespace. Both directions are proved. |
| `Trimming.TrimIdempotent` | src/components/TodoApp.tsx:21-25 | Trimming twice equals trimming once. So the text stored at line 25 would pass the check at line 21 unchanged. |
| `Todos.NewTextIsStored` | src/components/TodoApp.tsx:21-25 | When the trimmed draft is non-empty, it is a valid stored text: non-blank, with no whitespace at either end. |
| `Todos.CountId` | src/components/TodoApp.tsx:45 | The number of records carrying an id. It is at most the length, and zero exactly when no record has that id. |
| `Todos.Toggled` | src/components/TodoApp.tsx:38-42 | The `map` at lines 39-41 keeps the length and every record's id, text and creation time. The completed flag changes at position i exactly when that record's id matches. |
| `Todos.ToggledTwice` | src/components/TodoApp.tsx:40 | Toggling the same id twice restores the original list. |
| `Todos.ToggledNoMatch` | src/components/TodoApp.tsx:39-41 | When no record has the id, toggling leaves the list identical. |
| `Todos.ToggledUniqueCount` | src/components/TodoApp.tsx:38-42 | Assume ids are unique and the id belongs to a listed record. Then toggling moves `completedCount` by exactly one: down if that record was completed, up if it was not. |
| `Todos.ToggledKeeps` | src/components/TodoApp.tsx:40 | Toggling keeps ids unique and every stored text non-blank and trimmed. |
| `Todos.Deleted` | src/components/TodoApp.tsx:44-45 | The `filter` at line 45 keeps exactly the records whose id differs. Each is kept as often as before (multiset), in its original order (subsequence). No record with the id remains. The length drops by the number of matching records. |
| `Todos.DeletedNoMatch` | src/components/TodoApp.tsx:45 | When no record has the id, deleting leaves the list identical. |
| `Todos.UniqueIdsCountAtMostOne` | src/components/TodoApp.tsx:24 | When ids are unique, at most one record carries any given id. |
| `Todos.UniqueIdsTail` | src/components/TodoApp.tsx:24 | When ids are unique, the tail's ids are unique and the tail lacks the head's id. |
| `Todos.DeletedUniqueRemovesOne` | src/components/TodoApp.tsx:45 | When ids are unique, deleting a listed record's id makes the list exactly one shorter. |
| `Todos.DeletedKeepsStored` | src/components/TodoApp.tsx:45 | Deleting keeps every stored text non-blank and trimmed. |
| `Todos.DeletedKeepsUniqueIds` | src/components/TodoApp.tsx:45 | Deleting keeps ids unique. |
| `Todos.CompletedCount` | src/components/TodoApp.tsx:59-60 | `completedCount` is at most `totalCount`. It is zero exactly when no record is completed, and equal to the total exactly when every record is. |
| `Todos.PrependCounts` | src/components/TodoApp.tsx:30 | Prepending a record that is not completed leaves `completedCount` unchanged. |
| `Todos.PrependKeepsStored` | src/components/TodoApp.tsx:25-30 | Prepending a record with a valid text keeps every stored text non-blank and trimmed. |
| `Todos.PrependKeepsUniqueIds` | src/components/TodoApp.tsx:24-30 | Prepending a record whose id is not yet in the list keeps ids unique. |
| `TodoComponent.TodoApp.constructor` | src/components/TodoApp.tsx:16-17 | The initial state is an empty list and an empty draft, and the invariant holds. |
| `TodoComponent.TodoApp.SetInputValue` | src/components/TodoApp.tsx:81 | The change handler replaces the draft verbatim, untrimmed, and leaves the list alone. |
| `TodoComponent.TodoApp.AddTodo` | src/components/TodoApp.tsx:20-36 | Blank draft: list and draft are both unchanged. Otherwise: the new list is a record `(id, Trim(draft), not completed, createdAt)` followed by the old list, and the draft becomes `""`. The invariant is kept. Ids stay unique when the new id is not already in the list. |
| `TodoComponent.TodoApp.ToggleTodo` | src/components/TodoApp.tsx:38-42 | The list becomes `Toggled(old list, id)` and the draft is untouched. The invariant and id uniqueness are kept. |
| `TodoComponent.TodoApp.DeleteTodo` | src/components/TodoApp.tsx:44-51 | The list becomes `Deleted(old list, id)` and the draft is untouched. The invariant and id uniqueness are kept. |
| `TodoComponent.TodoApp.HandleKeyPress` | src/components/TodoApp.tsx:53-57 | Enter behaves exactly as `addTodo`, including keeping ids unique when the new id is fresh. Any other key changes nothing. |

## Left out

- Rendering: the JSX, CSS class strings and conditional display blocks
  (src/components/TodoApp.tsx:62-167). They only present state.
- The `toast` notifications on add and delete
  (src/components/TodoApp.tsx:32-35, 46-50). They call into the external
  `useToast` hook and do not change the component's state.
- The clock: `Date.now().toString()` for the id and `new Date()` for
  `createdAt` (src/components/TodoApp.tsx:24, 27). Both are parameters of
  `AddTodo` and `HandleKeyPress`, and `createdAt` is an opaque `int`.
  - Nothing makes ids unique: two adds in the same millisecond get the same id.
  - So `Toggled` and `Deleted` are specified for every record with a matching id.
  - Uniqueness is an explicit hypothesis (`UniqueIds`) of the lemmas that need
    it. Toggle and delete preserve it; add preserves it when the new id is
    fresh.
- React's `useState` machinery and re-rendering. Each state setter is a plain
  field assignment.
- The keyboard event object in `handleKeyPress`. Only its `key` string is
  modelled.
- `Trimming.Trim` works on Unicode scalar values, whereas JavaScript strings
  are UTF-16 code units. Every ECMAScript whitespace code point is in the Basic
  Multilingual Plane, so the two agree on well-formed text. Lone surrogates are
  not modelled.

## Behaviour worth noting

- A blank draft stays in the input. `addTodo` returns early on a blank draft
  (src/components/TodoApp.tsx:21), before `setInputValue("")` at line 31.
  `AddTodo` promises `inputValue == old(inputValue)` on blank input, and the
  `BlankDraftIgnored` walk-through checks it.
- Toggle and delete act on every record with the given id, not on one record.
  `Toggled` and `Deleted` are specified that way.
