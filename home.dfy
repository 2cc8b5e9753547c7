/** The state of the task page (`Home` in app/page.tsx) and its handlers.
    Each handler that talks to the server is split where it awaits: a
    `BeginX` method does what runs before the request (validation and the
    optimistic change) and returns a `Pending` ticket holding what its
    closure captured; `SettleX` runs the continuation for the outcome of
    the request. The composed handlers run the two back to back. */
module Home {
  import opened JsString
  import opened TodoList

  datatype Option<T> = None | Some(value: T)

  /** How a request ended: a response with `ok` set, a response without it,
      or an exception from `fetch` or from reading the body. */
  datatype Outcome = Ok | NotOk | Threw

  /** The toast a handler shows; `Silent` when it shows none. */
  datatype Notice = Success | Warning | Error | Silent

  /** What an in-flight request's continuation closes over: the list as it
      was when the handler ran (`base`) and the handler's own arguments. */
  datatype Pending =
    | Creating(base: seq<Todo>)
    | Toggling(base: seq<Todo>, id: string, currentStatus: bool)
    | Deleting(base: seq<Todo>)
    | Saving(base: seq<Todo>, id: string, text: string)

  class TodoStore {
    var todos: seq<Todo>
    var inputValue: string
    var editingId: Option<string>
    var editText: string

    constructor ()
      ensures todos == [] && inputValue == "" && editingId == None && editText == ""
    {
      todos, inputValue, editingId, editText := [], "", None, "";
    }

    /** `!editingId`: JavaScript treats both null and "" as false. */
    predicate NoActiveEdit(): (r: bool)
      reads this
      ensures editingId == None ==> r
      ensures editingId.Some? ==> (r <==> |editingId.value| == 0)
    {
      editingId == None || editingId == Some("")
    }

    // ----- loading and typing -----

    /** The load on mount: the list the server sent replaces the local one;
        after an exception (`data == None`) the list is left as it was and an
        error is shown. */
    method Load(data: Option<seq<Todo>>) returns (n: Notice)
      modifies this`todos
      ensures todos == if data.Some? then data.value else old(todos)
      ensures n == if data.Some? then Silent else Error
    {
      if data.Some? {
        todos := data.value;
        n := Silent;
      } else {
        n := Error;
      }
    }

    /** The new-task input's onChange. */
    method TypeInput(v: string)
      modifies this`inputValue
      ensures inputValue == v
    {
      inputValue := v;
    }

    /** The edit input's onChange. */
    method TypeEditText(v: string)
      modifies this`editText
      ensures editText == v
    {
      editText := v;
    }

    // ----- edit mode -----

    /** `startEditing`: always takes the slot, discarding any scratch text of
        an edit already open. The list is not touched. */
    method StartEditing(id: string, text: string)
      modifies this`editingId, this`editText
      ensures editingId == Some(id) && editText == text
    {
      editingId := Some(id);
      editText := text;
    }

    /** Escape in the edit input: leaves edit mode, drops the scratch text,
        sends nothing and leaves the list as it is. */
    method CancelEdit()
      modifies this`editingId, this`editText
      ensures editingId == None && editText == ""
    {
      editingId := None;
      editText := "";
    }

    // ----- create: not optimistic -----

    /** The part of `handleAddTask` before the POST: a blank input is refused
        with a warning and no request; otherwise the request goes out and
        nothing local changes yet. */
    method BeginAddTask() returns (p: Option<Pending>, n: Notice)
      ensures p == None <==> IsBlank(inputValue)
      ensures p == None ==> n == Warning
      ensures p != None ==> p == Some(Creating(todos)) && n == Silent
    {
      TrimEmptyIffBlank(inputValue);
      if Trim(inputValue) == "" {
        return None, Warning;
      }
      return Some(Creating(todos)), Silent;
    }

    /** The continuation of the POST: on an ok response the saved record is
        appended to the list the handler saw and the input is cleared; a
        non-ok response changes nothing and shows nothing; an exception
        changes nothing and shows an error. */
    method SettleAddTask(p: Pending, outcome: Outcome, saved: Todo) returns (n: Notice)
      requires p.Creating?
      modifies this`todos, this`inputValue
      ensures outcome == Ok ==> todos == p.base + [saved] && inputValue == ""
      ensures outcome != Ok ==> todos == old(todos) && inputValue == old(inputValue)
      ensures n == match outcome case Ok => Success case NotOk => Silent case Threw => Error
    {
      match outcome {
        case Ok =>
          todos := p.base + [saved];
          inputValue := "";
          n := Success;
        case NotOk =>
          n := Silent;
        case Threw =>
          n := Error;
      }
    }

    /** `handleAddTask` with no other handler settling in between. */
    method HandleAddTask(outcome: Outcome, saved: Todo) returns (n: Notice)
      modifies this`todos, this`inputValue
      ensures IsBlank(old(inputValue)) ==>
        n == Warning && todos == old(todos) && inputValue == old(inputValue)
      ensures !IsBlank(old(inputValue)) && outcome == Ok ==>
        todos == old(todos) + [saved] && inputValue == "" && n == Success
      ensures !IsBlank(old(inputValue)) && outcome != Ok ==>
        todos == old(todos) && inputValue == old(inputValue) &&
        n == (if outcome == NotOk then Silent else Error)
      ensures DistinctIds(old(todos)) && AbsentId(old(todos), saved.id) ==> DistinctIds(todos)
    {
      var p;
      p, n := BeginAddTask();
      if p.Some? {
        n := SettleAddTask(p.value, outcome, saved);
        if DistinctIds(old(todos)) && AbsentId(old(todos), saved.id) {
          AppendFreshKeepsDistinct(old(todos), saved);
        }
      }
    }

    // ----- toggle: optimistic -----

    /** The part of `toggleTodo` before the PATCH: the records with that id
        show `!currentStatus` at once. */
    method BeginToggle(id: string, currentStatus: bool) returns (p: Pending)
      modifies this`todos
      ensures todos == SetCompleted(old(todos), id, !currentStatus)
      ensures p == Toggling(old(todos), id, currentStatus)
    {
      p := Toggling(todos, id, currentStatus);
      todos := SetCompleted(todos, id, !currentStatus);
    }

    /** The continuation of the PATCH: success keeps the list as it now is;
        a non-ok response or an exception rewrites the list from the one the
        handler saw, with the flag of that id set back to `currentStatus`. */
    method SettleToggle(p: Pending, outcome: Outcome) returns (n: Notice)
      requires p.Toggling?
      modifies this`todos
      ensures outcome == Ok ==> todos == old(todos) && n == Success
      ensures outcome != Ok ==>
        todos == SetCompleted(p.base, p.id, p.currentStatus) && n == Error
    {
      if outcome == Ok {
        n := Success;
      } else {
        todos := SetCompleted(p.base, p.id, p.currentStatus);
        n := Error;
      }
    }

    /** `toggleTodo` with no other handler settling in between. */
    method ToggleTodo(id: string, currentStatus: bool, outcome: Outcome) returns (n: Notice)
      modifies this`todos
      ensures outcome == Ok ==> todos == SetCompleted(old(todos), id, !currentStatus)
      ensures outcome != Ok ==> todos == SetCompleted(old(todos), id, currentStatus)
      ensures outcome != Ok && AllWithIdHave(old(todos), id, currentStatus) ==> todos == old(todos)
      ensures Ids(todos) == Ids(old(todos))
      ensures DistinctIds(todos) <==> DistinctIds(old(todos))
      ensures n == if outcome == Ok then Success else Error
    {
      var p := BeginToggle(id, currentStatus);
      n := SettleToggle(p, outcome);
      SetCompletedKeepsIds(old(todos), id, !currentStatus);
      SetCompletedKeepsIds(old(todos), id, currentStatus);
      if outcome != Ok && AllWithIdHave(old(todos), id, currentStatus) {
        SetCompletedSame(old(todos), id, currentStatus);
      }
    }

    // ----- delete: optimistic -----

    /** The part of `deleteTodo` before the DELETE: the records with that id
        disappear at once; the list as it was is the snapshot. */
    method BeginDelete(id: string) returns (p: Pending)
      modifies this`todos
      ensures todos == RemoveId(old(todos), id)
      ensures p == Deleting(old(todos))
    {
      p := Deleting(todos);
      todos := RemoveId(todos, id);
    }

    /** The continuation of the DELETE: success keeps the list as it now is;
        a failure puts the whole snapshot back. */
    method SettleDelete(p: Pending, outcome: Outcome) returns (n: Notice)
      requires p.Deleting?
      modifies this`todos
      ensures outcome == Ok ==> todos == old(todos) && n == Success
      ensures outcome != Ok ==> todos == p.base && n == Error
    {
      if outcome == Ok {
        n := Success;
      } else {
        todos := p.base;
        n := Error;
      }
    }

    /** `deleteTodo` with no other handler settling in between. */
    method DeleteTodo(id: string, outcome: Outcome) returns (n: Notice)
      modifies this`todos
      ensures outcome == Ok ==> todos == RemoveId(old(todos), id)
      ensures outcome == Ok ==> IsSubsequence(todos, old(todos))
      ensures outcome != Ok ==> todos == old(todos)
      ensures DistinctIds(old(todos)) ==> DistinctIds(todos)
      ensures n == if outcome == Ok then Success else Error
    {
      var p := BeginDelete(id);
      n := SettleDelete(p, outcome);
      RemoveIdIsSubsequence(old(todos), id);
      if DistinctIds(old(todos)) {
        RemoveIdKeepsDistinct(old(todos), id);
      }
    }

    // ----- save edit: optimistic -----

    /** The part of `saveEdit` before the PATCH. With no edit open nothing
        happens; with blank scratch text only a warning (edit mode stays
        open, no request); otherwise the record with the edited id takes the
        scratch text untrimmed, edit mode is closed and the request goes out. */
    method BeginSaveEdit() returns (p: Option<Pending>, n: Notice)
      modifies this`todos, this`editingId, this`editText
      ensures old(NoActiveEdit()) ==>
        p == None && n == Silent &&
        todos == old(todos) && editingId == old(editingId) && editText == old(editText)
      ensures !old(NoActiveEdit()) && IsBlank(old(editText)) ==>
        p == None && n == Warning &&
        todos == old(todos) && editingId == old(editingId) && editText == old(editText)
      ensures !old(NoActiveEdit()) && !IsBlank(old(editText)) ==>
        p == Some(Saving(old(todos), old(editingId).value, old(editText))) && n == Silent &&
        todos == SetText(old(todos), old(editingId).value, old(editText)) &&
        editingId == None && editText == ""
    {
      if NoActiveEdit() {
        return None, Silent;
      }
      TrimEmptyIffBlank(editText);
      if Trim(editText) == "" {
        return None, Warning;
      }
      var currentId, currentText, previousTodos := editingId.value, editText, todos;
      todos := SetText(todos, currentId, currentText);
      editingId := None;
      editText := "";
      p, n := Some(Saving(previousTodos, currentId, currentText)), Silent;
    }

    /** The continuation of the PATCH: success keeps the list as it now is;
        a failure puts the snapshot back. Edit mode stays closed either way. */
    method SettleSaveEdit(p: Pending, outcome: Outcome) returns (n: Notice)
      requires p.Saving?
      modifies this`todos
      ensures outcome == Ok ==> todos == old(todos) && n == Success
      ensures outcome != Ok ==> todos == p.base && n == Error
    {
      if outcome == Ok {
        n := Success;
      } else {
        todos := p.base;
        n := Error;
      }
    }

    /** `saveEdit` with no other handler settling in between. */
    method SaveEdit(outcome: Outcome) returns (n: Notice)
      modifies this`todos, this`editingId, this`editText
      ensures old(NoActiveEdit()) || IsBlank(old(editText)) ==>
        todos == old(todos) && editingId == old(editingId) && editText == old(editText) &&
        n == (if old(NoActiveEdit()) then Silent else Warning)
      ensures !old(NoActiveEdit()) && !IsBlank(old(editText)) ==>
        editingId == None && editText == "" &&
        todos == (if outcome == Ok then SetText(old(todos), old(editingId).value, old(editText))
                  else old(todos)) &&
        n == (if outcome == Ok then Success else Error)
      ensures Ids(todos) == Ids(old(todos))
      ensures DistinctIds(todos) <==> DistinctIds(old(todos))
    {
      ghost var before := todos;
      var p;
      p, n := BeginSaveEdit();
      if p.Some? {
        ghost var edited := todos;
        SetTextKeepsIds(before, p.value.id, p.value.text);
        assert Ids(edited) == Ids(before);
        n := SettleSaveEdit(p.value, outcome);
        assert todos == edited || todos == before;
      }
    }
  }

  /** Runs of the handlers, with what a caller can conclude from their
      contracts alone. */
  method Scenarios() {
    var store := new TodoStore();

    // Create on an empty list, the server answering with id "1".
    store.TypeInput("Buy milk");
    assert !IsBlank(store.inputValue) by { assert store.inputValue[0] == 'B'; }
    var n := store.HandleAddTask(Ok, Todo("1", "Buy milk", false));
    assert store.todos == [Todo("1", "Buy milk", false)] && store.inputValue == "";

    // A whitespace-only input is refused before any request.
    store.TypeInput(" \t ");
    assert IsBlank(store.inputValue) by { assert store.inputValue == [' ', '\t', ' ']; }
    n := store.HandleAddTask(Ok, Todo("2", " \t ", false));
    assert n == Warning && store.todos == [Todo("1", "Buy milk", false)];

    // A failed toggle settles back to the flag the record had.
    n := store.ToggleTodo("1", false, NotOk);
    assert store.todos == [Todo("1", "Buy milk", false)] && n == Error;

    // A successful edit changes the text and closes edit mode.
    store.StartEditing("1", "Buy milk");
    store.TypeEditText("B");
    assert !IsBlank(store.editText) by { assert store.editText[0] == 'B'; }
    n := store.SaveEdit(Ok);
    assert store.todos == [Todo("1", "B", false)] && store.editingId == None;

    // A successful delete of the first of two records keeps the second.
    n := store.Load(Some([Todo("1", "A", false), Todo("2", "C", false)]));
    n := store.DeleteTodo("1", Ok);
    assert store.todos == [Todo("2", "C", false)];

    // Two requests in flight: the failed delete restores its snapshot, which
    // also undoes the toggle that was issued after it and then succeeded.
    n := store.Load(Some([Todo("1", "A", false), Todo("2", "C", false)]));
    var del := store.BeginDelete("1");
    var tog := store.BeginToggle("2", false);
    assert store.todos == [Todo("2", "C", true)];
    n := store.SettleToggle(tog, Ok);
    n := store.SettleDelete(del, Threw);
    assert store.todos == [Todo("1", "A", false), Todo("2", "C", false)];
  }
}
