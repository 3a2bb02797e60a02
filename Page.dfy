/** The client component `Home`: its state (`todos`, `input`, `filter`,
    `loading`, `error`) and the handlers that send one request each and fold
    the reply into that state. A handler's network round trip is given to it
    as a `Reply` value, and what it would send is returned as a `Request`. */
module Page {
  import opened Wrappers
  import opened Text
  import opened Todos

  const LoadFailed: string := "TODO一覧の取得に失敗しました"
  const AddFailed: string := "TODOの追加に失敗しました"
  const DeleteFailed: string := "TODOの削除に失敗しました"
  const UpdateFailed: string := "TODOの更新に失敗しました"
  const TitleUpdateFailed: string := "タイトルの更新に失敗しました"
  /** The message when the thrown value is not an `Error`. */
  const UnknownError: string := "不明なエラーが発生しました"

  /** What a `fetch` round trip produced, as the handler sees it. */
  datatype Reply<T> =
    | Ok(body: T)
      // `res.ok` and the body decoded
    | NotOk(errorField: Option<string>)
      // a non-2xx status; `errorField` is the body's `error` when it is a string
    | Threw(message: Option<string>)
      // `fetch` or `res.json()` threw; `message` is present when the value is an `Error`

  /** The requests the page sends to the API. */
  datatype Request =
    | List                                      // GET /api/todos
    | Create(title: string)                     // POST /api/todos {title}
    | Remove(id: string)                        // DELETE /api/todos/{id}
    | SetDone(id: string, is_done: bool)        // PATCH /api/todos/{id} {is_done}
    | Rename(id: string, title: string)         // PATCH /api/todos/{id} {title}

  /** The message a failed operation shows. The server's own `error` string is
      read only when the operation asks for it (Add); otherwise a non-2xx reply
      shows the operation's fixed message. A thrown `Error` shows its message. */
  function FailureMessage<T>(reply: Reply<T>, fixed: string, readsServerError: bool): (m: string)
    requires !reply.Ok?
    ensures reply.NotOk? && (!readsServerError || reply.errorField.None?) ==> m == fixed
    ensures reply.NotOk? && readsServerError && reply.errorField.Some? ==> m == reply.errorField.value
    ensures reply.Threw? ==> m == reply.message.GetOr(UnknownError)
  {
    match reply
    case NotOk(field) => if readsServerError then field.GetOr(fixed) else fixed
    case Threw(message) => message.GetOr(UnknownError)
  }

  /** Add's guard: the trimmed draft, or nothing to send when it is empty. */
  function AddRequest(input: string): (r: Option<Request>)
    ensures r.None? <==> AllWhitespace(input)
    ensures r.Some? ==> r.value == Create(Trim(input))
    ensures r.Some? ==> r.value.title != [] && Trim(r.value.title) == r.value.title
  {
    var trimmed := Trim(input);
    TrimIdempotent(input);
    if trimmed == [] then None else Some(Create(trimmed))
  }

  /** Edit's guard: nothing is sent when the prompt is cancelled, or when the
      trimmed answer is empty or equal to the current title; otherwise the
      trimmed answer is sent. */
  function EditRequest(todo: Todo, answer: Option<string>): (r: Option<Request>)
    ensures r.None? <==> answer.None? || AllWhitespace(answer.value) || Trim(answer.value) == todo.title
    ensures r.Some? ==> r.value == Rename(todo.id, Trim(answer.value))
    ensures r.Some? ==> r.value.title != [] && r.value.title != todo.title && Trim(r.value.title) == r.value.title
  {
    match answer
    case None => None
    case Some(text) =>
      var trimmed := Trim(text);
      TrimIdempotent(text);
      if trimmed == [] || trimmed == todo.title then None else Some(Rename(todo.id, trimmed))
  }

  /** Once the server has applied an edit, giving the same answer again sends nothing. */
  lemma EditTwiceSendsOnce(todo: Todo, answer: Option<string>, updated: Todo)
    requires EditRequest(todo, answer).Some?
    requires updated.title == EditRequest(todo, answer).value.title
    ensures EditRequest(updated, answer).None?
  {
  }

  class Home {
    var todos: seq<Todo>
    var input: string
    var filter: TodoFilter
    var loading: bool
    var error: Option<string>

    /** The initial state of the component. */
    constructor ()
      ensures todos == [] && input == "" && filter == All && !loading && error == None
    {
      todos := [];
      input := "";
      filter := All;
      loading := false;
      error := None;
    }

    /** The initial load (`fetchTodos`): the list is replaced wholesale on
        success, and `loading` is false afterwards whatever happened. */
    method FetchTodos(reply: Reply<seq<Todo>>) returns (sent: Request)
      modifies this
      ensures sent == List
      ensures !loading
      ensures reply.Ok? ==> todos == reply.body && error == None
      ensures !reply.Ok? ==> todos == old(todos) && error == Some(FailureMessage(reply, LoadFailed, false))
      ensures input == old(input) && filter == old(filter)
    {
      loading := true;
      error := None;
      sent := List;
      match reply {
        case Ok(data) =>
          todos := data;
        case _ =>
          error := Some(FailureMessage(reply, LoadFailed, false));
      }
      loading := false;
    }

    /** `handleAdd`: an all-whitespace draft sends nothing and changes nothing;
        otherwise the trimmed draft is posted, and on success the server's
        record is put first and the draft is cleared. */
    method HandleAdd(reply: Reply<Todo>) returns (sent: Option<Request>)
      modifies this
      ensures sent == AddRequest(old(input))
      ensures sent.None? ==> todos == old(todos) && input == old(input) && error == old(error)
      ensures sent.Some? && reply.Ok? ==>
        todos == Prepend(reply.body, old(todos)) && input == "" && error == None
      ensures sent.Some? && !reply.Ok? ==>
        todos == old(todos) && input == old(input) && error == Some(FailureMessage(reply, AddFailed, true))
      ensures filter == old(filter) && loading == old(loading)
    {
      sent := AddRequest(input);
      if sent.None? {
        return;
      }
      ReconcileCreate(reply);
    }

    /** The part of Add after its POST is sent: the error is cleared, then the
        created record is put first and the draft cleared, or the server's
        message (or the fixed one) is shown. */
    method ReconcileCreate(reply: Reply<Todo>)
      modifies this
      ensures reply.Ok? ==> todos == Prepend(reply.body, old(todos)) && input == "" && error == None
      ensures !reply.Ok? ==>
        todos == old(todos) && input == old(input) && error == Some(FailureMessage(reply, AddFailed, true))
      ensures filter == old(filter) && loading == old(loading)
    {
      error := None;
      if reply.Ok? {
        todos := Prepend(reply.body, todos);
        input := "";
      } else {
        error := Some(FailureMessage(reply, AddFailed, true));
      }
    }

    /** `handleDelete`: on success every record with the id is dropped. */
    method HandleDelete(id: string, reply: Reply<()>) returns (sent: Request)
      modifies this
      ensures sent == Remove(id)
      ensures reply.Ok? ==> todos == RemoveById(old(todos), id) && error == None
      ensures !reply.Ok? ==> todos == old(todos) && error == Some(FailureMessage(reply, DeleteFailed, false))
      ensures UniqueIds(old(todos)) ==> UniqueIds(todos)
      ensures input == old(input) && filter == old(filter) && loading == old(loading)
    {
      error := None;
      sent := Remove(id);
      if reply.Ok? {
        assert UniqueIds(todos) ==> UniqueIds(RemoveById(todos, id)) by {
          if UniqueIds(todos) { RemoveByIdKeepsIdsUnique(todos, id); }
        }
        todos := RemoveById(todos, id);
      } else {
        error := Some(FailureMessage(reply, DeleteFailed, false));
      }
    }

    /** `toggleCompleted`: sends the negation of the clicked record's flag; on
        success the server's copy replaces the record with its id. */
    method ToggleCompleted(todo: Todo, reply: Reply<Todo>) returns (sent: Request)
      modifies this
      ensures sent == SetDone(todo.id, !todo.is_done)
      ensures reply.Ok? ==> todos == ReplaceById(old(todos), reply.body) && error == None
      ensures !reply.Ok? ==> todos == old(todos) && error == Some(FailureMessage(reply, UpdateFailed, false))
      ensures UniqueIds(old(todos)) ==> UniqueIds(todos)
      ensures input == old(input) && filter == old(filter) && loading == old(loading)
    {
      var nextDone := !todo.is_done;
      sent := SetDone(todo.id, nextDone);
      ReconcileUpdate(reply, UpdateFailed);
    }

    /** `handleEditTitle`: `answer` is what the prompt returned (None when
        cancelled). No request and no change when the guard rejects it;
        otherwise the trimmed title is sent and, on success, the server's copy
        replaces the record with its id. */
    method HandleEditTitle(todo: Todo, answer: Option<string>, reply: Reply<Todo>) returns (sent: Option<Request>)
      modifies this
      ensures sent == EditRequest(todo, answer)
      ensures sent.None? ==> todos == old(todos) && error == old(error)
      ensures sent.Some? && reply.Ok? ==> todos == ReplaceById(old(todos), reply.body) && error == None
      ensures sent.Some? && !reply.Ok? ==>
        todos == old(todos) && error == Some(FailureMessage(reply, TitleUpdateFailed, false))
      ensures UniqueIds(old(todos)) ==> UniqueIds(todos)
      ensures input == old(input) && filter == old(filter) && loading == old(loading)
    {
      sent := EditRequest(todo, answer);
      if sent.None? {
        return;
      }
      ReconcileUpdate(reply, TitleUpdateFailed);
    }

    /** The part Toggle and Edit share once their PATCH is sent: the error is
        cleared, then the server's copy replaces the record with its id, or
        the fixed message is shown. */
    method ReconcileUpdate(reply: Reply<Todo>, fixed: string)
      modifies this
      ensures reply.Ok? ==> todos == ReplaceById(old(todos), reply.body) && error == None
      ensures !reply.Ok? ==> todos == old(todos) && error == Some(FailureMessage(reply, fixed, false))
      ensures UniqueIds(old(todos)) ==> UniqueIds(todos)
      ensures input == old(input) && filter == old(filter) && loading == old(loading)
    {
      error := None;
      if reply.Ok? {
        assert UniqueIds(todos) ==> UniqueIds(ReplaceById(todos, reply.body)) by {
          if UniqueIds(todos) { ReplaceByIdKeepsIdsUnique(todos, reply.body); }
        }
        todos := ReplaceById(todos, reply.body);
      } else {
        error := Some(FailureMessage(reply, fixed, false));
      }
    }

    /** The draft input's setter. */
    method SetInput(text: string)
      modifies this
      ensures input == text
      ensures todos == old(todos) && filter == old(filter) && loading == old(loading) && error == old(error)
    {
      input := text;
    }

    /** The filter selector's setter: only the view changes, so the remaining
        count, which reads the whole list, stays the same. */
    method SetFilter(f: TodoFilter)
      modifies this
      ensures filter == f
      ensures todos == old(todos) && RemainingCount(todos) == old(RemainingCount(todos))
      ensures input == old(input) && loading == old(loading) && error == old(error)
    {
      filter := f;
    }
  }
}
