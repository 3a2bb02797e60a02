/** The collection handlers of `/api/todos`: each maps the outcome of body
    parsing, client construction and the datastore call to a status and a
    JSON body. The datastore's answer is an input; the handlers never look at
    it when they stop earlier. */
module TodosRoute {
  import opened Wrappers
  import opened Supabase
  import opened Todos
  import opened Text

  const FallbackError: string := "Supabase env or server error"
  const InvalidBody: string := "Invalid JSON or empty body"
  const TitleRequired: string := "title is required (string)"

  /** A JavaScript value as decoded from JSON, or `undefined` for an absent
      property. Arrays and objects are only told apart from the rest. */
  datatype JsValue = Undefined | Null | Bool(b: bool) | Number(n: real) | Str(s: string) | Composite

  /** JavaScript truthiness: `undefined`, `null`, `false`, `0` and `""` are falsy. */
  predicate Truthy(v: JsValue) {
    match v
    case Undefined => false
    case Null => false
    case Bool(b) => b
    case Number(n) => n != 0.0
    case Str(s) => s != ""
    case Composite => true
  }

  /** The outcome of `await req.json()`: a parse failure, or the value of
      `body?.title` (`Undefined` when absent or when the body is not an object). */
  datatype PostBody = Unparseable | Parsed(title: JsValue)

  /** What an awaited datastore query produced: `{data, error}` with
      `error.message` when `error` is set, or a thrown value. */
  datatype Query<T> = Returned(data: Option<T>, error: Option<string>) | QueryThrew(thrown: Thrown)

  /** JSON response bodies. `Row(None)` is JSON `null`. */
  datatype Body = ErrorBody(error: string) | Rows(rows: seq<Todo>) | Row(row: Option<Todo>)

  datatype Response = Response(status: int, body: Body)

  /** The row POST asks the datastore to insert. */
  datatype NewTodo = NewTodo(title: string, is_done: bool)

  /** A POST response together with the insert it issued, if any. */
  datatype Handled = Handled(response: Response, insert: Option<NewTodo>)

  /** The catch-all for anything thrown while building the client or querying. */
  function Unavailable(thrown: Thrown): (r: Response)
    ensures r.status == 503 && r.body.ErrorBody?
    ensures thrown.message.Some? ==> r.body.error == thrown.message.value
    ensures thrown.message.None? ==> r.body.error == FallbackError
  {
    Response(503, ErrorBody(thrown.message.GetOr(FallbackError)))
  }

  /** The check `!title || typeof title !== 'string'`: only a non-empty string
      passes; a whitespace-only string is not trimmed and passes. */
  function ValidTitle(title: JsValue): (r: Option<string>)
    ensures r.Some? <==> title.Str? && title.s != ""
    ensures r.Some? ==> r.value == title.s
  {
    if !Truthy(title) || !title.Str? then None else Some(title.s)
  }

  /** GET: 503 when the client cannot be built or the query throws, 500 with
      the datastore's message on a datastore error, otherwise 200 with the
      rows, or `[]` when there are none. */
  function Get(env: Env, query: Query<seq<Todo>>): (r: Response)
    ensures r.status in {200, 500, 503}
    ensures r.status == 503 <==> GetSupabaseServer(env).Failed? || query.QueryThrew?
    ensures r.status == 500 <==> GetSupabaseServer(env).Built? && query.Returned? && query.error.Some?
    ensures r.status == 500 ==> r.body == ErrorBody(query.error.value)
    ensures r.status == 200 ==> r.body == Rows(query.data.GetOr([]))
    ensures GetSupabaseServer(env).Failed? ==> r == Response(503, ErrorBody(MissingEnv))
    ensures GetSupabaseServer(env).Built? && query.QueryThrew? ==> r == Unavailable(query.thrown)
  {
    match GetSupabaseServer(env)
    case Failed(thrown) => Unavailable(thrown)
    case Built(_) =>
      match query
      case QueryThrew(thrown) => Unavailable(thrown)
      case Returned(data, error) =>
        if error.Some? then Response(500, ErrorBody(error.value))
        else Response(200, Rows(data.GetOr([])))
  }

  /** POST: the body is validated before any client is built, so a malformed
      request gets 400 and issues no insert whatever the configuration; a
      valid one inserts `{title, is_done: false}` and answers 201 with the
      inserted row, 500 on a datastore error, 503 when something throws. */
  function Post(body: PostBody, env: Env, insert: Query<Todo>): (h: Handled)
    ensures h.response.status in {201, 400, 500, 503}
    ensures body.Unparseable? ==> h == Handled(Response(400, ErrorBody(InvalidBody)), None)
    ensures body.Parsed? && ValidTitle(body.title).None? ==>
      h == Handled(Response(400, ErrorBody(TitleRequired)), None)
    ensures h.response.status == 400 <==> body.Unparseable? || ValidTitle(body.title).None?
    ensures h.insert.Some? <==> h.response.status != 400 && GetSupabaseServer(env).Built?
    ensures h.insert.Some? ==> h.insert.value == NewTodo(body.title.s, false)
    ensures h.response.status == 201 <==> h.insert.Some? && insert.Returned? && insert.error.None?
    ensures h.response.status == 201 ==> h.response.body == Row(insert.data)
    ensures h.response.status == 500 <==> h.insert.Some? && insert.Returned? && insert.error.Some?
    ensures h.response.status == 500 ==> h.response.body == ErrorBody(insert.error.value)
    ensures h.response.status == 503 <==>
      h.response.status != 400 && (GetSupabaseServer(env).Failed? || insert.QueryThrew?)
    ensures h.response.status == 503 ==> h.response == Unavailable(
      if GetSupabaseServer(env).Failed? then GetSupabaseServer(env).thrown else insert.thrown)
  {
    match body
    case Unparseable => Handled(Response(400, ErrorBody(InvalidBody)), None)
    case Parsed(title) =>
      match ValidTitle(title)
      case None => Handled(Response(400, ErrorBody(TitleRequired)), None)
      case Some(t) =>
        match GetSupabaseServer(env)
        case Failed(thrown) => Handled(Unavailable(thrown), None)
        case Built(_) =>
          var row := NewTodo(t, false);
          match insert
          case QueryThrew(thrown) => Handled(Unavailable(thrown), Some(row))
          case Returned(data, error) =>
            if error.Some? then Handled(Response(500, ErrorBody(error.value)), Some(row))
            else Handled(Response(201, Row(data)), Some(row))
  }

  /** A request that fails validation gets the same answer under any
      configuration and any datastore behaviour. */
  lemma PostValidationFirst(body: PostBody, env1: Env, env2: Env, insert1: Query<Todo>, insert2: Query<Todo>)
    requires body.Unparseable? || ValidTitle(body.title).None?
    ensures Post(body, env1, insert1) == Post(body, env2, insert2)
    ensures Post(body, env1, insert1).insert.None?
  {
  }

  /** The server does not trim: a whitespace-only title is inserted as given. */
  lemma PostKeepsWhitespaceTitle(s: string, env: Env, insert: Query<Todo>)
    requires s != "" && AllWhitespace(s) && GetSupabaseServer(env).Built?
    ensures Post(Parsed(Str(s)), env, insert).insert == Some(NewTodo(s, false))
  {
  }
}
