# Todo list: client reconciliation and collection API, in Dafny

A model of the two pieces of decision logic in a small TODO web application
built on Next.js and Supabase:

- the browser component `Home` (`app/page.tsx`), which holds the list of
  todos, the draft input, the filter, a loading flag and an error message, and
  folds each server reply into that state; and
- the `GET` and `POST` handlers of `/api/todos` (`app/api/todos/route.ts`),
  which turn body parsing, client construction and the datastore's answer into
  an HTTP status and JSON body.

Layout:

- `Wrappers.dfy`: `Option`.
- `Text.dfy`: JavaScript `trim` over an explicit whitespace set.
- `Sequences.dfy`: `filter` and `map` on sequences, with contents, multiplicity
  and order properties.
- `Todos.dfy`: the `Todo` record and the pure list transforms of the page
  (`[created, ...prev]`, `prev.filter(...)`, `prev.map(...)`, the filtered view,
  the remaining count), with lemmas.
- `Page.dfy`: the component's state as a class `Home` whose handlers take the
  network round trip as a `Reply` parameter and return the `Request` they send.
- `Supabase.dfy`: `getSupabaseServer`'s environment check.
- `TodosRoute.dfy`: the `GET` and `POST` handlers as functions from outcomes to
  responses.

The callbacks the source passes to `filter` and `map`, and the title's
truthiness test, are small helpers without a contract of their own; they are
covered by the members that use them:

- `Todos.OtherId(id)` is `(todo) => todo.id !== id` (app/page.tsx:85), used by
  `Todos.RemoveById`.
- `Todos.SwapIn(updated)` is `(t) => (t.id === updated.id ? updated : t)`
  (app/page.tsx:110 and 139), used by `Todos.ReplaceById`.
- `Todos.IsActive` and `Todos.IsDone` are the `"active"` and `"done"` branches
  of the view's callback (app/page.tsx:156-157); `Todos.IsActive` is also the
  remaining count's callback (app/page.tsx:161). Both are used by
  `Todos.FilteredTodos` and `Todos.RemainingCount`.
- `TodosRoute.Truthy` is JavaScript truthiness, the `!title` test
  (app/api/todos/route.ts:35), used by `TodosRoute.ValidTitle`.

Behaviour of the code worth noting:

- Delete drops every record with the id (`prev.filter`), not just one.
- Add and Edit leave `error` as it was when they send nothing; they return
  before clearing it.
- The server accepts a whitespace-only title: it does not trim.

## Model

| member | source | states |
|---|---|---|
| Text.TrimStart | app/page.tsx:46 | drops exactly the longest all-whitespace prefix: the result is a suffix of the input starting with a non-whitespace character or empty |
| Text.TrimEnd | app/page.tsx:46 | drops exactly the longest all-whitespace suffix: the result is a prefix of the input ending with a non-whitespace character or empty |
| Text.Trim | app/page.tsx:122 | the trimmed text has no whitespace at either end and is empty exactly when the input is all whitespace |
| Text.TrimIsSlice | app/page.tsx:46 | the trimmed text is the slice of the input between an all-whitespace prefix and an all-whitespace suffix; with Trim's end conditions this fixes the result uniquely |
| Text.TrimIdempotent | app/page.tsx:122 | trimming twice equals trimming once |
| Sequences.Filter | app/page.tsx:85 | `filter` keeps exactly the elements satisfying the predicate, each with its original multiplicity |
| Sequences.Map | app/page.tsx:109-111 | `map` keeps the length and replaces each element by its image, position by position |
| Sequences.FilterIsSubsequence | app/page.tsx:155-159 | a filter result keeps the survivors in their original relative order |
| Sequences.FilterIdempotent | app/page.tsx:85 | filtering twice by one predicate equals filtering once |
| Sequences.FilterComplement | app/page.tsx:161 | the elements kept by a predicate and by its negation number the whole sequence |
| Todos.RemoveById | app/page.tsx:85 | after a delete no record has the id, and every other record keeps its multiplicity |
| Todos.RemoveByIdIsSubsequence | app/page.tsx:85 | a delete keeps the other records in their order |
| Todos.RemoveByIdIdempotent | app/page.tsx:85 | deleting an id twice equals deleting it once |
| Todos.RemoveByIdAbsent | app/page.tsx:85 | deleting an id not in the list leaves the list unchanged |
| Todos.RemoveByIdLength | app/page.tsx:85 | with unique ids, deleting a present id shortens the list by exactly one |
| Todos.RemoveByIdKeepsIdsUnique | app/page.tsx:85 | a delete preserves uniqueness of ids |
| Todos.ReplaceById | app/page.tsx:109-111 | a server copy replaces every record with its id, every other record stays in place, the length and every position's id are unchanged |
| Todos.ReplaceByIdKeepsIdsUnique | app/page.tsx:138-140 | replacing by id preserves uniqueness of ids |
| Todos.ReplaceByIdIdempotent | app/page.tsx:138-140 | applying the same server copy twice equals applying it once |
| Todos.ReplaceByIdAbsent | app/page.tsx:109-111 | a server copy whose id is not in the list changes nothing |
| Todos.ReplaceByIdRemainingCount | app/page.tsx:93-111 | with unique ids, a replacement moves the remaining count by exactly the change in that record's done flag |
| Todos.Prepend | app/page.tsx:65 | after an add the created record is first, the old list follows unchanged, the length grows by one |
| Todos.PrependKeepsIdsUnique | app/page.tsx:65 | prepending a record with a new id keeps ids unique |
| Todos.PrependRemainingCount | app/page.tsx:65 | prepending adds one to the remaining count exactly when the new record is not done |
| Todos.FilteredTodos | app/page.tsx:155-159 | "all" shows the whole list; otherwise a record is shown exactly when it is in the list and its flag matches the filter, and each shown record appears exactly as many times as in the list |
| Todos.FilteredIsSubsequence | app/page.tsx:155-159 | every filtered view keeps the list's order |
| Todos.RemainingCount | app/page.tsx:161 | the remaining count equals the size of the "active" view, and with the size of the "done" view adds up to the list's length |
| Todos.RemainingCountIsActiveCount | app/page.tsx:161 | the remaining count equals an independent record-by-record count of the records not done |
| Page.FailureMessage | app/page.tsx:57-71 | a thrown Error shows its message, any other thrown value the unknown-error text; a non-2xx reply shows the server's error string only when the operation reads it (Add), otherwise the fixed message |
| Page.AddRequest | app/page.tsx:45-54 | nothing is posted exactly when the draft is all whitespace; otherwise the request is a create whose title is exactly the trimmed draft, non-empty |
| Page.EditRequest | app/page.tsx:119-131 | nothing is sent exactly when the prompt is cancelled, the answer is all whitespace, or its trimmed form equals the current title; otherwise the trimmed answer is sent for the record's id |
| Page.EditTwiceSendsOnce | app/page.tsx:120-123 | once the server has applied an edited title, the same answer sends nothing |
| Page.Home.constructor | app/page.tsx:15-19 | the component starts with an empty list, empty draft, filter "all", not loading, no error |
| Page.Home.FetchTodos | app/page.tsx:23-40 | loading is false afterwards in every case; success replaces the list wholesale and leaves no error; a non-2xx reply keeps the list and sets the fixed load message, a thrown value keeps the list and sets its message or the unknown-error text |
| Page.Home.HandleAdd | app/page.tsx:45-72 | an all-whitespace draft sends nothing and changes nothing; success puts the server's record first and clears the draft and error; failure keeps list and draft and sets the server's or the fixed message |
| Page.Home.ReconcileCreate | app/page.tsx:50-71 | after Add's POST: success puts the created record first, clears draft and error; failure keeps list and draft and sets the server's error string or the fixed message |
| Page.Home.HandleDelete | app/page.tsx:74-91 | success drops every record with the id and clears the error; a non-2xx reply keeps the list and sets the fixed message, a thrown value its message or the unknown-error text; unique ids stay unique |
| Page.Home.ToggleCompleted | app/page.tsx:93-117 | sends the negation of the clicked record's flag; success replaces by id and clears the error; a non-2xx reply keeps the list and sets the fixed message, a thrown value its message or the unknown-error text; unique ids stay unique |
| Page.Home.HandleEditTitle | app/page.tsx:119-146 | sends exactly what EditRequest decides; no request means no change to list or error; success replaces by id and clears the error; a non-2xx reply keeps the list and sets the fixed message, a thrown value its message or the unknown-error text; unique ids stay unique |
| Page.Home.ReconcileUpdate | app/page.tsx:97-116 | after a Toggle or Edit PATCH: success replaces by id and clears the error; a non-2xx reply keeps the list and sets the given fixed message, a thrown value its message or the unknown-error text; unique ids stay unique |
| Page.Home.SetInput | app/page.tsx:16 | only the draft changes |
| Page.Home.SetFilter | app/page.tsx:17 | only the filter changes, so the remaining count is unchanged |
| Supabase.GetSupabaseServer | lib/supabase-server.ts:7-18 | a client is built exactly when both environment values are present and non-empty; otherwise the fixed missing-env Error is thrown |
| TodosRoute.Unavailable | app/api/todos/route.ts:18-21 | anything thrown yields 503 with its Error message, or the fallback text for a non-Error |
| TodosRoute.ValidTitle | app/api/todos/route.ts:34-37 | a title passes exactly when it is a non-empty string, and is passed through untrimmed |
| TodosRoute.Get | app/api/todos/route.ts:5-22 | status is 200, 500 or 503; 503 exactly when the client cannot be built (body: the missing-env message) or the query throws (body: the thrown Error's message or the fallback text); 500 exactly on a datastore error, with its message; 200 carries the rows or `[]` |
| TodosRoute.Post | app/api/todos/route.ts:25-55 | 400 exactly when the body does not parse or the title is invalid, with the exact messages and no insert; an insert is issued exactly when validation passes and the client is built, and it is always `{title, is_done: false}`; 201 with the row, 500 with the datastore's message, 503 exactly when the client cannot be built or the insert throws, with the body built from whichever was thrown |
| TodosRoute.PostValidationFirst | app/api/todos/route.ts:28-39 | a request failing validation gets the same response under any configuration and datastore behaviour, and issues no insert |
| TodosRoute.PostKeepsWhitespaceTitle | app/api/todos/route.ts:34-44 | any non-empty, all-whitespace title is accepted and inserted exactly as given, untrimmed |

## Left out

- Network I/O (`fetch`, `res.json()`, `req.json()`, `JSON.stringify`) is replaced by already-decoded outcome values (`Reply`, `PostBody`, `Query`).
- Async interleaving: each handler's request and reply are applied at once, so out-of-order replies racing on one record are not modelled.
- `window.prompt` is the `answer: Option<string>` parameter of `HandleEditTitle`.
- The JSX from `app/page.tsx:163` on, the CSS and `handleKeyDown` (Enter triggers add) are presentation; the filter buttons and the input's change handler appear only as `SetFilter` and `SetInput`.
- The `PATCH` and `DELETE` handlers of `/api/todos/[id]` are not part of this model; the page's Delete, Toggle and Edit take their outcome as a `Reply`.
- The datastore (ordering by `created_at`, id and timestamp generation, single-row semantics) is external: query results are opaque inputs.
- Supabase.GetSupabaseServer: `createClient` is assumed not to throw once both values are present; a failure there would give the same 503 as `Unavailable`.
- Text.IsWhitespace lists the ECMAScript WhiteSpace and LineTerminator code points explicitly; Unicode category lookups are not modelled.
- JSON numbers are modelled as reals; only their truthiness matters to the title check.
