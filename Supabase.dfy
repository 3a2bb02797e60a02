/** `getSupabaseServer`: builds a datastore client from the two environment
    variables read on every request, and throws when either is missing or
    empty. */
module Supabase {
  import opened Wrappers

  const MissingEnv: string := "Missing env: NEXT_PUBLIC_SUPABASE_URL or NEXT_PUBLIC_SUPABASE_ANON_KEY"

  /** `process.env.NEXT_PUBLIC_SUPABASE_URL` and `..._ANON_KEY` at call time. */
  datatype Env = Env(url: Option<string>, key: Option<string>)

  /** A client built from a URL and a key. */
  datatype Client = Client(url: string, key: string)

  /** A thrown JavaScript value: `message` is present when it is an `Error`. */
  datatype Thrown = Thrown(message: Option<string>)

  datatype Setup = Built(client: Client) | Failed(thrown: Thrown)

  /** JavaScript truthiness of an optional string: present and non-empty. */
  predicate PresentAndNonEmpty(v: Option<string>) {
    v.Some? && v.value != ""
  }

  /** The client is built from the two values exactly when both are present
      and non-empty; otherwise an `Error` with the fixed message is thrown. */
  function GetSupabaseServer(env: Env): (r: Setup)
    ensures r.Built? <==> PresentAndNonEmpty(env.url) && PresentAndNonEmpty(env.key)
    ensures r.Built? ==> r.client == Client(env.url.value, env.key.value)
    ensures r.Failed? ==> r.thrown == Thrown(Some(MissingEnv))
  {
    if !PresentAndNonEmpty(env.url) || !PresentAndNonEmpty(env.key) then Failed(Thrown(Some(MissingEnv)))
    else Built(Client(env.url.value, env.key.value))
  }
}
