/** Values shared by every route and page: optional JSON fields and JSON replies. */
module Common {

  /** An optional value; `None` stands for a JSON field that is absent, `null` or `undefined`. */
  datatype Option<+T> = None | Some(value: T)

  /** What `NextResponse.json(body, { status })` sends: the status, the body's optional
      `message` field and its optional payload (`task`, `tasks` or `user`). */
  datatype Reply<+T> = Reply(status: nat, message: Option<string>, payload: Option<T>)

  /** JavaScript truthiness of a string-valued field: absent, `null` and `""` are falsy. */
  predicate Truthy(s: Option<string>) {
    s.Some? && s.value != ""
  }

  /** The expression `s || fallback` on a string-valued field. */
  function OrElse(s: Option<string>, fallback: string): string {
    if Truthy(s) then s.value else fallback
  }
}
