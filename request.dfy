/** Fields of a JSON request body, as the handlers read them. */
module Request {

  /** A body field that may be absent. */
  datatype Option<T> = None | Some(value: T)

  /** JavaScript truthiness of a field that is absent or a string:
      `undefined` and `""` are falsy, every other string is truthy. */
  predicate Present(f: Option<string>) {
    f.Some? && f.value != ""
  }
}
