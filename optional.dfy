/** The optional value the source expresses with `undefined`/`null`. */
module Optional {

  datatype Option<T> = None | Some(value: T)

  /** JavaScript truthiness of an optional string: present and not empty. */
  predicate IsTruthy(s: Option<string>)
  {
    s.Some? && s.value != ""
  }
}
