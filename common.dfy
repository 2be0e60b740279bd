/** Small shared vocabulary: optional values and HTTP-style replies. */
module Common {

  datatype Option<+T> = None | Some(value: T)

  /** What a route handler sends back: a success status with a JSON body,
      or an error status with the `message` field of the JSON body. */
  datatype Reply<+T> = Ok(status: int, body: T) | Fail(status: int, message: string)

  /** JavaScript truthiness of an optional string: present and not empty. */
  predicate Truthy(s: Option<string>)
  {
    s.Some? && s.value != ""
  }
}
