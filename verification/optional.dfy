/**
 Request-body fields that a client may leave out.
 */
module Optional {

  /** A field of a parsed JSON body: `Absent` when the key is missing
      (`undefined` in JavaScript), `Some(v)` when it carries `v`. */
  datatype Option<T> = Absent | Some(value: T)
}
