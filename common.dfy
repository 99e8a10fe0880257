/**
 Shared vocabulary of the model: optional values, record identifiers and
 timestamps, which the application treats as opaque.
 */
module Common {

  datatype Option<+T> = None | Some(value: T)

  /** A MongoDB ObjectId, in the 24-character hexadecimal form the handlers
      exchange with the browser. Nothing in the model inspects its characters. */
  type Id = string

  /** A `Date` value; only compared for equality and copied. */
  type Timestamp = int

  /** JavaScript truthiness of an optional string field: absent, `null` and
      the empty string are falsy. */
  predicate Present(field: Option<string>)
  {
    field.Some? && field.value != ""
  }
}
