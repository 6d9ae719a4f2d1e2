/** Types shared by the presence registry, the relay and the chat service. */
module Common {

  /** A logical chat participant, e.g. "alpha" or "beta". */
  type UserId = string

  /** One transport session (a WebSocket), identified by an opaque number. */
  type ConnId = nat

  /** A store-assigned, time-ordered message key. */
  type Key = string

  /** A server timestamp; only its order matters. */
  type Time = int

  datatype Option<+T> = None | Some(value: T)

  /** JavaScript truthiness of an optional string field: absent and "" are both falsy. */
  predicate Given(o: Option<string>)
  {
    o.Some? && o.value != ""
  }
}
