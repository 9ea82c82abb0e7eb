/** Failure-carrying wrappers shared by the model. */
module Wrappers {

  /** An optional value: a JavaScript property that may be absent. */
  datatype Option<+T> = None | Some(value: T)

  /** The settled state of an awaited service call: it resolved with a
      value, or it rejected (the handler only ever sees "something threw",
      so the rejection carries no payload). */
  datatype Result<+T> = Ok(value: T) | Err
}
