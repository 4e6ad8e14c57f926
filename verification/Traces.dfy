/** Finite runs, oldest step first with the last step on the outside, and optional values. */
module Traces {
  datatype Trace<A> = Start | Then(before: Trace<A>, last: A)

  datatype Option<T> = None | Some(value: T)
}
