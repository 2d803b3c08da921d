/** Small failure-carrying datatypes shared by the model. */
module Wrappers {

  /** JavaScript `undefined`/`null` versus a present value. */
  datatype Option<+T> = None | Some(value: T)

  /** The answer of an external call: the value it returned, or the fact that it threw. */
  datatype Fetch<+T> = Fetched(value: T) | FetchFailed
}
