/** A reactive `Mono` that emits at most one value, read synchronously:
    either it completes empty or it carries exactly one value. */
module Wrappers {

  datatype Option<+T> = None | Some(value: T)

}
