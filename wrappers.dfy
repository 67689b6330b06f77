/** The optional value the session uses where the component holds `string | null`
    or where a response field may be missing. */
module Wrappers {

  datatype Option<+T> = None | Some(value: T)
}
