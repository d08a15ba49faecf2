/** The nullable state cells of the component (`result`, `error`) as an explicit option. */
module Wrappers {
  datatype Option<T> = None | Some(value: T)
}
