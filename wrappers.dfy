/** The optional value the source expresses with `None` / `Optional[...]`. */
module Wrappers {
  datatype Option<+T> = None | Some(value: T)
}
