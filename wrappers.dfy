/** Python's `None`-or-value results (`Optional[...]`, `str.find` returning -1, a failed `int()`). */
module Wrappers {

  datatype Option<+T> = None | Some(value: T)
}
