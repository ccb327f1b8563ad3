/** Python's `None`-or-value, used wherever the bot reads an optional value
    (an anchor's href, a cache row, a language entry). */
module Wrappers {

  datatype Option<+T> = None | Some(value: T)
}
