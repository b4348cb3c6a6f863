/** The optional value used wherever the bot gets back "nothing" (Python's None). */
module Wrappers {

  datatype Option<+T> = None | Some(value: T)
}
