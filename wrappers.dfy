/** Optional values: an absent author, a file that cannot be read, a post that raises no alert. */
module Wrappers {

  datatype Option<+T> = None | Some(value: T)
}
