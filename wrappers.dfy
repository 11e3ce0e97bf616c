/** Optional values: a nullable column, a row a query may not find, a session that may be absent. */
module Wrappers {

  datatype Option<+T> = None | Some(value: T)
}
