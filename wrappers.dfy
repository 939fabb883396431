/** Optional values: the result of `get_product_details` (a record or `None`), a parsed item limit, a warning. */
module Wrappers {

  datatype Option<+T> = None | Some(value: T)
}
