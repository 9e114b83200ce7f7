/** Optional values: a spreadsheet cell that pandas reads as NaN, or a run whose
    bold attribute is unset, is `None`. */
module Wrappers {

  datatype Option<+T> = None | Some(value: T)
}
