/** The optional value used wherever the importer or the host platform may
    find nothing (a missing array key, an unknown SKU, an unknown term). */
module Wrappers {

  datatype Option<+T> = None | Some(value: T)
}
