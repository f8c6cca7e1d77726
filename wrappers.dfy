/** A cell of the record table that may be empty (pandas' NaN / NA / NaT). */
module Wrappers {

  datatype Option<+T> = None | Some(value: T)

}
