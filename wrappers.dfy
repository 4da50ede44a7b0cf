/** The optional value of a nullable column or an omitted request field. */
module Wrappers {

  datatype Option<+T> = None | Some(value: T)

}
