/** The optional value used for absent cells, absent regular-expression
    matches and absent record fields. */
module Wrappers {

  datatype Option<+T> = None | Some(value: T)
}
