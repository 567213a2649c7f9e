/** The optional-value datatype used for Java's nullable references and for a
    number parser that may reject its input. */
module Wrappers {

  datatype Option<+T> = None | Some(value: T)

}
