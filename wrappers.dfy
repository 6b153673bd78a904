/** The optional value used for results that the source may fail to produce
    (an interpolation that raised, a conversion that failed, a file that does
    not parse). */
module Wrappers {

  datatype Option<+T> = None | Some(value: T)
}
