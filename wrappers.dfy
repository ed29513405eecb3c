/** The optional value used wherever the server may find nothing (a missing
    header, a user that does not exist, a token that does not verify). */
module Wrappers {

  datatype Option<+T> = None | Some(value: T)
}
