/** The optional value used for an absent signed-in user and for the
    `undefined` that `Array.prototype.find` returns when nothing matches. */
module Wrappers {

  datatype Option<+T> = None | Some(value: T)
}
