/** The conventional optional value, used wherever a JavaScript value may be `undefined`/`null`. */
module Wrappers {

  datatype Option<+T> = None | Some(value: T)

}
