/** Types every part of the model uses. */
module Basics {

  type Word32 = x: nat | x < 0x1_0000_0000

  datatype Option<T> = None | Some(value: T)
}
