/** Small value wrappers shared by the other modules. */
module Wrappers {

  /** Swift's `Optional`: `None` stands for `nil`. */
  datatype Option<+T> = None | Some(value: T) {
    function GetOr(default: T): T {
      match this
      case Some(v) => v
      case None => default
    }
  }

  /** What a Swift expression does when evaluated: it returns a value or
      it stops the program on a runtime trap (an out-of-range subscript, an
      index offset outside the string). */
  datatype Checked<+T> = Returned(value: T) | Trapped

  /** Swift's `Int` on a 64-bit platform. */
  type Int64 = x: int | -0x8000_0000_0000_0000 <= x < 0x8000_0000_0000_0000
}
