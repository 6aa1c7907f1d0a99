/** Small value types shared by the codec modules. */
module Common {

  /** An octet, as the byte-oriented algorithms of the URL and Encoding standards use them. */
  type byte = b: int | 0 <= b < 0x100

  /** A value that may be missing; `None` stands for JavaScript's `null`. */
  datatype Option<+T> = None | Some(value: T)
}
