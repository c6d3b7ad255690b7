/** What the components share. */
module Common {
  datatype Option<+T> = None | Some(value: T)

  type Byte = x: int | 0 <= x < 256

  function One(b: bool): nat { if b then 1 else 0 }
}
