/** What the models share. */
module Common {
  newtype byte = x: int | 0 <= x < 256

  type Bytes = seq<byte>

  datatype Option<+T> = None | Some(value: T)

  function Min(a: int, b: int): int {
    if a < b then a else b
  }

  function Max(a: int, b: int): int {
    if a > b then a else b
  }

  /**
   * The running checksum of a recovery log, as a collision-free function of the
   * frames accepted so far: Zero before the first one, then one link per frame.
   */
  datatype Checksum = Zero | Chained(prev: Checksum, frame: Bytes)

  function Update(c: Checksum, frame: Bytes): Checksum {
    Chained(c, frame)
  }
}
