/** What every component shares: optional results and 64-bit arithmetic. */
module Machine {
  const PAGE_SIZE: nat := 4096
  const TWO_64: nat := 0x1_0000_0000_0000_0000

  /** Unsigned 64-bit arithmetic. */
  function Wrap(x: int): nat { x % TWO_64 }

  datatype Option<+T> = None | Some(value: T) {
    function GetOr(default: T): T {
      match this
      case Some(v) => v
      case None => default
    }
  }
}
