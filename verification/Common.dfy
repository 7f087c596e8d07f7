/** Addresses and optional values. */
module Common {

  /** An address: opaque but for equality. Zero is the all-zero default key. */
  type Key = nat

  const DEFAULT_KEY: Key := 0

  datatype Option<+T> = None | Some(value: T) {
    function GetOr(default: T): T {
      if Some? then value else default
    }
  }

  type Byte = b: int | 0 <= b < 256
}
