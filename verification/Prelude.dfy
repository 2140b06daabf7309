/** What several of the modelled drivers share: C's integer conversions and small list helpers. */
module Prelude {

  datatype Option<T> = None | Some(value: T)

  /** A C `unsigned int`. */
  type Uint32 = x: int | 0 <= x < 0x1_0000_0000

  /** Conversion to `unsigned int`. */
  function ToUint32(x: int): Uint32 { x % 0x1_0000_0000 }

  /** Conversion to `int`, which wraps, as does arithmetic on it. */
  function ToInt32(x: int): int {
    var u := ToUint32(x);
    if u < 0x8000_0000 then u else u - 0x1_0000_0000
  }

  /** The list without its node `i` (unchanged when there is no such node). */
  function RemoveAt<T>(xs: seq<T>, i: nat): seq<T> {
    if i < |xs| then xs[..i] + xs[i + 1..] else xs
  }

  function BoolToNat(b: bool): nat { if b then 1 else 0 }
}
