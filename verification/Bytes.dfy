/** Bytes and byte strings. */
module Bytes {
  type byte = x: int | 0 <= x < 256

  function Number(b: byte): (n: nat)
    ensures n < 256
  {
    b
  }

  function Flatten<T>(parts: seq<seq<T>>): seq<T> {
    if parts == [] then [] else parts[0] + Flatten(parts[1..])
  }
}
