/** Octets as they travel on the wire. */
module Octets {
  type Octet = x: int | 0 <= x < 256

  const CR: Octet := 13
  const LF: Octet := 10
  const DOT: Octet := 46
  const CRLF: seq<Octet> := [CR, LF]
}
