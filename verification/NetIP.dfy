/** The part of Go's net/netip the components use. */
module NetIP {
  import opened Common

  const TWO16 := 0x1_0000
  const TWO20 := 0x10_0000
  const TWO22 := 0x40_0000
  const TWO24 := 0x100_0000
  const TWO28 := 0x1000_0000
  const TWO32 := 0x1_0000_0000
  const TWO80 := 0x1_0000_0000_0000_0000_0000
  const TWO118 := 0x40_0000_0000_0000_0000_0000_0000_0000
  const TWO120 := 0x100_0000_0000_0000_0000_0000_0000_0000
  const TWO121 := 0x200_0000_0000_0000_0000_0000_0000_0000
  const TWO128 := 0x1_0000_0000_0000_0000_0000_0000_0000_0000

  datatype RawAddr = Invalid | V4(v: nat) | V6(v: nat, zone: string)

  predicate InBounds(a: RawAddr) {
    match a
    case Invalid => true
    case V4(v) => v < TWO32
    case V6(v, _) => v < TWO128
  }

  type Addr = a: RawAddr | InBounds(a) witness Invalid

  function BitLen(a: Addr): nat {
    match a
    case Invalid => 0
    case V4(_) => 32
    case V6(_, _) => 128
  }

  /** a.Compare(b) <= 0. */
  predicate Leq(a: Addr, b: Addr) {
    if BitLen(a) != BitLen(b) then BitLen(a) < BitLen(b)
    else match a
      case Invalid => true
      case V4(v) => v <= b.v
      case V6(v, zone) => v < b.v || (v == b.v && LexLeq(zone, b.zone))
  }

  /** IPv4-mapped addresses become IPv4, losing any zone. */
  function Unmap(a: Addr): (r: Addr)
    ensures !(r.V6? && r.v / TWO32 == 0xffff)
    ensures r == a || (a.V6? && a.v / TWO32 == 0xffff && r == V4(a.v % TWO32))
  {
    if a.V6? && a.v / TWO32 == 0xffff then V4(a.v % TWO32) else a
  }

  /** The following address, or the zero Addr after the last. */
  function Next(a: Addr): Addr {
    match a
    case Invalid => Invalid
    case V4(v) => if v + 1 < TWO32 then V4(v + 1) else Invalid
    case V6(v, zone) => if v + 1 < TWO128 then V6(v + 1, zone) else Invalid
  }

  predicate IsLoopback(a: Addr) {
    (a.V4? && a.v / TWO24 == 127) || (a.V6? && a.v == 1)
  }

  predicate IsUnspecified(a: Addr) {
    a == V4(0) || a == V6(0, "")
  }

  predicate IsMulticast(a: Addr) {
    (a.V4? && a.v / TWO28 == 0xe) || (a.V6? && a.v / TWO120 == 0xff)
  }

  predicate IsPrivate(a: Addr) {
    || (a.V4? && (a.v / TWO24 == 10 || a.v / TWO20 == 0xac1 || a.v / TWO16 == 0xc0a8))
    || (a.V6? && a.v / TWO121 == 0x7e)
  }

  predicate IsLinkLocalUnicast(a: Addr) {
    (a.V4? && a.v / TWO16 == 0xa9fe) || (a.V6? && a.v / TWO118 == 0x3fa)
  }
}
