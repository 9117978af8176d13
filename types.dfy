/** Value types shared by the network bootstrap sequencer and the service descriptor:
    fixed-width integers, addresses, and the sequencer's typed errors. */
module NetTypes {

  newtype u8 = x: int | 0 <= x < 0x100
  newtype u16 = x: int | 0 <= x < 0x1_0000
  newtype u32 = x: int | 0 <= x < 0x1_0000_0000

  datatype Option<+T> = None | Some(value: T)

  /** The three ways the bootstrap sequencer fails. The firmware reports each as a
      static string; here each is its own variant. */
  datatype NetError =
    | UnsupportedSecurity   // the configured security mode names no authentication selector
    | RetriesExhausted      // every join attempt the sequencer allows was rejected
    | AddressConfigMissing  // the stack reported "configured" but held no IPv4 configuration

  datatype Result<+T> = Ok(value: T) | Err(error: NetError)

  /** An IPv4 address as its four octets, most significant first. */
  datatype Ipv4Addr = Ipv4Addr(a: u8, b: u8, c: u8, d: u8)

  /** An IPv6 address as its eight 16-bit segments. */
  type Ipv6Segments = s: seq<u16> | |s| == 8 witness [0, 0, 0, 0, 0, 0, 0, 0]

  datatype Ipv6Addr = Ipv6Addr(segments: Ipv6Segments)

  /** The unspecified IPv6 address `::`. */
  const Ipv6Unspecified: Ipv6Addr := Ipv6Addr([0, 0, 0, 0, 0, 0, 0, 0])

  /** An address is unspecified when every segment is zero. */
  predicate IsUnspecified(addr: Ipv6Addr) {
    forall i :: 0 <= i < 8 ==> addr.segments[i] == 0
  }
}
