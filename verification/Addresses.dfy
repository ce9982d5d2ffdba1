/** IPv4 addresses as four octets, and the three prefix lengths the network
    generator ever uses. */
module Addresses {

  type Octet = x: int | 0 <= x < 256

  datatype Addr = Addr(a: Octet, b: Octet, c: Octet, d: Octet)

  datatype Mask = M16 | M24 | M32

  datatype IPNet = IPNet(ip: Addr, mask: Mask)

  predicate Contains(net: IPNet, x: Addr) {
    && net.ip.a == x.a
    && net.ip.b == x.b
    && (net.mask != M16 ==> net.ip.c == x.c)
    && (net.mask == M32 ==> net.ip.d == x.d)
  }

  /** The address a party uses inside the WireGuard tunnel: 100.64, followed by
      the second and third octet of its subnet. */
  function WgIP(net: IPNet): IPNet {
    IPNet(Addr(100, 64, net.ip.b, net.ip.c), M32)
  }

  const WG_NETWORK := IPNet(Addr(100, 64, 0, 0), M16)
}
