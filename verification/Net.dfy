/** Socket addresses, with IP addresses as octets in network order. */
module Net {
  import opened Bytes

  type Octets4 = o: Octets | |o| == 4 witness [0, 0, 0, 0]
  type Octets16 = o: Octets | |o| == 16 witness [0, 0, 0, 0, 0, 0, 0, 0, 0, 0, 0, 0, 0, 0, 0, 0]

  datatype SocketAddr =
    | V4(ip4: Octets4, port: U16)
    | V6(ip6: Octets16, port: U16, flowinfo: U32, scopeId: U32)

  const ZERO4: Octets4 := [0, 0, 0, 0]
  const ZERO16: Octets16 := [0, 0, 0, 0, 0, 0, 0, 0, 0, 0, 0, 0, 0, 0, 0, 0]
}
