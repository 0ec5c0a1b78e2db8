/** Socket addresses and their order: IPv4 before IPv6, then by address, then by port. */
module Addresses {

  datatype SocketAddr = V4(ip: nat, port: nat) | V6(ip: nat, port: nat)

  predicate Less(a: SocketAddr, b: SocketAddr) {
    if a.V4? != b.V4? then a.V4?
    else a.ip < b.ip || (a.ip == b.ip && a.port < b.port)
  }

  lemma LessIsTotal(a: SocketAddr, b: SocketAddr)
    ensures a != b <==> Less(a, b) != Less(b, a)
    ensures !(Less(a, b) && Less(b, a))
  {
  }
}
