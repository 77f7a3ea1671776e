/** Socket addresses: an IP address, kept as its text, and a port; and the two schemes of a proxy target. */
module Addresses {

  datatype Ip = V4(text: string) | V6(text: string)

  datatype ProxyScheme = Http | Https

  datatype SocketAddr = SocketAddr(ip: Ip, port: nat)
}
