/** Entities shared by the server modules (src/server/serverCommon.h). */
module ServerCommon {
  import opened Bytes

  /** The IPv4 address and port of a `sockaddr_in`. */
  datatype Address = Address(a: byte, b: byte, c: byte, d: byte, port: Word16)
}
