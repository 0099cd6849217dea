/** The status codes: 1 to 10 are the firmware's and arrive in a NACK, the host's own start at 0x80. */
module Status {
  const OK: int := 0
  const ERR_ARG: int := 0x80
  const ERR_IO: int := 0x81
  const ERR_NO_RESPONSE: int := 0x82
  const ERR_BAD_FRAME: int := 0x83
}
