/** Types shared by all the models. */
module Common {

  /** An octet, the source's u_char. */
  type byte = x: int | 0 <= x < 256

  const TWO_TO_THE_32: nat := 0x1_0000_0000

  /** The length of the sample library's text and datagram buffers. */
  const MAXLINE: nat := 4096

  datatype Option<+T> = None | Some(value: T)

  function Min(a: int, b: int): int {
    if a <= b then a else b
  }

  /** n zero octets. */
  function Zeros(n: nat): seq<byte> {
    seq(n, _ => 0)
  }
}
