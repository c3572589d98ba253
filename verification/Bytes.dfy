module Bytes {
  type byte = b: int | 0 <= b < 256
  type bytes = seq<byte>

  /** The bytes of a text in 7-bit characters */
  function Ascii(s: string): (bs: bytes)
    ensures |bs| == |s| && forall i | 0 <= i < |s| :: bs[i] == s[i] as int % 128
  {
    seq(|s|, i requires 0 <= i < |s| => s[i] as int % 128)
  }
}
