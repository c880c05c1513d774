/** Bytes on the wire and the ASCII constants the RESP framing uses.
    Go strings are byte strings, so every string of the codec is a `Bytes`. */
module Bytes {

  type byte = b: int | 0 <= b < 0x100

  type Bytes = seq<byte>

  const CR: byte := 13      // '\r'
  const LF: byte := 10      // '\n'
  const STAR: byte := 42    // '*', array marker
  const DOLLAR: byte := 36  // '$', bulk string marker
  const PLUS: byte := 43    // '+', simple string marker and sign
  const MINUS: byte := 45   // '-', sign
  const COLON: byte := 58   // ':', integer marker
  const ZERO: byte := 48    // '0'

  const CRLF: Bytes := [CR, LF]

  /** The bytes of an ASCII text, one byte per character. */
  function Ascii(s: string): (r: Bytes)
    requires forall i :: 0 <= i < |s| ==> s[i] < 128 as char
    ensures |r| == |s|
    ensures forall i :: 0 <= i < |s| ==> r[i] == s[i] as int
  {
    if s == [] then [] else [s[0] as int as byte] + Ascii(s[1..])
  }
}
