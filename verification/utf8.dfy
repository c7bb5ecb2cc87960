/** UTF-8 (RFC 3629) for a single Unicode scalar value: the byte layer
    under `encodeURIComponent` and `decodeURIComponent`. */
module Utf8 {
  import opened Wrappers

  type Byte = b: int | 0 <= b < 0x100

  /** A trailing byte `10xxxxxx`. */
  predicate IsContinuation(b: Byte)
  {
    0x80 <= b < 0xC0
  }

  /** Number of leading one bits of an octet, as ECMA-262 counts them to
      size a percent-escaped UTF-8 sequence. */
  function LeadingOnes(b: Byte): (n: nat)
    ensures n <= 8
    ensures n == 0 <==> b < 0x80
  {
    if b < 0x80 then 0
    else if b < 0xC0 then 1
    else if b < 0xE0 then 2
    else if b < 0xF0 then 3
    else if b < 0xF8 then 4
    else if b < 0xFC then 5
    else if b < 0xFE then 6
    else if b < 0xFF then 7
    else 8
  }

  /** The UTF-8 encoding of one scalar value: one to four octets. */
  function EncodeScalar(c: char): (bs: seq<Byte>)
    ensures 1 <= |bs| <= 4
    ensures |bs| == 1 <==> (c as int) < 0x80
    ensures |bs| > 1 ==> LeadingOnes(bs[0]) == |bs|
    ensures forall i :: 1 <= i < |bs| ==> IsContinuation(bs[i])
  {
    var v := c as int;
    if v < 0x80 then [v]
    else if v < 0x800 then [0xC0 + v / 0x40, 0x80 + v % 0x40]
    else if v < 0x1_0000 then [0xE0 + v / 0x1000, 0x80 + (v / 0x40) % 0x40, 0x80 + v % 0x40]
    else [0xF0 + v / 0x4_0000, 0x80 + (v / 0x1000) % 0x40, 0x80 + (v / 0x40) % 0x40, 0x80 + v % 0x40]
  }

  /** Reads a complete one- to four-octet sequence back as a scalar value;
      `None` unless the octets are well-formed UTF-8 (no overlong form, no
      surrogate, nothing above U+10FFFF). */
  function DecodeScalar(bs: seq<Byte>): (r: Option<char>)
  {
    if |bs| == 1 then
      if bs[0] < 0x80 then Some(bs[0] as char) else None
    else if |bs| == 2 then
      if 0xC0 <= bs[0] < 0xE0 && IsContinuation(bs[1]) then
        var v := (bs[0] as int - 0xC0) * 0x40 + (bs[1] as int - 0x80);
        if v < 0x80 then None else Some(v as char)
      else None
    else if |bs| == 3 then
      if 0xE0 <= bs[0] < 0xF0 && IsContinuation(bs[1]) && IsContinuation(bs[2]) then
        var v := (bs[0] as int - 0xE0) * 0x1000 + (bs[1] as int - 0x80) * 0x40 + (bs[2] as int - 0x80);
        if v < 0x800 || 0xD800 <= v < 0xE000 then None else Some(v as char)
      else None
    else if |bs| == 4 then
      if 0xF0 <= bs[0] < 0xF8 && IsContinuation(bs[1]) && IsContinuation(bs[2]) && IsContinuation(bs[3]) then
        var v := (bs[0] as int - 0xF0) * 0x4_0000 + (bs[1] as int - 0x80) * 0x1000 + (bs[2] as int - 0x80) * 0x40 + (bs[3] as int - 0x80);
        if v < 0x1_0000 || v > 0x10_FFFF then None else Some(v as char)
      else None
    else None
  }

  /** Division by 64 undoes a shift by six bits. */
  lemma Sextet(v: int, q: int, r: int)
    requires 0 <= r < 0x40 && v == q * 0x40 + r
    ensures v / 0x40 == q && v % 0x40 == r
  {
  }

  /** A value splits into its bits above 6 and its low six bits, and so on
      for bits above 12 and 18. */
  lemma Sextets(v: nat)
    ensures v == (v / 0x40) * 0x40 + v % 0x40
    ensures v / 0x40 == (v / 0x1000) * 0x40 + (v / 0x40) % 0x40
    ensures v / 0x1000 == (v / 0x4_0000) * 0x40 + (v / 0x1000) % 0x40
  {
    var q := v / 0x40;
    Sextet(v / 0x40, q / 0x40, q % 0x40);
    assert v / 0x1000 == q / 0x40;
    Sextet(v / 0x1000, (q / 0x40) / 0x40, (q / 0x40) % 0x40);
    assert v / 0x4_0000 == (q / 0x40) / 0x40;
  }

  /** Decoding an encoded scalar value gives it back. */
  lemma DecodeEncodeScalar(c: char)
    ensures DecodeScalar(EncodeScalar(c)) == Some(c)
  {
    Sextets(c as int);
  }

  /** A two-octet sequence that decodes is the encoding of its value. */
  lemma EncodeDecodePair(bs: seq<Byte>)
    requires |bs| == 2 && DecodeScalar(bs).Some?
    ensures EncodeScalar(DecodeScalar(bs).value) == bs
  {
    var v := DecodeScalar(bs).value as int;
    Sextet(v, bs[0] - 0xC0, bs[1] - 0x80);
  }

  /** A three-octet sequence that decodes is the encoding of its value. */
  lemma EncodeDecodeTriple(bs: seq<Byte>)
    requires |bs| == 3 && DecodeScalar(bs).Some?
    ensures EncodeScalar(DecodeScalar(bs).value) == bs
  {
    var v := DecodeScalar(bs).value as int;
    Sextet(v, (bs[0] as int - 0xE0) * 0x40 + (bs[1] - 0x80), bs[2] - 0x80);
    Sextet(v / 0x40, bs[0] - 0xE0, bs[1] - 0x80);
    Sextets(v);
  }

  /** A four-octet sequence that decodes is the encoding of its value. */
  lemma EncodeDecodeQuad(bs: seq<Byte>)
    requires |bs| == 4 && DecodeScalar(bs).Some?
    ensures EncodeScalar(DecodeScalar(bs).value) == bs
  {
    var v := DecodeScalar(bs).value as int;
    var hi: int := (bs[0] as int - 0xF0) * 0x40 + (bs[1] - 0x80);
    Sextet(v, hi * 0x40 + (bs[2] - 0x80), bs[3] - 0x80);
    Sextet(v / 0x40, hi, bs[2] - 0x80);
    Sextet(hi, bs[0] - 0xF0, bs[1] - 0x80);
    Sextets(v);
  }

  /** Decoding accepts only the canonical encoding: whatever decodes to
      `c` is exactly `EncodeScalar(c)`. */
  lemma EncodeDecodeScalar(bs: seq<Byte>)
    requires DecodeScalar(bs).Some?
    ensures EncodeScalar(DecodeScalar(bs).value) == bs
  {
    if |bs| == 2 {
      EncodeDecodePair(bs);
    } else if |bs| == 3 {
      EncodeDecodeTriple(bs);
    } else if |bs| == 4 {
      EncodeDecodeQuad(bs);
    }
  }
}
