/** Base64 as in section 4 of RFC 4648 (padded, alphabet `A-Z a-z 0-9 + /`)
    and the browser's `btoa`, which applies it to a string whose
    characters are all at most U+00FF, one octet per character. */
module Base64 {
  import opened Wrappers
  import opened Utf8
  import Sequences

  /** Character for a six-bit value: `A`-`Z`, `a`-`z`, `0`-`9`, `+`, `/`. */
  function Digit(i: nat): char
    requires i < 0x40
  {
    if i < 26 then ('A' as int + i) as char
    else if i < 52 then ('a' as int + i - 26) as char
    else if i < 62 then ('0' as int + i - 52) as char
    else if i == 62 then '+'
    else '/'
  }

  /** Six-bit value of an alphabet character; `None` for anything else,
      the pad `=` included. */
  function DigitValue(c: char): (r: Option<nat>)
    ensures r.Some? ==> r.value < 0x40
  {
    if 'A' <= c <= 'Z' then Some(c as int - 'A' as int)
    else if 'a' <= c <= 'z' then Some(c as int - 'a' as int + 26)
    else if '0' <= c <= '9' then Some(c as int - '0' as int + 52)
    else if c == '+' then Some(62)
    else if c == '/' then Some(63)
    else None
  }

  lemma DigitRoundTrip(i: nat)
    requires i < 0x40
    ensures DigitValue(Digit(i)) == Some(i)
  {
  }

  /** Three octets as four digits. */
  function EncodeTriple(b0: Byte, b1: Byte, b2: Byte): string
  {
    [Digit(b0 / 4), Digit((b0 % 4) * 0x10 + b1 / 0x10), Digit((b1 % 0x10) * 4 + b2 / 0x40), Digit(b2 % 0x40)]
  }

  /** Base64 encoding: whole triples first, then a final one- or two-octet
      group padded with `=` to four characters. */
  function Encode(bs: seq<Byte>): (r: string)
    ensures |bs| > 0 ==> |r| >= 4
  {
    if |bs| == 0 then []
    else if |bs| == 1 then [Digit(bs[0] / 4), Digit((bs[0] % 4) * 0x10), '=', '=']
    else if |bs| == 2 then [Digit(bs[0] / 4), Digit((bs[0] % 4) * 0x10 + bs[1] / 0x10), Digit((bs[1] % 0x10) * 4), '=']
    else EncodeTriple(bs[0], bs[1], bs[2]) + Encode(bs[3..])
  }

  /** Four digits without padding as three octets. */
  function DecodeQuad(q: string): (r: Option<seq<Byte>>)
    requires |q| == 4
    ensures r.Some? ==> |r.value| == 3
  {
    var a :- DigitValue(q[0]);
    var b :- DigitValue(q[1]);
    var c :- DigitValue(q[2]);
    var d :- DigitValue(q[3]);
    Some([a * 4 + b / 0x10, (b % 0x10) * 0x10 + c / 4, (c % 4) * 0x40 + d])
  }

  /** The last quadruple, which may end in `==` (one octet) or `=` (two). */
  function DecodeFinal(q: string): (r: Option<seq<Byte>>)
    requires |q| == 4
    ensures r.Some? ==> 1 <= |r.value| <= 3
  {
    if q[2] == '=' && q[3] == '=' then
      var a :- DigitValue(q[0]);
      var b :- DigitValue(q[1]);
      Some([a * 4 + b / 0x10])
    else if q[3] == '=' then
      var a :- DigitValue(q[0]);
      var b :- DigitValue(q[1]);
      var c :- DigitValue(q[2]);
      Some([a * 4 + b / 0x10, (b % 0x10) * 0x10 + c / 4])
    else DecodeQuad(q)
  }

  /** Base64 decoding, the inverse the encoder is checked against; `None`
      for a length that is not a multiple of four, a character outside the
      alphabet, or padding anywhere but at the very end. */
  function Decode(s: string): (r: Option<seq<Byte>>)
  {
    if |s| == 0 then Some([])
    else if |s| < 4 then None
    else if |s| == 4 then DecodeFinal(s)
    else
      var head :- DecodeQuad(s[..4]);
      var tail :- Decode(s[4..]);
      Some(head + tail)
  }

  /** Quotient and remainder by 4 of a value built as `q * 4 + r`. */
  lemma Quarter(v: int, q: int, r: int)
    requires 0 <= r < 4 && v == q * 4 + r
    ensures v / 4 == q && v % 4 == r
  {
  }

  /** Quotient and remainder by 16 of a value built as `q * 16 + r`. */
  lemma Nibble(v: int, q: int, r: int)
    requires 0 <= r < 0x10 && v == q * 0x10 + r
    ensures v / 0x10 == q && v % 0x10 == r
  {
  }

  lemma TripleRoundTrip(b0: Byte, b1: Byte, b2: Byte)
    ensures DecodeQuad(EncodeTriple(b0, b1, b2)) == Some([b0, b1, b2])
  {
    Nibble((b0 % 4) * 0x10 + b1 / 0x10, b0 % 4, b1 / 0x10);
    Quarter((b1 % 0x10) * 4 + b2 / 0x40, b1 % 0x10, b2 / 0x40);
    DigitRoundTrip(b0 / 4);
    DigitRoundTrip((b0 % 4) * 0x10 + b1 / 0x10);
    DigitRoundTrip((b1 % 0x10) * 4 + b2 / 0x40);
    DigitRoundTrip(b2 % 0x40);
  }

  lemma SingleRoundTrip(b0: Byte)
    ensures Decode(Encode([b0])) == Some([b0])
  {
    DigitRoundTrip(b0 / 4);
    DigitRoundTrip((b0 % 4) * 0x10);
  }

  lemma PairRoundTrip(b0: Byte, b1: Byte)
    ensures Decode(Encode([b0, b1])) == Some([b0, b1])
  {
    DigitRoundTrip(b0 / 4);
    DigitRoundTrip((b0 % 4) * 0x10 + b1 / 0x10);
    DigitRoundTrip((b1 % 0x10) * 4);
    Nibble((b0 % 4) * 0x10 + b1 / 0x10, b0 % 4, b1 / 0x10);
    Quarter((b1 % 0x10) * 4, b1 % 0x10, 0);
    var s := Encode([b0, b1]);
    assert s[2] != '=' && s[3] == '=';
  }

  /** A full quadruple in front of a decodable rest is decoded first. */
  lemma DecodeFront(q: string, rest: string, x: seq<Byte>, y: seq<Byte>)
    requires |q| == 4 && |rest| > 0
    requires DecodeQuad(q) == Some(x) && Decode(rest) == Some(y)
    ensures Decode(q + rest) == Some(x + y)
  {
    Sequences.ConcatParts(q, rest);
  }

  /** Exactly three octets decode from their single quadruple. */
  lemma TripleOnlyRoundTrip(b0: Byte, b1: Byte, b2: Byte)
    ensures Decode(Encode([b0, b1, b2])) == Some([b0, b1, b2])
  {
    TripleRoundTrip(b0, b1, b2);
    var bs := [b0, b1, b2];
    assert bs[3..] == [];
    assert Encode(bs) == EncodeTriple(b0, b1, b2);
  }

  /** Decoding an encoding gives back the octets. */
  lemma {:induction false} DecodeEncode(bs: seq<Byte>)
    ensures Decode(Encode(bs)) == Some(bs)
  {
    if |bs| == 1 {
      SingleRoundTrip(bs[0]);
      assert bs == [bs[0]];
    } else if |bs| == 2 {
      PairRoundTrip(bs[0], bs[1]);
      assert bs == [bs[0], bs[1]];
    } else if |bs| == 3 {
      TripleOnlyRoundTrip(bs[0], bs[1], bs[2]);
      assert bs == [bs[0], bs[1], bs[2]];
    } else if |bs| > 3 {
      var head := [bs[0], bs[1], bs[2]];
      TripleRoundTrip(bs[0], bs[1], bs[2]);
      DecodeEncode(bs[3..]);
      DecodeFront(EncodeTriple(bs[0], bs[1], bs[2]), Encode(bs[3..]), head, bs[3..]);
      Sequences.ThreeAndRest(bs);
    }
  }

  /** The octets of a string whose characters are all at most U+00FF. */
  function Latin1Octets(s: string): (bs: seq<Byte>)
    requires forall i :: 0 <= i < |s| ==> s[i] as int < 0x100
    ensures |bs| == |s|
    ensures forall i :: 0 <= i < |s| ==> bs[i] == s[i] as int
  {
    seq(|s|, i requires 0 <= i < |s| => s[i] as int)
  }

  /** The string with one character per octet, as `atob` returns it. */
  function Latin1String(bs: seq<Byte>): (s: string)
    ensures |s| == |bs|
    ensures forall i :: 0 <= i < |bs| ==> s[i] as int == bs[i]
  {
    seq(|bs|, i requires 0 <= i < |bs| => bs[i] as char)
  }

  /** `btoa(s)`; `None` where it throws because some character is above
      U+00FF. */
  function Btoa(s: string): (r: Option<string>)
    ensures r.Some? <==> forall i :: 0 <= i < |s| ==> s[i] as int < 0x100
  {
    if forall i :: 0 <= i < |s| ==> s[i] as int < 0x100 then Some(Encode(Latin1Octets(s)))
    else None
  }

  /** `atob`, restricted to canonical padded input. */
  function Atob(s: string): Option<string>
  {
    var bs :- Decode(s);
    Some(Latin1String(bs))
  }

  /** `atob(btoa(s)) == s` whenever `btoa` does not throw. */
  lemma AtobBtoa(s: string)
    requires Btoa(s).Some?
    ensures Atob(Btoa(s).value) == Some(s)
  {
    DecodeEncode(Latin1Octets(s));
    assert Latin1String(Latin1Octets(s)) == s;
  }
}
