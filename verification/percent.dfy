/** `encodeURIComponent` and `decodeURIComponent` (ECMA-262, the Encode
    and Decode abstract operations): percent-encoding as in section 2.1 of
    RFC 3986 over the UTF-8 bytes of each character, leaving alone the
    unreserved characters of section 2.3 of RFC 2396. */
module PercentEncoding {
  import opened Wrappers
  import opened Utf8
  import Sequences

  /** Characters `encodeURIComponent` copies unescaped: ASCII letters and
      digits and the marks `- _ . ! ~ * ' ( )`. */
  predicate IsUnescaped(c: char)
  {
    || ('A' <= c <= 'Z')
    || ('a' <= c <= 'z')
    || ('0' <= c <= '9')
    || c in {'-', '_', '.', '!', '~', '*', '\'', '(', ')'}
  }

  /** Upper-case hexadecimal digit for a nibble, as the encoder writes it. */
  function HexDigit(n: nat): (c: char)
    requires n < 0x10
    ensures IsUnescaped(c)
  {
    if n < 10 then ('0' as int + n) as char else ('A' as int + n - 10) as char
  }

  /** Value of a hexadecimal digit of either case, as the decoder reads it. */
  function HexValue(c: char): (r: Option<nat>)
    ensures r.Some? ==> r.value < 0x10
  {
    if '0' <= c <= '9' then Some(c as int - '0' as int)
    else if 'A' <= c <= 'F' then Some(c as int - 'A' as int + 10)
    else if 'a' <= c <= 'f' then Some(c as int - 'a' as int + 10)
    else None
  }

  /** One octet written as `%XY`. */
  function Escape(b: Byte): string
  {
    ['%', HexDigit(b / 0x10), HexDigit(b % 0x10)]
  }

  /** Octets written as consecutive `%XY` escapes. */
  function EscapeAll(bs: seq<Byte>): (r: string)
    ensures |r| == 3 * |bs|
  {
    if bs == [] then [] else Escape(bs[0]) + EscapeAll(bs[1..])
  }

  /** `encodeURIComponent` of one character. */
  function EncodeChar(c: char): string
  {
    if IsUnescaped(c) then [c] else EscapeAll(EncodeScalar(c))
  }

  /** `encodeURIComponent(s)`. */
  function Encode(s: string): (r: string)
    ensures forall i :: 0 <= i < |r| ==> IsUnescaped(r[i]) || r[i] == '%'
  {
    if s == [] then []
    else
      var head := EncodeChar(s[0]);
      assert forall i :: 0 <= i < |head| ==> IsUnescaped(head[i]) || head[i] == '%' by {
        EscapeAllShape(EncodeScalar(s[0]));
      }
      head + Encode(s[1..])
  }

  /** Every character of an escape run is `%` or an unescaped digit. */
  lemma {:induction false} EscapeAllShape(bs: seq<Byte>)
    ensures forall i :: 0 <= i < |EscapeAll(bs)| ==> IsUnescaped(EscapeAll(bs)[i]) || EscapeAll(bs)[i] == '%'
  {
    if bs != [] {
      EscapeAllShape(bs[1..]);
      var r := EscapeAll(bs);
      assert r == Escape(bs[0]) + EscapeAll(bs[1..]);
      forall i | 0 <= i < |r|
        ensures IsUnescaped(r[i]) || r[i] == '%'
      {
        if i >= 3 {
          assert r[i] == EscapeAll(bs[1..])[i - 3];
        }
      }
    }
  }

  /** Reads `n` consecutive `%XY` escapes at the front of `s`; `None` when
      an escape is missing, cut short or not hexadecimal. */
  function ReadOctets(s: string, n: nat): (r: Option<seq<Byte>>)
    ensures r.Some? ==> |r.value| == n && 3 * n <= |s|
  {
    if n == 0 then Some([])
    else if |s| < 3 || s[0] != '%' then None
    else
      var hi :- HexValue(s[1]);
      var lo :- HexValue(s[2]);
      var rest :- ReadOctets(s[3..], n - 1);
      Some([hi * 0x10 + lo] + rest)
  }

  /** `decodeURIComponent(s)`; `None` where it throws `URIError`. An escape
      below 0x80 is one character; a lead octet with n leading one bits
      (2 <= n <= 4) takes n escapes in all, which must be well-formed UTF-8;
      any other lead octet is an error. */
  function Decode(s: string): (r: Option<string>)
    ensures r.Some? ==> |r.value| <= |s|
    decreases |s|
  {
    if s == [] then Some([])
    else if s[0] != '%' then
      var t :- Decode(s[1..]);
      Some([s[0]] + t)
    else
      var lead :- ReadOctets(s, 1);
      var n := LeadingOnes(lead[0]);
      if n == 0 then
        var t :- Decode(s[3..]);
        Some([lead[0] as char] + t)
      else if n == 1 || n > 4 then None
      else
        var octets :- ReadOctets(s, n);
        var c :- DecodeScalar(octets);
        var t :- Decode(s[3 * n..]);
        Some([c] + t)
  }

  /** `c` in front of a decoding result, failure staying failure. */
  function Prepend(c: char, r: Option<string>): Option<string>
  {
    match r
    case None => None
    case Some(t) => Some([c] + t)
  }

  lemma HexRoundTrip(n: nat)
    requires n < 0x10
    ensures HexValue(HexDigit(n)) == Some(n)
  {
  }

  /** One escape in front of readable escapes is read as its octet. */
  lemma ReadEscapeStep(b: Byte, rest: string, n: nat, x: seq<Byte>)
    requires n > 0 && ReadOctets(rest, n - 1) == Some(x)
    ensures ReadOctets(Escape(b) + rest, n) == Some([b] + x)
  {
    var s := Escape(b) + rest;
    assert s[0] == '%' && s[1] == HexDigit(b / 0x10) && s[2] == HexDigit(b % 0x10);
    HexRoundTrip(b / 0x10);
    HexRoundTrip(b % 0x10);
    assert s[3..] == rest;
  }

  /** The first escape of a run, split off. */
  lemma EscapeAllFront(bs: seq<Byte>, t: string)
    requires |bs| > 0
    ensures EscapeAll(bs) + t == Escape(bs[0]) + (EscapeAll(bs[1..]) + t)
  {
    var head := Escape(bs[0]);
    var tail := EscapeAll(bs[1..]);
    assert EscapeAll(bs) == head + tail;
    Sequences.Associative(head, tail, t);
  }

  /** Escaped octets are read back as they were written. */
  lemma {:induction false} ReadEscaped(bs: seq<Byte>, t: string, k: nat)
    requires k <= |bs|
    ensures ReadOctets(EscapeAll(bs) + t, k) == Some(bs[..k])
  {
    if k > 0 {
      var tail := bs[1..];
      var rest := EscapeAll(tail) + t;
      ReadEscaped(tail, t, k - 1);
      EscapeAllFront(bs, t);
      ReadEscapeStep(bs[0], rest, k, tail[..k - 1]);
      Sequences.TakeFront(bs, k);
    }
  }

  /** An escaped character is decoded from its run of escapes. */
  lemma DecodeEscapedChar(c: char, t: string)
    requires !IsUnescaped(c)
    ensures Decode(EscapeAll(EncodeScalar(c)) + t) == Prepend(c, Decode(t))
  {
    var bs := EncodeScalar(c);
    ReadEscaped(bs, t, 1);
    ReadEscaped(bs, t, |bs|);
    assert bs[..|bs|] == bs;
    DecodeEncodeScalar(c);
    Sequences.ConcatParts(EscapeAll(bs), t);
    if |bs| == 1 {
      assert bs == [c as int];
    }
  }

  /** Decoding consumes one encoded character from the front. */
  lemma DecodeEncodeChar(c: char, t: string)
    ensures Decode(EncodeChar(c) + t) == Prepend(c, Decode(t))
  {
    if IsUnescaped(c) {
      assert ([c] + t)[1..] == t;
    } else {
      DecodeEscapedChar(c, t);
    }
  }

  /** `decodeURIComponent(encodeURIComponent(s)) == s` for every string. */
  lemma {:induction false} DecodeEncode(s: string)
    ensures Decode(Encode(s)) == Some(s)
  {
    if s != [] {
      DecodeEncode(s[1..]);
      DecodeEncodeChar(s[0], Encode(s[1..]));
      assert [s[0]] + s[1..] == s;
    }
  }

  /** A string made only of unescaped characters is its own encoding. */
  lemma {:induction false} EncodeUnescaped(s: string)
    requires forall i :: 0 <= i < |s| ==> IsUnescaped(s[i])
    ensures Encode(s) == s
  {
    if s != [] {
      EncodeUnescaped(s[1..]);
      assert [s[0]] + s[1..] == s;
    }
  }

  /** A string without `%` is its own decoding. */
  lemma {:induction false} DecodeWithoutEscapes(s: string)
    requires '%' !in s
    ensures Decode(s) == Some(s)
  {
    if s != [] {
      assert forall c :: c in s[1..] ==> c in s;
      DecodeWithoutEscapes(s[1..]);
      assert [s[0]] + s[1..] == s;
    }
  }
}
