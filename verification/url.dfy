/** The host's URL class (WHATWG URL standard), kept abstract: parsing is
    a partial function to the record of components the utilities read,
    serialisation is a function back to text, and only the `username` and
    `password` setters are given their standard meaning. */
module Url {
  import opened Wrappers
  import opened Utf8
  import PercentEncoding

  /** The components of a parsed URL that are read: `protocol` keeps its
      trailing `:`, `port` is the empty string for a default port. */
  datatype Url = Url(
    protocol: string,
    username: string,
    password: string,
    hostname: string,
    port: string,
    pathname: string,
    origin: string)

  /** `new URL(text)` (`None` where the constructor throws) and
      `url.toString()`. Both are supplied by the host environment. */
  datatype UrlApi = UrlApi(parse: string -> Option<Url>, serialize: Url -> string)

  /** A URL that "cannot have a username/password/port": its host is empty
      or its scheme is `file`. The credential setters leave such a URL as
      it is. */
  predicate CannotHaveCredentials(u: Url)
  {
    u.hostname == "" || u.protocol == "file:"
  }

  /** The userinfo percent-encode set: C0 controls, everything above `~`,
      and space `" # < > ? ` { } / : ; = @ [ \ ] ^ |`. */
  predicate InUserinfoSet(c: char)
  {
    c as int < 0x20 || c as int > 0x7E || c in {' ', '"', '#', '<', '>', '?', '`', '{', '}', '/', ':', ';', '=', '@', '[', '\\', ']', '^', '|'}
  }

  /** UTF-8 percent-encoding of a value with the userinfo set, as both
      credential setters apply it. */
  function UserinfoEncode(s: string): string
  {
    if s == [] then []
    else
      var head := if InUserinfoSet(s[0]) then PercentEncoding.EscapeAll(EncodeScalar(s[0])) else [s[0]];
      head + UserinfoEncode(s[1..])
  }

  /** `url.username = v`. */
  function SetUsername(u: Url, v: string): (r: Url)
    ensures CannotHaveCredentials(u) ==> r == u
    ensures r.(username := u.username) == u
    ensures !CannotHaveCredentials(u) && (forall i :: 0 <= i < |v| ==> !InUserinfoSet(v[i])) ==> r.username == v
  {
    if CannotHaveCredentials(u) then u
    else
      UserinfoEncodeIdentity(v);
      u.(username := UserinfoEncode(v))
  }

  /** `url.password = v`. */
  function SetPassword(u: Url, v: string): (r: Url)
    ensures CannotHaveCredentials(u) ==> r == u
    ensures r.(password := u.password) == u
    ensures !CannotHaveCredentials(u) && (forall i :: 0 <= i < |v| ==> !InUserinfoSet(v[i])) ==> r.password == v
  {
    if CannotHaveCredentials(u) then u
    else
      UserinfoEncodeIdentity(v);
      u.(password := UserinfoEncode(v))
  }

  /** A value with nothing from the userinfo set is stored verbatim. */
  lemma {:induction false} UserinfoEncodeIdentity(s: string)
    ensures (forall i :: 0 <= i < |s| ==> !InUserinfoSet(s[i])) ==> UserinfoEncode(s) == s
  {
    if s != [] && forall i :: 0 <= i < |s| ==> !InUserinfoSet(s[i]) {
      assert forall i :: 0 <= i < |s[1..]| ==> s[1..][i] == s[i + 1];
      UserinfoEncodeIdentity(s[1..]);
      assert [s[0]] + s[1..] == s;
    }
  }

  /** The user name `token` is stored verbatim. */
  lemma TokenVerbatim()
    ensures UserinfoEncode("token") == "token"
  {
    var t := "token";
    assert !InUserinfoSet(t[0]) && !InUserinfoSet(t[1]) && !InUserinfoSet(t[2]);
    assert !InUserinfoSet(t[3]) && !InUserinfoSet(t[4]);
    UserinfoEncodeIdentity(t);
  }

  /** What `encodeURIComponent` writes is outside the userinfo set. */
  lemma ComponentOutputNotUserinfo(c: char)
    requires PercentEncoding.IsUnescaped(c) || c == '%'
    ensures !InUserinfoSet(c)
  {
  }

  /** The output of `encodeURIComponent` passes through the credential
      setters unchanged. */
  lemma UserinfoKeepsComponentEncoding(s: string)
    ensures UserinfoEncode(PercentEncoding.Encode(s)) == PercentEncoding.Encode(s)
  {
    var e := PercentEncoding.Encode(s);
    forall i | 0 <= i < |e|
      ensures !InUserinfoSet(e[i])
    {
      ComponentOutputNotUserinfo(e[i]);
    }
    UserinfoEncodeIdentity(e);
  }
}
