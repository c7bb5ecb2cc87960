/** The RPC-URL helpers of `Utils`: splitting a stored RPC URL into the
    address and the secret carried as its password, putting a secret back
    into a URL, checking an RPC URL, and taking a file name from a URL. */
module RpcUrl {
  import opened Wrappers
  import opened Url
  import opened Strings
  import PercentEncoding

  /** What `parseUrl` returns on success: the URL without credentials and
      the decoded secret. */
  datatype StoredRpc = StoredRpc(rpcUrl: string, secretKey: string)

  /** `Utils.parseUrl(rpcUrl)`; `None` for the empty object it returns when
      the URL does not parse or its password does not percent-decode. */
  function ParseUrl(api: UrlApi, rpcUrl: string): (r: Option<StoredRpc>)
    ensures r.Some? <==>
      api.parse(rpcUrl).Some? && PercentEncoding.Decode(api.parse(rpcUrl).value.password).Some?
    ensures r.Some? ==>
      && r.value.rpcUrl == api.parse(rpcUrl).value.origin + api.parse(rpcUrl).value.pathname
      && PercentEncoding.Decode(api.parse(rpcUrl).value.password) == Some(r.value.secretKey)
  {
    var url :- api.parse(rpcUrl);
    var secretKey :- PercentEncoding.Decode(url.password);
    Some(StoredRpc(url.origin + url.pathname, secretKey))
  }

  /** The URL record `combineUrl` serialises: credentials `token` and the
      component-encoded secret when the secret is non-empty. */
  function WithSecret(u: Url, secretKey: string): (r: Url)
    ensures secretKey == "" || CannotHaveCredentials(u) ==> r == u
    ensures r.(username := u.username, password := u.password) == u
  {
    if secretKey == "" then u
    else SetPassword(SetUsername(u, "token"), PercentEncoding.Encode(secretKey))
  }

  /** `Utils.combineUrl(secretKey, rpcUrl)`: `""` when the URL does not
      parse. */
  function CombineUrl(api: UrlApi, secretKey: string, rpcUrl: string): (r: string)
    ensures api.parse(rpcUrl).None? ==> r == ""
    ensures api.parse(rpcUrl).Some? && secretKey == "" ==> r == api.serialize(api.parse(rpcUrl).value)
  {
    match api.parse(rpcUrl)
    case None => ""
    case Some(url) => api.serialize(WithSecret(url, secretKey))
  }

  /** A non-empty secret is stored as user `token` with the secret,
      component-encoded, as password; nothing else of the URL changes. */
  lemma WithSecretCredentials(u: Url, secretKey: string)
    requires secretKey != "" && !CannotHaveCredentials(u)
    ensures WithSecret(u, secretKey) == u.(username := "token", password := PercentEncoding.Encode(secretKey))
  {
    TokenVerbatim();
    UserinfoKeepsComponentEncoding(secretKey);
    var named := SetUsername(u, "token");
    assert named == u.(username := "token");
    assert SetPassword(named, PercentEncoding.Encode(secretKey)) == named.(password := PercentEncoding.Encode(secretKey));
  }

  /** The parser reads back what the serialiser writes for this record. */
  ghost predicate Reparses(api: UrlApi, u: Url)
  {
    api.parse(api.serialize(u)) == Some(u)
  }

  /** Secret round trip: parsing what `combineUrl` produced from a URL that
      can carry credentials gives back the secret and the same address,
      without credentials, as the original URL. */
  lemma ParseCombine(api: UrlApi, secretKey: string, rpcUrl: string)
    requires api.parse(rpcUrl).Some? && !CannotHaveCredentials(api.parse(rpcUrl).value)
    requires Reparses(api, WithSecret(api.parse(rpcUrl).value, secretKey))
    requires secretKey != ""
    ensures ParseUrl(api, CombineUrl(api, secretKey, rpcUrl)) ==
      Some(StoredRpc(api.parse(rpcUrl).value.origin + api.parse(rpcUrl).value.pathname, secretKey))
  {
    WithSecretCredentials(api.parse(rpcUrl).value, secretKey);
    PercentEncoding.DecodeEncode(secretKey);
  }

  /** A URL that cannot have credentials is serialised as parsed, secret
      or no secret. */
  lemma CombineWithoutCredentials(api: UrlApi, secretKey: string, rpcUrl: string)
    requires api.parse(rpcUrl).Some? && CannotHaveCredentials(api.parse(rpcUrl).value)
    ensures CombineUrl(api, secretKey, rpcUrl) == api.serialize(api.parse(rpcUrl).value)
  {
  }

  /** `/^(http|ws)s?:$/` anchored at both ends, matched alternative by
      alternative. */
  predicate SchemeMatches(protocol: string)
  {
    SchemeAlternative(protocol, "http") || SchemeAlternative(protocol, "ws")
  }

  /** `name` then an optional `s` then `:` and nothing else. */
  predicate SchemeAlternative(protocol: string, name: string)
  {
    protocol == name + ":" || protocol == name + "s:"
  }

  /** The scheme pattern accepts exactly four protocols. */
  lemma SchemeMatchesExactly(protocol: string)
    ensures SchemeMatches(protocol) <==> protocol in {"http:", "https:", "ws:", "wss:"}
  {
    assert "http" + ":" == "http:" && "http" + "s:" == "https:";
    assert "ws" + ":" == "ws:" && "ws" + "s:" == "wss:";
  }

  /** `Utils.validateRpcUrl(rpcUrl)`. */
  function ValidateRpcUrl(api: UrlApi, rpcUrl: string): (ok: bool)
    ensures ok <==>
      && api.parse(rpcUrl).Some?
      && |api.parse(rpcUrl).value.pathname| >= 2
      && api.parse(rpcUrl).value.protocol in {"http:", "https:", "ws:", "wss:"}
  {
    match api.parse(rpcUrl)
    case None => false
    case Some(url) =>
      SchemeMatchesExactly(url.protocol);
      if |url.pathname| < 2 then false
      else SchemeMatches(url.protocol)
  }

  /** `Utils.getFileName(url)`: the last `/`-separated piece of the path,
      `""` when the URL does not parse or the path is shorter than two
      characters. */
  function GetFileName(api: UrlApi, url: string): (name: string)
    ensures '/' !in name
    ensures api.parse(url).None? ==> name == ""
    ensures api.parse(url).Some? && |api.parse(url).value.pathname| < 2 ==> name == ""
    ensures api.parse(url).Some? && |api.parse(url).value.pathname| >= 2 ==>
      var path := api.parse(url).value.pathname;
      && |name| <= |path|
      && name == path[|path| - |name|..]
      && (|name| == |path| || path[|path| - |name| - 1] == '/')
  {
    match api.parse(url)
    case None => ""
    case Some(u) =>
      if |u.pathname| < 2 then ""
      else
        var paths := Split(u.pathname, '/');
        LastPiece(u.pathname, '/');
        paths[|paths| - 1]
  }
}
