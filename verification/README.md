# Aria2-Explorer `Utils`: RPC export, secret codec and path helpers in Dafny

This project models the pure core of the `Utils` class of the Aria2-Explorer
browser extension (`js/utils.js`) and proves properties of it. The model has three parts.

- **RPC-list export** (`RpcExport`, `rpc_export.dfy`). `exportRpc2AriaNg` turns the
  extension's list of RPC records into the options object of the AriaNg web UI.
  - The primary record is the first one whose comma-separated pattern list contains
    `*`, or record 0. Its endpoint fields are written onto the options themselves.
  - Every other record becomes an entry of `extendRpcServers`.
  - The loop runs inside one `try` whose `catch` only logs. A failing record therefore
    leaves the work done before it in place.
  - The loop is modelled as a fold, `Walk`, over the outcome of each record.
  - It is proved equal, for all inputs, to an independent description, `Expected`. That
    description is built from the first failing index, the list of auxiliary entries
    and the primary's fields.
- **Secret-in-URL codec** (`RpcUrl`, `Url`, `PercentEncoding`, `Utf8`, `Base64`).
  - `parseUrl` splits a stored RPC URL into its address and the secret carried as its password.
  - `combineUrl` puts a secret back as user `token` with a component-encoded password.
  - The export turns a password into `btoa(decodeURIComponent(password))`.
  - `encodeURIComponent` and `decodeURIComponent` follow the ECMA-262 Encode and Decode
    operations. They percent-encode as in section 2.1 of RFC 3986, over UTF-8 as in
    RFC 3629, and leave the unreserved characters of section 2.3 of RFC 2396 alone.
  - `btoa` is base64 as in section 4 of RFC 4648, defined only on characters up to U+00FF.
  - The URL parser and serialiser are abstract functions supplied by the host, `UrlApi`.
    Only the `username` and `password` setters are given their WHATWG meaning: they do
    nothing on a URL that cannot have credentials, and otherwise they apply the userinfo
    percent-encode set.
- **String helpers** (`Locations`, `RpcUrl`).
  - `completeLocation` appends the directory separator.
  - `validateFilePath` checks a path with two anchored regular expressions. They are
    modelled as a one-pass scan and proved equal to the regular languages themselves.
  - `validateRpcUrl` checks a URL's scheme and path length.
  - `getFileName` takes the last path piece of a URL.

`Strings` models the JavaScript string operations used (`split`, `join`, `replace` of a
single character, `startsWith`/`endsWith` of one character). `Sequences` holds a few
element-independent facts about sequences. `Wrappers` defines `Option` and `Result`.

Two behaviours of the code are worth stating plainly, and the model keeps both:

- The scheme test of `validateRpcUrl` (`js/utils.js:203`) is case-sensitive: the regular
  expression `/^(http|ws)s?:$/` has no `i` flag. The model tests the four lower-case
  protocols exactly.
- A failing record keeps everything written before it (`js/utils.js:59-80`): the entries
  already appended and, when the primary fails at line 74, its five endpoint fields.

## Model

| member | source | states |
|---|---|---|
| RpcExport.ExportRpc2AriaNg | js/utils.js:9-10 | the result is `null` (None) exactly when the list is empty |
| RpcExport.Walk | js/utils.js:59-80 | the loop as a fold from record `i` on (a definition; `ExportIsExpected` and `WalkFromSnapshot` give its meaning). Its own contract: it stops at or after `i`, every record it passed projects, and a stop names a record that does not project, with that record's error |
| RpcExport.ExportOnto | js/utils.js:47-80 | the reset of `extendRpcServers` followed by the loop (a definition; `ExportIsExpected` gives its meaning). Its own contract: every record before the stop projects and the record at the stop does not |
| RpcExport.RecordOutcome | js/utils.js:68-74 | what one record amounts to (a definition; `RecordProjection` gives its fields). Its own contract: unparsable exactly when `new URL` throws, projected exactly when the URL parses and the secret succeeds, and a secret failure is never a URL error |
| RpcExport.ExportIsExpected | js/utils.js:46-82 | the loop over the records, started from the options with `extendRpcServers` reset, ends exactly in the reference result: the snapshot after the last record before the first failure, plus the primary's endpoint fields when the primary failed on its secret |
| RpcExport.WalkFromSnapshot | js/utils.js:59-80 | from the state after any prefix of successful records, the remaining loop reaches the reference result |
| RpcExport.WalkStep | js/utils.js:60-77 | a successful record moves the state from one snapshot to the next: the primary writes its fields, any other record appends exactly its entry |
| RpcExport.WalkHaltsAtFailure | js/utils.js:59-80 | at the first failing record the loop stops, keeping the state before it, plus the five endpoint fields if that record is the primary and failed at the secret |
| RpcExport.FirstCatchAll | js/utils.js:50-57 | the first record at or after a position whose pattern list contains `*`, with none before it; none when no such record exists |
| RpcExport.PrimaryIndex | js/utils.js:50-57 | the primary is the first catch-all record if there is one, and record 0 otherwise |
| RpcExport.IsCatchAll | js/utils.js:52-53 | `pattern.split(',').includes('*')` (a definition; `CatchAllIsDelimitedStar` and `NoTrimming` give its meaning) |
| RpcExport.CatchAllIsDelimitedStar | js/utils.js:52-53 | a record is a catch-all exactly when `*` occurs in its pattern bounded by commas or the ends of the string |
| RpcExport.NoTrimming | js/utils.js:52-53 | items are not trimmed: in `first, *` the second item is ` *`, so the record is a catch-all only when `first` is `*` |
| RpcExport.ExportSecret | js/utils.js:74 | the secret succeeds exactly when the password percent-decodes and the result is Latin-1. `atob` of the secret is then the decoded password. The error says which of the two steps threw |
| RpcExport.EmptyPasswordEmptySecret | js/utils.js:74 | an empty password exports as an empty secret |
| RpcExport.RecordProjection | js/utils.js:68-74 | a parsed record contributes its name, its protocol without the first `:`, host, port, and its path without the first `/`. It projects exactly when its secret succeeds, the secret decodes back to the decoded password, and an empty password gives `""` |
| RpcExport.AppendServer | js/utils.js:75-76 | `push` adds the entry at the end of `extendRpcServers` and changes no other key |
| RpcExport.Step | js/utils.js:61-76 | one iteration continues exactly when the record projects, and a stop carries that record's error |
| RpcExport.FirstFailure | js/utils.js:59-80 | the first record that does not project, with every earlier record projecting |
| RpcExport.ExportStopsAtFirstFailure | js/utils.js:59-80 | the export reports no failure exactly when every record projects; otherwise it stops at the first record that does not, with that record's error |
| RpcExport.ExportServerList | js/utils.js:47-80 | `extendRpcServers` holds exactly the entries of the records before the stop, the primary left out, so entries appended before a failure stay and nothing from the failing record or later is added |
| RpcExport.AuxEntriesLength | js/utils.js:60-77 | the entry list has one entry per record before the stop other than the primary |
| RpcExport.AuxEntriesInOrder | js/utils.js:60-77 | entry j comes from record j before the primary and from record j+1 after it, so input order is kept |
| RpcExport.AuxEntryFields | js/utils.js:62-74 | an auxiliary entry has exactly the keys `rpcId` (the generated id), `httpMethod` (`POST`), and the six record fields holding the record's values |
| RpcExport.ExportKeepsOtherKeys | js/utils.js:46-82 | every key other than the six record fields and `extendRpcServers` keeps its value, `httpMethod` included. No key is removed and no other key is added |
| RpcExport.ExportDefaults | js/utils.js:11-46 | without an options object, every key the export does not write keeps its default value |
| RpcExport.ExportPrimaryFields | js/utils.js:62-80 | the primary has all six fields written when it is before the stop. It has only its five endpoint fields written, with `secret` untouched, when it stopped the loop at its secret. Its fields are untouched when the stop came earlier or at its URL |
| RpcExport.ExportSucceeds | js/utils.js:59-82 | when every record projects: no failure, n-1 entries for the other records in input order, and the primary's six fields on the options |
| RpcUrl.ParseUrl | js/utils.js:119-128 | succeeds exactly when the URL parses and its password percent-decodes, returning origin plus pathname and the decoded password |
| RpcUrl.CombineUrl | js/utils.js:138-151 | `""` for an unparsable URL. The URL is serialised as parsed when the secret is empty |
| RpcUrl.WithSecret | js/utils.js:142-145 | the URL record `combineUrl` serialises (a definition; `WithSecretCredentials` gives its meaning). Its own contract: an empty secret or a URL that cannot have credentials leaves the record as it is, and nothing but the user name and password ever changes |
| RpcUrl.WithSecretCredentials | js/utils.js:142-145 | a non-empty secret sets user `token` and password `encodeURIComponent(secret)`, stored verbatim by the setters, and changes nothing else |
| RpcUrl.ParseCombine | js/utils.js:119-151 | for a non-empty secret `s`, `parseUrl(combineUrl(s, u))` gives back `s` and the address of `u` (origin and path, without credentials) |
| RpcUrl.CombineWithoutCredentials | js/utils.js:141-150 | a URL that cannot carry credentials is serialised as parsed, whatever the secret |
| RpcUrl.SchemeMatchesExactly | js/utils.js:203 | `/^(http|ws)s?:$/` accepts exactly `http:`, `https:`, `ws:` and `wss:` |
| RpcUrl.ValidateRpcUrl | js/utils.js:196-206 | true exactly when the URL parses, its pathname has at least two characters, and its protocol is one of the four |
| RpcUrl.GetFileName | js/utils.js:239-248 | `""` on a parse failure or a pathname shorter than two characters. Otherwise the longest `/`-free suffix of the pathname, which is the whole pathname or what follows its last `/` |
| Strings.Split | js/utils.js:246 | `split` on one character gives at least one piece, and no piece contains the separator |
| Strings.JoinSplit | js/utils.js:246 | joining the pieces of a split gives the string back |
| Strings.SplitJoin | js/utils.js:246 | splitting a join of separator-free pieces gives the pieces back |
| Strings.InSplitIff | js/utils.js:52-53 | a separator-free word is a piece exactly when it occurs bounded by separators or the ends |
| Strings.LastPiece | js/utils.js:246-247 | the last piece is a suffix that is the whole string or follows a separator |
| Strings.RemoveFirst | js/utils.js:70 | `replace(c, '')` with a one-character pattern deletes only the first `c`, and changes nothing when there is none |
| PercentEncoding.Encode | js/utils.js:144 | `encodeURIComponent` writes only unreserved characters and `%` |
| PercentEncoding.Decode | js/utils.js:123 | `decodeURIComponent` never lengthens its input |
| PercentEncoding.DecodeEncode | js/utils.js:123 | `decodeURIComponent(encodeURIComponent(s)) == s` for every string |
| PercentEncoding.EncodeUnescaped | js/utils.js:144 | a string of unreserved characters is its own encoding |
| PercentEncoding.DecodeWithoutEscapes | js/utils.js:123 | a string without `%` is its own decoding |
| Utf8.EncodeScalar | js/utils.js:144 | one to four octets, a single octet exactly below U+0080, and a lead octet whose leading-ones count is the length, followed by continuation octets |
| Utf8.DecodeEncodeScalar | js/utils.js:74 | decoding the UTF-8 of a scalar value gives it back |
| Utf8.EncodeDecodeScalar | js/utils.js:74 | only the canonical encoding decodes: anything that decodes to `c` is the encoding of `c` |
| Base64.Btoa | js/utils.js:74 | `btoa` succeeds exactly when every character is at most U+00FF |
| Base64.DecodeEncode | js/utils.js:74 | base64 decoding inverts the padded encoding for all octet sequences |
| Base64.AtobBtoa | js/utils.js:74 | `atob(btoa(s)) == s` whenever `btoa` does not throw |
| Url.SetUsername | js/utils.js:143 | the `username` setter: a no-op on a URL that cannot have credentials, changes nothing but the user name, and stores a value with nothing from the userinfo set verbatim |
| Url.SetPassword | js/utils.js:144 | the `password` setter: a no-op on a URL that cannot have credentials, changes nothing but the password, and stores a value with nothing from the userinfo set verbatim |
| Url.UserinfoEncodeIdentity | js/utils.js:143-144 | the userinfo percent-encoding leaves a value with nothing from the userinfo set unchanged |
| Url.UserinfoKeepsComponentEncoding | js/utils.js:144 | the password setter stores the output of `encodeURIComponent` verbatim |
| Url.TokenVerbatim | js/utils.js:143 | the username setter stores `token` verbatim |
| Locations.CompleteLocation | js/utils.js:173-183 | an empty location is returned as it is. Otherwise the input is a prefix of the result, at most one character is added, the result ends with `/` for a location starting with `/` and with `\` otherwise, and a location already ending so is unchanged |
| Locations.CompleteLocationIdempotent | js/utils.js:173-183 | completing twice is completing once |
| Locations.ScanBody | js/utils.js:188-191 | the scan accepts exactly when every character is in the class or is the separator, no separator follows a separator, and none comes first after the leading one |
| Locations.ValidateFilePath | js/utils.js:185-194 | a path starting with `/`: accepted exactly when every later character is in the class or `/` and no `/` follows a `/`. Any other path: accepted exactly when it starts with a letter, `:`, `\`, every later character is in the class or `\`, and no `\` follows a `\` |
| Locations.ValidateFilePathIsPatternMatch | js/utils.js:185-194 | the scan accepts exactly the strings the anchored regular expression matches, read as the language `([class]+sep?)*` after the prefix |
| Locations.AcceptedPathPunctuation | js/utils.js:188-191 | an accepted path has no comma. A Unix-like one has no `\` or `:`; a Windows one has no `/`, and its only `:` is the drive colon |
| Locations.InPathClass | js/utils.js:188 | the character class `[-\u4e00-\u9fa5\w\s.()~!@#$%^&()\[\]{}+=]` shared by both regular expressions (a definition; `PathClassExcludesPunctuation` and `AcceptedPathPunctuation` give its consequences) |
| Locations.PathClassExcludesPunctuation | js/utils.js:188 | the character class contains none of `/`, `\`, `:` and `,` |

## Left out

- `generateUid` (`js/utils.js:85-89`) reads the clock and `Math.random`. The identifiers are a parameter, `ids`, where `ids(i)` is the value generated for record `i`.
- `getReadableSpeed` is left out because it uses `parseInt`, floating point and `toFixed`.
- `localizeHtmlPage`, `showNotification` and `getWebStoreUrl` are left out because they use the DOM, `chrome.*` APIs and `navigator.userAgent`.
- `console.warn` in the three `catch` blocks is left out; it has no effect on results.
- The WHATWG URL parser and serialiser are left abstract: `new URL(...)` and `url.toString()` are the `parse` and `serialize` fields of `UrlApi`. Host normalisation, default ports, IDNA and exact serialisation are not modelled.
- RpcUrl.ParseCombine assumes the parser reads back what the serialiser wrote for the updated URL (`Reparses`), because the serialiser is abstract. It also requires a URL that can carry credentials; `CombineWithoutCredentials` covers the other case.
- RpcExport.ExportRpc2AriaNg takes the records as a dense sequence indexed by naturals. The `for...in` string indices compared with loose `==` agree with this on arrays. Sparse arrays and inherited enumerable properties are not modelled.
- RpcExport.ExportRpc2AriaNg treats a missing list like an empty one (both give `null`). The `pattern` field is always a string: a record without one makes `split` throw outside the `try`, which is not modelled.
- RpcExport.ExportRpc2AriaNg returns the updated options as a value. In JavaScript the caller's object is mutated in place and then returned; aliasing is not modelled.
- RpcExport.ExportRpc2AriaNg models the `catch` as a recorded stop (`Stop(index, error)`) next to the options. JavaScript returns only the options.
- RpcExport.Step reads each record's outcome from `Outcomes`, which is computed per record before the loop. Outcomes depend only on their own record, so this changes nothing observable.
- RpcExport.ExportDefaults states only that the unwritten keys keep their default values. The concrete table `DefaultOptions` (`js/utils.js:11-44`) is written out, but no lemma reads individual default values.
- Strings are sequences of Unicode scalar values. JavaScript strings are UTF-16: a lone surrogate, which makes `encodeURIComponent` throw, cannot be represented. A supplementary character is one `char` here and two code units in JavaScript.
- PercentEncoding.Decode states only the length bound in its own contract. Its failure cases (a `%` not followed by two hex digits, a lead octet outside UTF-8, a broken continuation, an over-long or surrogate encoding) are given by its definition and are not restated as separate lemmas. `DecodeEncode`, `EncodeDecodeScalar` and `DecodeWithoutEscapes` relate it to the encoder.
- Base64.Atob is a strict reference decoder: padded input, no white space. It is the partner `btoa` is checked against, not a model of the browser's lenient `atob`.
- The user name set by `combineUrl` goes through the same setter model as the password. Only the two values it is used with, `token` and component-encoded text, are proved to be stored verbatim.
