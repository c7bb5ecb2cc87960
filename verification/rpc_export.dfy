/** `Utils.exportRpc2AriaNg`: the extension's RPC list turned into the
    AriaNg options object. The first record whose pattern list contains
    `*` (or else the first record) is the primary server, written onto the
    options themselves; every other record becomes an entry of
    `extendRpcServers`. A failure on some record stops the walk and is
    swallowed: whatever was written before it stays. */
module RpcExport {
  import opened Wrappers
  import opened Strings
  import opened Url
  import PercentEncoding
  import Base64

  /** One entry of the extension's RPC list. */
  datatype RpcRecord = RpcRecord(name: string, url: string, pattern: string)

  /** A value stored under an option key; `extendRpcServers` holds a list
      of objects. */
  datatype Value =
    | Str(s: string)
    | Num(n: int)
    | Bool(b: bool)
    | Objects(items: seq<map<string, Value>>)

  /** A JavaScript object with string keys: the options, or one server
      entry. */
  type Options = map<string, Value>

  const AliasKey := "rpcAlias"
  const ProtocolKey := "protocol"
  const HostKey := "rpcHost"
  const PortKey := "rpcPort"
  const InterfaceKey := "rpcInterface"
  const SecretKey := "secret"
  const ServersKey := "extendRpcServers"
  const IdKey := "rpcId"
  const MethodKey := "httpMethod"

  /** The option keys the export uses are pairwise distinct. */
  lemma KeysDistinct()
    ensures AliasKey != ProtocolKey && AliasKey != HostKey && AliasKey != PortKey && AliasKey != InterfaceKey
    ensures AliasKey != SecretKey && AliasKey != ServersKey && AliasKey != IdKey && AliasKey != MethodKey
    ensures ProtocolKey != HostKey && ProtocolKey != PortKey && ProtocolKey != InterfaceKey && ProtocolKey != SecretKey
    ensures ProtocolKey != ServersKey && ProtocolKey != IdKey && ProtocolKey != MethodKey && HostKey != PortKey
    ensures HostKey != InterfaceKey && HostKey != SecretKey && HostKey != ServersKey && HostKey != IdKey
    ensures HostKey != MethodKey && PortKey != InterfaceKey && PortKey != SecretKey && PortKey != ServersKey
    ensures PortKey != IdKey && PortKey != MethodKey && InterfaceKey != SecretKey && InterfaceKey != ServersKey
    ensures InterfaceKey != IdKey && InterfaceKey != MethodKey && SecretKey != ServersKey && SecretKey != IdKey
    ensures SecretKey != MethodKey && ServersKey != IdKey && ServersKey != MethodKey && IdKey != MethodKey
  {
  }

  /** The only keys of the options object the export writes. */
  const WrittenKeys: set<string> := {AliasKey, ProtocolKey, HostKey, PortKey, InterfaceKey, SecretKey, ServersKey}

  /** The options used when the caller passes none. */
  const DefaultOptions: Options := map[
    "language" := Str("TBD"),
    "theme" := Str("light"),
    "title" := Str("${downspeed}, ${upspeed} - ${title}"),
    "titleRefreshInterval" := Num(5000),
    "browserNotification" := Bool(false),
    "browserNotificationSound" := Bool(true),
    "browserNotificationFrequency" := Str("unlimited"),
    AliasKey := Str(""),
    HostKey := Str("localhost"),
    PortKey := Str("6800"),
    InterfaceKey := Str("jsonrpc"),
    ProtocolKey := Str("ws"),
    MethodKey := Str("POST"),
    "rpcRequestHeaders" := Str(""),
    SecretKey := Str(""),
    ServersKey := Objects([]),
    "webSocketReconnectInterval" := Num(5000),
    "globalStatRefreshInterval" := Num(1000),
    "downloadTaskRefreshInterval" := Num(1000),
    "keyboardShortcuts" := Bool(true),
    "swipeGesture" := Bool(true),
    "dragAndDropTasks" := Bool(true),
    "rpcListDisplayOrder" := Str("recentlyUsed"),
    "afterCreatingNewTask" := Str("task-list"),
    "removeOldTaskAfterRetrying" := Bool(true),
    "confirmTaskRemoval" := Bool(true),
    "includePrefixWhenCopyingFromTaskDetails" := Bool(false),
    "showPiecesInfoInTaskDetailPage" := Str("le10240"),
    "afterRetryingTask" := Str("task-list-downloading"),
    "displayOrder" := Str("default:asc"),
    "fileListDisplayOrder" := Str("default:asc"),
    "peerListDisplayOrder" := Str("default:asc")
  ]

  // ---------------------------------------------------------------------
  // Primary selection

  /** `pattern.split(',').includes('*')`. */
  predicate IsCatchAll(r: RpcRecord)
  {
    "*" in Split(r.pattern, ',')
  }

  /** A record is a catch-all exactly when `*` is one whole item of its
      pattern list: bounded by commas or the ends, with no trimming. */
  lemma CatchAllIsDelimitedStar(r: RpcRecord)
    ensures IsCatchAll(r) <==> exists i :: DelimitedAt(r.pattern, ',', "*", i)
  {
    InSplitIff(r.pattern, ',', "*");
  }

  /** Items are not trimmed: in a list such as `a.com, *` the second item
      is ` *`, so the record is a catch-all only if the first item is `*`. */
  lemma NoTrimming(r: RpcRecord, first: string)
    requires ',' !in first
    requires r.pattern == first + [','] + [' ', '*']
    ensures IsCatchAll(r) <==> first == "*"
  {
    var tail := [' ', '*'];
    SplitCons(first, ',', tail);
    assert Split(tail, ',') == [tail];
    assert Split(r.pattern, ',') == [first, tail];
    assert tail != "*";
  }

  /** The first catch-all record at or after `from`. */
  function FirstCatchAll(records: seq<RpcRecord>, from: nat): (r: Option<nat>)
    requires from <= |records|
    ensures r.Some? ==>
      && from <= r.value < |records|
      && IsCatchAll(records[r.value])
      && forall j :: from <= j < r.value ==> !IsCatchAll(records[j])
    ensures r.None? ==> forall j :: from <= j < |records| ==> !IsCatchAll(records[j])
    decreases |records| - from
  {
    if from == |records| then None
    else if IsCatchAll(records[from]) then Some(from)
    else FirstCatchAll(records, from + 1)
  }

  /** The index of the primary server: the first catch-all record, or 0. */
  function PrimaryIndex(records: seq<RpcRecord>): (k: nat)
    requires |records| > 0
    ensures k < |records|
    ensures (exists i :: 0 <= i < |records| && IsCatchAll(records[i])) ==>
      IsCatchAll(records[k]) && forall j :: 0 <= j < k ==> !IsCatchAll(records[j])
    ensures (forall i :: 0 <= i < |records| ==> !IsCatchAll(records[i])) ==> k == 0
  {
    match FirstCatchAll(records, 0)
    case Some(k) => k
    case None => 0
  }

  // ---------------------------------------------------------------------
  // One record

  /** The fields one record contributes, read from its parsed URL. */
  datatype Endpoint = Endpoint(alias: string, protocol: string, host: string, port: string, iface: string)

  /** Why a record stopped the export: its URL does not parse, its password
      does not percent-decode (`URIError`), or the decoded password has a
      character above U+00FF (`btoa` throws). */
  datatype RecordError = InvalidUrl | SecretUriError | SecretNotLatin1

  /** What processing one record amounts to, before anything is written. */
  datatype Outcome =
    | Unparsable
    | SecretFailed(endpoint: Endpoint, error: RecordError)
    | Projected(endpoint: Endpoint, secret: string)
  {
    function Error(): RecordError
      requires !Projected?
    {
      if Unparsable? then InvalidUrl else error
    }
  }

  /** The alias, protocol without its `:`, host, port and path without its
      leading `/`. */
  function EndpointOf(r: RpcRecord, url: Url): Endpoint
  {
    Endpoint(r.name, RemoveFirst(url.protocol, ':'), url.hostname, url.port, RemoveFirst(url.pathname, '/'))
  }

  /** `btoa(decodeURIComponent(password))`. */
  function ExportSecret(password: string): (r: Result<string, RecordError>)
    ensures r.Success? <==>
      && PercentEncoding.Decode(password).Some?
      && Base64.Btoa(PercentEncoding.Decode(password).value).Some?
    ensures r.Success? ==> Base64.Atob(r.value) == PercentEncoding.Decode(password)
    ensures r.Failure? ==>
      (r.error == SecretUriError <==> PercentEncoding.Decode(password).None?)
    ensures r.Failure? ==> r.error != InvalidUrl
  {
    match PercentEncoding.Decode(password)
    case None => Failure(SecretUriError)
    case Some(plain) =>
      match Base64.Btoa(plain)
      case None => Failure(SecretNotLatin1)
      case Some(encoded) =>
        Base64.AtobBtoa(plain);
        Success(encoded)
  }

  /** An empty password exports as an empty secret. */
  lemma EmptyPasswordEmptySecret()
    ensures ExportSecret("") == Success("")
  {
    assert PercentEncoding.Decode("") == Some("");
    assert Base64.Latin1Octets("") == [];
  }

  /** The outcome of one record: parse the URL, take its fields, export the
      password. */
  function RecordOutcome(api: UrlApi, r: RpcRecord): (o: Outcome)
    ensures o.Unparsable? <==> api.parse(r.url).None?
    ensures o.Projected? <==> api.parse(r.url).Some? && ExportSecret(api.parse(r.url).value.password).Success?
    ensures o.SecretFailed? ==> o.error != InvalidUrl
  {
    match api.parse(r.url)
    case None => Unparsable
    case Some(url) =>
      match ExportSecret(url.password)
      case Failure(e) => SecretFailed(EndpointOf(r, url), e)
      case Success(secret) => Projected(EndpointOf(r, url), secret)
  }

  /** The five endpoint fields written onto `target`. */
  function WriteEndpoint(target: Options, e: Endpoint): Options
  {
    target[AliasKey := Str(e.alias)][ProtocolKey := Str(e.protocol)][HostKey := Str(e.host)]
      [PortKey := Str(e.port)][InterfaceKey := Str(e.iface)]
  }

  /** The endpoint fields and the secret written onto `target`. */
  function WriteRecord(target: Options, e: Endpoint, secret: string): Options
  {
    WriteEndpoint(target, e)[SecretKey := Str(secret)]
  }

  /** A new auxiliary entry before its fields are written. */
  function FreshEntry(id: string): Options
  {
    map[IdKey := Str(id), MethodKey := Str("POST")]
  }

  /** The options hold a list under `extendRpcServers`. */
  predicate HasServerList(options: Options)
  {
    ServersKey in options && options[ServersKey].Objects?
  }

  /** `ariaNgOptions.extendRpcServers.push(entry)`. */
  function AppendServer(options: Options, entry: Options): (r: Options)
    requires HasServerList(options)
    ensures HasServerList(r)
    ensures r[ServersKey].items == options[ServersKey].items + [entry]
    ensures forall key :: key != ServersKey ==> (key in r <==> key in options)
    ensures forall key :: key in options && key != ServersKey ==> r[key] == options[key]
  {
    options[ServersKey := Objects(options[ServersKey].items + [entry])]
  }

  // ---------------------------------------------------------------------
  // The walk

  /** The outcome of every record, in list order. Each outcome depends on its
      record alone, so the walk may read them from here. */
  function Outcomes(api: UrlApi, records: seq<RpcRecord>): (os: seq<Outcome>)
    ensures |os| == |records|
    ensures forall j :: 0 <= j < |records| ==> os[j] == RecordOutcome(api, records[j])
  {
    seq(|records|, j requires 0 <= j < |records| => RecordOutcome(api, records[j]))
  }

  /** The walk goes on with new options, or stops with the options as they
      were when the record failed. */
  datatype Progress = Continue(options: Options) | Halt(options: Options, error: RecordError)

  /** One iteration of the export loop for record `i`, whose outcome is `o`.
      The primary writes straight onto the options, so a failing secret
      leaves its five endpoint fields behind; an auxiliary entry is built
      apart and only appended once complete. `ids(i)` is the identifier
      generated for record `i`. */
  function Step(ids: nat -> string, o: Outcome, primary: nat, i: nat, options: Options): (p: Progress)
    requires HasServerList(options)
    ensures p.Continue? <==> o.Projected?
    ensures p.Halt? ==> p.error == o.Error()
    ensures p.Continue? ==> HasServerList(p.options)
  {
    match o
    case Unparsable => Halt(options, InvalidUrl)
    case SecretFailed(e, error) =>
      Halt(if i == primary then WriteEndpoint(options, e) else options, error)
    case Projected(e, secret) =>
      if i == primary then Continue(WriteRecord(options, e, secret))
      else Continue(AppendServer(options, WriteRecord(FreshEntry(ids(i)), e, secret)))
  }

  /** Where and why the walk stopped. */
  datatype Stop = Stop(index: nat, error: RecordError)

  /** The returned options, and the failure the `catch` swallowed, if any. */
  datatype Exported = Exported(options: Options, failure: Option<Stop>)

  /** The export loop from record `i` on. */
  function Walk(ids: nat -> string, os: seq<Outcome>, primary: nat, i: nat, options: Options): (r: Exported)
    requires i <= |os| && HasServerList(options)
    ensures i <= StopIndex(r, |os|) <= |os|
    ensures forall j :: i <= j < StopIndex(r, |os|) ==> os[j].Projected?
    ensures r.failure.Some? ==>
      r.failure.value.index < |os| && !os[r.failure.value.index].Projected?
      && r.failure.value.error == os[r.failure.value.index].Error()
    decreases |os| - i
  {
    if i == |os| then Exported(options, None)
    else
      match Step(ids, os[i], primary, i, options)
      case Continue(next) => Walk(ids, os, primary, i + 1, next)
      case Halt(partial, error) => Exported(partial, Some(Stop(i, error)))
  }

  /** The object the export writes onto: the caller's, or the defaults
      when the caller passes none. */
  function BaseOptions(ariaNgOptions: Option<Options>): Options
  {
    if ariaNgOptions.None? then DefaultOptions else ariaNgOptions.value
  }

  /** The export of a non-empty list onto `base`: `extendRpcServers` is
      reset to an empty list, then the loop runs from the first record. */
  function ExportOnto(api: UrlApi, ids: nat -> string, rpcList: seq<RpcRecord>, base: Options): (r: Exported)
    requires |rpcList| > 0
    ensures StopIndex(r, |rpcList|) <= |rpcList|
    ensures forall j :: 0 <= j < StopIndex(r, |rpcList|) ==> RecordOutcome(api, rpcList[j]).Projected?
    ensures r.failure.Some? ==>
      r.failure.value.index < |rpcList| && !RecordOutcome(api, rpcList[r.failure.value.index]).Projected?
  {
    Walk(ids, Outcomes(api, rpcList), PrimaryIndex(rpcList), 0, base[ServersKey := Objects([])])
  }

  /** `Utils.exportRpc2AriaNg(rpcList, ariaNgOptions)`: `None` stands for
      the `null` returned for an empty list. */
  function ExportRpc2AriaNg(api: UrlApi, ids: nat -> string, rpcList: seq<RpcRecord>, ariaNgOptions: Option<Options>): (r: Option<Exported>)
    ensures r.None? <==> |rpcList| == 0
  {
    if |rpcList| == 0 then None
    else Some(ExportOnto(api, ids, rpcList, BaseOptions(ariaNgOptions)))
  }

  // ---------------------------------------------------------------------
  // The reference: what the export is meant to leave behind

  /** The first outcome at or after `from` that is not a full projection;
      `|os|` when there is none. */
  function FirstFailure(os: seq<Outcome>, from: nat): (k: nat)
    requires from <= |os|
    ensures from <= k <= |os|
    ensures forall j :: from <= j < k ==> os[j].Projected?
    ensures k < |os| ==> !os[k].Projected?
    decreases |os| - from
  {
    if from == |os| || !os[from].Projected? then from
    else FirstFailure(os, from + 1)
  }

  /** All records before `k` project. */
  ghost predicate ProjectedBefore(os: seq<Outcome>, k: nat)
  {
    k <= |os| && forall j :: 0 <= j < k ==> os[j].Projected?
  }

  /** The auxiliary entry for record `j`. */
  function AuxEntry(ids: nat -> string, os: seq<Outcome>, j: nat): Options
    requires j < |os| && os[j].Projected?
  {
    WriteRecord(FreshEntry(ids(j)), os[j].endpoint, os[j].secret)
  }

  /** The entries for records `0..k-1`, the primary left out, in order. */
  function AuxEntries(ids: nat -> string, os: seq<Outcome>, primary: nat, k: nat): seq<Options>
    requires ProjectedBefore(os, k)
  {
    if k == 0 then []
    else AuxEntries(ids, os, primary, k - 1) + (if k - 1 == primary then [] else [AuxEntry(ids, os, k - 1)])
  }

  /** The options once records `0..k-1` are done: the starting options, the
      entries so far, and the primary's fields if the primary is among them. */
  function Snapshot(ids: nat -> string, os: seq<Outcome>, primary: nat, start: Options, k: nat): Options
    requires ProjectedBefore(os, k)
  {
    var withServers := start[ServersKey := Objects(AuxEntries(ids, os, primary, k))];
    if primary < k then WriteRecord(withServers, os[primary].endpoint, os[primary].secret)
    else withServers
  }

  /** What the export returns, described from the outcomes alone: it stops
      at the first failing record; the snapshot before it stands, plus the
      five endpoint fields if that record is the primary and failed only on
      its secret. */
  function Expected(ids: nat -> string, os: seq<Outcome>, primary: nat, start: Options): Exported
  {
    var k := FirstFailure(os, 0);
    var done := Snapshot(ids, os, primary, start, k);
    if k == |os| then Exported(done, None)
    else
      var options := if k == primary && os[k].SecretFailed? then WriteEndpoint(done, os[k].endpoint) else done;
      Exported(options, Some(Stop(k, os[k].Error())))
  }

  /** Writing a record's fields does not touch the server list. */
  lemma WriteRecordKeepsServers(m: Options, e: Endpoint, secret: string, servers: Value, other: Value)
    ensures WriteRecord(m[ServersKey := servers], e, secret)[ServersKey] == servers
    ensures WriteRecord(m[ServersKey := servers], e, secret)[ServersKey := other] == WriteRecord(m[ServersKey := other], e, secret)
  {
  }

  /** The snapshot's server list is the reference entry list. */
  lemma SnapshotServers(ids: nat -> string, os: seq<Outcome>, primary: nat, start: Options, i: nat)
    requires ProjectedBefore(os, i)
    ensures HasServerList(Snapshot(ids, os, primary, start, i))
    ensures Snapshot(ids, os, primary, start, i)[ServersKey] == Objects(AuxEntries(ids, os, primary, i))
  {
    if primary < i {
      var servers := Objects(AuxEntries(ids, os, primary, i));
      WriteRecordKeepsServers(start, os[primary].endpoint, os[primary].secret, servers, servers);
    }
  }

  /** The primary, once projected, has its fields written and adds no
      entry. */
  lemma StepOverPrimary(ids: nat -> string, os: seq<Outcome>, primary: nat, start: Options)
    requires primary < |os| && ProjectedBefore(os, primary + 1)
    ensures HasServerList(Snapshot(ids, os, primary, start, primary))
    ensures Step(ids, os[primary], primary, primary, Snapshot(ids, os, primary, start, primary))
      == Continue(Snapshot(ids, os, primary, start, primary + 1))
  {
    SnapshotServers(ids, os, primary, start, primary);
    assert AuxEntries(ids, os, primary, primary + 1) == AuxEntries(ids, os, primary, primary);
  }

  /** Any other projected record appends its entry. */
  lemma StepOverAuxiliary(ids: nat -> string, os: seq<Outcome>, primary: nat, start: Options, i: nat)
    requires i < |os| && i != primary && ProjectedBefore(os, i + 1)
    ensures HasServerList(Snapshot(ids, os, primary, start, i))
    ensures Step(ids, os[i], primary, i, Snapshot(ids, os, primary, start, i))
      == Continue(Snapshot(ids, os, primary, start, i + 1))
  {
    SnapshotServers(ids, os, primary, start, i);
    var s := Snapshot(ids, os, primary, start, i);
    var before := AuxEntries(ids, os, primary, i);
    var entry := AuxEntry(ids, os, i);
    assert AuxEntries(ids, os, primary, i + 1) == before + [entry];
    var after := Objects(before + [entry]);
    assert Step(ids, os[i], primary, i, s) == Continue(s[ServersKey := after]);
    if primary < i {
      WriteRecordKeepsServers(start, os[primary].endpoint, os[primary].secret, Objects(before), after);
    }
  }

  /** Before the first failure, one step of the walk moves from one
      snapshot to the next: if the walk from the next snapshot ends as the
      reference says, so does the walk from this one. */
  lemma WalkStep(ids: nat -> string, os: seq<Outcome>, primary: nat, start: Options, i: nat)
    requires i < FirstFailure(os, 0)
    requires ProjectedBefore(os, i + 1)
    requires HasServerList(Snapshot(ids, os, primary, start, i + 1))
    requires Walk(ids, os, primary, i + 1, Snapshot(ids, os, primary, start, i + 1)) == Expected(ids, os, primary, start)
    ensures ProjectedBefore(os, i)
    ensures HasServerList(Snapshot(ids, os, primary, start, i))
    ensures Walk(ids, os, primary, i, Snapshot(ids, os, primary, start, i)) == Expected(ids, os, primary, start)
  {
    if i == primary {
      StepOverPrimary(ids, os, primary, start);
    } else {
      StepOverAuxiliary(ids, os, primary, start, i);
    }
  }

  /** From any snapshot up to the first failure, the walk ends where the
      reference says. */
  lemma {:induction false} WalkFromSnapshot(ids: nat -> string, os: seq<Outcome>, primary: nat, start: Options, i: nat)
    requires i <= FirstFailure(os, 0)
    ensures ProjectedBefore(os, i)
    ensures HasServerList(Snapshot(ids, os, primary, start, i))
    ensures Walk(ids, os, primary, i, Snapshot(ids, os, primary, start, i)) == Expected(ids, os, primary, start)
    decreases |os| - i
  {
    if i < FirstFailure(os, 0) {
      WalkFromSnapshot(ids, os, primary, start, i + 1);
      WalkStep(ids, os, primary, start, i);
    } else if i < |os| {
      WalkHaltsAtFailure(ids, os, primary, start, i);
    } else {
      WalkAtEnd(ids, os, primary, start);
    }
  }

  /** When every record projects, the walk ends with the last snapshot. */
  lemma WalkAtEnd(ids: nat -> string, os: seq<Outcome>, primary: nat, start: Options)
    requires FirstFailure(os, 0) == |os|
    ensures ProjectedBefore(os, |os|)
    ensures HasServerList(Snapshot(ids, os, primary, start, |os|))
    ensures Walk(ids, os, primary, |os|, Snapshot(ids, os, primary, start, |os|)) == Expected(ids, os, primary, start)
  {
    SnapshotServers(ids, os, primary, start, |os|);
  }

  /** At the first failing record the walk stops with the snapshot, plus the
      endpoint fields of a primary whose secret failed. */
  lemma WalkHaltsAtFailure(ids: nat -> string, os: seq<Outcome>, primary: nat, start: Options, i: nat)
    requires i == FirstFailure(os, 0) < |os|
    ensures ProjectedBefore(os, i)
    ensures HasServerList(Snapshot(ids, os, primary, start, i))
    ensures Walk(ids, os, primary, i, Snapshot(ids, os, primary, start, i)) == Expected(ids, os, primary, start)
  {
    SnapshotServers(ids, os, primary, start, i);
    var s := Snapshot(ids, os, primary, start, i);
    var halted := if i == primary && os[i].SecretFailed? then WriteEndpoint(s, os[i].endpoint) else s;
    assert Step(ids, os[i], primary, i, s) == Halt(halted, os[i].Error());
  }

  /** The export is the reference, from the reset starting options. */
  lemma ExportIsExpected(api: UrlApi, ids: nat -> string, rpcList: seq<RpcRecord>, base: Options)
    requires |rpcList| > 0
    ensures ExportOnto(api, ids, rpcList, base)
      == Expected(ids, Outcomes(api, rpcList), PrimaryIndex(rpcList), base[ServersKey := Objects([])])
  {
    var os := Outcomes(api, rpcList);
    var start := base[ServersKey := Objects([])];
    var primary := PrimaryIndex(rpcList);
    assert Snapshot(ids, os, primary, start, 0) == start;
    WalkFromSnapshot(ids, os, primary, start, 0);
  }

  // ---------------------------------------------------------------------
  // Properties of the export

  /** Position in the input list of the `j`-th auxiliary entry. */
  function SourceIndex(primary: nat, j: nat): nat
  {
    if j < primary then j else j + 1
  }

  /** The entry list has one entry per record before `k` other than the
      primary. */
  lemma {:induction false} AuxEntriesLength(ids: nat -> string, os: seq<Outcome>, primary: nat, k: nat)
    requires ProjectedBefore(os, k)
    ensures |AuxEntries(ids, os, primary, k)| == if primary < k then k - 1 else k
  {
    if k > 0 {
      AuxEntriesLength(ids, os, primary, k - 1);
    }
  }

  /** The entry list holds the records before `k` other than the primary,
      in input order. */
  lemma {:induction false} AuxEntriesInOrder(ids: nat -> string, os: seq<Outcome>, primary: nat, k: nat, j: nat)
    requires ProjectedBefore(os, k)
    requires j < |AuxEntries(ids, os, primary, k)|
    ensures SourceIndex(primary, j) < k
    ensures AuxEntries(ids, os, primary, k)[j] == AuxEntry(ids, os, SourceIndex(primary, j))
  {
    AuxEntriesLength(ids, os, primary, k);
    AuxEntriesLength(ids, os, primary, k - 1);
    var prev := AuxEntries(ids, os, primary, k - 1);
    if j < |prev| {
      AuxEntriesInOrder(ids, os, primary, k - 1, j);
    }
  }

  /** An auxiliary entry has exactly the keys `rpcId`, `httpMethod` (always
      `POST`) and the six record fields. */
  lemma AuxEntryFields(ids: nat -> string, os: seq<Outcome>, j: nat)
    requires j < |os| && os[j].Projected?
    ensures var entry := AuxEntry(ids, os, j);
      && entry.Keys == {IdKey, MethodKey, AliasKey, ProtocolKey, HostKey, PortKey, InterfaceKey, SecretKey}
      && entry[IdKey] == Str(ids(j))
      && entry[MethodKey] == Str("POST")
      && ShowsRecord(entry, os[j].endpoint, os[j].secret)
  {
  }

  /** What one record contributes once its URL parses: the record's name,
      the protocol without its first `:`, host, port, the path without its
      first `/`, and the base64 of the percent-decoded password. */
  lemma RecordProjection(api: UrlApi, r: RpcRecord)
    requires api.parse(r.url).Some?
    ensures var url := api.parse(r.url).value;
      var o := RecordOutcome(api, r);
      && !o.Unparsable?
      && o.endpoint.alias == r.name
      && o.endpoint.protocol == RemoveFirst(url.protocol, ':')
      && o.endpoint.host == url.hostname
      && o.endpoint.port == url.port
      && o.endpoint.iface == RemoveFirst(url.pathname, '/')
      && (o.Projected? <==> ExportSecret(url.password).Success?)
      && (o.Projected? ==> Base64.Atob(o.secret) == PercentEncoding.Decode(url.password))
      && (url.password == "" ==> o == Projected(o.endpoint, ""))
  {
    EmptyPasswordEmptySecret();
  }

  /** The five endpoint fields hold `e`. */
  ghost predicate ShowsEndpoint(o: Options, e: Endpoint)
  {
    && AliasKey in o && o[AliasKey] == Str(e.alias)
    && ProtocolKey in o && o[ProtocolKey] == Str(e.protocol)
    && HostKey in o && o[HostKey] == Str(e.host)
    && PortKey in o && o[PortKey] == Str(e.port)
    && InterfaceKey in o && o[InterfaceKey] == Str(e.iface)
  }

  /** The five endpoint fields hold `e` and the secret field `secret`. */
  ghost predicate ShowsRecord(o: Options, e: Endpoint, secret: string)
  {
    ShowsEndpoint(o, e) && SecretKey in o && o[SecretKey] == Str(secret)
  }

  /** `key` is present in `o` exactly when in `base`, with the same value. */
  ghost predicate Kept(o: Options, base: Options, key: string)
  {
    (key in o <==> key in base) && (key in base ==> o[key] == base[key])
  }

  /** The index the walk stopped at, or the list length when it did not
      stop. */
  function StopIndex(r: Exported, n: nat): nat
  {
    if r.failure.Some? then r.failure.value.index else n
  }

  /** The export stops exactly at the first record that does not project,
      with that record's error; it runs to the end when every record
      projects. */
  lemma ExportStopsAtFirstFailure(api: UrlApi, ids: nat -> string, rpcList: seq<RpcRecord>, base: Options)
    requires |rpcList| > 0
    ensures var r := ExportOnto(api, ids, rpcList, base);
      var k := StopIndex(r, |rpcList|);
      && k <= |rpcList|
      && (r.failure.None? <==> forall j :: 0 <= j < |rpcList| ==> RecordOutcome(api, rpcList[j]).Projected?)
      && (forall j :: 0 <= j < k ==> RecordOutcome(api, rpcList[j]).Projected?)
      && (r.failure.Some? ==>
            k < |rpcList| && !RecordOutcome(api, rpcList[k]).Projected?
            && r.failure.value.error == RecordOutcome(api, rpcList[k]).Error())
  {
    ExportIsExpected(api, ids, rpcList, base);
  }

  /** The reference's server list is the entry list up to the first
      failure. */
  lemma ExpectedServers(ids: nat -> string, os: seq<Outcome>, primary: nat, start: Options)
    ensures ProjectedBefore(os, FirstFailure(os, 0))
    ensures HasServerList(Expected(ids, os, primary, start).options)
    ensures Expected(ids, os, primary, start).options[ServersKey].items == AuxEntries(ids, os, primary, FirstFailure(os, 0))
  {
    var k := FirstFailure(os, 0);
    var done := Snapshot(ids, os, primary, start, k);
    SnapshotServers(ids, os, primary, start, k);
    if k < |os| && k == primary && os[k].SecretFailed? {
      WriteEndpointFields(done, os[k].endpoint);
      KeysDistinct();
    }
  }

  /** The entries in `extendRpcServers` are those of the records before the
      stop, the primary left out, in input order: a failure keeps what was
      appended before it and appends nothing more. */
  lemma ExportServerList(api: UrlApi, ids: nat -> string, rpcList: seq<RpcRecord>, base: Options)
    requires |rpcList| > 0
    ensures var r := ExportOnto(api, ids, rpcList, base);
      var os := Outcomes(api, rpcList);
      var k := StopIndex(r, |rpcList|);
      && ProjectedBefore(os, k)
      && HasServerList(r.options)
      && r.options[ServersKey].items == AuxEntries(ids, os, PrimaryIndex(rpcList), k)
  {
    var os := Outcomes(api, rpcList);
    ExportIsExpected(api, ids, rpcList, base);
    ExpectedServers(ids, os, PrimaryIndex(rpcList), base[ServersKey := Objects([])]);
    assert StopIndex(ExportOnto(api, ids, rpcList, base), |rpcList|) == FirstFailure(os, 0);
  }

  /** A snapshot keeps every key the export does not write and adds no
      other. */
  lemma SnapshotKeys(ids: nat -> string, os: seq<Outcome>, primary: nat, start: Options, k: nat)
    requires ProjectedBefore(os, k)
    ensures forall key :: key !in WrittenKeys ==> Kept(Snapshot(ids, os, primary, start, k), start, key)
    ensures start.Keys <= Snapshot(ids, os, primary, start, k).Keys <= start.Keys + WrittenKeys
  {
  }

  /** The reference result keeps every key the export does not write and
      adds no other. */
  lemma ExpectedKeys(ids: nat -> string, os: seq<Outcome>, primary: nat, start: Options)
    ensures forall key :: key !in WrittenKeys ==> Kept(Expected(ids, os, primary, start).options, start, key)
    ensures start.Keys <= Expected(ids, os, primary, start).options.Keys <= start.Keys + WrittenKeys
  {
    SnapshotKeys(ids, os, primary, start, FirstFailure(os, 0));
  }

  /** Keys other than the endpoint fields, `secret` and `extendRpcServers`
      keep their values, `httpMethod` among them; no key is removed and no
      other key appears. */
  lemma ExportKeepsOtherKeys(api: UrlApi, ids: nat -> string, rpcList: seq<RpcRecord>, base: Options)
    requires |rpcList| > 0
    ensures var r := ExportOnto(api, ids, rpcList, base);
      && (forall key :: key !in WrittenKeys ==> Kept(r.options, base, key))
      && base.Keys <= r.options.Keys <= base.Keys + WrittenKeys
  {
    var os := Outcomes(api, rpcList);
    var start := base[ServersKey := Objects([])];
    ExportIsExpected(api, ids, rpcList, base);
    ExpectedKeys(ids, os, PrimaryIndex(rpcList), start);
  }

  /** A primary before the stop has all six fields in the reference. */
  lemma ExpectedPrimaryWritten(ids: nat -> string, os: seq<Outcome>, primary: nat, start: Options)
    requires primary < FirstFailure(os, 0)
    ensures os[primary].Projected?
    ensures ShowsRecord(Expected(ids, os, primary, start).options, os[primary].endpoint, os[primary].secret)
  {
    var k := FirstFailure(os, 0);
    var done := Snapshot(ids, os, primary, start, k);
    assert Expected(ids, os, primary, start).options == done;
  }

  /** Writing the endpoint fields shows them and keeps every other key. */
  lemma WriteEndpointFields(m: Options, e: Endpoint)
    ensures ShowsEndpoint(WriteEndpoint(m, e), e)
    ensures forall key :: key !in {AliasKey, ProtocolKey, HostKey, PortKey, InterfaceKey} ==> Kept(WriteEndpoint(m, e), m, key)
  {
    KeysDistinct();
  }

  /** Endpoint fields written over options whose server list was replaced
      show the endpoint and leave the secret as it was. */
  lemma WriteEndpointKeepsSecret(start: Options, servers: Value, e: Endpoint)
    ensures ShowsEndpoint(WriteEndpoint(start[ServersKey := servers], e), e)
    ensures Kept(WriteEndpoint(start[ServersKey := servers], e), start, SecretKey)
  {
    var m := start[ServersKey := servers];
    WriteEndpointFields(m, e);
    KeysDistinct();
    assert Kept(m, start, SecretKey);
  }

  /** A primary that stopped the walk on its secret has only its endpoint
      fields in the reference. */
  lemma ExpectedPrimaryPartial(ids: nat -> string, os: seq<Outcome>, primary: nat, start: Options)
    requires primary == FirstFailure(os, 0) < |os| && os[primary].SecretFailed?
    ensures ShowsEndpoint(Expected(ids, os, primary, start).options, os[primary].endpoint)
    ensures Kept(Expected(ids, os, primary, start).options, start, SecretKey)
  {
    var servers := Objects(AuxEntries(ids, os, primary, primary));
    var e := os[primary].endpoint;
    assert Snapshot(ids, os, primary, start, primary) == start[ServersKey := servers];
    assert Expected(ids, os, primary, start).options == WriteEndpoint(start[ServersKey := servers], e);
    WriteEndpointKeepsSecret(start, servers, e);
  }

  /** A primary the walk never wrote leaves the starting fields in the
      reference. */
  lemma ExpectedPrimaryUntouched(ids: nat -> string, os: seq<Outcome>, primary: nat, start: Options)
    requires var k := FirstFailure(os, 0); k < primary || (k == primary < |os| && os[primary].Unparsable?)
    ensures forall key :: key in WrittenKeys && key != ServersKey ==> Kept(Expected(ids, os, primary, start).options, start, key)
  {
    var k := FirstFailure(os, 0);
    var done := Snapshot(ids, os, primary, start, k);
    assert done == start[ServersKey := Objects(AuxEntries(ids, os, primary, k))];
    assert Expected(ids, os, primary, start).options == done;
  }

  /** Without an options object the export writes onto the defaults: every
      key it does not write keeps its default value. */
  lemma ExportDefaults(api: UrlApi, ids: nat -> string, rpcList: seq<RpcRecord>)
    requires |rpcList| > 0
    ensures var r := ExportRpc2AriaNg(api, ids, rpcList, None).value;
      forall key :: key !in WrittenKeys ==> Kept(r.options, DefaultOptions, key)
  {
    ExportKeepsOtherKeys(api, ids, rpcList, DefaultOptions);
  }

  /** The primary's fields: all six written when it is before the stop;
      only the five endpoint fields when the walk stopped at it on its
      secret; none otherwise. */
  lemma ExportPrimaryFields(api: UrlApi, ids: nat -> string, rpcList: seq<RpcRecord>, base: Options)
    requires |rpcList| > 0
    ensures var r := ExportOnto(api, ids, rpcList, base);
      var p := PrimaryIndex(rpcList);
      var k := StopIndex(r, |rpcList|);
      var o := RecordOutcome(api, rpcList[p]);
      && (p < k ==> o.Projected? && ShowsRecord(r.options, o.endpoint, o.secret))
      && (p == k && o.SecretFailed? ==> ShowsEndpoint(r.options, o.endpoint) && Kept(r.options, base, SecretKey))
      && (k < p || (p == k && o.Unparsable?) ==>
            forall key :: key in WrittenKeys && key != ServersKey ==> Kept(r.options, base, key))
  {
    var os := Outcomes(api, rpcList);
    var start := base[ServersKey := Objects([])];
    ExportIsExpected(api, ids, rpcList, base);
    var p := PrimaryIndex(rpcList);
    var k := FirstFailure(os, 0);
    assert StopIndex(ExportOnto(api, ids, rpcList, base), |rpcList|) == k;
    if p < k {
      ExpectedPrimaryWritten(ids, os, p, start);
    } else if p == k && os[p].SecretFailed? {
      ExpectedPrimaryPartial(ids, os, p, start);
    } else if k < p || (p == k && os[p].Unparsable?) {
      ExpectedPrimaryUntouched(ids, os, p, start);
    }
  }

  /** When every record projects: no failure, `n - 1` entries for the
      non-primary records in input order, and the primary's six fields on
      the options. */
  lemma ExportSucceeds(api: UrlApi, ids: nat -> string, rpcList: seq<RpcRecord>, base: Options)
    requires |rpcList| > 0
    requires forall j :: 0 <= j < |rpcList| ==> RecordOutcome(api, rpcList[j]).Projected?
    ensures var r := ExportOnto(api, ids, rpcList, base);
      var os := Outcomes(api, rpcList);
      var p := PrimaryIndex(rpcList);
      && r.failure.None?
      && HasServerList(r.options)
      && |r.options[ServersKey].items| == |rpcList| - 1
      && (forall j :: 0 <= j < |rpcList| - 1 ==>
            SourceIndex(p, j) < |rpcList| &&
            r.options[ServersKey].items[j] == AuxEntry(ids, os, SourceIndex(p, j)))
      && ShowsRecord(r.options, os[p].endpoint, os[p].secret)
  {
    var os := Outcomes(api, rpcList);
    var p := PrimaryIndex(rpcList);
    ExportStopsAtFirstFailure(api, ids, rpcList, base);
    ExportServerList(api, ids, rpcList, base);
    ExportPrimaryFields(api, ids, rpcList, base);
    AuxEntriesLength(ids, os, p, |rpcList|);
    forall j | 0 <= j < |rpcList| - 1 {
      AuxEntriesInOrder(ids, os, p, |rpcList|, j);
    }
  }
}
