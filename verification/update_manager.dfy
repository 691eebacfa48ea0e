/**
  The renderer's update panel: its state record, how each incoming message and
  each settled request changes it, the version shown, and which buttons it offers.
  Every callback runs as one atomic step.
 */
module UpdateManager {
  import opened Wrappers
  import opened UpdateApi

  datatype UiState = UiState(
    status: string,
    offered: Option<UpdateInfo>,
    downloaded: bool,
    checking: bool,
    appVersion: string,
    electronVersion: string)

  /** The state the panel starts from. */
  const Initial := UiState("", None, false, false, "", "")

  const AvailableText := "Update available!"
  const DownloadedText := "Update downloaded and ready to install!"
  const CheckErrorText := "Error checking for updates"
  const DownloadingText := "Downloading update..."
  const DownloadErrorText := "Error downloading update"

  /** The three listeners: "update-status", "update-available", "update-downloaded". */
  function Receive(s: UiState, m: Message): (t: UiState)
    ensures m.StatusText? ==> t == s.(status := m.text)
    ensures m.Available? ==> t.offered == m.info && t.status == AvailableText
    ensures m.Downloaded? ==> t.downloaded && t.status == DownloadedText
    ensures !m.Available? ==> t.offered == s.offered
    ensures !m.Downloaded? ==> t.downloaded == s.downloaded
    ensures t.checking == s.checking && t.appVersion == s.appVersion && t.electronVersion == s.electronVersion
  {
    match m
    case StatusText(text) => s.(status := text)
    case Available(info) => s.(offered := info, status := AvailableText)
    case Downloaded(_) => s.(downloaded := true, status := DownloadedText)
  }

  // ---------------------------------------------------------------- versions

  /** JavaScript truthiness of an optional string: present and non-empty. */
  predicate Truthy(v: Option<string>) {
    v.Some? && v.value != ""
  }

  /** `__APP_VERSION__` if the build defined it, else ''. */
  function BuildFallback(build: Option<string>): string {
    build.GetOr("")
  }

  /**
    The version the panel shows. When the app and runtime versions are the
    same non-empty string the app version is taken for a runtime one, and the
    build constant wins if defined; otherwise the app version wins if non-empty.
   */
  function SelectAppVersion(app: Option<string>, runtime: Option<string>, build: Option<string>): (v: string)
    ensures Truthy(app) && app != runtime ==> v == app.value
    ensures Truthy(app) && app == runtime ==> v == build.GetOr(app.value)
    ensures !Truthy(app) ==> v == BuildFallback(build)
  {
    if Truthy(app) && Truthy(runtime) && app.value == runtime.value then
      if build.Some? then build.value else app.value
    else if Truthy(app) then app.value
    else BuildFallback(build)
  }

  /** The shown version is one of the candidates, and is empty only when no candidate has text. */
  lemma SelectedVersionIsACandidate(app: Option<string>, runtime: Option<string>, build: Option<string>)
    ensures var v := SelectAppVersion(app, runtime, build);
      && (v == "" || (app.Some? && v == app.value) || (build.Some? && v == build.value))
      && (v == "" ==> !Truthy(app) || build == Some(""))
  {
  }

  /** How fetching the two versions went: both answered, or the first or the second query threw. */
  datatype VersionFetch =
    | Fetched(runtime: Option<string>, app: Option<string>)
    | RuntimeQueryThrew
    | AppQueryThrew(runtime: Option<string>)

  /** The version-fetch block: sets the runtime and app versions, falling back to the build constant if a query throws. */
  function LoadVersions(s: UiState, fetch: VersionFetch, build: Option<string>): (t: UiState)
    ensures !fetch.Fetched? ==> t.appVersion == BuildFallback(build)
    ensures fetch.Fetched? ==> t.appVersion == SelectAppVersion(fetch.app, fetch.runtime, build)
    ensures fetch.RuntimeQueryThrew? ==> t.electronVersion == s.electronVersion
    ensures !fetch.RuntimeQueryThrew? ==> t.electronVersion == fetch.runtime.GetOr("")
    ensures t.status == s.status && t.offered == s.offered && t.downloaded == s.downloaded && t.checking == s.checking
  {
    match fetch
    case Fetched(runtime, app) =>
      s.(electronVersion := runtime.GetOr(""), appVersion := SelectAppVersion(app, runtime, build))
    case RuntimeQueryThrew =>
      s.(appVersion := BuildFallback(build))
    case AppQueryThrew(runtime) =>
      s.(electronVersion := runtime.GetOr(""), appVersion := BuildFallback(build))
  }

  // ---------------------------------------------------------------- actions

  /** `checkForUpdates` up to its `await`: the flag goes up. */
  function BeginCheck(s: UiState): (t: UiState)
    ensures t.checking
    ensures t.(checking := s.checking) == s
  {
    s.(checking := true)
  }

  /** `checkForUpdates` after its `await`: the flag comes down whatever the outcome; a rejection shows an error. */
  function FinishCheck(s: UiState, reply: Reply): (t: UiState)
    ensures !t.checking
    ensures reply.Rejected? ==> t.status == CheckErrorText
    ensures reply.Resolved? ==> t.status == s.status
    ensures t.(checking := s.checking, status := s.status) == s
  {
    match reply
    case Resolved => s.(checking := false)
    case Rejected(_) => s.(checking := false, status := CheckErrorText)
  }

  /** `downloadUpdate` after its `await`: success and failure each have their own status. */
  function FinishDownload(s: UiState, reply: Reply): (t: UiState)
    ensures reply.Resolved? ==> t.status == DownloadingText
    ensures reply.Rejected? ==> t.status == DownloadErrorText
    ensures t.(status := s.status) == s
  {
    match reply
    case Resolved => s.(status := DownloadingText)
    case Rejected(_) => s.(status := DownloadErrorText)
  }

  /** The renderer's calls across the bridge. */
  datatype BridgeCall =
    | Listen(channel: string)
    | QueryRuntimeVersion
    | QueryAppVersion
    | InvokeCheck
    | InvokeDownload
    | InvokeInstall

  /** One optional version query on the bridge, called as `query?.()`: absent (no call is made), answered, or thrown. */
  datatype Query = Missing | Answers(answer: Option<string>) | Throws

  /** What `window.electron` is to the page: undefined, or a bridge with or without each version query. */
  datatype Bridge = NoBridge | Bridge(runtimeQuery: Query, appQuery: Query)

  /** The bridge the preload script exposes: the channels and invocations, but neither version query. */
  const DeployedBridge := Bridge(Missing, Missing)

  /** The runtime-version query as the page reaches it; without a bridge, `?.` finds nothing to call. */
  function RuntimeQuery(b: Bridge): Query {
    if b.NoBridge? then Missing else b.runtimeQuery
  }

  function AppQuery(b: Bridge): Query {
    if b.NoBridge? then Missing else b.appQuery
  }

  /** What an awaited query yields when it does not throw: `undefined` for an absent one. */
  function Answer(q: Query): Option<string> {
    if q.Answers? then q.answer else None
  }

  /** How the version-fetch block goes through a bridge: the first query that throws ends it. */
  function FetchThrough(b: Bridge): (f: VersionFetch)
    ensures f.RuntimeQueryThrew? <==> RuntimeQuery(b).Throws?
    ensures f.AppQueryThrew? <==> !RuntimeQuery(b).Throws? && AppQuery(b).Throws?
    ensures !f.RuntimeQueryThrew? ==> f.runtime == Answer(RuntimeQuery(b))
    ensures f.Fetched? ==> f.app == Answer(AppQuery(b))
  {
    var rq, aq := RuntimeQuery(b), AppQuery(b);
    if rq.Throws? then RuntimeQueryThrew
    else if aq.Throws? then AppQueryThrew(Answer(rq))
    else Fetched(Answer(rq), Answer(aq))
  }

  /** The version queries actually made: an absent one is skipped, and a throw ends the block. */
  function FetchCalls(b: Bridge): seq<BridgeCall> {
    var rq, aq := RuntimeQuery(b), AppQuery(b);
    (if rq.Missing? then [] else [QueryRuntimeVersion])
      + (if rq.Throws? || aq.Missing? then [] else [QueryAppVersion])
  }

  /** What attaching the panel does: the state after the version fetch with the first check in flight, and the calls made. */
  datatype Mounted = Mounted(state: UiState, calls: seq<BridgeCall>)

  const Listeners := [Listen("update-status"), Listen("update-available"), Listen("update-downloaded")]

  /**
    The mount effect: subscribe to the three channels, fetch the versions, then
    start one check in the `finally`. Every bridge call goes through `?.`, so
    without a bridge none is made, though the check still raises its flag.
   */
  function Mount(s: UiState, bridge: Bridge, build: Option<string>): (r: Mounted)
    ensures r.state.checking
    ensures bridge.NoBridge? ==> r.calls == []
    ensures bridge.Bridge? ==> |r.calls| >= 4 && r.calls[..3] == Listeners
    ensures bridge.Bridge? ==> r.calls[|r.calls| - 1] == InvokeCheck
    ensures forall i :: 0 <= i < |r.calls| - 1 ==> r.calls[i] != InvokeCheck
    ensures forall i :: 3 <= i < |r.calls| - 1 ==> r.calls[i] == QueryRuntimeVersion || r.calls[i] == QueryAppVersion
    ensures bridge.Bridge? ==>
      |r.calls| == 4 + (if QueryRuntimeVersion in r.calls then 1 else 0) + (if QueryAppVersion in r.calls then 1 else 0)
    ensures QueryRuntimeVersion in r.calls ==> |r.calls| > 3 && r.calls[3] == QueryRuntimeVersion
    ensures QueryRuntimeVersion in r.calls <==> bridge.Bridge? && !bridge.runtimeQuery.Missing?
    ensures QueryAppVersion in r.calls <==> bridge.Bridge? && !bridge.runtimeQuery.Throws? && !bridge.appQuery.Missing?
    ensures RuntimeQuery(bridge).Throws? ==>
      r.state.appVersion == BuildFallback(build) && r.state.electronVersion == s.electronVersion
    ensures !RuntimeQuery(bridge).Throws? ==> r.state.electronVersion == Answer(RuntimeQuery(bridge)).GetOr("")
    ensures !RuntimeQuery(bridge).Throws? && AppQuery(bridge).Throws? ==> r.state.appVersion == BuildFallback(build)
    ensures !RuntimeQuery(bridge).Throws? && !AppQuery(bridge).Throws? ==>
      r.state.appVersion == SelectAppVersion(Answer(AppQuery(bridge)), Answer(RuntimeQuery(bridge)), build)
    ensures r.state.status == s.status && r.state.offered == s.offered && r.state.downloaded == s.downloaded
  {
    var calls := if bridge.NoBridge? then [] else Listeners + FetchCalls(bridge) + [InvokeCheck];
    Mounted(BeginCheck(LoadVersions(s, FetchThrough(bridge), build)), calls)
  }

  /** On the deployed bridge the panel subscribes and checks, makes no version query, and shows the build constant. */
  lemma DeployedBridgeMount(s: UiState, build: Option<string>)
    ensures Mount(s, DeployedBridge, build).calls == Listeners + [InvokeCheck]
    ensures Mount(s, DeployedBridge, build).state.appVersion == BuildFallback(build)
    ensures Mount(s, DeployedBridge, build).state.electronVersion == ""
  {
  }

  /** How many times `c` occurs in `calls`. */
  function CountCalls(calls: seq<BridgeCall>, c: BridgeCall): nat {
    if |calls| == 0 then 0 else (if calls[0] == c then 1 else 0) + CountCalls(calls[1..], c)
  }

  lemma {:induction false} CountCallsAppend(a: seq<BridgeCall>, b: seq<BridgeCall>, c: BridgeCall)
    ensures CountCalls(a + b, c) == CountCalls(a, c) + CountCalls(b, c)
    decreases |a|
  {
    if |a| == 0 {
      assert a + b == b;
    } else {
      assert (a + b)[1..] == a[1..] + b;
      CountCallsAppend(a[1..], b, c);
    }
  }

  /** With a bridge the first check is started exactly once, whichever version query failed or was absent; without one, never. */
  lemma MountChecksOnce(s: UiState, bridge: Bridge, build: Option<string>)
    ensures CountCalls(Mount(s, bridge, build).calls, InvokeCheck) == (if bridge.Bridge? then 1 else 0)
  {
    if bridge.Bridge? {
      var f := FetchCalls(bridge);
      CountCallsAppend(Listeners, f, InvokeCheck);
      CountCallsAppend(Listeners + f, [InvokeCheck], InvokeCheck);
      assert CountCalls(Listeners, InvokeCheck) == 0;
      assert CountCalls(f, InvokeCheck) == 0 by {
        var rq := RuntimeQuery(bridge);
        var first: seq<BridgeCall> := if rq.Missing? then [] else [QueryRuntimeVersion];
        var second: seq<BridgeCall> := if rq.Throws? || AppQuery(bridge).Missing? then [] else [QueryAppVersion];
        assert f == first + second;
        CountCallsAppend(first, second, InvokeCheck);
        assert CountCalls(first, InvokeCheck) == 0;
        assert CountCalls(second, InvokeCheck) == 0;
      }
    }
  }

  datatype UserAction = ClickCheck | ClickDownload | ClickInstall

  /** Download is offered only with an update on offer. */
  predicate CanDownload(s: UiState) {
    s.offered.Some?
  }

  /** Install is offered only once the update has been downloaded. */
  predicate CanInstall(s: UiState) {
    s.downloaded
  }

  /** The check button is disabled while a check is in flight. */
  predicate CanCheck(s: UiState) {
    !s.checking
  }

  predicate Offers(s: UiState, a: UserAction) {
    match a
    case ClickCheck => CanCheck(s)
    case ClickDownload => CanDownload(s)
    case ClickInstall => CanInstall(s)
  }

  /** What a click does to the panel: a check raises its flag; download and install change nothing until their reply. */
  function AfterClick(s: UiState, a: UserAction): (t: UiState)
    ensures !Offers(s, a) ==> t == s
    ensures Offers(s, a) && a == ClickCheck ==> t == BeginCheck(s)
    ensures a != ClickCheck ==> t == s
  {
    if Offers(s, a) && a == ClickCheck then BeginCheck(s) else s
  }

  /**
    A click: the state right after and the call it makes, or nothing when the
    button is not there or disabled. The call goes through `?.`, so without a
    bridge none is made.
   */
  function Click(s: UiState, a: UserAction, bridge: Bridge): (r: (UiState, seq<BridgeCall>))
    ensures r.0 == AfterClick(s, a)
    ensures !Offers(s, a) || bridge.NoBridge? ==> r.1 == []
    ensures Offers(s, a) && bridge.Bridge? && a == ClickCheck ==> r.1 == [InvokeCheck]
    ensures Offers(s, a) && bridge.Bridge? && a == ClickDownload ==> r.1 == [InvokeDownload]
    ensures Offers(s, a) && bridge.Bridge? && a == ClickInstall ==> r.1 == [InvokeInstall]
  {
    if !Offers(s, a) || bridge.NoBridge? then (AfterClick(s, a), [])
    else
      match a
      case ClickCheck => (BeginCheck(s), [InvokeCheck])
      case ClickDownload => (s, [InvokeDownload])
      case ClickInstall => (s, [InvokeInstall])
  }

  // ---------------------------------------------------------------- runs

  /** Anything that can happen to the panel after it is attached. */
  datatype UiEvent =
    | Deliver(message: Message)
    | Press(action: UserAction)
    | CheckSettled(checkReply: Reply)
    | DownloadSettled(downloadReply: Reply)
    | VersionsLoaded(fetch: VersionFetch, build: Option<string>)

  function Step(s: UiState, e: UiEvent): UiState {
    match e
    case Deliver(m) => Receive(s, m)
    case Press(a) => AfterClick(s, a)
    case CheckSettled(reply) => FinishCheck(s, reply)
    case DownloadSettled(reply) => FinishDownload(s, reply)
    case VersionsLoaded(fetch, build) => LoadVersions(s, fetch, build)
  }

  function Run(s: UiState, events: seq<UiEvent>): UiState
    decreases |events|
  {
    if |events| == 0 then s else Run(Step(s, events[0]), events[1..])
  }

  predicate IsDownloadedMessage(e: UiEvent) {
    e.Deliver? && e.message.Downloaded?
  }

  /** Once set, the downloaded flag stays set: no step clears it. */
  lemma {:induction false} DownloadedStaysSet(s: UiState, events: seq<UiEvent>)
    requires s.downloaded
    ensures Run(s, events).downloaded
    ensures CanInstall(Run(s, events))
    decreases |events|
  {
    if |events| > 0 {
      DownloadedStaysSet(Step(s, events[0]), events[1..]);
    }
  }

  /** The downloaded flag is only ever raised by an "update-downloaded" message. */
  lemma {:induction false} DownloadedOnlyByMessage(s: UiState, events: seq<UiEvent>)
    requires !s.downloaded && Run(s, events).downloaded
    ensures exists i :: 0 <= i < |events| && IsDownloadedMessage(events[i])
    decreases |events|
  {
    if IsDownloadedMessage(events[0]) {
      assert IsDownloadedMessage(events[0]);
    } else {
      DownloadedOnlyByMessage(Step(s, events[0]), events[1..]);
      var i :| 0 <= i < |events[1..]| && IsDownloadedMessage(events[1..][i]);
      assert events[i + 1] == events[1..][i];
    }
  }

  predicate IsAvailableMessage(e: UiEvent) {
    e.Deliver? && e.message.Available?
  }

  /** The offered update only changes through an "update-available" message, and is kept exactly as received. */
  lemma {:induction false} OfferChangesOnlyByMessage(s: UiState, events: seq<UiEvent>)
    requires forall i :: 0 <= i < |events| ==> !IsAvailableMessage(events[i])
    ensures Run(s, events).offered == s.offered
    decreases |events|
  {
    if |events| > 0 {
      OfferChangesOnlyByMessage(Step(s, events[0]), events[1..]);
    }
  }

  /** A check that has settled leaves the check button enabled again, whatever the reply. */
  lemma CheckRoundEnablesCheck(s: UiState, reply: Reply)
    ensures !CanCheck(BeginCheck(s))
    ensures CanCheck(FinishCheck(BeginCheck(s), reply))
    ensures reply.Resolved? ==> FinishCheck(BeginCheck(s), reply) == s.(checking := false)
  {
  }
}
