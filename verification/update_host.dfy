/**
  The host side of the update flow: the auto-updater set-up, the mapping from
  updater events to messages for the window, and the four request handlers.
  Each handler is one atomic step; its output is the sequence of messages it
  sends to the window and calls it makes on the updater, in order. What the
  updater answers is an input (an oracle), not something the model computes.
 */
module UpdateHost {
  import opened Wrappers
  import opened Decimal
  import opened UpdateApi

  /** The `version` property of the parsed manifest: a string, or anything else (absent, null document, number, ...). */
  datatype VersionField = StringField(value: string) | NotAString

  /** What reading package.json gave: no such file, a read or parse failure, or a document. */
  datatype ManifestProbe = NoManifest | Unreadable | Parsed(version: VersionField)

  /** The settings `setupAutoUpdater` writes. */
  datatype UpdaterConfig = UpdaterConfig(autoDownload: bool, autoInstallOnAppQuit: bool, allowPrerelease: bool)

  datatype UpdaterCall = CheckCall | DownloadCall | QuitAndInstallCall

  /** One observable step of a handler. */
  datatype Step = Emit(message: Message) | Call(call: UpdaterCall)

  /** The host's state as the handlers read it. */
  datatype Host = Host(
    isPackaged: bool,
    nodeEnv: Option<string>,
    updater: Option<UpdaterConfig>,
    hasWindow: bool,
    manifest: ManifestProbe,
    runtimeVersion: string)

  /** The status texts among `steps`, in order. */
  function Statuses(steps: seq<Step>): (texts: seq<string>)
    ensures |texts| <= |steps|
  {
    if |steps| == 0 then []
    else
      var rest := Statuses(steps[1..]);
      if steps[0].Emit? && steps[0].message.StatusText? then [steps[0].message.text] + rest else rest
  }

  /** The updater calls among `steps`, in order. */
  function Calls(steps: seq<Step>): (calls: seq<UpdaterCall>)
    ensures |calls| <= |steps|
  {
    if |steps| == 0 then []
    else
      var rest := Calls(steps[1..]);
      if steps[0].Call? then [steps[0].call] + rest else rest
  }

  lemma {:induction false} StatusesAppend(a: seq<Step>, b: seq<Step>)
    ensures Statuses(a + b) == Statuses(a) + Statuses(b)
    decreases |a|
  {
    if |a| > 0 {
      assert (a + b)[1..] == a[1..] + b;
      StatusesAppend(a[1..], b);
    } else {
      assert a + b == b;
    }
  }

  lemma {:induction false} CallsAppend(a: seq<Step>, b: seq<Step>)
    ensures Calls(a + b) == Calls(a) + Calls(b)
    decreases |a|
  {
    if |a| > 0 {
      assert (a + b)[1..] == a[1..] + b;
      CallsAppend(a[1..], b);
    } else {
      assert a + b == b;
    }
  }

  // ---------------------------------------------------------------- version

  /**
    `getAppVersionString`: the manifest's version when the manifest was read and
    its `version` is a string; the runtime's version otherwise, failures included.
   */
  function ResolveAppVersion(manifest: ManifestProbe, runtimeVersion: string): (v: string)
    ensures manifest.Parsed? && manifest.version.StringField? ==> v == manifest.version.value
    ensures !(manifest.Parsed? && manifest.version.StringField?) ==> v == runtimeVersion
  {
    match manifest
    case Parsed(StringField(s)) => s
    case _ => runtimeVersion
  }

  /** The reported version comes from one of the two sources, and differs from the runtime's only when the manifest supplied it. */
  lemma ResolvedVersionSource(manifest: ManifestProbe, runtimeVersion: string)
    ensures var v := ResolveAppVersion(manifest, runtimeVersion);
      v != runtimeVersion ==> manifest == Parsed(StringField(v))
  {
  }

  /** The "app-version" request handler. */
  function HandleAppVersion(h: Host): (v: string)
    ensures h.manifest.Parsed? && h.manifest.version.StringField? ==> v == h.manifest.version.value
    ensures !(h.manifest.Parsed? && h.manifest.version.StringField?) ==> v == h.runtimeVersion
  {
    ResolveAppVersion(h.manifest, h.runtimeVersion)
  }

  // ---------------------------------------------------------------- set-up

  /** What loading the updater module leaves behind: the configured updater and the calls made right away. */
  datatype Startup = Startup(updater: Option<UpdaterConfig>, calls: seq<UpdaterCall>)

  /**
    The module-level initialisation. Only a packaged app asks for the updater
    module, and only a successful `import("electron-updater")` yields an
    updater (a rejected import is not handled and leaves none). The updater is
    configured not to download by itself; one check is started at once if the
    app is already ready when the module has loaded.
   */
  function InitUpdater(isPackaged: bool, imported: bool, readyWhenLoaded: bool): (r: Startup)
    ensures r.updater.Some? <==> isPackaged && imported
    ensures r.updater.Some? ==> !r.updater.value.autoDownload
    ensures r.updater.Some? ==> r.updater.value.autoInstallOnAppQuit && r.updater.value.allowPrerelease
    ensures r.calls == [] || r.calls == [CheckCall]
    ensures r.calls == [CheckCall] <==> isPackaged && imported && readyWhenLoaded
  {
    if !isPackaged || !imported then Startup(None, [])
    else
      var config := UpdaterConfig(autoDownload := false, autoInstallOnAppQuit := true, allowPrerelease := true);
      Startup(Some(config), if readyWhenLoaded then [CheckCall] else [])
  }

  // ---------------------------------------------------------------- status channel

  /** `sendStatusToWindow`: delivered on "update-status" when a window exists, dropped otherwise. */
  function SendStatus(h: Host, text: string): (steps: seq<Step>)
    ensures h.hasWindow ==> steps == [Emit(StatusText(text))]
    ensures !h.hasWindow ==> steps == []
  {
    if h.hasWindow then [Emit(StatusText(text))] else []
  }

  // ---------------------------------------------------------------- updater events

  /** The payload of a "download-progress" event; the percentage is kept whole. */
  datatype Progress = Progress(bytesPerSecond: nat, percent: nat, transferred: nat, total: nat)

  datatype UpdaterEvent =
    | CheckingForUpdate
    | UpdateAvailable(info: Option<UpdateInfo>)
    | UpdateNotAvailable(info: Option<UpdateInfo>)
    | UpdaterError(message: string)
    | DownloadProgress(progress: Progress)
    | UpdateDownloaded(info: Option<UpdateInfo>)

  const SpeedLabel := "Download speed: "
  const DownloadedLabel := " - Downloaded "
  const PercentLabel := "% ("
  const OfLabel := "/"
  const CloseLabel := ")"

  /** "Download speed: B - Downloaded P% (T/N)", the pieces appended in this order. */
  function ProgressText(p: Progress): string {
    SpeedLabel + NatToString(p.bytesPerSecond)
    + (DownloadedLabel + NatToString(p.percent)
    + (PercentLabel + NatToString(p.transferred)
    + (OfLabel + NatToString(p.total)
    + CloseLabel)))
  }

  /** Reads the literal `lit` followed by a number off the front of `s`. */
  function NumberAfter(lit: string, s: string): Option<Scan> {
    var r :- Expect(lit, s);
    ReadNumber(r)
  }

  lemma NumberAfterPrinted(lit: string, n: nat, t: string)
    requires |t| == 0 || !IsDigit(t[0])
    ensures NumberAfter(lit, lit + NatToString(n) + t) == Some(Scan(n, t))
  {
    assert lit + NatToString(n) + t == lit + (NatToString(n) + t);
    ExpectLiteral(lit, NatToString(n) + t);
    ReadNumberOfNatToString(n, t);
  }

  /** Reads the four numbers back out of a progress status text. */
  function ParseProgressText(text: string): Option<Progress> {
    var speed :- NumberAfter(SpeedLabel, text);
    var percent :- NumberAfter(DownloadedLabel, speed.rest);
    var transferred :- NumberAfter(PercentLabel, percent.rest);
    var total :- NumberAfter(OfLabel, transferred.rest);
    if total.rest == CloseLabel then Some(Progress(speed.value, percent.value, transferred.value, total.value)) else None
  }

  /** The progress text holds bytesPerSecond, percent, transferred and total, in that order, and loses none of them. */
  lemma ProgressTextRoundTrip(p: Progress)
    ensures ParseProgressText(ProgressText(p)) == Some(p)
  {
    var s3 := OfLabel + NatToString(p.total) + CloseLabel;
    var s2 := PercentLabel + NatToString(p.transferred) + s3;
    var s1 := DownloadedLabel + NatToString(p.percent) + s2;
    NumberAfterPrinted(SpeedLabel, p.bytesPerSecond, s1);
    NumberAfterPrinted(DownloadedLabel, p.percent, s2);
    NumberAfterPrinted(PercentLabel, p.transferred, s3);
    NumberAfterPrinted(OfLabel, p.total, CloseLabel);
  }

  /** The status text the host sends for each updater event. */
  function EventStatusText(h: Host, ev: UpdaterEvent): string {
    var current := ResolveAppVersion(h.manifest, h.runtimeVersion);
    match ev
    case CheckingForUpdate => "Checking for update..."
    case UpdateAvailable(info) =>
      "Update available: " + (if info.Some? then info.value.version else "unknown") + " (current " + current + ")"
    case UpdateNotAvailable(_) => "Update not available. Current " + current
    case UpdaterError(message) => "Error in auto-updater: " + message
    case DownloadProgress(p) => ProgressText(p)
    case UpdateDownloaded(_) => "Update downloaded; will install on quit"
  }

  /** The event forwarded on its own channel after the status, for the two events that have one. */
  function ForwardedMessage(ev: UpdaterEvent): Option<Message> {
    match ev
    case UpdateAvailable(info) => Some(Available(info))
    case UpdateDownloaded(info) => Some(Downloaded(info))
    case _ => None
  }

  /** What one event listener does: the steps it took, and whether it then threw. */
  datatype Reaction = Reaction(steps: seq<Step>, threw: bool)

  /**
    The listeners exactly as registered: the status goes through the guarded
    `sendStatusToWindow`, but the forward on "update-available" and
    "update-downloaded" dereferences the window without a guard and throws
    when there is none.
   */
  function ReactAsWritten(h: Host, ev: UpdaterEvent): (r: Reaction)
    ensures r.threw <==> !h.hasWindow && ForwardedMessage(ev).Some?
    ensures !h.hasWindow ==> r.steps == []
    ensures Calls(r.steps) == []
  {
    var status := SendStatus(h, EventStatusText(h, ev));
    match ForwardedMessage(ev)
    case None => Reaction(status, false)
    case Some(m) => if h.hasWindow then Reaction(status + [Emit(m)], false) else Reaction(status, true)
  }

  /** With no window, an "update-available" event makes the listener throw instead of dropping the message. */
  lemma AvailableWithoutWindowThrows(h: Host, info: UpdateInfo)
    requires !h.hasWindow
    ensures ReactAsWritten(h, UpdateAvailable(Some(info))).threw
    ensures ReactAsWritten(h, UpdateDownloaded(Some(info))).threw
  {
  }

  /**
    The listeners with the forward guarded the way `sendStatusToWindow` is: one
    status for every event, then the payload on its own channel for the two
    events that have one; nothing at all without a window.
   */
  function React(h: Host, ev: UpdaterEvent): (steps: seq<Step>)
    ensures !h.hasWindow ==> steps == []
    ensures Calls(steps) == []
    ensures h.hasWindow ==> Statuses(steps) == [EventStatusText(h, ev)]
    ensures h.hasWindow ==> steps[0] == Emit(StatusText(EventStatusText(h, ev)))
    ensures h.hasWindow && ev.UpdateAvailable? ==> steps == [steps[0], Emit(Available(ev.info))]
    ensures h.hasWindow && ev.UpdateDownloaded? ==> steps == [steps[0], Emit(Downloaded(ev.info))]
    ensures h.hasWindow && !ev.UpdateAvailable? && !ev.UpdateDownloaded? ==> |steps| == 1
  {
    if !h.hasWindow then []
    else
      var status := SendStatus(h, EventStatusText(h, ev));
      match ForwardedMessage(ev)
      case None => status
      case Some(m) => status + [Emit(m)]
  }

  /** The guard changes nothing while a window exists, and never leaves a listener throwing. */
  lemma ReactMatchesCodeWithWindow(h: Host, ev: UpdaterEvent)
    ensures h.hasWindow ==> ReactAsWritten(h, ev) == Reaction(React(h, ev), false)
    ensures !ReactAsWritten(h, ev).threw ==> ReactAsWritten(h, ev).steps == React(h, ev)
  {
  }

  /** The "update-available" status names the offered version, or "unknown" without a payload. */
  lemma AvailableStatusNamesVersion(h: Host, info: Option<UpdateInfo>)
    ensures var text := EventStatusText(h, UpdateAvailable(info));
      var named := if info.Some? then info.value.version else "unknown";
      text == "Update available: " + named + " (current " + HandleAppVersion(h) + ")"
  {
  }

  // ---------------------------------------------------------------- request handlers

  /** What a request handler did and how its reply settled. */
  datatype Handled = Handled(steps: seq<Step>, reply: Reply)

  /** What the updater's `checkForUpdates()` settled with: a result (possibly empty) or a rejection, already stringified. */
  datatype CheckResult = CheckResult(updateInfo: Option<UpdateInfo>)
  datatype CheckOutcome = CheckReturned(result: Option<CheckResult>) | CheckThrew(error: string)

  function BoolText(b: bool): string {
    if b then "true" else "false"
  }

  function NotInitializedText(h: Host): string {
    "Updater not initialized. isPackaged=" + BoolText(h.isPackaged)
    + " NODE_ENV=" + h.nodeEnv.GetOr("undefined")
    + ". Build and install the app to enable updates."
  }

  const InvokedText := "Renderer invoked checkForUpdates()"

  /** The one status reporting how a check ended. */
  function CheckVerdictText(o: CheckOutcome): string {
    match o
    case CheckReturned(Some(CheckResult(Some(info)))) => "Checked. Latest: " + info.version
    case CheckReturned(_) => "Checked. No update info."
    case CheckThrew(e) => "Check failed: " + e
  }

  /** How a check ended, as a reader of the status channel can tell. */
  datatype CheckReport = Latest(version: string) | NoUpdateInfo | Failed(error: string)

  function ReportOf(o: CheckOutcome): CheckReport {
    match o
    case CheckReturned(Some(CheckResult(Some(info)))) => Latest(info.version)
    case CheckReturned(_) => NoUpdateInfo
    case CheckThrew(e) => Failed(e)
  }

  /** Recognises a check's verdict on the status channel. */
  function ClassifyCheckStatus(text: string): Option<CheckReport> {
    if "Checked. Latest: " <= text then Some(Latest(text[|"Checked. Latest: "|..]))
    else if text == "Checked. No update info." then Some(NoUpdateInfo)
    else if "Check failed: " <= text then Some(Failed(text[|"Check failed: "|..]))
    else None
  }

  /** The verdict text tells exactly how the check ended. */
  lemma CheckVerdictIsReadable(o: CheckOutcome)
    ensures ClassifyCheckStatus(CheckVerdictText(o)) == Some(ReportOf(o))
  {
    match o
    case CheckReturned(Some(CheckResult(Some(info)))) =>
      ExpectLiteral("Checked. Latest: ", info.version);
    case CheckReturned(_) =>
      assert !("Checked. Latest: " <= "Checked. No update info.") by {
        assert "Checked. No update info."[9] != "Checked. Latest: "[9];
      }
    case CheckThrew(e) =>
      var text := "Check failed: " + e;
      assert !("Checked. Latest: " <= text) by {
        assert text[5] != "Checked. Latest: "[5];
      }
      assert text != "Checked. No update info." by {
        assert text[5] != "Checked. No update info."[5];
      }
      ExpectLiteral("Check failed: ", e);
  }

  /**
    Each event's status says what happened: the not-available status names the
    resolved app version, the error status carries the updater's message whole,
    and the progress status gives back its four numbers.
   */
  lemma EventStatusIsReadable(h: Host, ev: UpdaterEvent)
    ensures var text := EventStatusText(h, ev);
      && (ev.CheckingForUpdate? ==> text == "Checking for update...")
      && (ev.UpdateNotAvailable? ==> Expect("Update not available. Current ", text) == Some(HandleAppVersion(h)))
      && (ev.UpdaterError? ==> Expect("Error in auto-updater: ", text) == Some(ev.message))
      && (ev.DownloadProgress? ==> ParseProgressText(text) == Some(ev.progress))
      && (ev.UpdateDownloaded? ==> text == "Update downloaded; will install on quit")
  {
    match ev
    case UpdateNotAvailable(_) =>
      ExpectLiteral("Update not available. Current ", HandleAppVersion(h));
    case UpdaterError(message) =>
      ExpectLiteral("Error in auto-updater: ", message);
    case DownloadProgress(p) =>
      ProgressTextRoundTrip(p);
    case _ =>
  }

  /** A text that does not start with 'C' is not a check verdict. */
  lemma NoVerdictWithoutC(text: string)
    requires |text| > 0 && text[0] != 'C'
    ensures ClassifyCheckStatus(text) == None
  {
    assert !("Checked. Latest: " <= text) by {
      assert text[0] != "Checked. Latest: "[0];
    }
    assert text != "Checked. No update info." by {
      assert text[0] != "Checked. No update info."[0];
    }
    assert !("Check failed: " <= text) by {
      assert text[0] != "Check failed: "[0];
    }
  }

  /** No updater event's status can be mistaken for the verdict of a check. */
  lemma EventStatusIsNoVerdict(h: Host, ev: UpdaterEvent)
    ensures ClassifyCheckStatus(EventStatusText(h, ev)) == None
  {
    var text := EventStatusText(h, ev);
    if ev.CheckingForUpdate? {
      assert !("Checked. Latest: " <= text) by {
        assert text[6] != "Checked. Latest: "[6];
      }
      assert text != "Checked. No update info." by {
        assert text[6] != "Checked. No update info."[6];
      }
      assert !("Check failed: " <= text) by {
        assert text[5] != "Check failed: "[5];
      }
    } else {
      assert text[0] != 'C';
      NoVerdictWithoutC(text);
    }
  }

  /** The status that opens a check is not itself a verdict. */
  lemma InvokedIsNoVerdict()
    ensures ClassifyCheckStatus(InvokedText) == None
  {
    assert !("Checked. Latest: " <= InvokedText) by {
      assert InvokedText[0] != "Checked. Latest: "[0];
    }
    assert !("Check failed: " <= InvokedText) by {
      assert InvokedText[0] != "Check failed: "[0];
    }
  }

  /**
    The "check-for-updates" handler. Without an updater it reports once and
    returns; with one it announces the request, calls the updater, then reports
    the verdict. The reply always resolves.
   */
  function HandleCheckForUpdates(h: Host, o: CheckOutcome): (r: Handled)
    ensures r.reply == Resolved
    ensures h.updater.None? ==> Calls(r.steps) == []
    ensures h.updater.None? ==> Statuses(r.steps) == (if h.hasWindow then [NotInitializedText(h)] else [])
    ensures h.updater.Some? ==> Calls(r.steps) == [CheckCall]
    ensures h.updater.Some? ==> r.steps == SendStatus(h, InvokedText) + [Call(CheckCall)] + SendStatus(h, CheckVerdictText(o))
  {
    if h.updater.None? then Handled(SendStatus(h, NotInitializedText(h)), Resolved)
    else
      var steps := SendStatus(h, InvokedText) + [Call(CheckCall)] + SendStatus(h, CheckVerdictText(o));
      CallsAppend(SendStatus(h, InvokedText), [Call(CheckCall)]);
      CallsAppend(SendStatus(h, InvokedText) + [Call(CheckCall)], SendStatus(h, CheckVerdictText(o)));
      Handled(steps, Resolved)
  }

  /** With a window, a check shows the request first and then exactly one verdict, which names the outcome. */
  lemma CheckReportsOneVerdict(h: Host, o: CheckOutcome)
    requires h.updater.Some? && h.hasWindow
    ensures var texts := Statuses(HandleCheckForUpdates(h, o).steps);
      && texts == [InvokedText, CheckVerdictText(o)]
      && ClassifyCheckStatus(texts[0]) == None
      && ClassifyCheckStatus(texts[1]) == Some(ReportOf(o))
  {
    var a, b := SendStatus(h, InvokedText), SendStatus(h, CheckVerdictText(o));
    StatusesAppend(a, [Call(CheckCall)]);
    StatusesAppend(a + [Call(CheckCall)], b);
    CheckVerdictIsReadable(o);
    InvokedIsNoVerdict();
  }

  /** The "Updater not initialized" report is not a verdict. */
  lemma NotInitializedIsNoVerdict(h: Host)
    ensures ClassifyCheckStatus(NotInitializedText(h)) == None
  {
    var text := NotInitializedText(h);
    assert !("Checked. Latest: " <= text) by {
      assert text[0] != "Checked. Latest: "[0];
    }
    assert text != "Checked. No update info." by {
      assert text[0] != "Checked. No update info."[0];
    }
    assert !("Check failed: " <= text) by {
      assert text[0] != "Check failed: "[0];
    }
  }

  datatype DownloadOutcome = DownloadDone | DownloadThrew(error: string)

  /** The "download-update" handler: a no-op without an updater; otherwise one download call, whose failure is swallowed. */
  function HandleDownloadUpdate(h: Host, o: DownloadOutcome): (r: Handled)
    ensures r.reply == Resolved
    ensures Statuses(r.steps) == []
    ensures h.updater.None? ==> r.steps == []
    ensures h.updater.Some? ==> Calls(r.steps) == [DownloadCall]
  {
    if h.updater.None? then Handled([], Resolved)
    else
      match o
      case DownloadDone => Handled([Call(DownloadCall)], Resolved)
      case DownloadThrew(_) => Handled([Call(DownloadCall)], Resolved)
  }

  /** A failed download is indistinguishable from a successful one to the renderer. */
  lemma DownloadFailureIsSilent(h: Host, e: string)
    ensures HandleDownloadUpdate(h, DownloadThrew(e)) == HandleDownloadUpdate(h, DownloadDone)
  {
  }

  /** The "install-update" handler: a no-op without an updater; otherwise quit-and-install, whatever has happened before. */
  function HandleInstallUpdate(h: Host): (r: Handled)
    ensures r.reply == Resolved
    ensures Statuses(r.steps) == []
    ensures h.updater.None? ==> r.steps == []
    ensures h.updater.Some? ==> r.steps == [Call(QuitAndInstallCall)]
    ensures Calls(r.steps) == (if h.updater.Some? then [QuitAndInstallCall] else [])
  {
    if h.updater.None? then Handled([], Resolved) else Handled([Call(QuitAndInstallCall)], Resolved)
  }

  /** A download is started only by the "download-update" request: no other handler, no event and no set-up calls it. */
  lemma OnlyDownloadRequestDownloads(h: Host, ev: UpdaterEvent, o: CheckOutcome, isPackaged: bool, imported: bool, ready: bool)
    ensures DownloadCall !in Calls(HandleCheckForUpdates(h, o).steps)
    ensures DownloadCall !in Calls(HandleInstallUpdate(h).steps)
    ensures DownloadCall !in Calls(React(h, ev))
    ensures DownloadCall !in InitUpdater(isPackaged, imported, ready).calls
    ensures InitUpdater(isPackaged, imported, ready).updater.Some? ==> !InitUpdater(isPackaged, imported, ready).updater.value.autoDownload
  {
  }

  /** Quit-and-install is called only by the "install-update" request: no other handler, no event and no set-up calls it. */
  lemma OnlyInstallRequestQuits(h: Host, ev: UpdaterEvent, c: CheckOutcome, d: DownloadOutcome, isPackaged: bool, imported: bool, ready: bool)
    ensures QuitAndInstallCall !in Calls(HandleCheckForUpdates(h, c).steps)
    ensures QuitAndInstallCall !in Calls(HandleDownloadUpdate(h, d).steps)
    ensures QuitAndInstallCall !in Calls(React(h, ev))
    ensures QuitAndInstallCall !in Calls(ReactAsWritten(h, ev).steps)
    ensures QuitAndInstallCall !in InitUpdater(isPackaged, imported, ready).calls
    ensures h.updater.Some? ==> QuitAndInstallCall in Calls(HandleInstallUpdate(h).steps)
  {
  }
}
