/**
  Host and renderer together: the messages a host step emits are delivered in
  order to the panel, and the panel's state is read afterwards.
 */
module UpdateFlow {
  import opened Wrappers
  import opened UpdateApi
  import opened UpdateHost
  import opened UpdateManager

  /** Delivers the emitted messages of `steps` to the panel, in order; updater calls do not reach it. */
  function DeliverAll(s: UiState, steps: seq<Step>): UiState
    decreases |steps|
  {
    if |steps| == 0 then s
    else
      var next := if steps[0].Emit? then Receive(s, steps[0].message) else s;
      DeliverAll(next, steps[1..])
  }

  lemma {:induction false} DeliverAllAppend(s: UiState, a: seq<Step>, b: seq<Step>)
    ensures DeliverAll(s, a + b) == DeliverAll(DeliverAll(s, a), b)
    decreases |a|
  {
    if |a| == 0 {
      assert a + b == b;
    } else {
      assert (a + b)[1..] == a[1..] + b;
      var next := if a[0].Emit? then Receive(s, a[0].message) else s;
      DeliverAllAppend(next, a[1..], b);
    }
  }

  lemma DeliverOne(s: UiState, m: Message)
    ensures DeliverAll(s, [Emit(m)]) == Receive(s, m)
  {
  }

  lemma DeliverTwo(s: UiState, m1: Message, m2: Message)
    ensures DeliverAll(s, [Emit(m1), Emit(m2)]) == Receive(Receive(s, m1), m2)
  {
    assert [Emit(m1), Emit(m2)][1..] == [Emit(m2)];
    DeliverOne(Receive(s, m1), m2);
  }

  /** Steps that emit nothing leave the panel as it was. */
  lemma {:induction false} DeliverCallsOnly(s: UiState, steps: seq<Step>)
    requires forall i :: 0 <= i < |steps| ==> steps[i].Call?
    ensures DeliverAll(s, steps) == s
    decreases |steps|
  {
    if |steps| > 0 {
      DeliverCallsOnly(s, steps[1..]);
    }
  }

  /** The update offered by the updater reaches the panel field for field, and the download button appears. */
  lemma AvailableInfoReachesPanel(h: Host, s: UiState, info: UpdateInfo)
    requires h.hasWindow
    ensures var t := DeliverAll(s, React(h, UpdateAvailable(Some(info))));
      && t.offered == Some(info)
      && t.status == AvailableText
      && CanDownload(t)
      && t.downloaded == s.downloaded && t.checking == s.checking
  {
    var status := StatusText(EventStatusText(h, UpdateAvailable(Some(info))));
    assert React(h, UpdateAvailable(Some(info))) == [Emit(status), Emit(Available(Some(info)))];
    DeliverTwo(s, status, Available(Some(info)));
  }

  /** A finished download reaches the panel as the raised flag and the install button. */
  lemma DownloadedReachesPanel(h: Host, s: UiState, info: Option<UpdateInfo>)
    requires h.hasWindow
    ensures var t := DeliverAll(s, React(h, UpdateDownloaded(info)));
      && t.downloaded
      && CanInstall(t)
      && t.status == DownloadedText
      && t.offered == s.offered
  {
    var status := StatusText(EventStatusText(h, UpdateDownloaded(info)));
    assert React(h, UpdateDownloaded(info)) == [Emit(status), Emit(Downloaded(info))];
    DeliverTwo(s, status, Downloaded(info));
  }

  /** A download-progress event shows up on the panel as a status from which the four numbers can be read back. */
  lemma ProgressReachesPanel(h: Host, s: UiState, p: Progress)
    requires h.hasWindow
    ensures var t := DeliverAll(s, React(h, DownloadProgress(p)));
      && t == s.(status := ProgressText(p))
      && ParseProgressText(t.status) == Some(p)
  {
    assert React(h, DownloadProgress(p)) == [Emit(StatusText(ProgressText(p)))];
    DeliverOne(s, StatusText(ProgressText(p)));
    ProgressTextRoundTrip(p);
  }

  /** Without a window, no updater event changes the panel. */
  lemma NoWindowNoChange(h: Host, s: UiState, ev: UpdaterEvent)
    requires !h.hasWindow
    ensures DeliverAll(s, React(h, ev)) == s
  {
  }

  /** The panel after a whole check: begin, the host's messages, then the reply. */
  function CheckRound(h: Host, o: CheckOutcome, s: UiState): UiState {
    var handled := HandleCheckForUpdates(h, o);
    FinishCheck(DeliverAll(BeginCheck(s), handled.steps), handled.reply)
  }

  /**
    A check ends with the button enabled and never with the panel's own error
    text: the host answers every check, and a failure arrives as its verdict.
   */
  lemma CheckRoundOutcome(h: Host, o: CheckOutcome, s: UiState)
    ensures !CheckRound(h, o, s).checking
    ensures h.updater.Some? && h.hasWindow ==> CheckRound(h, o, s).status == CheckVerdictText(o)
    ensures h.updater.None? && h.hasWindow ==> CheckRound(h, o, s).status == NotInitializedText(h)
    ensures !h.hasWindow ==> CheckRound(h, o, s) == s.(checking := false)
    ensures CheckRound(h, o, s).offered == s.offered && CheckRound(h, o, s).downloaded == s.downloaded
  {
    var b := BeginCheck(s);
    if h.updater.Some? {
      var a, c := SendStatus(h, InvokedText), SendStatus(h, CheckVerdictText(o));
      DeliverAllAppend(b, a + [Call(CheckCall)], c);
      DeliverAllAppend(b, a, [Call(CheckCall)]);
      DeliverCallsOnly(DeliverAll(b, a), [Call(CheckCall)]);
      if h.hasWindow {
        DeliverOne(b, StatusText(InvokedText));
        DeliverOne(DeliverAll(b, a), StatusText(CheckVerdictText(o)));
      }
    } else if h.hasWindow {
      DeliverOne(b, StatusText(NotInitializedText(h)));
    }
  }

  /** The panel after a download request: the host's messages (none), then the reply. */
  function DownloadRound(h: Host, o: DownloadOutcome, s: UiState): UiState {
    var handled := HandleDownloadUpdate(h, o);
    FinishDownload(DeliverAll(s, handled.steps), handled.reply)
  }

  /**
    Because the host swallows a failed download, the panel shows
    "Downloading update..." after every download request, failed or not,
    and its own download error text never appears.
   */
  lemma DownloadRoundOutcome(h: Host, o: DownloadOutcome, s: UiState)
    ensures DownloadRound(h, o, s) == s.(status := DownloadingText)
    ensures DownloadRound(h, o, s).status != DownloadErrorText
  {
  }

  /**
    An install request sends the panel nothing, so the panel stays as it was;
    the host quits to install exactly when it has an updater.
   */
  lemma InstallRoundOutcome(h: Host, s: UiState)
    ensures DeliverAll(s, HandleInstallUpdate(h).steps) == s
    ensures HandleInstallUpdate(h).reply == Resolved
    ensures Calls(HandleInstallUpdate(h).steps) == (if h.updater.Some? then [QuitAndInstallCall] else [])
  {
    DeliverCallsOnly(s, HandleInstallUpdate(h).steps);
  }
}
