# Update flow of an Electron app, modelled in Dafny

This project models the update logic of a small Electron + React desktop
app. It has three parts:

- **Release version bump** (`scripts/version.js`). It reads `major.minor.patch`
  from the manifest and computes the next version for the bump kind named on
  the command line. It also builds the commit message and the `v<version>` tag.
- **Host-side update coordinator** (`electron/main.js`). This covers how the
  app version is resolved, the updater set-up, how each updater event maps to
  messages for the window, and the four request handlers `app-version`,
  `check-for-updates`, `download-update` and `install-update`. Each handler is a
  pure function of the host state and of what the updater answered. The
  updater is an oracle: its answer is an input. The handler's output is the
  ordered list of messages sent to the window and calls made on the updater.
- **Renderer update panel** (`src/components/UpdateManager.tsx`). The panel's
  state is a record. Each incoming message, version fetch and settled request
  is a transition on that record. The panel also has a version-selection rule
  and predicates for which buttons it offers.

`UpdateFlow` joins host and renderer. It feeds a host step's messages to the
panel in order, and proves what the user ends up seeing.

Modules and files:

| file | module | models |
|---|---|---|
| wrappers.dfy | `Wrappers` | `Option` (absent JavaScript values) and `Result` |
| decimal.dfy | `Decimal` | `String(n)`, `Number(s)` on digit strings, `split`, reading numbers back out of text |
| version_bump.dfy | `VersionBump` | scripts/version.js |
| update_api.dfy | `UpdateApi` | `UpdateInfo` from src/types/electron.d.ts; the three event channels; request replies |
| update_host.dfy | `UpdateHost` | electron/main.js |
| update_manager.dfy | `UpdateManager` | src/components/UpdateManager.tsx |
| update_flow.dfy | `UpdateFlow` | host messages delivered to the panel |

## Model

| member | source | states |
|---|---|---|
| `Decimal.Split` | scripts/version.js:20 | `split('.')` returns at least one piece, and no piece contains the separator |
| `Decimal.JoinSplit` | scripts/version.js:20 | splitting loses nothing: joining the pieces with the separator gives back the original string |
| `Decimal.SplitJoin` | scripts/version.js:20 | pieces without separators, joined and then split, come back unchanged. With `JoinSplit`, this makes `Split` the unique decomposition |
| `Decimal.ToNumberOfNatToString` | scripts/version.js:20 | `Number(String(n)) === n` for every natural number. JavaScript numbers are exact only below 2^53; see Left out |
| `VersionBump.ParseVersion` | scripts/version.js:20 | a version is read only from a string with at least three dot-separated pieces |
| `VersionBump.ParseFormat` | scripts/version.js:20 | parsing the text `M.m.p` returns (M, m, p) |
| `VersionBump.ParseIgnoresExtraPieces` | scripts/version.js:20 | pieces after the third never affect the parsed version, whatever they contain |
| `VersionBump.KindOf` | scripts/version.js:23-34 | "major" and "minor" select their case; every other name takes the patch/default case |
| `VersionBump.Bumped` | scripts/version.js:23-34 | the result is strictly greater than the input in (major, minor, patch) order. Major gives (M+1).0.0. Minor keeps the major and resets the patch. Patch and default keep major and minor |
| `VersionBump.NewVersionTextIsBumped` | scripts/version.js:24-33 | each template string of the switch prints exactly the bumped triple |
| `VersionBump.NewVersionTextMeaning` | scripts/version.js:24-33 | the new version text parses back to the bumped triple. That triple is greater than the old one, and the text has exactly three pieces |
| `VersionBump.CommandLineType` | scripts/version.js:56-61 | a missing or empty argument means "patch". Any other argument is accepted exactly when it is major, minor or patch, and is otherwise rejected as an invalid type |
| `VersionBump.UpdateVersion` | scripts/version.js:13-53 | a version that is not a string stops the run. Otherwise the run succeeds exactly when every piece its case reads is a number: major reads one piece, minor two, patch three. The new version is that case's template applied to what was read. It parses back to the bumped triple, and for a fully parsable version that is the bump of the parsed version. The tag is "v" followed by exactly the new version, and the commit message names it |
| `VersionBump.RunScript` | scripts/version.js:55-63 | an invalid bump type stops the script before any bump. With a valid type and a string version, the model refuses exactly when a piece that kind reads is not a number; the script instead writes `NaN` there (see Left out). Otherwise it writes that kind's template of the pieces read. A successful run tags "v" + new version |
| `VersionBump.RunScriptBumps` | scripts/version.js:17-34 | a successful run writes a three-piece version strictly greater than the triple it read, bumped by the chosen kind |
| `VersionBump.ParsedIsRead` | scripts/version.js:20 | for a fully parsable version, every kind can read its pieces, and what the destructuring reads is exactly the parsed triple |
| `VersionBump.ReadNonNumericPatchPiece` | scripts/version.js:20 | from pieces M, m and a non-numeric tail, major and minor can read what they need and patch cannot. What is read is (M, m, 0) |
| `VersionBump.NonNumericPatchPiece` | scripts/version.js:24-33 | a version such as a pre-release `M.m.3-beta` still gets a major bump to (M+1).0.0 and a minor bump to M.(m+1).0. The model refuses the patch bump, where the script writes `M.m.NaN` (see Left out) |
| `VersionBump.DefaultIsPatch` | scripts/version.js:56 | with no argument, the script performs a patch bump |
| `UpdateHost.ResolveAppVersion` | electron/main.js:12-24 | the result is the manifest's version only when the manifest was read and its `version` is a string. Otherwise, including read and parse failures, it is the runtime version. The function is total |
| `UpdateHost.ResolvedVersionSource` | electron/main.js:12-24 | a version different from the runtime's can only have come from the manifest's string `version` |
| `UpdateHost.HandleAppVersion` | electron/main.js:122-124 | the `app-version` request answers with the resolved version |
| `UpdateHost.InitUpdater` | electron/main.js:26-39 | an updater exists exactly when the app is packaged and the import of `electron-updater` succeeded. It is configured with `autoDownload` off. A check starts at load exactly when there is an updater and the app is already ready |
| `UpdateHost.OnlyDownloadRequestDownloads` | electron/main.js:72-74 | no handler other than `download-update` issues a download call, and neither do events or set-up, and auto-download is off |
| `UpdateHost.SendStatus` | electron/main.js:115-119 | a status is delivered on "update-status" when a window exists. Otherwise it is dropped and nothing else happens |
| `UpdateHost.ProgressTextRoundTrip` | electron/main.js:96-107 | the progress status holds bytesPerSecond, percent, transferred and total in that order, and all four can be read back |
| `UpdateHost.EventStatusIsReadable` | electron/main.js:77-111 | each event's status says what happened. The checking and downloaded statuses are their fixed texts. The not-available status is its prefix followed by exactly the resolved app version. The error status is its prefix followed by exactly the updater's message. The four progress numbers read back from the progress status |
| `UpdateHost.EventStatusIsNoVerdict` | electron/main.js:77-111 | no updater event's status, including "Checking for update...", can be taken for the verdict of a check |
| `UpdateHost.AvailableStatusNamesVersion` | electron/main.js:82-84 | the "update-available" status names the offered version, or "unknown" when the payload is absent, followed by the current app version |
| `UpdateHost.ReactAsWritten` | electron/main.js:76-112 | the listeners as registered make no updater calls. They throw exactly when there is no window and the event is forwarded on its own channel. Without a window nothing is sent before the throw, because the status was dropped |
| `UpdateHost.AvailableWithoutWindowThrows` | electron/main.js:81-86 | with no window, an "update-available" or "update-downloaded" event makes the listener throw |
| `UpdateHost.React` | electron/main.js:76-112 | each event yields exactly one status, and it comes first. Then, for available and downloaded, the payload is forwarded unchanged on the channel of that name. Without a window nothing is emitted, and there are never any updater calls |
| `UpdateHost.ReactMatchesCodeWithWindow` | electron/main.js:76-112 | while a window exists, the guarded listeners behave exactly as the listeners as written |
| `UpdateHost.HandleCheckForUpdates` | electron/main.js:125-144 | the reply always resolves. Without an updater, the handler emits one "Updater not initialized" status and makes no call. With an updater, it emits the invocation status, then one check call, then the verdict status |
| `UpdateHost.CheckVerdictIsReadable` | electron/main.js:135-143 | the verdict status is exactly one of "Checked. Latest: v", "Checked. No update info." and "Check failed: e", and it tells which way the check went |
| `UpdateHost.InvokedIsNoVerdict` | electron/main.js:133 | the opening "Renderer invoked checkForUpdates()" status cannot be mistaken for a verdict |
| `UpdateHost.NotInitializedIsNoVerdict` | electron/main.js:126-130 | the "Updater not initialized" report is not a check verdict |
| `UpdateHost.CheckReportsOneVerdict` | electron/main.js:132-143 | with an updater and a window, a check emits the invocation status first, then exactly one verdict naming the outcome |
| `UpdateHost.HandleDownloadUpdate` | electron/main.js:146-153 | the reply always resolves, and no status is emitted. Without an updater it does nothing; with one it makes one download call |
| `UpdateHost.DownloadFailureIsSilent` | electron/main.js:148-152 | a failed download is observably identical to a successful one |
| `UpdateHost.HandleInstallUpdate` | electron/main.js:155-158 | the reply always resolves and no status is sent. With an updater the only step is the quit-and-install call, whatever happened before. Without an updater there are no steps at all |
| `UpdateHost.OnlyInstallRequestQuits` | electron/main.js:155-158 | no handler other than `install-update` calls quit-and-install, and neither do events or set-up. With an updater, `install-update` always does |
| `UpdateManager.Receive` | src/components/UpdateManager.tsx:15-30 | a status replaces the text verbatim and touches nothing else. "update-available" stores the payload unchanged and shows 'Update available!'. "update-downloaded" raises the downloaded flag |
| `UpdateManager.SelectAppVersion` | src/components/UpdateManager.tsx:37-42 | a non-empty app version that differs from the runtime version is used as is. One equal to the runtime version gives way to a defined build constant. Without an app version, the build constant or '' is used |
| `UpdateManager.SelectedVersionIsACandidate` | src/components/UpdateManager.tsx:37-42 | the shown version is always the app version, the build constant or ''. It is '' only when there is no app version or the build constant is empty |
| `UpdateManager.LoadVersions` | src/components/UpdateManager.tsx:33-47 | when a version query throws, the app version becomes the build constant or ''. The runtime version is kept once fetched. No other field changes |
| `UpdateManager.Mount` | src/components/UpdateManager.tsx:13-51 | with a bridge, all three channels are subscribed before anything else, and the first check is the last call and appears nowhere earlier. Between them come only the version queries, each at most once, with the runtime query first, so the mount never downloads or installs. Without a bridge no call is made. A version query is made exactly when the bridge has it and no earlier query threw. The runtime version shown is the runtime query's answer, or '' when it is absent. The app version is chosen from the two answers, or is the build fallback once a query throws. Status, offer and downloaded flag are untouched, and the check is in flight afterwards |
| `UpdateManager.DeployedBridgeMount` | src/components/UpdateManager.tsx:35-42 | on a bridge without either version query, mounting subscribes and checks with no query at all, shows no runtime version, and shows the build constant (or '') as the app version |
| `UpdateManager.MountChecksOnce` | src/components/UpdateManager.tsx:44-49 | with a bridge, the initial check is issued exactly once, whichever version query failed or was absent. Without a bridge it is never issued |
| `UpdateManager.BeginCheck` | src/components/UpdateManager.tsx:53-54 | the checking flag is up while the check is in flight, and nothing else changes |
| `UpdateManager.FinishCheck` | src/components/UpdateManager.tsx:55-64 | the checking flag comes down whatever the outcome. A rejection shows 'Error checking for updates' |
| `UpdateManager.CheckRoundEnablesCheck` | src/components/UpdateManager.tsx:53-65 | the check button is disabled during a check and enabled after it, whatever the reply |
| `UpdateManager.FinishDownload` | src/components/UpdateManager.tsx:67-76 | success shows 'Downloading update...' and failure shows 'Error downloading update'. Nothing else changes |
| `UpdateManager.Click` | src/components/UpdateManager.tsx:103-138 | download is offered only with update info present, install only with the downloaded flag set, and check only when no check is in flight. A button that is not offered does nothing. Without a bridge no call is made, though a check still raises its flag |
| `UpdateManager.DownloadedStaysSet` | src/components/UpdateManager.tsx:26-30 | once the downloaded flag is set, no sequence of events clears it, so install stays offered |
| `UpdateManager.DownloadedOnlyByMessage` | src/components/UpdateManager.tsx:26-30 | the downloaded flag is only ever raised by an "update-downloaded" message |
| `UpdateManager.OfferChangesOnlyByMessage` | src/components/UpdateManager.tsx:20-24 | the offered update changes only through an "update-available" message |
| `UpdateFlow.AvailableInfoReachesPanel` | src/components/UpdateManager.tsx:20-24 | an `UpdateInfo` offered by the updater is read back from the panel field for field (version, releaseDate, releaseNotes), and the download button appears |
| `UpdateFlow.DownloadedReachesPanel` | electron/main.js:109-112 | a finished download reaches the panel: the flag is raised, install is offered and the ready text is shown |
| `UpdateFlow.ProgressReachesPanel` | electron/main.js:96-106 | a progress event reaches the panel as a status from which all four numbers can be read back |
| `UpdateFlow.NoWindowNoChange` | electron/main.js:115-119 | without a window, no updater event changes the panel |
| `UpdateFlow.CheckRoundOutcome` | src/components/UpdateManager.tsx:53-65 | every check ends with the button enabled. The panel shows the host's verdict or its "not initialized" report, and never its own check-error text |
| `UpdateFlow.InstallRoundOutcome` | electron/main.js:155-158 | an install request sends the panel nothing and leaves it unchanged. The host quits to install exactly when it has an updater |
| `UpdateFlow.DownloadRoundOutcome` | src/components/UpdateManager.tsx:67-76 | because the host swallows download failures, every download request ends with 'Downloading update...' on the panel, and the download error text never appears |

## Behaviour of the code worth knowing

- The host keeps no update state. `download-update` and `install-update` call
  the updater whenever one exists, whatever has happened before
  (`UpdateHost.HandleDownloadUpdate`, `UpdateHost.HandleInstallUpdate`).
  Only the panel's buttons gate the two actions (`UpdateManager.Click`).
- The resolved app version is the manifest's `version` whenever that is a
  string, including the empty string (`UpdateHost.ResolveAppVersion`).
- `download-update` swallows a failed download and emits no status. The panel
  therefore shows "Downloading update..." after a failed download too
  (`UpdateFlow.DownloadRoundOutcome`). Any report of the failure comes only
  from the updater's own "error" event.

## Findings

| source | as written | input that shows it | evidently intended | confidence | as-written member | corrected member |
|---|---|---|---|---|---|---|
| electron/main.js:85 | the "update-available" listener forwards with `mainWindow.webContents.send` without the window check that `sendStatusToWindow` makes. Line 111 does the same for "update-downloaded" | an "update-available" or "update-downloaded" event while `mainWindow` is unset: the listener throws a TypeError after its status was dropped | drop the forward when there is no window, as the status is dropped | medium; not executed | UpdateHost.ReactAsWritten | UpdateHost.React |

`UpdateHost.AvailableWithoutWindowThrows` proves that the as-written
listeners throw in that case. `UpdateHost.React` is the guarded version, and
`UpdateHost.ReactMatchesCodeWithWindow` proves it agrees with the code whenever
a window exists. `UpdateFlow` uses the guarded version.

## Left out

- Window and app lifecycle are not modelled: window creation, dev-server loading after a timeout, `whenReady` (including its start-up check at electron/main.js:160-168) and `window-all-closed`. This is host plumbing.
- The internals of `electron-updater` are not modelled: network access, signatures, the real process exit of `quitAndInstall`, and its own serialisation of checks. Each answer of the updater is an input value.
- Async interleaving is not modelled. Each handler, listener and renderer callback is one atomic step. In the app, events fired while a handler awaits the updater can interleave with that handler's own statuses.
- electron/preload.js is not part of this model. The model assumes the bridge carries the three channels and the three invocations. Its generic `send`/`on` are not modelled. That bridge has no `getAppVersion`/`getElectronVersion`: it is `UpdateManager.DeployedBridge`, whose queries are `Missing` and never called. A missing bridge (`window.electron` undefined) is `NoBridge`. It makes no call, and every awaited call resolves with nothing.
- File and process effects of scripts/version.js are replaced by the values they read or produce: reading and writing package.json, `git add/commit/tag`, console output and `process.exit`.
- VersionBump.UpdateVersion: the model stops with `UnparsableVersion` when a piece that the chosen case reads is missing or not all digits. A major bump reads only the first piece, and a minor bump only the first two. In those cases the script would go on and write `NaN` into the new version. `Number` also accepts other forms, and the model treats them all as not numbers: surrounding whitespace and line terminators, a sign, `0x`/`0b`/`0o` prefixes, an exponent, and `Infinity`. So a major bump of `0b1.2.3` writes `2.0.0` in the script, but the model refuses it. An empty piece reads as 0, as `Number('')` does.
- VersionBump.RunScript: inherits the refusal from `VersionBump.UpdateVersion`. Its `r.Ok? <==> Readable(...)` clause says a run fails when a piece the kind reads is not a number. The script instead writes and tags a version containing `NaN`, for example `1.2.NaN` and `v1.2.NaN` for a patch bump of `1.2.3-beta`. It also succeeds on the other `Number` forms listed above.
- VersionBump.NonNumericPatchPiece: its patch clause ends in `UnparsableVersion`. The script writes `M.m.NaN` and tags `vM.m.NaN` instead, for the same reason as above.
- VersionBump.ParseVersion: pieces are unbounded natural numbers. The script's numbers are doubles, so from 2^53 on `Number` rounds and `patch + 1` may not increase the version. From 10^21 on, `String` prints an exponent. `VersionBump.Bumped`'s strict increase, `VersionBump.ParseFormat` and `Decimal.ToNumberOfNatToString` hold for the script only below 2^53.
- UpdateHost.InitUpdater: the failed import is only an input flag. A rejected import is not handled at electron/main.js:28, so it surfaces as an unhandled rejection, which the model does not follow.
- UpdateHost.ProgressText: the percentage is a whole number. JavaScript's formatting of fractional numbers is not modelled.
- UpdateHost.ResolveAppVersion: which file is probed (resources/app when packaged, the app path otherwise) is folded into the probe result. The model does not follow the path choice.
- UpdateHost.HandleCheckForUpdates: `String(error)` of a rejected check is taken as an already-formed string (`CheckThrew`); how JavaScript stringifies an error object is not modelled.
- UpdateHost.EventStatusText: `err.message` is taken as an already-formed string. A present payload always has a string `version`, as the type declaration requires, so `?? "unknown"` covers only an absent payload.
- The updater settings `autoInstallOnAppQuit` and `allowPrerelease` are recorded but have no effect in the model, because they only steer the updater.
- React rendering, CSS and console logging are not modelled. This includes the fallback texts 'n/a' and 'No updates checked' and the button label.
