/**
  The values that cross the boundary between the host process and the
  renderer: the update description, the messages on the three event channels,
  and the settled state of a request.
 */
module UpdateApi {
  import opened Wrappers

  /** What the updater (electron-updater) reports about a release. */
  datatype UpdateInfo = UpdateInfo(version: string, releaseDate: string, releaseNotes: Option<string>)

  /**
    One message from host to renderer, one constructor per channel:
    "update-status", "update-available", "update-downloaded". The two typed
    channels carry the updater's payload as it came, which may be absent.
   */
  datatype Message =
    | StatusText(text: string)
    | Available(info: Option<UpdateInfo>)
    | Downloaded(info: Option<UpdateInfo>)

  /** How a request from the renderer settled. */
  datatype Reply = Resolved | Rejected(reason: string)
}
