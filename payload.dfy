/**
 * snapPkg, the presentation record of one package, and the projection of a
 * package plus its install tracker into it.
 */
module Payload {
  import opened Wrappers
  import opened Snappy
  import opened WebProgress
  import opened UiPorts

  /** snapPkg. Go's zero values stand for "not set": "" , false, 0. */
  datatype SnapPkg = SnapPkg(
    name: string,
    origin: string,
    version: string,
    vendor: string,
    description: string,
    icon: string,
    status: string,
    message: string,
    isError: bool,
    progress: real,
    installedSize: int,
    downloadSize: int,
    snapType: SnapType,
    uiPort: nat,
    uiUri: string)

  /** hasPortInformation: only apps and frameworks may publish a UI port. */
  function HasPortInformation(part: Part): (has: bool)
    ensures has <==> TypeText(part.snapType) == "app" || TypeText(part.snapType) == "framework"
  {
    part.snapType == App || part.snapType == Framework
  }

  /** The tracker registered for `name`, if any. */
  function Lookup(trackers: map<string, Tracker>, name: string): Option<Tracker>
  {
    if name in trackers then Some(trackers[name]) else None
  }

  /** The icon of an installed package: the resolved local path, or "" when resolution fails. */
  function InstalledIcon(part: Part, localIconPath: (string, string) -> Result<string, string>): string
  {
    match localIconPath(part.name, part.icon)
    case Ok(path) => path
    case Err(_) => ""
  }

  /**
   * The payload snapQueryToPayload builds for `part` when `tracker` is what the
   * registry holds for its name, with icon resolution given as `localIconPath`.
   */
  function PayloadOf(part: Part, tracker: Option<Tracker>,
                     localIconPath: (string, string) -> Result<string, string>): (snap: SnapPkg)
    // identity and description are copied
    ensures snap.name == part.name && snap.origin == part.namespace && snap.version == part.version
    ensures snap.vendor == part.vendor && snap.description == part.description && snap.snapType == part.snapType
    // a UI port only for apps and frameworks that expose services; never a URI
    ensures snap.uiUri == ""
    ensures HasPortInformation(part) && part.services.Some? ==> snap.uiPort == UiAccess(part.services.value).port
    ensures !(HasPortInformation(part) && part.services.Some?) ==> snap.uiPort == 0
    // exactly one of the two sizes is filled in, and the icon follows the installed flag
    ensures part.isInstalled ==>
      snap.installedSize == part.installedSize && snap.downloadSize == 0 && snap.icon == InstalledIcon(part, localIconPath)
    ensures !part.isInstalled ==>
      snap.downloadSize == part.downloadSize && snap.installedSize == 0 && snap.icon == part.icon
    // without a tracker the status is the package's own
    ensures tracker.None? ==>
      && snap.status == (if part.isInstalled then StatusInstalled else StatusUninstalled)
      && snap.progress == 0.0 && snap.message == "" && !snap.isError
    // with one, the tracker's status; progress while running; its error once finished
    ensures tracker.Some? ==> snap.status == tracker.value.status
    ensures tracker.Some? && !tracker.value.done ==>
      snap.progress == tracker.value.progress && snap.message == "" && !snap.isError
    ensures tracker.Some? && tracker.value.done ==>
      && snap.progress == 0.0
      && (snap.isError <==> tracker.value.error.Some?)
      && snap.message == (if tracker.value.error.Some? then tracker.value.error.value else "")
  {
    var ui := if HasPortInformation(part) && part.services.Some? then UiAccess(part.services.value) else UiEndpoint(0, "");
    var status :=
      if tracker.Some? then tracker.value.status
      else if part.isInstalled then StatusInstalled
      else StatusUninstalled;
    var failure := if tracker.Some? && tracker.value.done then tracker.value.error else None;
    SnapPkg(
      name := part.name,
      origin := part.namespace,
      version := part.version,
      vendor := part.vendor,
      description := part.description,
      icon := if part.isInstalled then InstalledIcon(part, localIconPath) else part.icon,
      status := status,
      message := if failure.Some? then failure.value else "",
      isError := failure.Some?,
      progress := if tracker.Some? && !tracker.value.done then tracker.value.progress else 0.0,
      installedSize := if part.isInstalled then part.installedSize else 0,
      downloadSize := if part.isInstalled then 0 else part.downloadSize,
      snapType := part.snapType,
      uiPort := ui.port,
      uiUri := ui.uri)
  }
}
