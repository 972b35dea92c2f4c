/**
 * The request handler's state-changing operations: building a package's
 * payload, which consumes a finished install tracker, and registering an install.
 */
module Converge {
  import opened Wrappers
  import opened Snappy
  import opened WebProgress
  import opened UiPorts
  import opened Payload

  class Handler {
    /** The shared install-progress registry. */
    const installStatus: Registry
    /** Names of the packages whose background install has been started, in order. */
    var dispatched: seq<string>

    constructor (installStatus: Registry)
      ensures this.installStatus == installStatus && dispatched == []
    {
      this.installStatus := installStatus;
      dispatched := [];
    }

    /**
     * snapQueryToPayload. The payload is `PayloadOf` the part and the tracker
     * registered for its name; a tracker that reports done is removed and no
     * other registry entry changes.
     */
    method SnapQueryToPayload(snapQ: Part, localIconPath: (string, string) -> Result<string, string>)
      returns (snap: SnapPkg)
      modifies installStatus
      ensures snap == PayloadOf(snapQ, Lookup(old(installStatus.trackers), snapQ.name), localIconPath)
      ensures snapQ.name in old(installStatus.trackers) && old(installStatus.trackers)[snapQ.name].done ==>
        installStatus.trackers == old(installStatus.trackers) - {snapQ.name}
      ensures !(snapQ.name in old(installStatus.trackers) && old(installStatus.trackers)[snapQ.name].done) ==>
        installStatus.trackers == old(installStatus.trackers)
    {
      snap := SnapPkg(
        name := snapQ.name,
        origin := snapQ.namespace,
        version := snapQ.version,
        vendor := snapQ.vendor,
        description := snapQ.description,
        icon := "",
        status := "",
        message := "",
        isError := false,
        progress := 0.0,
        installedSize := 0,
        downloadSize := 0,
        snapType := snapQ.snapType,
        uiPort := 0,
        uiUri := "");

      if HasPortInformation(snapQ) {
        if snapQ.services.Some? {
          var ui := UiAccess(snapQ.services.value);
          snap := snap.(uiPort := ui.port, uiUri := ui.uri);
        }
      }

      if snapQ.isInstalled {
        var iconPath: string;
        match localIconPath(snapQ.name, snapQ.icon) {
          case Ok(path) => iconPath := path;
          case Err(_) => iconPath := "";
        }
        snap := snap.(icon := iconPath, installedSize := snapQ.installedSize);
      } else {
        snap := snap.(icon := snapQ.icon, downloadSize := snapQ.downloadSize);
      }

      var stat := installStatus.Get(snap.name);
      if stat.Some? {
        snap := snap.(status := stat.value.status);
        if stat.value.done {
          // removal happens on return; nothing below reads the registry, so it can happen here
          installStatus.Remove(snap.name);
          if stat.value.error.Some? {
            snap := snap.(message := stat.value.error.value, isError := true);
          }
        } else {
          snap := snap.(progress := stat.value.progress);
        }
      } else if snapQ.isInstalled {
        snap := snap.(status := StatusInstalled);
      } else {
        snap := snap.(status := StatusUninstalled);
      }
    }

    /**
     * installPackage. If the registry refuses to add a tracker, its error is
     * returned and nothing is started; otherwise a fresh tracker is registered,
     * the background install is started, and no error is returned.
     */
    method InstallPackage(pkgName: string) returns (err: Option<RegistryError>)
      modifies this, installStatus
      ensures pkgName in old(installStatus.trackers) ==>
        && err == Some(AlreadyInProgress(pkgName))
        && installStatus.trackers == old(installStatus.trackers)
        && dispatched == old(dispatched)
      ensures pkgName !in old(installStatus.trackers) ==>
        && err == None
        && installStatus.trackers == old(installStatus.trackers)[pkgName := NewTracker]
        && dispatched == old(dispatched) + [pkgName]
    {
      var progress, addErr := installStatus.Add(pkgName);
      if addErr.Some? {
        return addErr;
      }
      // the install itself runs in the background and is not modelled; only its start is recorded
      dispatched := dispatched + [pkgName];
      return None;
    }
  }

  /**
   * A finished install is reported once: the query that finds its tracker
   * gets the tracker's status, and a query against the registry it leaves
   * behind falls back to the package's own installed flag, with no error.
   */
  lemma CompletionReportedOnce(part: Part, trackers: map<string, Tracker>,
                               localIconPath: (string, string) -> Result<string, string>)
    requires part.name in trackers && trackers[part.name].done
    ensures PayloadOf(part, Lookup(trackers, part.name), localIconPath).status == trackers[part.name].status
    ensures Lookup(trackers - {part.name}, part.name) == None
    ensures var again := PayloadOf(part, Lookup(trackers - {part.name}, part.name), localIconPath);
      && again.status == (if part.isInstalled then StatusInstalled else StatusUninstalled)
      && !again.isError && again.message == ""
  {
  }
}
