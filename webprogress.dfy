/**
 * The install-progress registry of launchpad.net/webdm/webprogress, as the
 * catalog code uses it: a table from package name to the tracker of an
 * install in flight.
 */
module WebProgress {
  import opened Wrappers

  const StatusInstalled: string := "installed"
  const StatusUninstalled: string := "uninstalled"
  const StatusInstalling: string := "installing"

  /**
   * A snapshot of one install's tracker: its status text, whether the install
   * has finished, its terminal error message if it failed, and its progress.
   */
  datatype Tracker = Tracker(status: string, done: bool, error: Option<string>, progress: real)

  /** The tracker Add registers: installing, not finished, no error, no progress. */
  const NewTracker: Tracker := Tracker(StatusInstalling, false, None, 0.0)

  /** Add's refusal: an install of this package is already being tracked. */
  datatype RegistryError = AlreadyInProgress(name: string)

  /** The process-wide table of trackers, keyed by package name. */
  class Registry {
    var trackers: map<string, Tracker>

    constructor ()
      ensures trackers == map[]
    {
      trackers := map[];
    }

    /** Registers a fresh tracker for `name`, or fails if one is already there. */
    method Add(name: string) returns (progress: Tracker, err: Option<RegistryError>)
      modifies this
      ensures name in old(trackers) ==> err == Some(AlreadyInProgress(name)) && trackers == old(trackers)
      ensures name !in old(trackers) ==>
        err == None && progress == NewTracker && trackers == old(trackers)[name := NewTracker]
    {
      if name in trackers {
        progress, err := NewTracker, Some(AlreadyInProgress(name));
      } else {
        progress, err := NewTracker, None;
        trackers := trackers[name := NewTracker];
      }
    }

    /** The tracker for `name`, if there is one. */
    method Get(name: string) returns (stat: Option<Tracker>)
      ensures stat.Some? <==> name in trackers
      ensures stat.Some? ==> stat.value == trackers[name]
    {
      if name in trackers {
        stat := Some(trackers[name]);
      } else {
        stat := None;
      }
    }

    /** Drops the tracker for `name`; every other entry stays. */
    method Remove(name: string)
      modifies this
      ensures trackers == old(trackers) - {name}
    {
      trackers := trackers - {name};
    }
  }
}
