/**
 * The parts of launchpad.net/snappy that the catalog code reads: a package
 * (`snappy.Part`) and the services it may expose (`snappy.Services`).
 */
module Snappy {
  import opened Wrappers

  /** The text of a snap type other than "app" and "framework", which have constructors of their own. */
  type OtherTypeName = s: string | s != "app" && s != "framework" witness ""

  /** snappy.SnapType; only "app" and "framework" matter to the catalog code. */
  datatype SnapType = App | Framework | Other(name: OtherTypeName)

  /** The snap type as the Go string it is. */
  function TypeText(t: SnapType): string
  {
    match t
    case App => "app"
    case Framework => "framework"
    case Other(name) => name
  }

  /** One external port mapping; `port` is text such as "8080/tcp". */
  datatype Port = Port(port: string)

  /** A service's port table, keyed by logical name such as "ui". */
  datatype Ports = Ports(external: map<string, Port>)

  /** A service; `ports` is `None` where the Go `Ports` pointer is nil. */
  datatype Service = Service(name: string, ports: Option<Ports>)

  /**
   * A package as the snappy library reports it. `services` is `None` when the
   * part does not implement snappy.Services, and the service list otherwise.
   */
  datatype Part = Part(
    name: string,
    namespace: string,
    version: string,
    vendor: string,
    description: string,
    icon: string,
    snapType: SnapType,
    isInstalled: bool,
    installedSize: int,
    downloadSize: int,
    services: Option<seq<Service>>)
}
