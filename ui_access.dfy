/**
 * uiAccess: where a package's web UI listens, read from the first service
 * whose external "ui" port entry has the shape "<port>/<proto>".
 */
module UiPorts {
  import opened Wrappers
  import opened GoStrings
  import opened GoStrconv
  import opened Snappy

  /** The port and URI uiAccess returns. */
  datatype UiEndpoint = UiEndpoint(port: nat, uri: string)

  /** The service has port information with an external "ui" entry whose text splits on '/' into two parts. */
  predicate WellShapedUi(svc: Service)
  {
    && svc.ports.Some?
    && "ui" in svc.ports.value.external
    && |Split(svc.ports.value.external["ui"].port, '/')| == 2
  }

  /** The text before the '/' of a well-shaped "ui" entry. */
  function UiPortText(svc: Service): string
    requires WellShapedUi(svc)
  {
    Split(svc.ports.value.external["ui"].port, '/')[0]
  }

  /** The port a well-shaped entry yields: its number, or 0 when the text does not parse. */
  function PortOrZero(text: string): (port: nat)
    ensures port <= MaxUint64
  {
    match ParseUint(text)
    case Some(p) => p
    case None => 0
  }

  /**
   * uiAccess scans the services in order. A service with no port information,
   * or whose "ui" entry is missing or malformed, is passed over; the first
   * well-shaped "ui" entry ends the scan. The URI is always empty.
   */
  function UiAccess(services: seq<Service>): (r: UiEndpoint)
    ensures r.uri == ""
    ensures r.port <= MaxUint64
    ensures (forall i | 0 <= i < |services| :: !WellShapedUi(services[i])) ==> r.port == 0
    ensures forall k | 0 <= k < |services| && WellShapedUi(services[k]) ::
              (forall j | 0 <= j < k :: !WellShapedUi(services[j])) ==>
                r.port == PortOrZero(UiPortText(services[k]))
  {
    if services == [] then UiEndpoint(0, "")
    else if services[0].ports.None? then UiAccess(services[1..])
    else if "ui" !in services[0].ports.value.external then UiAccess(services[1..])
    else
      var ui := Split(services[0].ports.value.external["ui"].port, '/');
      if |ui| == 2 then
        match ParseUint(ui[0])
        case None => UiEndpoint(0, "")
        case Some(port) => UiEndpoint(port, "")
      else UiAccess(services[1..])
  }

  /** Once a well-shaped "ui" entry has been seen, services listed after it make no difference. */
  lemma {:induction false} UiAccessIgnoresLater(services: seq<Service>, later: seq<Service>, k: nat)
    requires k < |services| && WellShapedUi(services[k])
    ensures UiAccess(services + later) == UiAccess(services)
  {
    assert (services + later)[0] == services[0];
    if !WellShapedUi(services[0]) {
      assert (services + later)[1..] == services[1..] + later;
      UiAccessIgnoresLater(services[1..], later, k - 1);
    }
  }
}
