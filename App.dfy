/**
 * The app screen: the services discovered on the network, de-duplicated by name, the service
 * selected as destination, the picked file and the text to send as a `TEXT_MESSAGE` frame.
 */
module App {
  import opened Wrappers
  import opened Strings
  import opened Wire
  import FileTransfer

  /** A resolved Zeroconf service: the fields the app copies and some it does not. */
  datatype Service = Service(name: string, fullName: string, host: string, port: int, addresses: seq<string>)

  /** `services.some(s => s.name === name)`. */
  predicate HasName(services: seq<Service>, name: string) {
    exists k :: 0 <= k < |services| && services[k].name == name
  }

  ghost predicate NamesUnique(services: seq<Service>) {
    forall i, j :: 0 <= i < j < |services| ==> services[i].name != services[j].name
  }

  /** The `resolved` updater: a service is appended unless one of that name is already listed. */
  function ServiceFound(services: seq<Service>, service: Service): (r: seq<Service>)
    ensures services <= r && |r| <= |services| + 1
    ensures r == services <==> HasName(services, service.name)
    ensures |r| > |services| ==> r[|services|] == service
    ensures HasName(r, service.name)
    ensures NamesUnique(services) ==> NamesUnique(r)
  {
    if !HasName(services, service.name) then services + [service] else services
  }

  /** The `removed` updater: every service with the lost one's name goes, the rest stay in order. */
  function ServiceLost(services: seq<Service>, name: string): (r: seq<Service>)
    ensures !HasName(r, name)
    ensures forall s :: s in r <==> s in services && s.name != name
    ensures NamesUnique(services) ==> NamesUnique(r)
  {
    if services == [] then []
    else if services[0].name == name then ServiceLost(services[1..], name)
    else [services[0]] + ServiceLost(services[1..], name)
  }

  /** Removal works list segment by list segment, so the kept services keep their order. */
  lemma {:induction false} ServiceLostKeepsOrder(a: seq<Service>, b: seq<Service>, name: string)
    ensures ServiceLost(a + b, name) == ServiceLost(a, name) + ServiceLost(b, name)
  {
    if a == [] {
      assert a + b == b;
    } else {
      assert (a + b)[0] == a[0];
      assert (a + b)[1..] == a[1..] + b;
      ServiceLostKeepsOrder(a[1..], b, name);
    }
  }

  /** `services.find(s => s.name === name)`: the first service of that name. */
  function FindByName(services: seq<Service>, name: string): (r: Option<Service>)
    ensures r.Some? <==> HasName(services, name)
    ensures r.Some? ==> exists k :: 0 <= k < |services| && services[k] == r.value && r.value.name == name
                                    && forall j :: 0 <= j < k ==> services[j].name != name
  {
    if services == [] then None
    else if services[0].name == name then Some(services[0])
    else
      var r := FindByName(services[1..], name);
      if r.Some? then
        ghost var k :| 0 <= k < |services[1..]| && services[1..][k] == r.value && r.value.name == name
                       && forall j :: 0 <= j < k ==> services[1..][j].name != name;
        assert services[k + 1] == r.value;
        r
      else
        r
  }

  /** The `{name, host, port}` copy a selection stores. */
  function ToEndpoint(s: Service): Endpoint {
    Endpoint(s.name, s.host, s.port)
  }

  /** The text frame: the prefix, then the text itself, unescaped. */
  function TextFrame(text: string): (f: string)
    ensures StartsWith(f, TextPrefix) && f[|TextPrefix|..] == text
  {
    TextPrefix + text
  }

  /** The component state of the app screen. */
  class AppState {
    var services: seq<Service>
    var selectedService: Option<Endpoint>
    var file: Option<FileTransfer.FileArg>
    var text: string

    ghost predicate Valid()
      reads this
    {
      NamesUnique(services)
    }

    constructor()
      ensures Valid()
      ensures services == [] && selectedService.None? && file.None? && text == ""
    {
      services := [];
      selectedService := None;
      file := None;
      text := "";
    }

    method OnServiceFound(service: Service)
      requires Valid()
      modifies this
      ensures Valid()
      ensures services == ServiceFound(old(services), service)
      ensures selectedService == old(selectedService) && file == old(file) && text == old(text)
    {
      services := ServiceFound(services, service);
    }

    method OnServiceLost(service: Service)
      requires Valid()
      modifies this
      ensures Valid()
      ensures services == ServiceLost(old(services), service.name)
      ensures selectedService == old(selectedService) && file == old(file) && text == old(text)
    {
      services := ServiceLost(services, service.name);
    }

    /** Selects the first listed service of that name; an unknown name changes nothing. */
    method HandleServiceSelection(serviceName: string)
      modifies this
      ensures var found := FindByName(old(services), serviceName);
        selectedService == if found.Some? then Some(ToEndpoint(found.value)) else old(selectedService)
      ensures services == old(services) && file == old(file) && text == old(text)
    {
      var selected := FindByName(services, serviceName);
      if selected.Some? {
        selectedService := Some(ToEndpoint(selected.value));
      }
    }

    method HandleFileSelected(picked: FileTransfer.FileArg)
      modifies this
      ensures file == Some(picked)
      ensures services == old(services) && selectedService == old(selectedService) && text == old(text)
    {
      file := Some(picked);
    }

    /** The text input's change handler. */
    method ChangeText(newText: string)
      modifies this
      ensures text == newText
      ensures services == old(services) && selectedService == old(selectedService) && file == old(file)
    {
      text := newText;
    }

    /** `sendTextToServer`: nothing without a text and a selected service, otherwise one
        connection to the selected host and port carrying the text frame. */
    method SendTextToServer() returns (conn: Option<Outbound>)
      ensures conn.None? <==> text == "" || selectedService.None?
      ensures conn.Some? ==>
        conn.value == Outbound(selectedService.value.host, selectedService.value.port, [TextFrame(text)])
    {
      if text == "" || selectedService.None? {
        return None;
      }
      conn := Some(Outbound(selectedService.value.host, selectedService.value.port, [TextFrame(text)]));
    }
  }
}
