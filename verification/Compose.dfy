/** The part of a Compose project that the AWS deployment loop looks at. */
module Compose {

  datatype ServiceDependency = ServiceDependency(condition: string, required: bool)

  /** An image is absent, the empty string, or anything else. */
  datatype Image = NoImage | EmptyImage | SomeImage

  /** The managed-backend and build fields are pointers in the source; only their presence matters here. */
  datatype ServiceConfig = ServiceConfig(
    networkMode: string,
    image: Image,
    build: bool,
    postgres: bool,
    redis: bool,
    objectStore: bool,
    dependsOn: map<string, ServiceDependency>)
  {
    /** "service:<name>" attaches this service to <name> as a sidecar; "" means standalone. */
    function SidecarParent(): string {
      if "service:" <= networkMode then networkMode[|"service:"|..] else ""
    }

    /** Dispatched to a managed backend instead of an ECS task. */
    predicate IsManaged() {
      postgres || redis || objectStore
    }
  }

  /** A sidecar's network mode names its parent; any other service has none. */
  lemma SidecarParentMeaning(svc: ServiceConfig)
    ensures forall p :: p != "" ==> (svc.SidecarParent() == p <==> svc.networkMode == "service:" + p)
    ensures svc.SidecarParent() == "" <==> !exists p :: p != "" && svc.networkMode == "service:" + p
  {
    var prefix := "service:";
    forall p | p != "" ensures svc.SidecarParent() == p <==> svc.networkMode == prefix + p {
      if prefix <= svc.networkMode {
        assert svc.networkMode == prefix + svc.networkMode[|prefix|..];
      }
      assert (prefix + p)[|prefix|..] == p;
    }
    var parent := svc.SidecarParent();
    assert parent != "" ==> svc.networkMode == prefix + parent;
  }

  type Services = map<string, ServiceConfig>

  /** What reading a missing key of a Go map yields. */
  const ZERO_SERVICE := ServiceConfig("", NoImage, false, false, false, false, map[])

  function Lookup(services: Services, name: string): ServiceConfig {
    if name in services then services[name] else ZERO_SERVICE
  }

  /** The names a service depends on; a name missing from the map depends on nothing. */
  function DepsOf(services: Services, name: string): set<string> {
    Lookup(services, name).dependsOn.Keys
  }
}
