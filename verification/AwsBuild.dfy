/** The deployment loop of the AWS project component (provider/defangaws/project.go). */
module AwsBuild {
  import opened Options
  import opened Compose
  import opened Topo
  import Ordering

  datatype Result<+T> = Ok(value: T) | Err(error: BuildError)

  datatype BuildError =
    | ParentNotFound(sidecar: string)
    | ParentIsSidecar(sidecar: string)
    | ParentManaged(sidecar: string)
    | DependencyNotFound(service: string, dependency: string)
    | ImageMissing(service: string)
    | SidecarImageMissing(service: string, sidecar: string)
    | CreationFailed(service: string)   // whatever else goes wrong while its resources are created

  /** Sidecars by parent, then by their own name. */
  type Groups = map<string, Services>

  // ----- partitioning

  predicate SidecarAccepted(services: Services, name: string)
    requires name in services
  {
    var parent := services[name].SidecarParent();
    parent == "" || (parent in services && services[parent].SidecarParent() == "" && !services[parent].IsManaged())
  }

  function Standalone(services: Services): Services {
    map n | n in services && services[n].SidecarParent() == "" :: services[n]
  }

  function GroupOf(services: Services, parent: string): Services {
    map n | n in services && services[n].SidecarParent() == parent :: services[n]
  }

  function Parents(services: Services): set<string> {
    (set n | n in services :: services[n].SidecarParent()) - {""}
  }

  function SidecarGroups(services: Services): Groups {
    map p | p in Parents(services) :: GroupOf(services, p)
  }

  /** An error names a sidecar that really has the parent it complains about. */
  ghost predicate PartitionErrorFits(services: Services, e: BuildError) {
    match e
    case ParentNotFound(n) =>
      n in services && services[n].SidecarParent() != "" && services[n].SidecarParent() !in services
    case ParentIsSidecar(n) =>
      n in services && services[n].SidecarParent() in services
      && services[services[n].SidecarParent()].SidecarParent() != ""
    case ParentManaged(n) =>
      n in services && services[n].SidecarParent() in services && services[services[n].SidecarParent()].IsManaged()
    case _ => false
  }

  method PartitionSidecars(services: Services) returns (r: Result<(Services, Groups)>)
    ensures r.Ok? <==> forall n :: n in services ==> SidecarAccepted(services, n)
    ensures r.Ok? ==> r.value == (Standalone(services), SidecarGroups(services))
    ensures r.Ok? ==> forall n :: n in r.value.0 <==> n in services && services[n].SidecarParent() == ""
    ensures r.Ok? ==> forall n :: n in r.value.0 ==> r.value.0[n] == services[n]
    ensures r.Ok? ==> forall p, n ::
      (p in r.value.1 && n in r.value.1[p]) <==> (p != "" && n in services && services[n].SidecarParent() == p)
    ensures r.Ok? ==> forall p, n :: p in r.value.1 && n in r.value.1[p] ==> r.value.1[p][n] == services[n]
    ensures r.Err? ==> PartitionErrorFits(services, r.error)
  {
    var standalone: Services, sidecars: Groups := map[], map[];
    var todo := services.Keys;
    ghost var done: Services := map[];
    while todo != {}
      invariant todo !! done.Keys && todo + done.Keys == services.Keys
      invariant forall n :: n in done ==> done[n] == services[n] && SidecarAccepted(services, n)
      invariant standalone == Standalone(done)
      invariant sidecars == SidecarGroups(done)
    {
      var name :| name in todo;   // map iteration order is unspecified
      var svc := services[name];
      var parent := svc.SidecarParent();
      todo := todo - {name};
      if parent == "" {
        standalone := standalone[name := svc];
        GroupsUnchanged(done, name, svc);
      } else {
        if parent !in services {
          return Err(ParentNotFound(name));
        } else if services[parent].SidecarParent() != "" {
          return Err(ParentIsSidecar(name));
        } else if services[parent].IsManaged() {
          return Err(ParentManaged(name));
        }
        GroupsGrow(done, name, svc);
        var group := if parent in sidecars then sidecars[parent] else map[];
        sidecars := sidecars[parent := group[name := svc]];
      }
      StandaloneGrows(done, name, svc);
      done := done[name := svc];
    }
    assert done == services;
    r := Ok((standalone, sidecars));
  }

  lemma StandaloneGrows(done: Services, name: string, svc: ServiceConfig)
    requires name !in done
    ensures Standalone(done[name := svc])
         == if svc.SidecarParent() == "" then Standalone(done)[name := svc] else Standalone(done)
  {
  }

  lemma ParentsGrow(done: Services, name: string, svc: ServiceConfig)
    requires name !in done
    ensures Parents(done[name := svc]) == Parents(done) + ({svc.SidecarParent()} - {""})
  {
    var after := done[name := svc];
    assert after[name].SidecarParent() == svc.SidecarParent();
    forall p | p in Parents(done) ensures p in Parents(after) {
      var n :| n in done && done[n].SidecarParent() == p;
      assert n in after && after[n].SidecarParent() == p;
    }
  }

  lemma GroupGrows(done: Services, name: string, svc: ServiceConfig, p: string)
    requires name !in done
    ensures GroupOf(done[name := svc], p)
         == if p == svc.SidecarParent() then GroupOf(done, p)[name := svc] else GroupOf(done, p)
  {
  }

  lemma GroupsUnchanged(done: Services, name: string, svc: ServiceConfig)
    requires name !in done && svc.SidecarParent() == ""
    ensures SidecarGroups(done[name := svc]) == SidecarGroups(done)
  {
    ParentsGrow(done, name, svc);
    forall p | p in Parents(done) ensures GroupOf(done[name := svc], p) == GroupOf(done, p) {
      GroupGrows(done, name, svc, p);
    }
  }

  lemma GroupsGrow(done: Services, name: string, svc: ServiceConfig)
    requires name !in done && svc.SidecarParent() != ""
    ensures var parent, groups := svc.SidecarParent(), SidecarGroups(done);
      SidecarGroups(done[name := svc])
      == groups[parent := (if parent in groups then groups[parent] else map[])[name := svc]]
  {
    var parent, groups := svc.SidecarParent(), SidecarGroups(done);
    ParentsGrow(done, name, svc);
    forall p | p in Parents(done) + {parent}
      ensures GroupOf(done[name := svc], p) == if p == parent then GroupOf(done, p)[name := svc] else GroupOf(done, p)
    {
      GroupGrows(done, name, svc, p);
    }
    NoGroupYet(done, parent);
  }

  lemma NoGroupYet(done: Services, parent: string)
    requires parent != ""
    ensures parent !in SidecarGroups(done) ==> GroupOf(done, parent) == map[]
  {
    assert forall n :: n in done && done[n].SidecarParent() == parent ==> parent in Parents(done);
  }

  // ----- folding a sidecar's dependencies into its parent

  /** Dependencies that lead out of the group, declared by the sidecars in `of`. */
  ghost function Outside(group: Services, of: set<string>, parent: string): set<string> {
    set s, d | s in of && s in group && d in group[s].dependsOn && d !in group && d != parent :: d
  }

  /** What a service depends on once its sidecars' dependencies are folded in. */
  ghost function FoldedDeps(standalone: Services, sidecars: Groups, n: string): set<string> {
    var group := OwnSidecars(sidecars, n);
    DepsOf(standalone, n) + Outside(group, group.Keys, n)
  }

  function OwnSidecars(sidecars: Groups, n: string): Services {
    if n in sidecars then sidecars[n] else map[]
  }

  /** The parent's own entry wins; any other comes from one of the sidecars declaring it. */
  ghost predicate EntriesDeclared(
    own: map<string, ServiceDependency>, group: Services, merged: map<string, ServiceDependency>)
  {
    && (forall d :: d in own ==> d in merged && merged[d] == own[d])
    && forall d :: d in merged && d !in own ==>
         exists s :: s in group && d in group[s].dependsOn && group[s].dependsOn[d] == merged[d]
  }

  /** svc is plain with the dependencies of its own sidecars folded in, and nothing else changed. */
  ghost predicate FoldedAt(plain: ServiceConfig, group: Services, name: string, svc: ServiceConfig) {
    && svc == plain.(dependsOn := svc.dependsOn)
    && svc.dependsOn.Keys == plain.dependsOn.Keys + Outside(group, group.Keys, name)
    && EntriesDeclared(plain.dependsOn, group, svc.dependsOn)
  }

  ghost predicate IsFold(standalone: Services, sidecars: Groups, graph: Services) {
    && graph.Keys == standalone.Keys
    && forall n :: n in graph ==> FoldedAt(standalone[n], OwnSidecars(sidecars, n), n, graph[n])
  }

  method MergeDeps(own: map<string, ServiceDependency>, group: Services, parent: string)
    returns (merged: map<string, ServiceDependency>)
    ensures merged.Keys == own.Keys + Outside(group, group.Keys, parent)
    ensures EntriesDeclared(own, group, merged)
  {
    merged := own;
    var todo := group.Keys;
    while todo != {}
      invariant todo <= group.Keys
      invariant merged.Keys == own.Keys + Outside(group, group.Keys - todo, parent)
      invariant EntriesDeclared(own, group, merged)
    {
      var name :| name in todo;
      merged := MergeOne(own, group, parent, name, merged);
      assert Outside(group, group.Keys - (todo - {name}), parent)
          == Outside(group, group.Keys - todo, parent) + Outside(group, {name}, parent);
      todo := todo - {name};
    }
    assert group.Keys - todo == group.Keys;
  }

  /** The inner loop of the fold: one sidecar's entries. */
  method MergeOne(own: map<string, ServiceDependency>, group: Services, parent: string, name: string,
                  before: map<string, ServiceDependency>)
    returns (merged: map<string, ServiceDependency>)
    requires name in group && EntriesDeclared(own, group, before)
    ensures merged.Keys == before.Keys + Outside(group, {name}, parent)
    ensures EntriesDeclared(own, group, merged)
  {
    merged := before;
    var deps := group[name].dependsOn;
    var todo := deps.Keys;
    while todo != {}
      invariant todo <= deps.Keys
      invariant merged.Keys == before.Keys + set d | d in deps && d !in todo && d !in group && d != parent
      invariant EntriesDeclared(own, group, merged)
    {
      var dep :| dep in todo;
      todo := todo - {dep};
      if dep in group || dep == parent {
        continue;
      }
      if dep !in merged {
        merged := merged[dep := deps[dep]];
      }
    }
    assert Outside(group, {name}, parent) == set d | d in deps && d !in group && d != parent;
  }

  lemma NothingFolded(plain: ServiceConfig, name: string, svc: ServiceConfig)
    ensures FoldedAt(plain, map[], name, svc) <==> svc == plain
  {
    if FoldedAt(plain, map[], name, svc) {
      assert svc.dependsOn == plain.dependsOn;
    }
  }

  method FoldSidecarDeps(standalone: Services, sidecars: Groups) returns (graph: Services)
    ensures IsFold(standalone, sidecars, graph)
  {
    graph := standalone;
    forall n | n in graph ensures FoldedAt(standalone[n], map[], n, graph[n]) {
      NothingFolded(standalone[n], n, graph[n]);
    }
    var todo := sidecars.Keys;
    while todo != {}
      invariant todo <= sidecars.Keys && graph.Keys == standalone.Keys
      invariant forall n :: n in graph ==>
        FoldedAt(standalone[n], if n in todo then map[] else OwnSidecars(sidecars, n), n, graph[n])
    {
      var parent :| parent in todo;
      todo := todo - {parent};
      if parent in graph {
        var svc := graph[parent];
        var merged := MergeDeps(svc.dependsOn, sidecars[parent], parent);
        NothingFolded(standalone[parent], parent, svc);
        graph := graph[parent := svc.(dependsOn := merged)];
      }
    }
  }

  // ----- dispatching one service

  datatype Backend = Rds | ElastiCache | S3 | Ecs

  /** Handles and bucket ARNs are whatever the cloud hands back. */
  datatype Resource = Resource(id: int)
  datatype Arn = Arn(id: int)
  datatype ServiceResult = ServiceResult(dependency: Resource, bucketArn: Option<Arn>)

  /** What the loop asked the cloud to create, and what it got back; only containers are granted anything. */
  datatype Dispatch = Dispatch(
    name: string, backend: Backend, deps: seq<Resource>, grants: map<string, Arn>, result: ServiceResult)

  function BackendOf(svc: ServiceConfig): Backend {
    if svc.postgres then Rds else if svc.redis then ElastiCache else if svc.objectStore then S3 else Ecs
  }

  /** Postgres before Redis before an object store; a container iff nothing managed, as for a sidecar's parent. */
  predicate IsDispatchedTo(svc: ServiceConfig, backend: Backend) {
    && (svc.postgres ==> backend == Rds)
    && (!svc.postgres && svc.redis ==> backend == ElastiCache)
    && (!svc.postgres && !svc.redis && svc.objectStore ==> backend == S3)
    && (backend == Ecs <==> !svc.IsManaged())
  }

  /** Built from source, or given; the empty string passes here. */
  predicate HasImage(svc: ServiceConfig) {
    svc.build || svc.image != NoImage
  }

  /** Only containers need images, and only given ones do for the sidecars. */
  predicate Deployable(svc: ServiceConfig, own: Services) {
    BackendOf(svc) == Ecs ==> HasImage(svc) && forall s :: s in own ==> own[s].image == SomeImage
  }

  ghost predicate NewServiceErrorFits(name: string, svc: ServiceConfig, own: Services, e: BuildError) {
    match e
    case CreationFailed(n) => n == name
    case ImageMissing(n) => n == name && BackendOf(svc) == Ecs && !HasImage(svc)
    case SidecarImageMissing(n, s) =>
      n == name && BackendOf(svc) == Ecs && HasImage(svc) && s in own && own[s].image != SomeImage
    case _ => false
  }

  /** The sidecars are looked at in ascending order. */
  method FirstWithoutImage(own: Services) returns (sidecar: Option<string>)
    ensures sidecar.None? <==> forall s :: s in own ==> own[s].image == SomeImage
    ensures sidecar.Some? ==> sidecar.value in own && own[sidecar.value].image != SomeImage
    ensures sidecar.Some? ==>
      forall s :: s in own && own[s].image != SomeImage && s != sidecar.value ==> Ordering.Less(sidecar.value, s)
  {
    var names := Ordering.SortedKeys(own.Keys);
    for i := 0 to |names|
      invariant forall j :: 0 <= j < i ==> own[names[j]].image == SomeImage
    {
      if own[names[i]].image != SomeImage {
        return Some(names[i]);
      }
    }
    sidecar := None;
  }

  /**
   * Creating the resources is the cloud's business: it may fail at any point, and it picks the identifiers.
   * The image is looked up first, the sidecars' images once the task role and its grants exist.
   */
  method NewService(name: string, svc: ServiceConfig, own: Services, deps: seq<Resource>, grants: map<string, Arn>)
    returns (r: Result<Dispatch>)
    ensures r.Err? ==> NewServiceErrorFits(name, svc, own, r.error)
    ensures r.Ok? ==> Deployable(svc, own)
    ensures r.Ok? ==>
      r.value == Dispatch(name, BackendOf(svc), deps, if BackendOf(svc) == Ecs then grants else map[], r.value.result)
    ensures r.Ok? ==> (r.value.result.bucketArn.Some? <==> BackendOf(svc) == S3)
    ensures r.Ok? ==> IsDispatchedTo(svc, r.value.backend)
    ensures r.Err? && r.error.ImageMissing? ==> !svc.IsManaged() && !svc.build && svc.image == NoImage
    ensures r.Ok? && !svc.IsManaged() ==>
      (svc.build || svc.image != NoImage) && forall s :: s in own ==> own[s].image == SomeImage
  {
    var registered: bool, created: bool, handle: int, bucket: int := *, *, *, *;
    if !registered {
      return Err(CreationFailed(name));
    }
    if svc.postgres || svc.redis || svc.objectStore {
      if !created {
        return Err(CreationFailed(name));
      }
      var arn := if svc.postgres || svc.redis then None else Some(Arn(bucket));
      return Ok(Dispatch(name, BackendOf(svc), deps, map[], ServiceResult(Resource(handle), arn)));
    }
    if !svc.build && svc.image == NoImage {
      return Err(ImageMissing(name));
    }
    var built: bool := *;
    if !built {
      return Err(CreationFailed(name));
    }
    var sidecar := FirstWithoutImage(own);
    if sidecar.Some? {
      return Err(SidecarImageMissing(name, sidecar.value));
    }
    if !created {
      return Err(CreationFailed(name));
    }
    r := Ok(Dispatch(name, Ecs, deps, grants, ServiceResult(Resource(handle), None)));
  }

  /** Entries naming the service's own sidecars are container dependencies, not resources. */
  method CollectDeps(name: string, svc: ServiceConfig, own: Services, dependencies: map<string, Resource>)
    returns (r: Result<seq<Resource>>)
    ensures r.Ok? ==>
      forall h :: h in r.value <==>
        exists d :: d in svc.dependsOn && d !in own && d in dependencies && dependencies[d] == h
    ensures r.Ok? <==>
      forall d :: d in svc.dependsOn && d !in own && svc.dependsOn[d].required ==> d in dependencies
    ensures r.Err? ==> r.error.DependencyNotFound? && r.error.service == name
    ensures r.Err? ==>
      var d := r.error.dependency;
      d in svc.dependsOn && d !in own && svc.dependsOn[d].required && d !in dependencies
  {
    var deps := [];
    var todo := svc.dependsOn.Keys;
    while todo != {}
      invariant todo <= svc.dependsOn.Keys
      invariant forall h :: h in deps <==>
        exists d :: d in svc.dependsOn && d !in todo && d !in own && d in dependencies && dependencies[d] == h
      invariant forall d ::
        d in svc.dependsOn && d !in todo && d !in own && svc.dependsOn[d].required ==> d in dependencies
    {
      var dep :| dep in todo;
      todo := todo - {dep};
      if dep in own {
        continue;
      }
      if dep in dependencies {
        deps := deps + [dependencies[dep]];
      } else if svc.dependsOn[dep].required {
        return Err(DependencyNotFound(name, dep));
      }
    }
    r := Ok(deps);
  }

  method ObjectStoreGrants(svc: ServiceConfig, stores: map<string, Arn>) returns (grants: map<string, Arn>)
    ensures grants == map d | d in svc.dependsOn && d in stores :: stores[d]
  {
    grants := map[];
    if |stores| == 0 {
      return;
    }
    var todo := svc.dependsOn.Keys;
    while todo != {}
      invariant todo <= svc.dependsOn.Keys
      invariant grants == map d | d in svc.dependsOn && d !in todo && d in stores :: stores[d]
    {
      var dep :| dep in todo;
      todo := todo - {dep};
      if dep in stores {
        grants := grants[dep := stores[dep]];
      }
    }
  }

  // ----- the loop

  ghost predicate Earlier(log: seq<Dispatch>, i: int, name: string) {
    exists j :: 0 <= j < i <= |log| && log[j].name == name
  }

  /** Granted: a bucket created earlier whose store the service depends on, with that store's own ARN. */
  ghost predicate GrantsFit(svc: ServiceConfig, log: seq<Dispatch>, i: nat, grants: map<string, Arn>)
    requires i <= |log|
  {
    && (forall j :: 0 <= j < i && log[j].name in svc.dependsOn && log[j].result.bucketArn.Some? ==>
         log[j].name in grants && grants[log[j].name] == log[j].result.bucketArn.value)
    && forall d :: d in grants ==>
         d in svc.dependsOn && exists j :: 0 <= j < i && log[j].name == d && log[j].result.bucketArn.Some?
  }

  ghost predicate IsAwaited(svc: ServiceConfig, own: Services, d: string) {
    d in svc.dependsOn && d !in own
  }

  /** Waited for: exactly the handles of the earlier services it depends on, its own sidecars apart. */
  ghost predicate DepsFit(svc: ServiceConfig, own: Services, log: seq<Dispatch>, i: nat, deps: seq<Resource>)
    requires i <= |log|
  {
    && (forall j :: 0 <= j < i && IsAwaited(svc, own, log[j].name) ==> log[j].result.dependency in deps)
    && forall h :: h in deps ==>
         exists j :: 0 <= j < i && IsAwaited(svc, own, log[j].name) && log[j].result.dependency == h
  }

  ghost predicate DispatchFits(standalone: Services, sidecars: Groups, graph: Services, log: seq<Dispatch>, i: nat)
    requires i < |log|
  {
    var e := log[i];
    var svc, own := Lookup(graph, e.name), OwnSidecars(sidecars, e.name);
    && e.backend == BackendOf(Lookup(standalone, e.name))
    && (e.result.bucketArn.Some? <==> e.backend == S3)
    && Deployable(Lookup(standalone, e.name), own)
    && (if e.backend == Ecs then GrantsFit(svc, log, i, e.grants) else e.grants == map[])
    && DepsFit(svc, own, log, i, e.deps)
    && forall d :: IsAwaited(svc, own, d) && svc.dependsOn[d].required ==> Earlier(log, i, d)
  }

  ghost predicate FailureFits(
    standalone: Services, sidecars: Groups, graph: Services, log: seq<Dispatch>, name: string, e: BuildError)
  {
    match e
    case DependencyNotFound(n, d) =>
      n == name && d in DepsOf(graph, n) && d !in OwnSidecars(sidecars, n)
      && Lookup(graph, n).dependsOn[d].required && !Earlier(log, |log|, d)
    case _ => NewServiceErrorFits(name, Lookup(standalone, name), OwnSidecars(sidecars, name), e)
  }

  /** The loop's two maps say what the log says. */
  ghost predicate MapsFit(log: seq<Dispatch>, dependencies: map<string, Resource>, stores: map<string, Arn>) {
    && (forall j :: 0 <= j < |log| ==>
         log[j].name in dependencies && dependencies[log[j].name] == log[j].result.dependency)
    && (forall n :: n in dependencies ==> Earlier(log, |log|, n))
    && (forall j :: 0 <= j < |log| && log[j].result.bucketArn.Some? ==>
         log[j].name in stores && stores[log[j].name] == log[j].result.bucketArn.value)
    && forall n :: n in stores ==>
         exists j :: 0 <= j < |log| && log[j].name == n && log[j].result.bucketArn.Some?
  }

  lemma MapsGrow(log: seq<Dispatch>, dependencies: map<string, Resource>, stores: map<string, Arn>, e: Dispatch)
    requires MapsFit(log, dependencies, stores) && !Earlier(log, |log|, e.name)
    ensures MapsFit(log + [e], dependencies[e.name := e.result.dependency],
                    if e.result.bucketArn.Some? then stores[e.name := e.result.bucketArn.value] else stores)
  {
    var log', stores' := log + [e], if e.result.bucketArn.Some? then stores[e.name := e.result.bucketArn.value] else stores;
    assert log'[|log|] == e;
    forall n | n in dependencies[e.name := e.result.dependency] ensures Earlier(log', |log'|, n) {
      if n != e.name {
        var j :| 0 <= j < |log| && log[j].name == n;
        assert log'[j].name == n;
      }
    }
    forall n | n in stores'
      ensures exists j :: 0 <= j < |log'| && log'[j].name == n && log'[j].result.bucketArn.Some?
    {
      if n != e.name || e.result.bucketArn.None? {
        var j :| 0 <= j < |log| && log[j].name == n && log[j].result.bucketArn.Some?;
        assert log'[j] == log[j];
      }
    }
  }

  lemma GrantsFromMaps(
    svc: ServiceConfig, log: seq<Dispatch>, dependencies: map<string, Resource>, stores: map<string, Arn>, e: Dispatch)
    requires MapsFit(log, dependencies, stores)
    requires e.grants == map d | d in svc.dependsOn && d in stores :: stores[d]
    ensures GrantsFit(svc, log + [e], |log|, e.grants)
  {
    var log' := log + [e];
    assert forall j :: 0 <= j < |log| ==> log'[j] == log[j];
    forall d | d in e.grants
      ensures exists j :: 0 <= j < |log| && log'[j].name == d && log'[j].result.bucketArn.Some?
    {
      var j :| 0 <= j < |log| && log[j].name == d && log[j].result.bucketArn.Some?;
      assert log'[j] == log[j];
    }
  }

  lemma DepsFromMaps(
    svc: ServiceConfig, own: Services, log: seq<Dispatch>, dependencies: map<string, Resource>,
    stores: map<string, Arn>, e: Dispatch)
    requires MapsFit(log, dependencies, stores)
    requires forall h :: h in e.deps <==>
      exists d :: d in svc.dependsOn && d !in own && d in dependencies && dependencies[d] == h
    ensures DepsFit(svc, own, log + [e], |log|, e.deps)
  {
    var log' := log + [e];
    assert forall j :: 0 <= j < |log| ==> log'[j] == log[j];
    forall h | h in e.deps
      ensures exists j :: 0 <= j < |log| && IsAwaited(svc, own, log'[j].name) && log'[j].result.dependency == h
    {
      var d :| d in svc.dependsOn && d !in own && d in dependencies && dependencies[d] == h;
      var j :| 0 <= j < |log| && log[j].name == d;
      assert log'[j] == log[j];
    }
  }

  /** A dispatch prepared from the two maps fits the log it is about to join. */
  lemma NextFits(
    standalone: Services, sidecars: Groups, graph: Services, log: seq<Dispatch>,
    dependencies: map<string, Resource>, stores: map<string, Arn>, e: Dispatch)
    requires MapsFit(log, dependencies, stores)
    requires e.backend == BackendOf(Lookup(standalone, e.name)) && (e.result.bucketArn.Some? <==> e.backend == S3)
    requires Deployable(Lookup(standalone, e.name), OwnSidecars(sidecars, e.name))
    requires var svc, own := Lookup(graph, e.name), OwnSidecars(sidecars, e.name);
      && e.grants == (if e.backend == Ecs then map d | d in svc.dependsOn && d in stores :: stores[d] else map[])
      && (forall h :: h in e.deps <==>
           exists d :: d in svc.dependsOn && d !in own && d in dependencies && dependencies[d] == h)
      && (forall d :: d in svc.dependsOn && d !in own && svc.dependsOn[d].required ==> d in dependencies)
    ensures DispatchFits(standalone, sidecars, graph, log + [e], |log|)
  {
    var svc, own := Lookup(graph, e.name), OwnSidecars(sidecars, e.name);
    if e.backend == Ecs {
      GrantsFromMaps(svc, log, dependencies, stores, e);
    }
    DepsFromMaps(svc, own, log, dependencies, stores, e);
    forall d | IsAwaited(svc, own, d) && svc.dependsOn[d].required ensures Earlier(log + [e], |log|, d) {
      EarlierGrows(log, e, d);
    }
  }

  lemma EarlierGrows(log: seq<Dispatch>, e: Dispatch, d: string)
    requires Earlier(log, |log|, d)
    ensures Earlier(log + [e], |log|, d)
  {
    var j :| 0 <= j < |log| && log[j].name == d;
    assert (log + [e])[j].name == d;
  }

  /** Whether a dispatch fits depends only on the log up to it. */
  lemma FitsPrefix(standalone: Services, sidecars: Groups, graph: Services, log: seq<Dispatch>, e: Dispatch, i: nat)
    requires i < |log| && DispatchFits(standalone, sidecars, graph, log, i)
    ensures DispatchFits(standalone, sidecars, graph, log + [e], i)
  {
    var log' := log + [e];
    assert forall j :: 0 <= j <= i ==> log'[j] == log[j];
    var svc, own := Lookup(graph, log[i].name), OwnSidecars(sidecars, log[i].name);
    forall d | d in svc.dependsOn && d !in own && svc.dependsOn[d].required ensures Earlier(log', i, d) {
      var j :| 0 <= j < i && log[j].name == d;
      assert log'[j].name == d;
    }
  }

  /** One execution of the project build, from the partition on. */
  datatype Run = Run(
    standalone: Services, sidecars: Groups, graph: Services, order: seq<string>,
    log: seq<Dispatch>, failure: Option<BuildError>)

  ghost predicate PrefixFits(
    standalone: Services, sidecars: Groups, graph: Services, order: seq<string>, log: seq<Dispatch>)
  {
    && |log| <= |order|
    && (forall i :: 0 <= i < |log| ==> log[i].name == order[i])
    && forall i :: 0 <= i < |log| ==> DispatchFits(standalone, sidecars, graph, log, i)
  }

  ghost predicate LogFits(run: Run) {
    && PrefixFits(run.standalone, run.sidecars, run.graph, run.order, run.log)
    && match run.failure
       case None => |run.log| == |run.order|
       case Some(e) =>
         |run.log| < |run.order| && FailureFits(run.standalone, run.sidecars, run.graph, run.log, run.order[|run.log|], e)
  }

  ghost predicate IsRun(run: Run) {
    && IsFold(run.standalone, run.sidecars, run.graph)
    && IsTopologicalOrder(run.graph, run.order)
    && LogFits(run)
  }

  lemma PrefixGrows(
    standalone: Services, sidecars: Groups, graph: Services, order: seq<string>, log: seq<Dispatch>, e: Dispatch)
    requires PrefixFits(standalone, sidecars, graph, order, log)
    requires |log| < |order| && e.name == order[|log|]
    requires DispatchFits(standalone, sidecars, graph, log + [e], |log|)
    ensures PrefixFits(standalone, sidecars, graph, order, log + [e])
  {
    forall j | 0 <= j < |log| ensures DispatchFits(standalone, sidecars, graph, log + [e], j) {
      FitsPrefix(standalone, sidecars, graph, log, e, j);
    }
  }

  method DeployAll(standalone: Services, sidecars: Groups, graph: Services, order: seq<string>)
    returns (log: seq<Dispatch>, failure: Option<BuildError>)
    requires NoDuplicates(order)
    ensures LogFits(Run(standalone, sidecars, graph, order, log, failure))
  {
    log := [];
    var dependencies: map<string, Resource>, stores: map<string, Arn> := map[], map[];
    for i := 0 to |order|
      invariant |log| == i && PrefixFits(standalone, sidecars, graph, order, log)
      invariant MapsFit(log, dependencies, stores)
    {
      var name := order[i];
      var svc, own := Lookup(graph, name), OwnSidecars(sidecars, name);
      var deps := CollectDeps(name, svc, own, dependencies);
      if deps.Err? {
        return log, Some(deps.error);
      }
      var grants := ObjectStoreGrants(svc, stores);
      var res := NewService(name, Lookup(standalone, name), own, deps.value, grants);
      if res.Err? {
        return log, Some(res.error);
      }
      var e := res.value;
      NextFits(standalone, sidecars, graph, log, dependencies, stores, e);
      MapsGrow(log, dependencies, stores, e);
      PrefixGrows(standalone, sidecars, graph, order, log, e);
      dependencies := dependencies[name := e.result.dependency];
      if e.result.bucketArn.Some? {
        stores := stores[name := e.result.bucketArn.value];
      }
      log := log + [e];
    }
    failure := None;
  }

  /** For each standalone service, an order in which to range over its folded dependencies. */
  ghost predicate AreFoldedRanges(services: Services, ranges: Ranges) {
    forall n :: n in Standalone(services) ==>
      n in ranges && IsRange(ranges[n], FoldedDeps(Standalone(services), SidecarGroups(services), n))
  }

  /** roots is the order in which this run's map iteration yields the standalone services. */
  method BuildProject(services: Services, roots: seq<string>, ranges: Ranges) returns (r: Result<Run>)
    requires IsRange(roots, Standalone(services).Keys) && AreFoldedRanges(services, ranges)
    ensures r.Ok? <==> forall n :: n in services ==> SidecarAccepted(services, n)
    ensures r.Err? ==> PartitionErrorFits(services, r.error)
    ensures r.Ok? ==> IsRun(r.value)
    ensures r.Ok? ==> r.value.standalone == Standalone(services) && r.value.sidecars == SidecarGroups(services)
    ensures r.Ok? && roots != [] ==> RootLast(r.value.graph, r.value.order, roots[0])
  {
    var parts := PartitionSidecars(services);
    if parts.Err? {
      return Err(parts.error);
    }
    var (standalone, sidecars) := parts.value;
    var graph := FoldSidecarDeps(standalone, sidecars);
    FoldedRanges(services, graph, ranges);
    var order := TopologicalSort(graph, roots, ranges);
    var log, failure := DeployAll(standalone, sidecars, graph, order);
    r := Ok(Run(standalone, sidecars, graph, order, log, failure));
  }

  lemma FoldedRanges(services: Services, graph: Services, ranges: Ranges)
    requires IsFold(Standalone(services), SidecarGroups(services), graph) && AreFoldedRanges(services, ranges)
    ensures AreRanges(graph, ranges)
  {
    var standalone, sidecars := Standalone(services), SidecarGroups(services);
    forall n | n in graph ensures n in ranges && IsRange(ranges[n], DepsOf(graph, n)) {
      assert FoldedAt(standalone[n], OwnSidecars(sidecars, n), n, graph[n]);
    }
  }

  // ----- what every run keeps

  ghost predicate IsStore(run: Run, d: string) {
    BackendOf(Lookup(run.standalone, d)) == S3
  }

  /** An edge the loop insists on: required, and not one of the service's own sidecars. */
  ghost predicate RequiredEdge(run: Run, n: string, d: string) {
    && n in run.graph
    && IsAwaited(run.graph[n], OwnSidecars(run.sidecars, n), d)
    && run.graph[n].dependsOn[d].required
  }

  lemma EarlierInOrder(run: Run, i: nat, d: string)
    requires LogFits(run) && i <= |run.log|
    ensures Earlier(run.log, i, d) <==> d in run.order[..i]
  {
    if d in run.order[..i] {
      var j :| 0 <= j < i && run.order[..i][j] == d;
      assert run.log[j].name == d;
    }
  }

  /** A dependency that does not reach its dependent back was created first. */
  lemma DependencyCreatedFirst(run: Run, i: nat, d: string)
    requires IsRun(run) && i <= |run.log| && i < |run.order|
    requires d in DepsOf(run.graph, run.order[i]) && !Reaches(run.graph, d, run.order[i])
    ensures Earlier(run.log, i, d)
  {
    EarlierInOrder(run, i, d);
  }

  /** If no required edge lies on a cycle, no run stops for a missing dependency. */
  lemma NeverMissing(run: Run)
    requires IsRun(run)
    requires forall n, d :: RequiredEdge(run, n, d) ==> !Reaches(run.graph, d, n)
    ensures run.failure.Some? ==> !run.failure.value.DependencyNotFound?
  {
    if run.failure.Some? && run.failure.value.DependencyNotFound? {
      var n, d := run.failure.value.service, run.failure.value.dependency;
      assert RequiredEdge(run, n, d);
      DependencyCreatedFirst(run, |run.log|, d);
    }
  }

  lemma NotBeforeItself(s: seq<string>, i: nat, k: nat)
    requires NoDuplicates(s) && i <= k < |s|
    ensures s[k] !in s[..i]
  {
  }

  /** If one does, every run whose key iteration starts with that dependency stops before the end. */
  lemma RequiredCycleStops(run: Run, n: string, d: string)
    requires IsRun(run) && RequiredEdge(run, n, d) && Reaches(run.graph, d, n)
    requires RootLast(run.graph, run.order, d)
    ensures run.failure.Some?
  {
    if run.failure.None? {
      ReachesSelf(run.graph, n);
      assert FromKey(run.graph, n);
      assert n in run.order;
      var i, k: nat;
      if n == d {
        i :| 0 <= i < |run.order| && run.order[i] == n;
        k := i;
      } else {
        i, k :| 0 <= i < k < |run.order| && run.order[i] == n && run.order[k] == d;
      }
      assert DispatchFits(run.standalone, run.sidecars, run.graph, run.log, i);
      EarlierInOrder(run, i, d);
      NotBeforeItself(run.order, i, k);
    }
  }

  /** Every name a service depends on is itself one of the services. */
  ghost predicate Closed(g: Services) {
    forall n :: n in g ==> DepsOf(g, n) <= g.Keys
  }

  lemma KeysEmitted(g: Services, order: seq<string>)
    requires Covers(g, order)
    ensures g.Keys <= Elems(order)
  {
    forall n | n in g ensures n in order {
      ReachesSelf(g, n);
      assert FromKey(g, n);
    }
  }

  lemma OnlyKeysEmitted(g: Services, order: seq<string>)
    requires Covers(g, order) && Closed(g)
    ensures Elems(order) <= g.Keys
  {
    forall n | n in order ensures n in g {
      assert FromKey(g, n);
      var k :| k in g && Reaches(g, k, n);
      ClosedUnderReach(g, g.Keys, k, n);
    }
  }

  lemma DanglingEmitted(g: Services, order: seq<string>, n: string, d: string)
    requires Covers(g, order) && n in g && d in DepsOf(g, n)
    ensures d in order
  {
    ReachesSelf(g, n);
    ReachesStep(g, n, n, d);
    assert FromKey(g, d);
  }

  ghost predicate DepsEmitted(g: Services, order: seq<string>) {
    forall n, d :: n in g && d in DepsOf(g, n) ==> d in Elems(order)
  }

  lemma AllDepsEmitted(g: Services, order: seq<string>)
    requires Covers(g, order)
    ensures DepsEmitted(g, order)
  {
    forall n, d | n in g && d in DepsOf(g, n) ensures d in Elems(order) {
      DanglingEmitted(g, order, n, d);
    }
  }

  lemma ExactWhenClosed(g: Services, emitted: set<string>)
    requires g.Keys <= emitted && (Closed(g) ==> emitted <= g.Keys)
    requires forall n, d :: n in g && d in DepsOf(g, n) ==> d in emitted
    ensures emitted == g.Keys <==> Closed(g)
  {
    if emitted == g.Keys {
      forall n | n in g ensures DepsOf(g, n) <= g.Keys {
        forall d | d in DepsOf(g, n) ensures d in g {
        }
      }
    }
  }

  lemma EmittedExactly(g: Services, order: seq<string>)
    requires Covers(g, order)
    ensures Elems(order) == g.Keys <==> Closed(g)
  {
    KeysEmitted(g, order);
    AllDepsEmitted(g, order);
    if Closed(g) {
      OnlyKeysEmitted(g, order);
    }
    ExactWhenClosed(g, Elems(order));
  }

  ghost function Names(log: seq<Dispatch>): set<string> {
    set e | e in log :: e.name
  }

  lemma NamesFollowOrder(log: seq<Dispatch>, order: seq<string>)
    requires |log| == |order| && forall i :: 0 <= i < |log| ==> log[i].name == order[i]
    ensures Names(log) == Elems(order)
  {
    forall n | n in order ensures n in Names(log) {
      var i :| 0 <= i < |order| && order[i] == n;
      assert log[i] in log && log[i].name == n;
    }
  }

  /** Only standalone services are ever dispatched: a missing name reads as a container without an image. */
  lemma DispatchedIsStandalone(run: Run, i: nat)
    requires IsRun(run) && i < |run.log|
    ensures run.log[i].name in run.standalone
  {
    assert DispatchFits(run.standalone, run.sidecars, run.graph, run.log, i);
  }

  lemma NothingTwice(run: Run)
    requires IsRun(run)
    ensures forall i, j :: 0 <= i < j < |run.log| ==> run.log[i].name != run.log[j].name
  {
  }

  /** Every standalone service that is a container has its images. */
  ghost predicate AllDeployable(run: Run) {
    forall n :: n in run.standalone && !run.standalone[n].IsManaged() ==>
      && (run.standalone[n].build || run.standalone[n].image != NoImage)
      && forall s :: n in run.sidecars && s in run.sidecars[n] ==> run.sidecars[n][s].image == SomeImage
  }

  lemma DeployableMeaning(run: Run)
    ensures AllDeployable(run) <==>
      forall n :: n in run.standalone ==> Deployable(run.standalone[n], OwnSidecars(run.sidecars, n))
  {
  }

  /** Every dispatch of every run goes to the backend its service asks for. */
  lemma DispatchedAsAsked(run: Run, i: nat)
    requires IsRun(run) && i < |run.log|
    ensures IsDispatchedTo(Lookup(run.standalone, run.log[i].name), run.log[i].backend)
  {
    assert DispatchFits(run.standalone, run.sidecars, run.graph, run.log, i);
  }

  /** A run that finishes dispatched exactly the standalone services, none twice; no name dangles then. */
  lemma DispatchedExactly(run: Run)
    requires IsRun(run) && run.failure.None?
    ensures forall i, j :: 0 <= i < j < |run.log| ==> run.log[i].name != run.log[j].name
    ensures Names(run.log) == run.standalone.Keys && Closed(run.graph) && AllDeployable(run)
  {
    NothingTwice(run);
    OrderIsExact(run);
    NamesFollowOrder(run.log, run.order);
    OrderIsDeployable(run);
  }

  lemma OrderIsExact(run: Run)
    requires IsRun(run) && run.failure.None?
    ensures Elems(run.order) == run.standalone.Keys && Closed(run.graph)
  {
    OrderIsStandalone(run);
    KeysEmitted(run.graph, run.order);
    EmittedExactly(run.graph, run.order);
  }

  lemma OrderIsStandalone(run: Run)
    requires IsRun(run) && run.failure.None?
    ensures Elems(run.order) <= run.standalone.Keys
  {
    forall n | n in run.order ensures n in run.standalone {
      var i :| 0 <= i < |run.order| && run.order[i] == n;
      DispatchedIsStandalone(run, i);
    }
  }

  lemma OrderIsDeployable(run: Run)
    requires IsRun(run) && run.failure.None? && run.standalone.Keys <= Elems(run.order)
    ensures AllDeployable(run)
  {
    DeployableMeaning(run);
    forall n | n in run.standalone ensures Deployable(run.standalone[n], OwnSidecars(run.sidecars, n)) {
      assert n in Elems(run.order);
      var i :| 0 <= i < |run.order| && run.order[i] == n;
      assert DispatchFits(run.standalone, run.sidecars, run.graph, run.log, i);
    }
  }

  /** A name that dangles stops every build, whatever the cloud does. */
  lemma DanglingStops(run: Run)
    requires IsRun(run) && !Closed(run.graph)
    ensures run.failure.Some?
  {
    if run.failure.None? {
      DispatchedExactly(run);
    }
  }

  /**
   * When creating resources does not fail and no required edge lies on a cycle, a build finishes iff no
   * name dangles and no container lacks an image.
   */
  lemma FinishesExactly(run: Run)
    requires IsRun(run) && !(run.failure.Some? && run.failure.value.CreationFailed?)
    requires forall n, d :: RequiredEdge(run, n, d) ==> !Reaches(run.graph, d, n)
    ensures run.failure.None? <==> Closed(run.graph) && AllDeployable(run)
    ensures run.failure.Some? ==> run.failure.value.ImageMissing? || run.failure.value.SidecarImageMissing?
  {
    NeverMissing(run);
    if run.failure.None? {
      DispatchedExactly(run);
    } else {
      StoppedForImage(run);
      DeployableMeaning(run);
      if Closed(run.graph) {
        OnlyKeysEmitted(run.graph, run.order);
        assert run.order[|run.log|] in Elems(run.order);
      }
    }
  }

  lemma StoppedForImage(run: Run)
    requires IsRun(run) && run.failure.Some?
    requires !run.failure.value.CreationFailed? && !run.failure.value.DependencyNotFound?
    ensures run.failure.value.ImageMissing? || run.failure.value.SidecarImageMissing?
    ensures |run.log| < |run.order|
    ensures var n := run.order[|run.log|]; !Deployable(Lookup(run.standalone, n), OwnSidecars(run.sidecars, n))
  {
  }

  /** A container gets every bucket its folded dependencies name, unless the store reaches it back. */
  lemma BucketGranted(run: Run, i: nat, d: string)
    requires IsRun(run) && i < |run.log| && run.log[i].backend == Ecs
    requires d in DepsOf(run.graph, run.log[i].name) && IsStore(run, d)
    requires !Reaches(run.graph, d, run.log[i].name)
    ensures d in run.log[i].grants
    ensures exists j :: 0 <= j < i && run.log[j].name == d && run.log[j].result.bucketArn == Some(run.log[i].grants[d])
  {
    DependencyCreatedFirst(run, i, d);
    var j :| 0 <= j < i && run.log[j].name == d;
    assert DispatchFits(run.standalone, run.sidecars, run.graph, run.log, j);
    assert DispatchFits(run.standalone, run.sidecars, run.graph, run.log, i);
  }

  /**
   * If it does reach it back, a run whose key iteration starts with the store dispatches the container first
   * and without the bucket; with an optional edge nothing is reported.
   */
  lemma BucketSkipped(run: Run, i: nat, d: string)
    requires IsRun(run) && i < |run.log| && d != run.log[i].name
    requires Reaches(run.graph, d, run.log[i].name) && RootLast(run.graph, run.order, d)
    ensures d !in run.log[i].grants
  {
    var k, l :| 0 <= k < l < |run.order| && run.order[k] == run.log[i].name && run.order[l] == d;
    OnlyPlace(run.order, k, i);
    forall j | 0 <= j < i ensures run.log[j].name != d {
      assert run.order[j] != run.order[l];
    }
    assert DispatchFits(run.standalone, run.sidecars, run.graph, run.log, i);
  }

  lemma OnlyPlace(s: seq<string>, i: nat, j: nat)
    requires NoDuplicates(s) && i < |s| && j < |s| && s[i] == s[j]
    ensures i == j
  {
  }

  /** And no other bucket, on any graph; what is not a container gets none. */
  lemma OnlyNamedStoresGranted(run: Run, i: nat, d: string)
    requires IsRun(run) && i < |run.log| && d in run.log[i].grants
    ensures d in DepsOf(run.graph, run.log[i].name) && IsStore(run, d) && run.log[i].backend == Ecs
  {
    assert DispatchFits(run.standalone, run.sidecars, run.graph, run.log, i);
    var j :| 0 <= j < i && run.log[j].name == d && run.log[j].result.bucketArn.Some?;
    assert DispatchFits(run.standalone, run.sidecars, run.graph, run.log, j);
  }

  // ----- in terms of the project's own services

  ghost predicate ShippedIn(services: Services, m: string, n: string) {
    m in services && (m == n || (n != "" && services[m].SidecarParent() == n))
  }

  /** n itself, or one of the sidecars shipped inside it, names d in depends_on. */
  ghost predicate GroupNames(services: Services, n: string, d: string) {
    exists m :: ShippedIn(services, m, n) && d in services[m].dependsOn
  }

  /** The buckets a container has a right to: of every other store its group names. */
  ghost predicate Entitled(services: Services, n: string, d: string) {
    && n in services && BackendOf(services[n]) == Ecs
    && d in Standalone(services) && BackendOf(services[d]) == S3
    && d != n && GroupNames(services, n, d)
  }

  ghost predicate IsRunOf(services: Services, run: Run) {
    IsRun(run) && run.standalone == Standalone(services) && run.sidecars == SidecarGroups(services)
  }

  lemma OwnGroup(services: Services, n: string, m: string)
    ensures m in OwnSidecars(SidecarGroups(services), n)
      <==> m in services && n != "" && services[m].SidecarParent() == n
    ensures m in OwnSidecars(SidecarGroups(services), n) ==> OwnSidecars(SidecarGroups(services), n)[m] == services[m]
  {
    if m in services && n != "" && services[m].SidecarParent() == n {
      assert n in Parents(services);
    }
  }

  /** Folding adds exactly what the sidecars name outside the group. */
  lemma FoldedMeaning(services: Services, run: Run, n: string, d: string)
    requires IsRunOf(services, run)
    requires n in run.standalone && d in run.standalone && d != n
    ensures d in run.graph[n].dependsOn <==> GroupNames(services, n, d)
  {
    var group := OwnSidecars(run.sidecars, n);
    assert FoldedAt(run.standalone[n], group, n, run.graph[n]);
    OwnGroup(services, n, d);
    if d in run.graph[n].dependsOn {
      if d in run.standalone[n].dependsOn {
        assert ShippedIn(services, n, n) && d in services[n].dependsOn;
      } else {
        var s :| s in group && d in group[s].dependsOn;
        OwnGroup(services, n, s);
        assert ShippedIn(services, s, n) && d in services[s].dependsOn;
      }
    }
    if GroupNames(services, n, d) {
      var m :| ShippedIn(services, m, n) && d in services[m].dependsOn;
      OwnGroup(services, n, m);
      if m != n {
        assert d in group[m].dependsOn && d in Outside(group, group.Keys, n);
      }
    }
  }

  /** d is a sidecar of n, or n itself. */
  ghost predicate IsInGroup(services: Services, n: string, d: string) {
    d == n || (d in services && services[d].SidecarParent() == n)
  }

  /** And of what a sidecar names, exactly what leads out of its group: not its parent, and not a sibling. */
  lemma FoldedExactly(services: Services, run: Run, n: string, d: string)
    requires IsRunOf(services, run) && n in run.standalone && n != ""
    ensures d in run.graph[n].dependsOn <==>
      || d in services[n].dependsOn
      || (!IsInGroup(services, n, d)
          && exists s :: s in services && services[s].SidecarParent() == n && d in services[s].dependsOn)
  {
    var group := OwnSidecars(run.sidecars, n);
    assert FoldedAt(run.standalone[n], group, n, run.graph[n]);
    OwnGroup(services, n, d);
    forall s ensures s in group <==> s in services && services[s].SidecarParent() == n {
      OwnGroup(services, n, s);
    }
    forall s | s in group ensures group[s] == services[s] {
      OwnGroup(services, n, s);
    }
    FoldedKeys(services, group, n, d);
  }

  lemma FoldedKeys(services: Services, group: Services, n: string, d: string)
    requires forall s :: s in group <==> s in services && services[s].SidecarParent() == n
    requires forall s :: s in group ==> group[s] == services[s]
    ensures d in Outside(group, group.Keys, n) <==>
      (!IsInGroup(services, n, d)
       && exists s :: s in services && services[s].SidecarParent() == n && d in services[s].dependsOn)
  {
    if !IsInGroup(services, n, d) {
      forall s | s in services && services[s].SidecarParent() == n && d in services[s].dependsOn
        ensures d in Outside(group, group.Keys, n)
      {
        assert s in group.Keys && d in group[s].dependsOn;
      }
    }
  }

  /**
   * On an acyclic project every dispatched service is granted exactly the buckets of the stores it or any
   * of its sidecars depends on. A build whose resources can be created finishes iff no name dangles and no
   * container lacks an image, and has then created every standalone service once.
   */
  lemma AcyclicBuild(services: Services, run: Run)
    requires IsRunOf(services, run) && Acyclic(run.graph)
    ensures !(run.failure.Some? && run.failure.value.CreationFailed?) ==>
      (run.failure.None? <==> Closed(run.graph) && AllDeployable(run))
    ensures run.failure.None? ==> Names(run.log) == Standalone(services).Keys
    ensures forall i, j :: 0 <= i < j < |run.log| ==> run.log[i].name != run.log[j].name
    ensures forall i, d :: 0 <= i < |run.log| ==>
      (d in run.log[i].grants <==> Entitled(services, run.log[i].name, d))
  {
    forall n, d | RequiredEdge(run, n, d) ensures !Reaches(run.graph, d, n) {
      assert d in DepsOf(run.graph, n);
    }
    if !(run.failure.Some? && run.failure.value.CreationFailed?) {
      FinishesExactly(run);
    }
    if run.failure.None? {
      DispatchedExactly(run);
    }
    NothingTwice(run);
    forall i, d | 0 <= i < |run.log|
      ensures d in run.log[i].grants <==> Entitled(services, run.log[i].name, d)
    {
      GrantedExactly(services, run, i, d);
    }
  }

  lemma GrantedExactly(services: Services, run: Run, i: nat, d: string)
    requires IsRunOf(services, run) && Acyclic(run.graph) && i < |run.log|
    ensures d in run.log[i].grants <==> Entitled(services, run.log[i].name, d)
  {
    var n := run.log[i].name;
    DispatchedIsStandalone(run, i);
    assert DispatchFits(run.standalone, run.sidecars, run.graph, run.log, i);
    if d in run.log[i].grants {
      OnlyNamedStoresGranted(run, i, d);
      NotItself(run, n, d);
      FoldedMeaning(services, run, n, d);
    }
    if Entitled(services, n, d) {
      FoldedMeaning(services, run, n, d);
      BucketGranted(run, i, d);
    }
  }

  lemma NotItself(run: Run, n: string, d: string)
    requires Acyclic(run.graph) && d in DepsOf(run.graph, n)
    ensures d != n
  {
    ReachesSelf(run.graph, n);
  }

  /**
   * A parent may name its own sidecar in depends_on. The fold keeps that edge, the sort emits the sidecar
   * as a service of its own, and reading it from the standalone map gives a container without an image:
   * no such build finishes.
   */
  lemma OwnSidecarDangles(services: Services, run: Run, parent: string, sidecar: string)
    requires IsRunOf(services, run)
    requires parent in Standalone(services) && parent != "" && sidecar in services[parent].dependsOn
    requires sidecar in services && services[sidecar].SidecarParent() == parent
    ensures sidecar in run.order && sidecar !in run.standalone && !Closed(run.graph)
    ensures run.failure.Some?
  {
    assert FoldedAt(run.standalone[parent], OwnSidecars(run.sidecars, parent), parent, run.graph[parent]);
    assert sidecar in DepsOf(run.graph, parent);
    DanglingEmitted(run.graph, run.order, parent, sidecar);
    DanglingStops(run);
  }
}
