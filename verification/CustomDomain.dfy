/**
 * Bring-your-own domains on Azure: which hostnames get DNS records (CreateByodDomain in
 * provider/defangazure/azure/customdomain.go) and which get certificates (collectCertJobs in
 * cd/program/azure.go). The two sides live in different programs and must agree.
 */
module CustomDomain {
  import opened Options
  import opened Dns
  import opened Strings

  /** What the two sides read of a service. */
  datatype Service = Service(domainName: string, aliases: seq<string>, hasIngress: bool, isVirtualMachine: bool)

  type DnsZones = map<string, string>

  function ByodHostnames(svc: Service): seq<string> {
    if svc.domainName == "" then [] else [svc.domainName] + svc.aliases
  }

  /** A service asks for its domainname and, if it has one, for its aliases too. */
  predicate AsksFor(svc: Service, h: string) {
    svc.domainName != "" && (h == svc.domainName || h in svc.aliases)
  }

  lemma AskedHostnames(svc: Service, h: string)
    ensures h in ByodHostnames(svc) <==> AsksFor(svc, h)
    ensures svc.domainName != "" ==> |ByodHostnames(svc)| == 1 + |svc.aliases|
  {
  }

  /** What reading a Go map yields for a missing key. */
  function ZoneFor(zones: DnsZones, key: string): string {
    if key in zones then zones[key] else ""
  }

  predicate IsApexDomain(domain: string, zone: string) {
    Lower(TrimDot(domain)) == Lower(TrimDot(zone))
  }

  // ----- the record side

  datatype RecordKind = Apex | Below(relative: string)

  /** The routing record and its ownership TXT, for one hostname. */
  datatype Records = Records(hostname: string, resourceGroup: string, zone: string, kind: RecordKind)

  function RecordsIn(hostname: string, zoneId: string): Option<Records> {
    match ParseZoneId(zoneId)
    case None => None
    case Some((group, zone)) =>
      if IsApexDomain(hostname, zone) then Some(Records(hostname, group, zone, Apex))
      else
        match RelativeRecordName(hostname, zone)
        case None => None
        case Some(relative) => Some(Records(hostname, group, zone, Below(relative)))
  }

  function RecordsFor(hostname: string, zones: DnsZones): Option<Records> {
    var id := ZoneFor(zones, NormalizeDNS(hostname));
    if IsWildcardHost(hostname) || id == "" then None else RecordsIn(hostname, id)
  }

  function AllRecords(hostnames: seq<string>, zones: DnsZones): seq<Records> {
    if hostnames == [] then []
    else
      AllRecords(hostnames[..|hostnames| - 1], zones)
      + match RecordsFor(hostnames[|hostnames| - 1], zones) case Some(r) => [r] case None => []
  }

  /** Writing a record set may fail. */
  method CreateByodRecords(hostname: string, zoneId: string) returns (r: Option<Records>, ok: bool)
    ensures ok ==> r == RecordsIn(hostname, zoneId)
  {
    var group, zone, parsed := ParseDNSZoneID(zoneId);
    if !parsed {
      return None, true;
    }
    ok := *;
    if IsApexDomain(hostname, zone) {
      return Some(Records(hostname, group, zone, Apex)), ok;
    }
    var relative := RelativeRecordName(hostname, zone);
    if relative.None? {
      return None, true;
    }
    r := Some(Records(hostname, group, zone, Below(relative.value)));
  }

  method CreateByodDomain(svc: Service, zones: DnsZones) returns (results: seq<Records>, ok: bool)
    ensures ok ==> results == if svc.hasIngress then AllRecords(ByodHostnames(svc), zones) else []
    ensures ok ==> forall r :: r in results <==> svc.hasIngress && IsAskedRecord(svc, zones, r)
  {
    AskedRecords(svc, zones);
    var hostnames := ByodHostnames(svc);
    if |zones| == 0 || !svc.hasIngress {
      NoZonesNoRecords(hostnames, zones);
      return [], true;
    }
    results := [];
    for i := 0 to |hostnames|
      invariant results == AllRecords(hostnames[..i], zones)
    {
      var hostname := hostnames[i];
      AllRecordsStep(hostnames, i, zones);
      if IsWildcardHost(hostname) {
        continue;
      }
      var zoneId := ZoneFor(zones, NormalizeDNS(hostname));
      if zoneId == "" {
        continue;
      }
      var r, created := CreateByodRecords(hostname, zoneId);
      if !created {
        return [], false;
      }
      if r.Some? {
        results := results + [r.value];
      }
    }
    assert hostnames[..|hostnames|] == hostnames;
    ok := true;
  }

  /** The records of one of the hostnames the service asks for. */
  ghost predicate IsAskedRecord(svc: Service, zones: DnsZones, r: Records) {
    exists h :: AsksFor(svc, h) && RecordsFor(h, zones) == Some(r)
  }

  lemma AskedRecords(svc: Service, zones: DnsZones)
    ensures forall r :: r in AllRecords(ByodHostnames(svc), zones) <==> IsAskedRecord(svc, zones, r)
  {
    forall r ensures r in AllRecords(ByodHostnames(svc), zones) <==> IsAskedRecord(svc, zones, r) {
      AllRecordsMeaning(ByodHostnames(svc), zones, r);
      forall h ensures h in ByodHostnames(svc) <==> AsksFor(svc, h) {
        AskedHostnames(svc, h);
      }
    }
  }

  lemma AllRecordsStep(hostnames: seq<string>, i: nat, zones: DnsZones)
    requires i < |hostnames|
    ensures AllRecords(hostnames[..i + 1], zones)
         == AllRecords(hostnames[..i], zones)
            + match RecordsFor(hostnames[i], zones) case Some(r) => [r] case None => []
  {
    assert hostnames[..i + 1][..i] == hostnames[..i];
  }

  lemma {:induction false} AllRecordsMeaning(hostnames: seq<string>, zones: DnsZones, r: Records)
    ensures r in AllRecords(hostnames, zones) <==> exists h :: h in hostnames && RecordsFor(h, zones) == Some(r)
  {
    if hostnames != [] {
      var front, last := hostnames[..|hostnames| - 1], hostnames[|hostnames| - 1];
      AllRecordsMeaning(front, zones, r);
      if r in AllRecords(front, zones) {
        var h :| h in front && RecordsFor(h, zones) == Some(r);
        assert h in hostnames;
      } else {
        MemberOfFrontOrLast(hostnames);
        assert r in AllRecords(hostnames, zones) <==> RecordsFor(last, zones) == Some(r);
      }
    }
  }

  lemma MemberOfFrontOrLast(s: seq<string>)
    requires s != []
    ensures forall x :: x in s <==> x in s[..|s| - 1] || x == s[|s| - 1]
  {
    assert s == s[..|s| - 1] + [s[|s| - 1]];
  }

  lemma {:induction false} NoZonesNoRecords(hostnames: seq<string>, zones: DnsZones)
    ensures |zones| == 0 ==> AllRecords(hostnames, zones) == []
  {
    if hostnames != [] {
      NoZonesNoRecords(hostnames[..|hostnames| - 1], zones);
      assert |zones| == 0 ==> zones == map[];
    }
  }

  // ----- the certificate side

  predicate ByodRecordEligible(domain: string, zoneId: string) {
    && domain != "" && zoneId != "" && !IsWildcardHost(domain)
    && ParseZoneId(zoneId).Some?
    && var zone := ParseZoneId(zoneId).value.1;
       IsApexDomain(domain, zone) || RelativeRecordName(domain, zone).Some?
  }

  datatype CertJob = CertJob(service: string, hostname: string)

  predicate OnContainerApp(svc: Service) {
    svc.hasIngress && !svc.isVirtualMachine
  }

  /** Whether a hostname as the user wrote it leads to a job. */
  predicate GetsCertificate(hostname: string, zones: DnsZones) {
    ByodRecordEligible(NormalizeDNS(hostname), ZoneFor(zones, NormalizeDNS(hostname)))
  }

  ghost predicate IsCertified(name: string, hostnames: seq<string>, zones: DnsZones) {
    exists h :: h in hostnames && GetsCertificate(h, zones) && name == NormalizeDNS(h)
  }

  ghost predicate IsDelegateJob(services: map<string, Service>, domain: string, job: CertJob) {
    && domain != "" && job.service in services && OnContainerApp(services[job.service])
    && job.hostname == job.service + "." + domain
  }

  ghost predicate IsByodJob(services: map<string, Service>, zones: DnsZones, job: CertJob) {
    && job.service in services && OnContainerApp(services[job.service])
    && IsCertified(job.hostname, ByodHostnames(services[job.service]), zones)
  }

  /** order lists the services, each once: the way one range over the map may go. */
  ghost predicate IsOrder(order: seq<string>, keys: set<string>) {
    (forall i, j :: 0 <= i < j < |order| ==> order[i] != order[j]) && (forall n :: n in order <==> n in keys)
  }

  function DelegateJobs(services: map<string, Service>, domain: string, order: seq<string>): seq<CertJob>
    requires forall n :: n in order ==> n in services
  {
    if order == [] then []
    else
      var last := order[|order| - 1];
      DelegateJobs(services, domain, order[..|order| - 1])
      + if OnContainerApp(services[last]) then [CertJob(last, last + "." + domain)] else []
  }

  function ServiceJobs(services: map<string, Service>, zones: DnsZones, order: seq<string>): seq<CertJob>
    requires forall n :: n in order ==> n in services
  {
    if order == [] then []
    else
      var last := order[|order| - 1];
      ServiceJobs(services, zones, order[..|order| - 1])
      + if OnContainerApp(services[last]) then JobsFor(last, ByodHostnames(services[last]), zones) else []
  }

  /** One job per delegate name, then one per eligible hostname, service by service in some order. */
  method CollectCertJobs(services: map<string, Service>, domain: string, zones: DnsZones)
    returns (jobs: seq<CertJob>, ghost first: seq<string>, ghost second: seq<string>)
    ensures IsOrder(first, if domain == "" then {} else services.Keys) && IsOrder(second, services.Keys)
    ensures jobs == DelegateJobs(services, domain, first) + ServiceJobs(services, zones, second)
    ensures forall job :: job in jobs <==> IsDelegateJob(services, domain, job) || IsByodJob(services, zones, job)
    ensures forall job :: job in jobs <==> job.service in services && IsAskedJob(services[job.service], domain, zones, job)
  {
    jobs, first := [], [];
    if domain != "" {
      jobs, first := CollectDelegateJobs(services, domain);
    }
    var more;
    more, second := CollectServiceJobs(services, zones);
    forall job ensures job in jobs + more <==> IsDelegateJob(services, domain, job) || IsByodJob(services, zones, job) {
      DelegateJobsMeaning(services, domain, first, job);
      ServiceJobsMeaning(services, zones, second, job);
    }
    jobs := jobs + more;
    AskedJobs(services, domain, zones);
  }

  /** Its delegate name, or one of the hostnames it asks for; only with ingress, and not on a virtual machine. */
  ghost predicate IsAskedJob(svc: Service, domain: string, zones: DnsZones, job: CertJob) {
    && svc.hasIngress && !svc.isVirtualMachine
    && ((domain != "" && job.hostname == job.service + "." + domain)
        || exists h :: AsksFor(svc, h) && GetsCertificate(h, zones) && job.hostname == NormalizeDNS(h))
  }

  lemma AskedJobs(services: map<string, Service>, domain: string, zones: DnsZones)
    ensures forall job ::
      (IsDelegateJob(services, domain, job) || IsByodJob(services, zones, job))
      <==> (job.service in services && IsAskedJob(services[job.service], domain, zones, job))
  {
    forall svc: Service, h ensures h in ByodHostnames(svc) <==> AsksFor(svc, h) {
      AskedHostnames(svc, h);
    }
  }

  method CollectDelegateJobs(services: map<string, Service>, domain: string)
    returns (jobs: seq<CertJob>, ghost order: seq<string>)
    ensures IsOrder(order, services.Keys) && jobs == DelegateJobs(services, domain, order)
  {
    jobs, order := [], [];
    var todo := services.Keys;
    while todo != {}
      invariant todo <= services.Keys && IsOrder(order, services.Keys - todo)
      invariant jobs == DelegateJobs(services, domain, order)
    {
      var name :| name in todo;
      todo := todo - {name};
      if OnContainerApp(services[name]) {
        jobs := jobs + [CertJob(name, name + "." + domain)];
      }
      assert (order + [name])[..|order|] == order;
      order := order + [name];
    }
  }

  method CollectServiceJobs(services: map<string, Service>, zones: DnsZones)
    returns (jobs: seq<CertJob>, ghost order: seq<string>)
    ensures IsOrder(order, services.Keys) && jobs == ServiceJobs(services, zones, order)
  {
    jobs, order := [], [];
    var todo := services.Keys;
    while todo != {}
      invariant todo <= services.Keys && IsOrder(order, services.Keys - todo)
      invariant jobs == ServiceJobs(services, zones, order)
    {
      var name :| name in todo;
      todo := todo - {name};
      assert (order + [name])[..|order|] == order;
      if OnContainerApp(services[name]) {
        var more := ByodJobsOf(name, services[name], zones);
        jobs := jobs + more;
      }
      order := order + [name];
    }
  }

  lemma {:induction false} DelegateJobsMeaning(
    services: map<string, Service>, domain: string, order: seq<string>, job: CertJob)
    requires forall n :: n in order ==> n in services
    ensures job in DelegateJobs(services, domain, order)
      <==> job.service in order && OnContainerApp(services[job.service]) && job.hostname == job.service + "." + domain
  {
    if order != [] {
      var front, last := order[..|order| - 1], order[|order| - 1];
      DelegateJobsMeaning(services, domain, front, job);
      assert order == front + [last];
    }
  }

  lemma {:induction false} ServiceJobsMeaning(
    services: map<string, Service>, zones: DnsZones, order: seq<string>, job: CertJob)
    requires forall n :: n in order ==> n in services
    ensures job in ServiceJobs(services, zones, order) <==> job.service in order && IsByodJob(services, zones, job)
  {
    if order != [] {
      var front, last := order[..|order| - 1], order[|order| - 1];
      ServiceJobsMeaning(services, zones, front, job);
      JobsForMeaning(last, ByodHostnames(services[last]), zones, job);
      assert order == front + [last];
    }
  }

  function JobsFor(name: string, hostnames: seq<string>, zones: DnsZones): seq<CertJob> {
    if hostnames == [] then []
    else
      var last := hostnames[|hostnames| - 1];
      JobsFor(name, hostnames[..|hostnames| - 1], zones)
      + if GetsCertificate(last, zones) then [CertJob(name, NormalizeDNS(last))] else []
  }

  lemma {:induction false} JobsForMeaning(name: string, hostnames: seq<string>, zones: DnsZones, job: CertJob)
    ensures job in JobsFor(name, hostnames, zones) <==> job.service == name && IsCertified(job.hostname, hostnames, zones)
  {
    if hostnames != [] {
      var front, last := hostnames[..|hostnames| - 1], hostnames[|hostnames| - 1];
      JobsForMeaning(name, front, zones, job);
      assert hostnames == front + [last];
      assert forall h :: h in hostnames <==> h in front || h == last;
    }
  }

  /** The inner loop: one service's hostnames. */
  method ByodJobsOf(name: string, svc: Service, zones: DnsZones) returns (jobs: seq<CertJob>)
    ensures jobs == JobsFor(name, ByodHostnames(svc), zones)
    ensures forall job :: job in jobs <==> job.service == name && IsCertified(job.hostname, ByodHostnames(svc), zones)
  {
    jobs := [];
    var hostnames := ByodHostnames(svc);
    for i := 0 to |hostnames|
      invariant jobs == JobsFor(name, hostnames[..i], zones)
    {
      var hostname := NormalizeDNS(hostnames[i]);
      assert hostnames[..i + 1][..i] == hostnames[..i];
      if ByodRecordEligible(hostname, ZoneFor(zones, hostname)) {
        jobs := jobs + [CertJob(name, hostname)];
      }
    }
    assert hostnames[..|hostnames|] == hostnames;
    forall job ensures job in jobs <==> job.service == name && IsCertified(job.hostname, hostnames, zones) {
      JobsForMeaning(name, hostnames, zones, job);
    }
  }

  // ----- where the records go

  /** The names of the routing record and of its ownership TXT, within the zone. */
  function RoutingName(kind: RecordKind): string {
    match kind case Apex => "@" case Below(relative) => relative
  }

  function OwnershipName(kind: RecordKind): string {
    match kind case Apex => "asuid" case Below(relative) => "asuid." + relative
  }

  /**
   * With a canonical zone id the records are written in its group and zone, under the hostname itself and its
   * asuid name; with an address record exactly at the zone's own name.
   */
  lemma RecordsPlaced(h: string, subscription: string, group: string, zone: string)
    requires '/' !in subscription && '/' !in group && '/' !in zone && !EqualFold(subscription, "resourceGroups")
    requires group != "" && zone != "" && !EqualFold(zone, "dnszones") && !EndsInDot(zone)
    requires AtMostOneTrailingDot(h) && NormalizeDNS(h) != "@." + NormalizeDNS(zone)
    requires RecordsIn(h, DomainZoneID(subscription, group, zone)).Some?
    ensures var r := RecordsIn(h, DomainZoneID(subscription, group, zone)).value;
      && r.hostname == h && r.resourceGroup == group && r.zone == zone
      && Absolute(RoutingName(r.kind), zone) == NormalizeDNS(h)
      && Absolute(OwnershipName(r.kind), zone) == "asuid." + NormalizeDNS(h)
      && (r.kind.Apex? <==> NormalizeDNS(h) == NormalizeDNS(zone))
  {
    CanonicalIdParses(subscription, group, zone);
    ApexExactly(h, zone);
    if NormalizeDNS(h) != NormalizeDNS(zone) {
      BelowPlaced(h, zone);
    }
  }

  lemma ApexExactly(h: string, zone: string)
    requires AtMostOneTrailingDot(h) && !EndsInDot(zone)
    ensures IsApexDomain(h, zone) <==> NormalizeDNS(h) == NormalizeDNS(zone)
  {
    OneDotNormalize(h);
    OneDotNormalize(zone);
  }

  lemma BelowPlaced(h: string, zone: string)
    requires RelativeRecordName(h, zone).Some? && NormalizeDNS(h) != NormalizeDNS(zone)
    requires NormalizeDNS(h) != "@." + NormalizeDNS(zone)
    ensures var relative := RelativeRecordName(h, zone).value;
      && Absolute(relative, zone) == NormalizeDNS(h)
      && Absolute("asuid." + relative, zone) == "asuid." + NormalizeDNS(h)
  {
    RelativeRebuilds(h, zone);
    PrefixedRebuilds("asuid", h, zone);
    NotTheZone(h, zone);
  }

  lemma NotTheZone(h: string, zone: string)
    requires RelativeRecordName(h, zone).Some? && NormalizeDNS(h) != NormalizeDNS(zone)
    requires NormalizeDNS(h) != "@." + NormalizeDNS(zone)
    ensures RelativeRecordName(h, zone).value != "@"
  {
    SuffixCut(NormalizeDNS(h), NormalizeDNS(zone));
  }

  // ----- agreement

  /** A hostname inside a zone, written with or without its trailing dots. */
  lemma InZoneEitherWay(h: string, zone: string)
    requires NormalizeDNS(h) != ""
    ensures IsApexDomain(h, zone) || RelativeRecordName(h, zone).Some?
       <==> IsApexDomain(NormalizeDNS(h), zone) || RelativeRecordName(NormalizeDNS(h), zone).Some?
  {
    NormalizeTwice(h);
    ApexIsInZone(h, zone);
    ApexIsInZone(NormalizeDNS(h), zone);
  }

  lemma ApexIsInZone(h: string, zone: string)
    requires NormalizeDNS(h) != ""
    ensures IsApexDomain(h, zone) ==> RelativeRecordName(h, zone).Some?
  {
    TrimOneFirst(h);
    TrimOneFirst(zone);
    TrimDotsLower(TrimDot(h));
    TrimDotsLower(TrimDot(zone));
  }

  /** Records are created for a hostname iff it gets a certificate job. */
  lemma RecordsIffCertificate(h: string, zones: DnsZones)
    requires NormalizeDNS(h) != "" && (IsWildcardHost(h) <==> IsWildcardHost(NormalizeDNS(h)))
    ensures RecordsFor(h, zones).Some? <==> GetsCertificate(h, zones)
  {
    var id := ZoneFor(zones, NormalizeDNS(h));
    if ParseZoneId(id).Some? {
      InZoneEitherWay(h, ParseZoneId(id).value.1);
    }
  }

  /** "*" followed by two dots or more: a wildcard as written, but not once normalised. */
  predicate IsDottedStar(h: string) {
    TrimDots(h) == "*" && |h| > 2
  }

  lemma {:induction false} TrimDotsPrefix(h: string)
    ensures |TrimDots(h)| <= |h| && TrimDots(h) == h[..|TrimDots(h)|]
    ensures forall i :: |TrimDots(h)| <= i < |h| ==> h[i] == '.'
  {
    if EndsInDot(h) {
      TrimDotsPrefix(h[..|h| - 1]);
    }
  }

  lemma WildcardSurvives(h: string)
    ensures (IsWildcardHost(h) <==> IsWildcardHost(NormalizeDNS(h))) <==> !IsDottedStar(h)
    ensures IsWildcardHost(NormalizeDNS(h)) ==> IsWildcardHost(h)
    ensures AtMostOneTrailingDot(h) ==> !IsDottedStar(h)
  {
    TrimDotsPrefix(h);
    var t := TrimDots(h);
    assert |t| >= 2 ==> Lower(t)[0] == LowerChar(h[0]) && Lower(t)[1] == LowerChar(h[1]);
    assert "*." <= h <==> |h| >= 2 && h[0] == '*' && h[1] == '.';
    assert "*." <= Lower(t) <==> |t| >= 2 && h[0] == '*' && h[1] == '.';
    if |t| == 1 {
      assert t == [h[0]];
      assert Lower(t) == [LowerChar(h[0])];
    }
  }

  /**
   * With no empty key in the zone map, a hostname with at most one trailing dot gets records iff it gets
   * a certificate job, whatever the zones, and a wildcard gets neither.
   */
  lemma RecordsAndCertificatesAgree(h: string, zones: DnsZones)
    requires "" !in zones && AtMostOneTrailingDot(h)
    ensures RecordsFor(h, zones).Some? <==> GetsCertificate(h, zones)
    ensures IsWildcardHost(h) ==> RecordsFor(h, zones).None? && !GetsCertificate(h, zones)
  {
    WildcardSurvives(h);
    if NormalizeDNS(h) != "" {
      RecordsIffCertificate(h, zones);
    }
  }

  /** Some of a service's records are for a name, once it is normalised. */
  ghost predicate HasRecords(svc: Service, zones: DnsZones, name: string) {
    exists r :: r in AllRecords(ByodHostnames(svc), zones) && NormalizeDNS(r.hostname) == name
  }

  lemma RecordsNameTheirHost(h: string, zones: DnsZones)
    ensures RecordsFor(h, zones).Some? ==> RecordsFor(h, zones).value.hostname == h
  {
  }

  /** Over a whole project: a service on a Container App gets a job for a name iff it gets records for it. */
  lemma ServiceAgrees(services: map<string, Service>, zones: DnsZones, service: string, name: string)
    requires service in services && OnContainerApp(services[service]) && "" !in zones
    requires forall h :: h in ByodHostnames(services[service]) ==> AtMostOneTrailingDot(h)
    ensures HasRecords(services[service], zones, name) <==> IsByodJob(services, zones, CertJob(service, name))
  {
    var hostnames := ByodHostnames(services[service]);
    if HasRecords(services[service], zones, name) {
      var r :| r in AllRecords(hostnames, zones) && NormalizeDNS(r.hostname) == name;
      AllRecordsMeaning(hostnames, zones, r);
      RecordsNameTheirHost(r.hostname, zones);
      RecordsAndCertificatesAgree(r.hostname, zones);
    }
    if IsByodJob(services, zones, CertJob(service, name)) {
      var h :| h in hostnames && GetsCertificate(h, zones) && name == NormalizeDNS(h);
      RecordsAndCertificatesAgree(h, zones);
      RecordsNameTheirHost(h, zones);
      AllRecordsMeaning(hostnames, zones, RecordsFor(h, zones).value);
    }
  }

  /** Without those provisos, the two sides agree on every zone map for exactly these hostnames. */
  lemma AgreementExactly(h: string)
    ensures (forall zones :: RecordsFor(h, zones).Some? <==> GetsCertificate(h, zones))
       <==> NormalizeDNS(h) != "" && !IsDottedStar(h)
  {
    WildcardSurvives(h);
    if NormalizeDNS(h) != "" && !IsDottedStar(h) {
      forall zones ensures RecordsFor(h, zones).Some? <==> GetsCertificate(h, zones) {
        RecordsIffCertificate(h, zones);
      }
    } else if IsDottedStar(h) {
      var zones := CertificateWithoutRecords(h);
      assert !(RecordsFor(h, zones).Some? <==> GetsCertificate(h, zones));
    } else {
      var zones := RecordsWithoutCertificate(h);
      assert !(RecordsFor(h, zones).Some? <==> GetsCertificate(h, zones));
    }
  }

  lemma CertificateWithoutRecords(h: string) returns (zones: DnsZones)
    requires IsDottedStar(h)
    ensures RecordsFor(h, zones).None? && GetsCertificate(h, zones)
  {
    var id := DomainZoneID("s", "g", "*");
    WildcardSurvives(h);
    assert Lower("*") == "*";
    NotReserved("s", "*");
    CanonicalIdParses("s", "g", "*");
    assert id != "";
    zones := map["*" := id];
  }

  lemma RecordsWithoutCertificate(h: string) returns (zones: DnsZones)
    requires NormalizeDNS(h) == ""
    ensures RecordsFor(h, zones).Some? && !GetsCertificate(h, zones)
  {
    TrimDotsPrefix(h);
    var zone := if h == "" then "." else h;
    var id := DomainZoneID("s", "g", zone);
    assert TrimDots(h) == "" && zone[0] == '.' && '/' !in zone;
    NotReserved("s", zone);
    CanonicalIdParses("s", "g", zone);
    NamelessRecords(h, zone, id);
    zones := map["" := id];
  }

  lemma NamelessRecords(h: string, zone: string, id: string)
    requires TrimDots(h) == "" && zone == (if h == "" then "." else h)
    requires id != "" && ParseZoneId(id) == Some(("g", zone))
    ensures RecordsFor(h, map["" := id]).Some? && !GetsCertificate(h, map["" := id])
  {
    assert IsApexDomain(h, zone) by {
      assert h == "" ==> TrimDot(".") == "";
    }
    AllDotsNoWildcard(h);
  }

  lemma AllDotsNoWildcard(h: string)
    requires TrimDots(h) == ""
    ensures !IsWildcardHost(h) && !IsWildcardHost(NormalizeDNS(h))
  {
    TrimDotsPrefix(h);
    if h != "" {
      assert h[0] == '.';
    }
  }

  lemma NotReserved(subscription: string, zone: string)
    requires subscription == "s" && zone != "" && (zone[0] == '*' || zone[0] == '.')
    ensures !EqualFold(subscription, "resourceGroups") && !EqualFold(zone, "dnszones")
  {
    assert |Lower(subscription)| != |Lower("resourceGroups")|;
    assert Lower(zone)[0] == zone[0] && Lower("dnszones")[0] == 'd';
  }

  // ----- from the zone listing to the records

  /** An entry is the best zone of the hostnames that share its key; no entry, no best zone with an id. */
  ghost predicate IsFound(hostnames: seq<string>, zones: seq<Zone>, found: DnsZones) {
    && "" !in found
    && (forall k :: k in found ==>
         found[k] != "" && exists h, name :: h in hostnames && k == ZoneKey(h) && IsBest(h, zones, name, found[k]))
    && forall h :: h in hostnames && ZoneKey(h) !in found ==> exists name :: IsBest(h, zones, name, "")
  }

  /** FindZones files a zone under the hostname less one trailing dot, in lower case. */
  method FindZones(hostnames: seq<string>, zones: seq<Zone>) returns (found: DnsZones)
    ensures IsFound(hostnames, zones, found)
  {
    found := map[];
    for i := 0 to |hostnames|
      invariant "" !in found
      invariant forall k :: k in found ==> found[k] != "" && exists h, name ::
        h in hostnames[..i] && k == ZoneKey(h) && IsBest(h, zones, name, found[k])
      invariant forall h :: h in hostnames[..i] && ZoneKey(h) !in found ==> exists name :: IsBest(h, zones, name, "")
    {
      var name, id := BestZoneMatch(hostnames[i], zones);
      assert hostnames[..i + 1] == hostnames[..i] + [hostnames[i]];
      assert ZoneKey(hostnames[i]) == "" ==> forall z :: z in zones ==> !Candidate(hostnames[i], z);
      if id != "" {
        found := found[ZoneKey(hostnames[i]) := id];
      }
    }
    assert hostnames[..|hostnames|] == hostnames;
  }

  /** The listing is Azure's: a zone's id ends in its name. */
  ghost predicate IdsFit(zones: seq<Zone>) {
    forall z :: z in zones && Usable(z) ==>
      ParseZoneId(z.id.value).Some? && ParseZoneId(z.id.value).value.1 == z.name.value
  }

  /** Every zone found for a hostname can hold its records: it is eligible, unless it is a wildcard. */
  lemma FoundZoneIsEligible(h: string, zones: seq<Zone>, name: string, id: string)
    requires IdsFit(zones) && AtMostOneTrailingDot(h)
    requires IsBest(h, zones, name, id) && name != "" && id != ""
    ensures ByodRecordEligible(NormalizeDNS(h), id) <==> !IsWildcardHost(NormalizeDNS(h))
    ensures RelativeRecordName(h, ParseZoneId(id).value.1).Some?
  {
    var i :| 0 <= i < |zones| && Candidate(h, zones[i])
      && ZoneKey(zones[i].name.value) == name && zones[i].id.value == id;
    var zone := zones[i].name.value;
    assert zones[i] in zones;
    OneDotNormalize(h);
    NormalizeTwice(h);
    HostedKeyIsNormal(NormalizeDNS(h), zone);
    RelativeIffHosted(h, zone);
    RelativeIffHosted(NormalizeDNS(h), zone);
  }

  ghost predicate IsHosted(h: string, zones: seq<Zone>) {
    exists z :: z in zones && Candidate(h, z)
  }

  /**
   * From the listing to the outcome: among the hostnames looked up, those with at most one trailing dot get
   * records and a certificate iff some zone of the listing hosts them and they are no wildcards.
   */
  lemma RecordsFromListing(hostnames: seq<string>, zones: seq<Zone>, found: DnsZones, h: string)
    requires IsFound(hostnames, zones, found) && IdsFit(zones)
    requires h in hostnames && AtMostOneTrailingDot(h)
    ensures RecordsFor(h, found).Some? <==> IsHosted(h, zones) && !IsWildcardHost(h)
    ensures GetsCertificate(h, found) <==> IsHosted(h, zones) && !IsWildcardHost(h)
  {
    RecordsAndCertificatesAgree(h, found);
    OneDotNormalize(h);
    WildcardSurvives(h);
    if ZoneKey(h) in found {
      var h', name :| h' in hostnames && ZoneKey(h) == ZoneKey(h') && IsBest(h', zones, name, found[ZoneKey(h)]);
      BestIsHosted(h, h', zones, name, found[ZoneKey(h)]);
      FoundZoneIsEligible(h, zones, name, found[ZoneKey(h)]);
    } else {
      var name :| IsBest(h, zones, name, "");
      NoIdNotHosted(h, zones, name);
    }
  }

  lemma BestIsHosted(h: string, h': string, zones: seq<Zone>, name: string, id: string)
    requires ZoneKey(h) == ZoneKey(h') && IsBest(h', zones, name, id) && id != ""
    ensures IsBest(h, zones, name, id) && name != "" && IsHosted(h, zones)
  {
    forall z ensures Candidate(h, z) <==> Candidate(h', z) {
    }
    var i :| 0 <= i < |zones| && Candidate(h', zones[i]);
    assert zones[i] in zones && Candidate(h, zones[i]);
  }

  lemma NoIdNotHosted(h: string, zones: seq<Zone>, name: string)
    requires IsBest(h, zones, name, "") && IdsFit(zones)
    ensures !IsHosted(h, zones)
  {
    BestHasId(h, zones, name, "");
  }

  lemma BestHasId(h: string, zones: seq<Zone>, name: string, id: string)
    requires IsBest(h, zones, name, id) && IdsFit(zones)
    ensures name != "" ==> id != ""
  {
    EmptyIdDoesNotParse();
    if name != "" {
      var i :| 0 <= i < |zones| && Candidate(h, zones[i]) && zones[i].id.value == id;
      assert zones[i] in zones;
    }
  }

  lemma EmptyIdDoesNotParse()
    ensures ParseZoneId("").None?
  {
  }

  /** A zone that hosts a name without trailing dots is itself written with at most one. */
  lemma HostedKeyIsNormal(host: string, zone: string)
    requires !EndsInDot(host) && ZoneKey(zone) != "" && Hosts(ZoneKey(zone), host)
    ensures NormalizeDNS(zone) == ZoneKey(zone)
  {
    var key := ZoneKey(zone);
    assert host[|host| - 1] == key[|key| - 1] by {
      if host != key {
        assert host[|host| - |key| - 1..] == "." + key;
      }
    }
    OneDotNormalize(zone);
  }
}
