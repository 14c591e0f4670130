/**
 * DNS names, zones and record names on Azure: provider/common/dns.go, and from provider/defangazure/azure
 * dnszone.go, the parsing half of customdomain.go and the naming half of frontdoor.go. Names are ASCII.
 */
module Dns {
  import opened Options
  import opened Strings

  // ----- names

  function LowerChar(c: char): char {
    if 'A' <= c <= 'Z' then (c as int + 32) as char else c
  }

  function Lower(s: string): (r: string)
    ensures |r| == |s|
  {
    seq(|s|, i requires 0 <= i < |s| => LowerChar(s[i]))
  }

  const UPPER := "ABCDEFGHIJKLMNOPQRSTUVWXYZ"
  const LOWER := "abcdefghijklmnopqrstuvwxyz"

  /** Capital letters become small ones, and nothing else changes. */
  lemma LowerMeaning(s: string, i: nat)
    requires i < |s|
    ensures forall k :: 0 <= k < 26 && UPPER[k] == s[i] ==> Lower(s)[i] == LOWER[k]
    ensures s[i] !in UPPER ==> Lower(s)[i] == s[i]
  {
    assert forall k :: 0 <= k < 26 ==> UPPER[k] as int == 'A' as int + k && LOWER[k] as int == 'a' as int + k;
    if 'A' <= s[i] <= 'Z' {
      assert UPPER[s[i] as int - 'A' as int] == s[i];
    }
  }

  predicate EqualFold(a: string, b: string) {
    Lower(a) == Lower(b)
  }

  predicate EndsInDot(s: string) {
    s != "" && s[|s| - 1] == '.'
  }

  /** strings.TrimSuffix(s, "."): one dot at most. */
  function TrimDot(s: string): string {
    if EndsInDot(s) then s[..|s| - 1] else s
  }

  /** strings.TrimRight(s, "."): every trailing dot. */
  function TrimDots(s: string): (r: string)
    ensures !EndsInDot(r)
  {
    if EndsInDot(s) then TrimDots(s[..|s| - 1]) else s
  }

  function NormalizeDNS(name: string): string {
    Lower(TrimDots(name))
  }

  predicate IsWildcardHost(hostname: string) {
    "*." <= hostname && hostname[2..] != ""
  }

  /** Whatever dots follow a name that does not end in one, normalising it gives the name in lower case. */
  lemma {:induction false} NormalizeMeaning(host: string, dots: nat)
    requires !EndsInDot(host)
    ensures NormalizeDNS(host + Dots(dots)) == Lower(host)
  {
    if dots == 0 {
      assert host + Dots(0) == host;
    } else {
      assert (host + Dots(dots))[..|host| + dots - 1] == host + Dots(dots - 1);
      NormalizeMeaning(host, dots - 1);
    }
  }

  function Dots(n: nat): string {
    seq(n, _ => '.')
  }

  /** A wildcard is a star, a dot, and something. */
  lemma WildcardMeaning(hostname: string)
    ensures IsWildcardHost(hostname) <==> exists base :: base != "" && hostname == "*." + base
  {
    if IsWildcardHost(hostname) {
      assert hostname == "*." + hostname[2..];
    }
    forall base: string | base != "" && hostname == "*." + base ensures IsWildcardHost(hostname) {
      assert hostname[2..] == base;
    }
  }

  lemma LowerTwice(s: string)
    ensures Lower(Lower(s)) == Lower(s)
  {
  }

  lemma {:induction false} TrimDotsLower(s: string)
    ensures TrimDots(Lower(s)) == Lower(TrimDots(s))
    decreases |s|
  {
    if s != "" {
      assert Lower(s)[..|s| - 1] == Lower(s[..|s| - 1]);
      TrimDotsLower(s[..|s| - 1]);
    }
  }

  lemma NormalizeTwice(s: string)
    ensures NormalizeDNS(NormalizeDNS(s)) == NormalizeDNS(s)
    ensures !EndsInDot(NormalizeDNS(s))
  {
    TrimDotsLower(TrimDots(s));
    LowerTwice(TrimDots(s));
  }

  lemma TrimOneFirst(s: string)
    ensures TrimDots(TrimDot(s)) == TrimDots(s)
  {
  }

  predicate AtMostOneTrailingDot(s: string) {
    !EndsInDot(TrimDot(s))
  }

  lemma OneDotNormalize(s: string)
    requires AtMostOneTrailingDot(s)
    ensures NormalizeDNS(s) == Lower(TrimDot(s))
  {
    TrimOneFirst(s);
  }

  // ----- zone ids

  function TrimLeftSlashes(s: string): string {
    if s != "" && s[0] == '/' then TrimLeftSlashes(s[1..]) else s
  }

  function TrimRightSlashes(s: string): string {
    if s != "" && s[|s| - 1] == '/' then TrimRightSlashes(s[..|s| - 1]) else s
  }

  /** strings.Split(strings.Trim(id, "/"), "/") */
  function Segments(id: string): (parts: seq<string>)
    ensures parts != []
  {
    Split(TrimRightSlashes(TrimLeftSlashes(id)), '/')
  }

  /** What follows the first "resourceGroups" segment that something follows. */
  function ResourceGroup(parts: seq<string>): string {
    if |parts| <= 1 then ""
    else if EqualFold(parts[0], "resourceGroups") then parts[1]
    else ResourceGroup(parts[1..])
  }

  function ParseZoneId(id: string): Option<(string, string)> {
    var parts := Segments(id);
    var group, zone := ResourceGroup(parts), parts[|parts| - 1];
    if group == "" || zone == "" || EqualFold(zone, "dnszones") then None else Some((group, zone))
  }

  method ParseDNSZoneID(id: string) returns (resourceGroup: string, zoneName: string, ok: bool)
    ensures ok <==> ParseZoneId(id).Some?
    ensures ok ==> ParseZoneId(id) == Some((resourceGroup, zoneName))
  {
    resourceGroup := "";
    var parts := Segments(id);
    for i := 0 to |parts|
      invariant resourceGroup == ""
      invariant ResourceGroup(parts) == ResourceGroup(parts[i..])
    {
      assert parts[i..][1..] == parts[i + 1..];
      if EqualFold(parts[i], "resourceGroups") && i + 1 < |parts| {
        resourceGroup := parts[i + 1];
        break;
      }
    }
    zoneName := parts[|parts| - 1];
    if resourceGroup == "" || zoneName == "" || EqualFold(zoneName, "dnszones") {
      return "", "", false;
    }
    ok := true;
  }

  function DomainZoneID(subscription: string, resourceGroup: string, zone: string): string {
    "/" + Join(["subscriptions", subscription, "resourceGroups", resourceGroup,
                "providers", "Microsoft.Network", "dnszones", zone], '/')
  }

  /** The canonical form, segment by segment, as Azure writes it. */
  lemma CanonicalIdText(subscription: string, resourceGroup: string, zone: string)
    ensures DomainZoneID(subscription, resourceGroup, zone)
         == "/" + ("subscriptions" + ("/" + (subscription + ("/" + ("resourceGroups" + ("/" + (resourceGroup
            + ("/" + ProviderPath(zone)))))))))
  {
    var provider := ["providers", "Microsoft.Network", "dnszones", zone];
    ProviderText(zone);
    JoinCons(resourceGroup, provider);
    JoinCons("resourceGroups", [resourceGroup] + provider);
    JoinCons(subscription, ["resourceGroups"] + ([resourceGroup] + provider));
    JoinCons("subscriptions", [subscription] + (["resourceGroups"] + ([resourceGroup] + provider)));
    assert ["subscriptions"] + ([subscription] + (["resourceGroups"] + ([resourceGroup] + provider)))
        == ["subscriptions", subscription, "resourceGroups", resourceGroup,
            "providers", "Microsoft.Network", "dnszones", zone];
  }

  function ProviderPath(zone: string): string {
    "providers" + ("/" + ("Microsoft.Network" + ("/" + ("dnszones" + ("/" + zone)))))
  }

  lemma ProviderText(zone: string)
    ensures Join(["providers", "Microsoft.Network", "dnszones", zone], '/') == ProviderPath(zone)
  {
    JoinCons("dnszones", [zone]);
    JoinCons("Microsoft.Network", ["dnszones"] + [zone]);
    JoinCons("providers", ["Microsoft.Network"] + (["dnszones"] + [zone]));
    assert ["providers"] + (["Microsoft.Network"] + (["dnszones"] + [zone]))
        == ["providers", "Microsoft.Network", "dnszones", zone];
  }

  lemma JoinCons(first: string, rest: seq<string>)
    requires rest != []
    ensures Join([first] + rest, '/') == first + ("/" + Join(rest, '/'))
  {
    assert ([first] + rest)[1..] == rest;
    Slashed(first, Join(rest, '/'));
  }

  lemma Slashed(a: string, b: string)
    ensures a + ['/'] + b == a + ("/" + b)
  {
  }

  /** A canonical id gives back the group and zone it was made from. */
  lemma CanonicalIdParses(subscription: string, resourceGroup: string, zone: string)
    requires '/' !in subscription && '/' !in resourceGroup && '/' !in zone
    requires !EqualFold(subscription, "resourceGroups")
    requires resourceGroup != "" && zone != "" && !EqualFold(zone, "dnszones")
    ensures ParseZoneId(DomainZoneID(subscription, resourceGroup, zone)) == Some((resourceGroup, zone))
  {
    var parts := ["subscriptions", subscription, "resourceGroups", resourceGroup,
                  "providers", "Microsoft.Network", "dnszones", zone];
    FixedSegments();
    forall p | p in parts ensures '/' !in p {
    }
    SplitJoin(parts, '/');
    TrimsToJoin(parts);
    assert ResourceGroup(parts) == resourceGroup by {
      assert parts[1..][0] == subscription && parts[1..][1..] == parts[2..];
      assert parts[2..][0] == "resourceGroups" && parts[2..][1] == resourceGroup;
      assert ResourceGroup(parts[2..]) == resourceGroup;
      assert ResourceGroup(parts[1..]) == resourceGroup;
    }
  }

  lemma FixedSegments()
    ensures '/' !in "subscriptions" && '/' !in "resourceGroups" && '/' !in "providers"
    ensures '/' !in "Microsoft.Network" && '/' !in "dnszones"
    ensures !EqualFold("subscriptions", "resourceGroups")
  {
    assert Lower("subscriptions")[0] == 's' && Lower("resourceGroups")[0] == 'r';
  }

  lemma TrimsToJoin(parts: seq<string>)
    requires |parts| >= 2 && parts[0] != "" && parts[|parts| - 1] != "" && forall p :: p in parts ==> '/' !in p
    ensures Segments("/" + Join(parts, '/')) == Split(Join(parts, '/'), '/')
  {
    var body, first, last := Join(parts, '/'), parts[0], parts[|parts| - 1];
    JoinEnds(parts, '/');
    assert first[0] in first && last[|last| - 1] in last && first in parts && last in parts;
    assert body[0] != '/' && body[|body| - 1] != '/';
    assert ("/" + body)[1..] == body;
    assert TrimLeftSlashes("/" + body) == TrimLeftSlashes(body) == body;
    assert TrimRightSlashes(body) == body;
  }

  lemma {:induction false} JoinEnds(parts: seq<string>, sep: char)
    requires parts != [] && parts[0] != "" && parts[|parts| - 1] != ""
    ensures var body := Join(parts, sep);
      body != "" && body[0] == parts[0][0] && body[|body| - 1] == parts[|parts| - 1][|parts[|parts| - 1]| - 1]
  {
    LastOfJoin(parts, sep);
  }

  lemma {:induction false} LastOfJoin(parts: seq<string>, sep: char)
    requires parts != [] && parts[|parts| - 1] != ""
    ensures var body := Join(parts, sep);
      body != "" && body[|body| - 1] == parts[|parts| - 1][|parts[|parts| - 1]| - 1]
  {
    if |parts| > 1 {
      LastOfJoin(parts[1..], sep);
    }
  }

  // ----- the closest zone

  /** A listed zone; Azure may leave either field out. */
  datatype Zone = Zone(name: Option<string>, id: Option<string>)

  function ZoneKey(name: string): string {
    Lower(TrimDot(name))
  }

  predicate Hosts(zoneKey: string, domain: string) {
    domain == zoneKey || HasSuffix(domain, "." + zoneKey)
  }

  predicate Usable(z: Zone) {
    z.name.Some? && z.id.Some?
  }

  /** A zone that holds the domain; the nameless zone never wins. */
  predicate Candidate(domain: string, z: Zone) {
    Usable(z) && ZoneKey(z.name.value) != "" && Hosts(ZoneKey(z.name.value), ZoneKey(domain))
  }

  /** The longest matching name, with the id of the first zone that carries it. */
  ghost predicate IsBest(domain: string, zones: seq<Zone>, name: string, id: string) {
    if name == "" then id == "" && forall z :: z in zones ==> !Candidate(domain, z)
    else
      && (forall z :: z in zones && Candidate(domain, z) ==> |ZoneKey(z.name.value)| <= |name|)
      && exists i :: 0 <= i < |zones| && Candidate(domain, zones[i])
           && ZoneKey(zones[i].name.value) == name && zones[i].id.value == id
           && forall j :: 0 <= j < i && Candidate(domain, zones[j]) ==> ZoneKey(zones[j].name.value) != name
  }

  method BestZoneMatch(domain: string, zones: seq<Zone>) returns (bestName: string, bestId: string)
    ensures IsBest(domain, zones, bestName, bestId)
  {
    var d := ZoneKey(domain);
    bestName, bestId := "", "";
    for i := 0 to |zones|
      invariant IsBest(domain, zones[..i], bestName, bestId)
    {
      var z := zones[i];
      ghost var before := zones[..i];
      assert zones[..i + 1] == before + [z];
      if z.name.None? || z.id.None? {
        assert !Candidate(domain, z);
        BestKept(domain, before, z, bestName, bestId);
        continue;
      }
      var name := ZoneKey(z.name.value);
      if d != name && !HasSuffix(d, "." + name) {
        BestKept(domain, before, z, bestName, bestId);
        continue;
      }
      if |name| > |bestName| {
        BestReplaced(domain, before, z, bestName, bestId);
        bestName, bestId := name, z.id.value;
      } else {
        BestKept(domain, before, z, bestName, bestId);
      }
    }
    assert zones[..|zones|] == zones;
  }

  lemma BestKept(domain: string, zones: seq<Zone>, z: Zone, name: string, id: string)
    requires IsBest(domain, zones, name, id)
    requires Candidate(domain, z) ==> |ZoneKey(z.name.value)| <= |name|
    ensures IsBest(domain, zones + [z], name, id)
  {
    var all := zones + [z];
    if name != "" {
      var i :| 0 <= i < |zones| && Candidate(domain, zones[i])
        && ZoneKey(zones[i].name.value) == name && zones[i].id.value == id
        && forall j :: 0 <= j < i && Candidate(domain, zones[j]) ==> ZoneKey(zones[j].name.value) != name;
      assert forall j :: 0 <= j <= i ==> all[j] == zones[j];
      assert Candidate(domain, all[i]) && ZoneKey(all[i].name.value) == name && all[i].id.value == id;
    }
  }

  lemma BestReplaced(domain: string, zones: seq<Zone>, z: Zone, name: string, id: string)
    requires IsBest(domain, zones, name, id)
    requires Candidate(domain, z) && |ZoneKey(z.name.value)| > |name|
    ensures IsBest(domain, zones + [z], ZoneKey(z.name.value), z.id.value)
  {
    var all := zones + [z];
    assert all[|zones|] == z;
    assert forall j :: 0 <= j < |zones| ==> all[j] == zones[j] && all[j] in zones;
  }

  /** Two names that both host a domain and are equally long are the same. */
  lemma SameLengthSameZone(a: string, b: string, domain: string)
    requires Hosts(a, domain) && Hosts(b, domain) && |a| == |b|
    ensures a == b
  {
    assert a == domain[|domain| - |a|..] by {
      if domain != a {
        assert domain[|domain| - |a|..] == domain[|domain| - |a| - 1..][1..] == ("." + a)[1..];
      }
    }
    assert b == domain[|domain| - |b|..] by {
      if domain != b {
        assert domain[|domain| - |b|..] == domain[|domain| - |b| - 1..][1..] == ("." + b)[1..];
      }
    }
  }

  /** The name found does not depend on the order in which the zones are listed. */
  lemma BestNameIgnoresOrder(domain: string, a: seq<Zone>, b: seq<Zone>, na: string, ia: string, nb: string, ib: string)
    requires forall z :: z in a <==> z in b
    requires IsBest(domain, a, na, ia) && IsBest(domain, b, nb, ib)
    ensures na == nb
  {
    if na != "" && nb != "" {
      SameLengthSameZone(na, nb, ZoneKey(domain));
    }
  }

  // ----- record names

  function RelativeRecordName(fqdn: string, zone: string): Option<string> {
    var f, z := NormalizeDNS(fqdn), NormalizeDNS(zone);
    if z == "" then None
    else if f == z then Some("@")
    else if HasSuffix(f, "." + z) then Some(f[..|f| - |z| - 1])
    else None
  }

  function JoinLabels(prefix: string, relative: string): string {
    if relative == "@" then prefix else prefix + "." + relative
  }

  /** What Azure makes of a record name: "@" is the zone itself, anything else a name below it. */
  function Absolute(relative: string, zone: string): string {
    if relative == "@" then NormalizeDNS(zone) else relative + "." + NormalizeDNS(zone)
  }

  /** The relative name stands for the host it was made from, a first label "@" right below the zone apart. */
  lemma RelativeRebuilds(fqdn: string, zone: string)
    requires RelativeRecordName(fqdn, zone).Some?
    ensures Absolute(RelativeRecordName(fqdn, zone).value, zone) == NormalizeDNS(fqdn)
       <==> NormalizeDNS(fqdn) != "@." + NormalizeDNS(zone)
  {
    var f, z := NormalizeDNS(fqdn), NormalizeDNS(zone);
    if f != z {
      SuffixCut(f, z);
    }
  }

  lemma SuffixCut(f: string, z: string)
    requires HasSuffix(f, "." + z)
    ensures var r := f[..|f| - |z| - 1]; f == r + "." + z && (r == "@" <==> f == "@." + z)
  {
    var r := f[..|f| - |z| - 1];
    assert f == r + ("." + z) == r + "." + z;
    assert f == "@." + z ==> r == ("@." + z)[..1] == "@";
  }

  /** Prefixing a label to the record name prefixes it to the host. */
  lemma PrefixedRebuilds(prefix: string, fqdn: string, zone: string)
    requires RelativeRecordName(fqdn, zone).Some? && NormalizeDNS(fqdn) != "@." + NormalizeDNS(zone)
    requires prefix != "@"
    ensures Absolute(JoinLabels(prefix, RelativeRecordName(fqdn, zone).value), zone)
         == prefix + "." + NormalizeDNS(fqdn)
  {
    var r, z := RelativeRecordName(fqdn, zone).value, NormalizeDNS(zone);
    RelativeRebuilds(fqdn, zone);
    if r != "@" {
      var joined := prefix + "." + r;
      assert |joined| >= |prefix| + 1 && joined[|prefix|] == '.';
      assert joined != "@" by {
        if |joined| == 1 { assert joined == "."; }
      }
      assert joined + "." + z == prefix + "." + (r + "." + z);
    }
  }

  /** A name is expressible in a zone exactly when the zone hosts it. */
  lemma RelativeIffHosted(fqdn: string, zone: string)
    ensures RelativeRecordName(fqdn, zone).Some?
       <==> NormalizeDNS(zone) != "" && Hosts(NormalizeDNS(zone), NormalizeDNS(fqdn))
  {
  }
}
