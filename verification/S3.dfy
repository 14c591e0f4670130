/** Recognising S3 endpoints and build context locations (provider/defangaws/aws/codebuild.go). */
module S3 {
  import opened Options
  import opened Strings

  const SUFFIX := ".amazonaws.com"

  // ----- the endpoint shapes, as documented

  datatype Endpoint =
    | Global                           // s3
    | Regional(region: string)         // s3.<region>
    | LegacyRegional(region: string)   // s3-<region>
    | DualStack(region: string)        // s3.dualstack.<region>

  function EndpointLabels(e: Endpoint): seq<string> {
    match e
    case Global => ["s3"]
    case Regional(r) => ["s3", r]
    case LegacyRegional(r) => ["s3-" + r]
    case DualStack(r) => ["s3", "dualstack", r]
  }

  /** A region is one label; "dualstack" is never one, and the dash form needs something after the dash. */
  predicate IsEndpoint(e: Endpoint) {
    match e
    case Global => true
    case Regional(r) => '.' !in r && r != "dualstack"
    case LegacyRegional(r) => '.' !in r && r != ""
    case DualStack(r) => '.' !in r
  }

  predicate AreLabels(labels: seq<string>) {
    forall l :: l in labels ==> '.' !in l
  }

  function HostOf(bucket: seq<string>, e: Endpoint): string {
    Join(bucket + EndpointLabels(e), '.') + SUFFIX
  }

  // ----- the parser

  /** How many labels from the right make up the endpoint; 0 when there is none. */
  function EndpointLength(labels: seq<string>): (n: nat)
    requires labels != []
    ensures n <= |labels|
  {
    var s3 := |labels| - 1;
    if s3 >= 2 && labels[s3 - 2] == "s3" && labels[s3 - 1] == "dualstack" then 3
    else if s3 >= 1 && labels[s3 - 1] == "s3" && labels[s3] != "dualstack" then 2
    else if labels[s3] == "s3" || (|labels[s3]| > |"s3-"| && "s3-" <= labels[s3]) then 1
    else 0
  }

  function ParseHost(host: string): Option<string> {
    if !HasSuffix(host, SUFFIX) then None
    else
      var labels := Split(host[..|host| - |SUFFIX|], '.');
      var n := EndpointLength(labels);
      if n == 0 then None else Some(Join(labels[..|labels| - n], '.'))
  }

  /** The same, as written: an index is moved to the left edge of the endpoint. */
  method ParseS3Host(host: string) returns (bucket: string, ok: bool)
    ensures ok <==> ParseHost(host).Some?
    ensures ok ==> ParseHost(host) == Some(bucket)
  {
    if !HasSuffix(host, SUFFIX) {
      return "", false;
    }
    var labels := Split(host[..|host| - |SUFFIX|], '.');
    var s3 := |labels| - 1;
    if s3 >= 2 && labels[s3 - 2] == "s3" && labels[s3 - 1] == "dualstack" {
      s3 := s3 - 2;
    } else if s3 >= 1 && labels[s3 - 1] == "s3" && labels[s3] != "dualstack" {
      s3 := s3 - 1;
    } else if labels[s3] == "s3" || (|labels[s3]| > |"s3-"| && "s3-" <= labels[s3]) {
    } else {
      return "", false;
    }
    return Join(labels[..s3], '.'), true;
  }

  // ----- exactly the documented shapes are accepted

  /** The endpoint a non-zero length stands for. */
  function EndpointAt(labels: seq<string>): (e: Endpoint)
    requires labels != [] && AreLabels(labels) && EndpointLength(labels) > 0
    ensures IsEndpoint(e) && labels == labels[..|labels| - EndpointLength(labels)] + EndpointLabels(e)
  {
    var n, last := EndpointLength(labels), labels[|labels| - 1];
    assert last in labels;
    assert n > 1 ==> labels[|labels| - 2] in labels;
    if n == 3 then DualStack(last)
    else if n == 2 then Regional(last)
    else if last == "s3" then Global
    else
      assert last == "s3-" + last[3..];
      LegacyRegional(last[3..])
  }

  lemma EndpointAccepted(bucket: seq<string>, e: Endpoint)
    requires IsEndpoint(e)
    ensures EndpointLength(bucket + EndpointLabels(e)) >= |EndpointLabels(e)|
    ensures (e.Regional? || e.DualStack?) ==> EndpointLength(bucket + EndpointLabels(e)) == |EndpointLabels(e)|
  {
    var labels := bucket + EndpointLabels(e);
    var s3 := |labels| - 1;
    match e {
      case Global => assert labels[s3] == "s3";
      case Regional(r) => assert labels[s3] == r && labels[s3 - 1] == "s3" && "s3" != "dualstack";
      case LegacyRegional(r) =>
        assert labels[s3] == "s3-" + r;
        assert labels[s3] != "dualstack" by { assert labels[s3][0] == 's'; }
      case DualStack(r) => assert labels[s3] == r && labels[s3 - 1] == "dualstack" && labels[s3 - 2] == "s3";
    }
  }

  lemma LabelsOfHost(labels: seq<string>)
    requires labels != [] && AreLabels(labels)
    ensures var host := Join(labels, '.') + SUFFIX;
      HasSuffix(host, SUFFIX) && Split(host[..|host| - |SUFFIX|], '.') == labels
  {
    var host := Join(labels, '.') + SUFFIX;
    assert host[..|host| - |SUFFIX|] == Join(labels, '.');
    SplitJoin(labels, '.');
  }

  ghost predicate IsS3Host(host: string) {
    exists bucket, e :: AreLabels(bucket) && IsEndpoint(e) && host == HostOf(bucket, e)
  }

  /** A host is taken for S3 iff it is one of the four endpoints, with or without a bucket in front. */
  lemma AcceptedExactly(host: string)
    ensures ParseHost(host).Some? <==> IsS3Host(host)
  {
    if ParseHost(host).Some? {
      var rest := host[..|host| - |SUFFIX|];
      var labels := Split(rest, '.');
      JoinSplit(rest, '.');
      var e, bucket := EndpointAt(labels), labels[..|labels| - EndpointLength(labels)];
      assert AreLabels(bucket);
      assert host == rest + SUFFIX == HostOf(bucket, e);
    }
    if IsS3Host(host) {
      var bucket, e :| AreLabels(bucket) && IsEndpoint(e) && host == HostOf(bucket, e);
      EndpointHostLabels(bucket, e);
      EndpointAccepted(bucket, e);
    }
  }

  lemma EndpointHostLabels(bucket: seq<string>, e: Endpoint)
    requires AreLabels(bucket) && IsEndpoint(e)
    ensures var host := HostOf(bucket, e);
      HasSuffix(host, SUFFIX) && Split(host[..|host| - |SUFFIX|], '.') == bucket + EndpointLabels(e)
  {
    assert AreLabels(EndpointLabels(e));
    LabelsOfHost(bucket + EndpointLabels(e));
  }

  // ----- the bucket comes back

  predicate EndsWith(labels: seq<string>, tail: seq<string>) {
    |tail| <= |labels| && labels[|labels| - |tail|..] == tail
  }

  /** The bucket's last labels and a legacy endpoint together read as another endpoint. */
  predicate Misread(bucket: seq<string>, e: Endpoint) {
    (e.Global? || e.LegacyRegional?) && (EndsWith(bucket, ["s3"]) || EndsWith(bucket, ["s3", "dualstack"]))
  }

  lemma LegacyLength(bucket: seq<string>, e: Endpoint)
    requires IsEndpoint(e) && (e.Global? || e.LegacyRegional?)
    ensures EndpointLength(bucket + EndpointLabels(e))
         == if EndsWith(bucket, ["s3", "dualstack"]) then 3 else if EndsWith(bucket, ["s3"]) then 2 else 1
  {
    EndpointAccepted(bucket, e);
    var last := EndpointLabels(e)[0];
    assert last[0] == 's';
    LengthBefore(bucket, last);
    assert EndpointLabels(e) == [last];
  }

  /** What the labels in front of the last one make of it. */
  lemma LengthBefore(bucket: seq<string>, last: string)
    requires last != "dualstack" && EndpointLength(bucket + [last]) >= 1
    ensures EndpointLength(bucket + [last])
         == if EndsWith(bucket, ["s3", "dualstack"]) then 3 else if EndsWith(bucket, ["s3"]) then 2 else 1
  {
    var labels, s3 := bucket + [last], |bucket|;
    assert EndsWith(bucket, ["s3"]) <==> s3 >= 1 && bucket[s3 - 1] == "s3";
    assert EndsWith(bucket, ["s3", "dualstack"]) <==> s3 >= 2 && bucket[s3 - 2] == "s3" && bucket[s3 - 1] == "dualstack" by {
      if s3 >= 2 {
        assert bucket[s3 - 2..] == [bucket[s3 - 2], bucket[s3 - 1]];
      }
    }
  }

  lemma {:induction false} ShorterJoin(labels: seq<string>, n: nat, sep: char)
    requires n < |labels| && (n == 0 ==> labels[0] != "")
    ensures |Join(labels[..n], sep)| < |Join(labels, sep)|
  {
    if n == 0 {
      if |labels| > 1 { assert |Join(labels, sep)| >= |labels[0]| + 1; }
    } else if n == 1 {
      assert labels[..1] == [labels[0]];
    } else {
      assert labels[..n][1..] == labels[1..][..n - 1] && labels[..n][0] == labels[0];
      ShorterTail(labels[1..], n - 1, sep);
    }
  }

  lemma {:induction false} ShorterTail(labels: seq<string>, n: nat, sep: char)
    requires 0 < n < |labels|
    ensures |Join(labels[..n], sep)| < |Join(labels, sep)|
  {
    if n == 1 {
      assert labels[..1] == [labels[0]];
    } else {
      assert labels[..n][1..] == labels[1..][..n - 1] && labels[..n][0] == labels[0];
      ShorterTail(labels[1..], n - 1, sep);
    }
  }

  /** How many labels of the bucket the endpoint swallows. */
  function Swallowed(bucket: seq<string>, e: Endpoint): nat {
    if !Misread(bucket, e) then 0 else if EndsWith(bucket, ["s3", "dualstack"]) then 2 else 1
  }

  lemma SwallowedLabels(bucket: seq<string>, e: Endpoint)
    requires IsEndpoint(e)
    ensures EndpointLength(bucket + EndpointLabels(e)) == |EndpointLabels(e)| + Swallowed(bucket, e)
    ensures Swallowed(bucket, e) <= |bucket|
  {
    if e.Global? || e.LegacyRegional? {
      LegacyLength(bucket, e);
    } else {
      EndpointAccepted(bucket, e);
    }
  }

  lemma WhatIsParsed(bucket: seq<string>, e: Endpoint)
    requires AreLabels(bucket) && IsEndpoint(e)
    ensures Swallowed(bucket, e) <= |bucket|
    ensures ParseHost(HostOf(bucket, e)) == Some(Join(bucket[..|bucket| - Swallowed(bucket, e)], '.'))
  {
    EndpointHostLabels(bucket, e);
    SwallowedLabels(bucket, e);
    KeptLabels(bucket, EndpointLabels(e));
  }

  /** The bucket is recovered exactly unless it ends in "s3" or "s3.dualstack" before a legacy endpoint. */
  lemma BucketRecovered(bucket: seq<string>, e: Endpoint)
    requires AreLabels(bucket) && IsEndpoint(e)
    ensures ParseHost(HostOf(bucket, e)) == Some(Join(bucket, '.')) <==> !Misread(bucket, e)
  {
    WhatIsParsed(bucket, e);
    if Misread(bucket, e) {
      MisreadShorter(bucket, Swallowed(bucket, e));
    } else {
      assert bucket[..|bucket| - 0] == bucket;
    }
  }

  lemma KeptLabels(bucket: seq<string>, tail: seq<string>)
    requires bucket + tail != [] && EndpointLength(bucket + tail) >= |tail|
    ensures var labels := bucket + tail; var n := EndpointLength(labels);
      labels[..|labels| - n] == bucket[..|bucket| + |tail| - n]
  {
  }

  lemma MisreadShorter(bucket: seq<string>, lost: nat)
    requires (lost == 1 && EndsWith(bucket, ["s3"])) || (lost == 2 && EndsWith(bucket, ["s3", "dualstack"]))
    ensures Join(bucket[..|bucket| - lost], '.') != Join(bucket, '.')
  {
    if |bucket| == lost {
      assert bucket[0] == bucket[|bucket| - lost..][0] == "s3";
    }
    ShorterJoin(bucket, |bucket| - lost, '.');
  }

  // ----- one location, three ways to write it

  /** What url.Parse makes of a source URL; port is what follows the host name, if anything. */
  datatype Url = Url(scheme: string, hostname: string, port: string, escapedPath: string)

  datatype Location = Location(text: string) | NotS3 | NoObjectKey | Incomplete

  function TrimSlash(path: string): string {
    if "/" <= path then path[1..] else path
  }

  function NormalizeLocation(u: Url): Location {
    var path := TrimSlash(u.escapedPath);
    if u.scheme == "s3" then Finish(u.hostname + u.port, path)
    else if u.scheme == "http" || u.scheme == "https" then
      match ParseHost(u.hostname)
      case None => NotS3
      case Some(bucket) =>
        if bucket != "" then Finish(bucket, path)
        else
          var i := IndexOf(path, '/');
          if i == -1 then NoObjectKey else Finish(path[..i], path[i + 1..])
    else NotS3
  }

  function Finish(bucket: string, objectKey: string): Location {
    if bucket == "" || objectKey == "" then Incomplete else Location(bucket + "/" + objectKey)
  }

  /** The s3, virtual-hosted and path-style URLs of one object normalise to the same location. */
  lemma ThreeWaysOneLocation(bucket: string, key: string, e: Endpoint, f: Endpoint, scheme: string, port: string)
    requires bucket != "" && '/' !in bucket && key != "" && IsEndpoint(e) && IsEndpoint(f)
    requires (scheme == "http" || scheme == "https") && !Misread(Split(bucket, '.'), e)
    ensures NormalizeLocation(Url("s3", bucket, "", "/" + key)) == Location(bucket + "/" + key)
    ensures NormalizeLocation(Url(scheme, HostOf(Split(bucket, '.'), e), port, "/" + key)) == Location(bucket + "/" + key)
    ensures NormalizeLocation(Url(scheme, HostOf([], f), port, "/" + (bucket + "/" + key))) == Location(bucket + "/" + key)
  {
    HostNamesBucket(bucket, e);
    BucketInHost(HostOf(Split(bucket, '.'), e), bucket, key, scheme, port);
    BareHost(f);
    BucketInPath(HostOf([], f), bucket, key, bucket + "/" + key, scheme, port);
    BucketInScheme(bucket, key);
  }

  lemma HostNamesBucket(bucket: string, e: Endpoint)
    requires IsEndpoint(e) && !Misread(Split(bucket, '.'), e)
    ensures ParseHost(HostOf(Split(bucket, '.'), e)) == Some(bucket)
  {
    JoinSplit(bucket, '.');
    BucketRecovered(Split(bucket, '.'), e);
  }

  lemma BareHost(f: Endpoint)
    requires IsEndpoint(f)
    ensures ParseHost(HostOf([], f)) == Some("")
  {
    BucketRecovered([], f);
  }

  lemma BucketInScheme(bucket: string, key: string)
    requires bucket != "" && key != ""
    ensures NormalizeLocation(Url("s3", bucket, "", "/" + key)) == Location(bucket + "/" + key)
  {
    assert TrimSlash("/" + key) == key;
    assert bucket + "" == bucket;
  }

  lemma BucketInHost(host: string, bucket: string, key: string, scheme: string, port: string)
    requires bucket != "" && key != "" && (scheme == "http" || scheme == "https")
    requires ParseHost(host) == Some(bucket)
    ensures NormalizeLocation(Url(scheme, host, port, "/" + key)) == Location(bucket + "/" + key)
  {
    assert TrimSlash("/" + key) == key;
  }

  lemma BucketInPath(host: string, bucket: string, key: string, path: string, scheme: string, port: string)
    requires bucket != "" && '/' !in bucket && key != "" && path == bucket + "/" + key
    requires (scheme == "http" || scheme == "https") && ParseHost(host) == Some("")
    ensures NormalizeLocation(Url(scheme, host, port, "/" + path)) == Location(path)
  {
    assert TrimSlash("/" + path) == path;
    FirstIndex(bucket, '/', key);
    assert path[..|bucket|] == bucket && path[|bucket| + 1..] == key;
  }

  /** The object a URL names: by scheme, by host name, or by the first segment of its path. */
  ghost predicate Names(u: Url, bucket: string, key: string) {
    var path := TrimSlash(u.escapedPath);
    || (u.scheme == "s3" && bucket == u.hostname + u.port && key == path)
    || ((u.scheme == "http" || u.scheme == "https")
        && (ParseHost(u.hostname) == Some(bucket) && bucket != "" && key == path))
    || ((u.scheme == "http" || u.scheme == "https")
        && ParseHost(u.hostname) == Some("") && '/' !in bucket && path == bucket + "/" + key)
  }

  /** A URL has a location iff it names an object in a bucket, and then that is the location. */
  lemma LocationExactly(u: Url, bucket: string, key: string)
    ensures Names(u, bucket, key) && bucket != "" && key != "" ==> NormalizeLocation(u) == Location(bucket + "/" + key)
    ensures NormalizeLocation(u).Location? ==>
      exists b, k :: Names(u, b, k) && b != "" && k != "" && NormalizeLocation(u) == Location(b + "/" + k)
  {
    var path := TrimSlash(u.escapedPath);
    if ParseHost(u.hostname) == Some("") && '/' !in bucket && path == bucket + "/" + key {
      FirstIndex(bucket, '/', key);
      assert path[..|bucket|] == bucket && path[|bucket| + 1..] == key;
    }
    if NormalizeLocation(u).Location? {
      NamedObject(u);
    }
  }

  lemma NamedObject(u: Url)
    requires NormalizeLocation(u).Location?
    ensures exists b, k :: Names(u, b, k) && b != "" && k != "" && NormalizeLocation(u) == Location(b + "/" + k)
  {
    var path := TrimSlash(u.escapedPath);
    if u.scheme == "s3" {
      assert Names(u, u.hostname + u.port, path);
    } else if ParseHost(u.hostname).value != "" {
      assert Names(u, ParseHost(u.hostname).value, path);
    } else {
      var i := IndexOf(path, '/');
      assert path == path[..i] + "/" + path[i + 1..];
      assert Names(u, path[..i], path[i + 1..]);
    }
  }

  /** Nothing but a URL on an S3 endpoint gets through over HTTP. */
  lemma OnlyS3Endpoints(u: Url)
    requires NormalizeLocation(u).Location? && u.scheme != "s3"
    ensures IsS3Host(u.hostname)
  {
    AcceptedExactly(u.hostname);
  }
}
