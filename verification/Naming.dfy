/** Target group names (provider/defangaws/aws/naming.go). */
module Naming {
  import opened Decimal

  datatype AppProtocol = UnknownProtocol | Http | Http2 | Grpc
  datatype Listener = DefaultListener | HttpListener | HttpsListener

  const AUTONAMING_SUFFIX_LEN := 5
  const MAX_NAME_LEN := 32
  const HASH_LEN := 6

  function ProtocolText(p: AppProtocol): string {
    match p case Http2 => "http2" case Grpc => "grpc" case _ => ""
  }

  function ListenerText(l: Listener): string {
    if l == HttpListener then "-http" else ""
  }

  function Suffix(port: nat, protocol: AppProtocol, listener: Listener): string {
    "-" + Itoa(port) + ProtocolText(protocol) + ListenerText(listener)
  }

  /** http is the default protocol and https the default listener. */
  function Effective(p: AppProtocol): AppProtocol {
    if p == UnknownProtocol then Http else p
  }

  function EffectiveListener(l: Listener): Listener {
    if l == DefaultListener then HttpsListener else l
  }

  /** The port always, the protocol unless it is http, the listener only if it is http. */
  lemma SuffixTable(port: nat, protocol: AppProtocol, listener: Listener)
    ensures var tail := if listener == HttpListener then "-http" else "";
      && (protocol == Http || protocol == UnknownProtocol ==> Suffix(port, protocol, listener) == "-" + Itoa(port) + tail)
      && (protocol == Http2 ==> Suffix(port, protocol, listener) == "-" + Itoa(port) + "http2" + tail)
      && (protocol == Grpc ==> Suffix(port, protocol, listener) == "-" + Itoa(port) + "grpc" + tail)
  {
    assert "-" + Itoa(port) + "" == "-" + Itoa(port);
  }

  predicate Fits(service: string, port: nat, protocol: AppProtocol, listener: Listener) {
    |service| + |Suffix(port, protocol, listener)| <= MAX_NAME_LEN - AUTONAMING_SUFFIX_LEN
  }

  lemma SuffixLength(port: nat, protocol: AppProtocol, listener: Listener)
    requires port <= 65535
    ensures |Suffix(port, protocol, listener)| <= 16
  {
    assert PowerOfTen(5) == 100_000;
    ItoaLength(port, 5);
  }

  /** hash is the hexadecimal SHA-256 of a service name. */
  method TargetGroupName(service: string, port: nat, protocol: AppProtocol, listener: Listener, hash: string -> string)
    returns (name: string)
    requires port <= 65535 && |hash(service)| == 64
    ensures |name| <= 27
    ensures Fits(service, port, protocol, listener) ==> name == service + Suffix(port, protocol, listener)
    ensures !Fits(service, port, protocol, listener) ==>
      var kept := 27 - |Suffix(port, protocol, listener)| - HASH_LEN;
      0 <= kept < |service|
      && name == service[..kept] + hash(service)[..HASH_LEN] + Suffix(port, protocol, listener)
  {
    var suffix := "-" + Itoa(port);
    if protocol != UnknownProtocol && protocol != Http {
      suffix := suffix + ProtocolText(protocol);
    }
    if listener != DefaultListener && listener != HttpsListener {
      suffix := suffix + "-http";
    }
    assert suffix == Suffix(port, protocol, listener);
    SuffixLength(port, protocol, listener);
    var maxService := MAX_NAME_LEN - AUTONAMING_SUFFIX_LEN - |suffix|;
    var kept := service;
    if |service| > maxService {
      kept := service[..maxService - HASH_LEN] + hash(service)[..HASH_LEN];
    }
    name := kept + suffix;
  }

  // ----- names decode from the right

  lemma OnlyDigitsAfter(s: string, a: string)
    requires AllDigits(a)
    ensures var u := s + "-" + a; forall k :: |s| <= k < |u| ==> (u[k] == '-' <==> k == |s|)
  {
    var u := s + "-" + a;
    assert !IsDigit('-');
    forall k | |s| < k < |u| ensures u[k] != '-' {
      assert u[k] == a[k - |s| - 1] && u[k] in a;
    }
  }

  lemma DigitsFromTheRight(s: string, a: string, t: string, b: string)
    requires AllDigits(a) && AllDigits(b) && s + "-" + a == t + "-" + b
    ensures s == t && a == b
  {
    var u, v := s + "-" + a, t + "-" + b;
    OnlyDigitsAfter(s, a);
    OnlyDigitsAfter(t, b);
    assert u[|s|] == '-' && v[|t|] == '-';
    assert |s| == |t|;
    assert s == u[..|s|] && t == v[..|t|];
    assert a == u[|s| + 1..] && b == v[|t| + 1..];
  }

  /** The last two characters before any listener tell the protocol. */
  lemma ProtocolFromTheRight(s: string, m: nat, p: AppProtocol, t: string, n: nat, q: AppProtocol)
    requires s + "-" + Itoa(m) + ProtocolText(p) == t + "-" + Itoa(n) + ProtocolText(q)
    ensures ProtocolText(p) == ProtocolText(q) && s + "-" + Itoa(m) == t + "-" + Itoa(n)
  {
    var a, b := s + "-" + Itoa(m), t + "-" + Itoa(n);
    var u, v := a + ProtocolText(p), b + ProtocolText(q);
    LastTwo(s, m, p);
    LastTwo(t, n, q);
    assert a == u[..|u| - |ProtocolText(p)|] && b == v[..|v| - |ProtocolText(q)|];
  }

  lemma LastTwo(s: string, m: nat, p: AppProtocol)
    ensures var u := s + "-" + Itoa(m) + ProtocolText(p);
      && |u| >= 2
      && (u[|u| - 1] == 'c' <==> ProtocolText(p) == "grpc")
      && (u[|u| - 2] == 'p' && u[|u| - 1] == '2' <==> ProtocolText(p) == "http2")
      && u[|u| - 1] != 'p'
  {
    var d := Itoa(m);
    var u := s + "-" + d + ProtocolText(p);
    assert d[|d| - 1] in d;
    if ProtocolText(p) == "" {
      assert u[|u| - 1] == d[|d| - 1];
      if |d| >= 2 {
        assert d[|d| - 2] in d && u[|u| - 2] == d[|d| - 2];
      } else {
        assert u[|u| - 2] == '-';
      }
    } else if ProtocolText(p) == "grpc" {
      assert u[|u| - 1] == "grpc"[3] && u[|u| - 2] == "grpc"[2];
    } else {
      assert u[|u| - 1] == "http2"[4] && u[|u| - 2] == "http2"[3];
    }
  }

  lemma ListenerFromTheRight(a: string, k: Listener, b: string, l: Listener)
    requires a != "" && b != "" && a[|a| - 1] != 'p' && b[|b| - 1] != 'p'
    requires a + ListenerText(k) == b + ListenerText(l)
    ensures ListenerText(k) == ListenerText(l) && a == b
  {
    var u, v := a + ListenerText(k), b + ListenerText(l);
    assert u[|u| - 1] == 'p' <==> ListenerText(k) == "-http";
    assert v[|v| - 1] == 'p' <==> ListenerText(l) == "-http";
    assert a == u[..|u| - |ListenerText(k)|] && b == v[..|v| - |ListenerText(l)|];
  }

  lemma NameInParts(s: string, m: nat, p: AppProtocol, k: Listener)
    ensures s + Suffix(m, p, k) == s + "-" + Itoa(m) + ProtocolText(p) + ListenerText(k)
  {
    var a, b, c, d := "-", Itoa(m), ProtocolText(p), ListenerText(k);
    assert s + (a + b + c + d) == s + a + b + c + d;
  }

  /** Two untruncated names are equal only for the same service, port, protocol and listener. */
  lemma NamesNeverCollide(
    s: string, m: nat, p: AppProtocol, k: Listener, t: string, n: nat, q: AppProtocol, l: Listener)
    requires s + Suffix(m, p, k) == t + Suffix(n, q, l)
    ensures s == t && m == n && Effective(p) == Effective(q) && EffectiveListener(k) == EffectiveListener(l)
  {
    LastTwo(s, m, p);
    LastTwo(t, n, q);
    var a, b := s + "-" + Itoa(m) + ProtocolText(p), t + "-" + Itoa(n) + ProtocolText(q);
    NameInParts(s, m, p, k);
    NameInParts(t, n, q, l);
    ListenerFromTheRight(a, k, b, l);
    ProtocolFromTheRight(s, m, p, t, n, q);
    DigitsFromTheRight(s, Itoa(m), t, Itoa(n));
    ItoaInjective(m, n);
  }
}
