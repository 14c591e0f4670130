/** Deployment ordering: the depth-first topological sort of provider/common/topo.go. */
module Topo {
  import opened Compose

  // ----- what the sort promises

  ghost predicate IsPath(g: Services, p: seq<string>) {
    |p| > 0 && forall i :: 0 <= i < |p| - 1 ==> p[i + 1] in DepsOf(g, p[i])
  }

  /** b is a or a transitive dependency of a. */
  ghost predicate Reaches(g: Services, a: string, b: string) {
    exists p :: IsPath(g, p) && p[0] == a && p[|p| - 1] == b
  }

  ghost predicate NoDuplicates(s: seq<string>) {
    forall i, j :: 0 <= i < j < |s| ==> s[i] != s[j]
  }

  /** Every dependency comes first, unless it can reach its dependent back. */
  ghost predicate DepsFirst(g: Services, s: seq<string>) {
    forall i, d :: 0 <= i < |s| && d in DepsOf(g, s[i]) ==> d in s[..i] || Reaches(g, d, s[i])
  }

  /** n and some other name reach each other. */
  ghost predicate Entangled(g: Services, n: string) {
    exists o :: o != n && Reaches(g, n, o) && Reaches(g, o, n)
  }

  /** Everything a name reaches comes before it, unless the name lies on a cycle through another one. */
  ghost predicate ReachedFirst(g: Services, s: seq<string>) {
    forall i, x :: 0 <= i < |s| && x != s[i] && Reaches(g, s[i], x) ==> x in s[..i] || Entangled(g, s[i])
  }

  /** n is a key or reachable from one. */
  ghost predicate FromKey(g: Services, n: string) {
    exists k :: k in g && Reaches(g, k, n)
  }

  /** The names emitted are the keys and everything reachable from them. */
  ghost predicate Covers(g: Services, s: seq<string>) {
    forall n {:trigger FromKey(g, n)} :: n in s <==> FromKey(g, n)
  }

  ghost predicate IsTopologicalOrder(g: Services, s: seq<string>) {
    NoDuplicates(s) && Covers(g, s) && DepsFirst(g, s) && ReachedFirst(g, s)
  }

  ghost predicate Precedes(s: seq<string>, a: string, b: string) {
    exists i, j :: 0 <= i < j < |s| && s[i] == a && s[j] == b
  }

  /** Everything root reaches is emitted before root. */
  ghost predicate RootLast(g: Services, s: seq<string>, root: string) {
    forall n :: n != root && Reaches(g, root, n) ==> Precedes(s, n, root)
  }

  // ----- reachability

  lemma ReachesSelf(g: Services, a: string)
    ensures Reaches(g, a, a)
  {
    assert IsPath(g, [a]);
  }

  lemma ReachesStep(g: Services, a: string, b: string, d: string)
    requires Reaches(g, a, b) && d in DepsOf(g, b)
    ensures Reaches(g, a, d)
  {
    var p :| IsPath(g, p) && p[0] == a && p[|p| - 1] == b;
    var q := p + [d];
    assert IsPath(g, q) && q[0] == a && q[|q| - 1] == d;
  }

  lemma ReachesTransitive(g: Services, a: string, b: string, c: string)
    requires Reaches(g, a, b) && Reaches(g, b, c)
    ensures Reaches(g, a, c)
  {
    var p :| IsPath(g, p) && p[0] == a && p[|p| - 1] == b;
    var q :| IsPath(g, q) && q[0] == b && q[|q| - 1] == c;
    var r := p + q[1..];
    assert IsPath(g, r) && r[0] == a && r[|r| - 1] == c;
  }

  /** A set closed under dependencies holds everything reachable from its members. */
  lemma {:induction false} ClosedUnderPaths(g: Services, s: set<string>, p: seq<string>)
    requires forall n :: n in s ==> DepsOf(g, n) <= s
    requires IsPath(g, p) && p[0] in s
    ensures p[|p| - 1] in s
    decreases |p|
  {
    if |p| > 1 {
      assert IsPath(g, p[1..]);
      ClosedUnderPaths(g, s, p[1..]);
    }
  }

  lemma ClosedUnderReach(g: Services, s: set<string>, a: string, b: string)
    requires forall n :: n in s ==> DepsOf(g, n) <= s
    requires a in s && Reaches(g, a, b)
    ensures b in s
  {
    var p :| IsPath(g, p) && p[0] == a && p[|p| - 1] == b;
    ClosedUnderPaths(g, s, p);
  }

  // ----- the sort

  /** Every name the sort can come across. */
  ghost function Universe(g: Services): set<string> {
    g.Keys + set n, d | n in g && d in g[n].dependsOn :: d
  }

  function Elems(s: seq<string>): set<string> {
    set x | x in s
  }

  /** Appending a name whose dependencies have all been entered; those still open reach it. */
  lemma EmitKeepsOrder(g: Services, s: seq<string>, visited: set<string>, name: string)
    requires Elems(s) <= visited && NoDuplicates(s) && DepsFirst(g, s) && ReachedFirst(g, s)
    requires name in visited && name !in s && DepsOf(g, name) <= visited
    requires forall n :: n in s ==> DepsOf(g, n) <= visited
    requires forall x :: x in visited && x !in s ==> Reaches(g, x, name)
    ensures NoDuplicates(s + [name]) && DepsFirst(g, s + [name]) && ReachedFirst(g, s + [name])
    ensures Elems(s + [name]) == Elems(s) + {name}
  {
    var t := s + [name];
    EmitKeepsReached(g, s, visited, name);
    forall i, d | 0 <= i < |t| && d in DepsOf(g, t[i]) ensures d in t[..i] || Reaches(g, d, t[i]) {
      assert t[..i] == s[..i];
      if i < |s| {
        assert t[i] == s[i];
      } else {
        assert s[..i] == s;
      }
    }
    forall x ensures x in Elems(t) <==> x in Elems(s) + {name} {
    }
  }

  lemma EmitKeepsReached(g: Services, s: seq<string>, visited: set<string>, name: string)
    requires ReachedFirst(g, s) && DepsOf(g, name) <= visited
    requires forall n :: n in s ==> DepsOf(g, n) <= visited
    requires forall x :: x in visited && x !in s ==> Reaches(g, x, name)
    ensures ReachedFirst(g, s + [name])
  {
    var t := s + [name];
    forall i, x | 0 <= i < |t| && x != t[i] && Reaches(g, t[i], x) ensures x in t[..i] || Entangled(g, t[i]) {
      assert t[..i] == s[..i];
      if i < |s| {
        assert t[i] == s[i];
      } else if x !in s {
        assert t[i] == name;
        var p :| IsPath(g, p) && p[0] == name && p[|p| - 1] == x;
        ReachesSelf(g, name);
        LeavesThroughOpen(g, s, visited, name, p);
      }
    }
  }

  /** A path from a name out of what has been emitted passes a name that is still open. */
  lemma {:induction false} LeavesThroughOpen(
    g: Services, s: seq<string>, visited: set<string>, name: string, p: seq<string>)
    requires DepsOf(g, name) <= visited && forall n :: n in s ==> DepsOf(g, n) <= visited
    requires forall x :: x in visited && x !in s ==> Reaches(g, x, name)
    requires IsPath(g, p) && Reaches(g, name, p[0]) && (p[0] in s || p[0] == name)
    requires p[|p| - 1] !in s && p[|p| - 1] != name
    ensures Entangled(g, name)
    decreases |p|
  {
    var next := p[1];
    assert next in DepsOf(g, p[0]);
    ReachesStep(g, name, p[0], next);
    if next in s || next == name {
      assert IsPath(g, p[1..]);
      LeavesThroughOpen(g, s, visited, name, p[1..]);
    } else {
      assert next != name && Reaches(g, name, next) && Reaches(g, next, name);
    }
  }

  // ----- the order a run emits, given the order its map iterations take

  /** One range over a map with these keys. */
  ghost predicate IsRange(order: seq<string>, keys: set<string>) {
    NoDuplicates(order) && Elems(order) == keys
  }

  /** For each service, the order in which this run ranges over its dependencies. */
  type Ranges = map<string, seq<string>>

  ghost predicate AreRanges(g: Services, ranges: Ranges) {
    forall n :: n in g ==> n in ranges && IsRange(ranges[n], DepsOf(g, n))
  }

  function RangeOf(g: Services, ranges: Ranges, name: string): seq<string>
    requires name in g ==> name in ranges
  {
    if name in g then ranges[name] else []
  }

  lemma RangeMeaning(g: Services, ranges: Ranges, name: string)
    requires AreRanges(g, ranges)
    ensures Elems(RangeOf(g, ranges, name)) == DepsOf(g, name) <= Universe(g)
  {
    if name !in g {
      assert DepsOf(g, name) == {};
    }
  }

  /** What has been entered, and what was emitted on the way. */
  datatype Trace = Trace(entered: set<string>, emitted: seq<string>)

  /** Entering a name: its dependencies first, unless it has been entered before. */
  ghost function Enter(g: Services, ranges: Ranges, name: string, visited: set<string>): (r: Trace)
    requires AreRanges(g, ranges) && name in Universe(g)
    ensures visited <= r.entered && name in r.entered
    decreases Universe(g) - visited, 0
  {
    if name in visited then Trace(visited, [])
    else
      RangeMeaning(g, ranges, name);
      var inner := EnterAll(g, ranges, RangeOf(g, ranges, name), visited + {name});
      Trace(inner.entered, inner.emitted + [name])
  }

  /** Entering names one after the other. */
  ghost function EnterAll(g: Services, ranges: Ranges, names: seq<string>, visited: set<string>): (r: Trace)
    requires AreRanges(g, ranges) && Elems(names) <= Universe(g)
    ensures visited <= r.entered && Elems(names) <= r.entered
    decreases Universe(g) - visited, 1 + |names|
  {
    if names == [] then Trace(visited, [])
    else
      FrontAndLast(names);
      var before := EnterAll(g, ranges, names[..|names| - 1], visited);
      var last := Enter(g, ranges, names[|names| - 1], before.entered);
      Trace(last.entered, before.emitted + last.emitted)
  }

  lemma FrontAndLast(names: seq<string>)
    requires names != []
    ensures Elems(names) == Elems(names[..|names| - 1]) + {names[|names| - 1]}
  {
    assert names == names[..|names| - 1] + [names[|names| - 1]];
  }

  lemma ElemsUpTo(names: seq<string>, i: nat)
    requires i <= |names|
    ensures Elems(names[..i]) <= Elems(names)
  {
  }

  lemma EnterOneMore(g: Services, ranges: Ranges, names: seq<string>, i: nat, visited: set<string>)
    requires AreRanges(g, ranges) && Elems(names) <= Universe(g) && i < |names|
    ensures names[i] in Universe(g) && Elems(names[..i]) <= Universe(g) && Elems(names[..i + 1]) <= Universe(g)
    ensures var before := EnterAll(g, ranges, names[..i], visited);
      var last := Enter(g, ranges, names[i], before.entered);
      EnterAll(g, ranges, names[..i + 1], visited) == After(before.emitted, last)
  {
    assert names[i] in Elems(names);
    ElemsUpTo(names, i);
    ElemsUpTo(names, i + 1);
    assert names[..i + 1][..i] == names[..i];
  }

  // ----- what is kept from one entry to the next

  ghost predicate IsState(g: Services, visited: set<string>, sorted: seq<string>) {
    && Elems(sorted) <= visited <= Universe(g)
    && NoDuplicates(sorted) && DepsFirst(g, sorted) && ReachedFirst(g, sorted)
    && forall n :: n in sorted ==> DepsOf(g, n) <= visited
  }

  /** Entered but not yet emitted: the names on the recursion stack. */
  ghost function Open(visited: set<string>, sorted: seq<string>): set<string> {
    visited - Elems(sorted)
  }

  ghost predicate AllReach(g: Services, from: set<string>, to: set<string>) {
    forall x, n :: x in from && n in to ==> Reaches(g, x, n)
  }

  ghost predicate ReachedFrom(g: Services, names: set<string>, emitted: seq<string>) {
    forall x :: x in emitted ==> exists n :: n in names && Reaches(g, n, x)
  }

  /** From one state to the next: ordered as before, the same names open, only what names reach emitted. */
  ghost predicate Kept(g: Services, names: set<string>, visited: set<string>, sorted: seq<string>, r: Trace) {
    && IsState(g, r.entered, sorted + r.emitted)
    && Open(r.entered, sorted + r.emitted) == Open(visited, sorted)
    && ReachedFrom(g, names, r.emitted)
  }

  lemma {:induction false} EnterAllKeeps(
    g: Services, ranges: Ranges, names: seq<string>, visited: set<string>, sorted: seq<string>)
    requires AreRanges(g, ranges) && Elems(names) <= Universe(g)
    requires IsState(g, visited, sorted) && AllReach(g, Open(visited, sorted), Elems(names))
    ensures Kept(g, Elems(names), visited, sorted, EnterAll(g, ranges, names, visited))
    decreases Universe(g) - visited, 1 + |names|
  {
    if names == [] {
      assert sorted + [] == sorted;
    } else {
      var front, last := names[..|names| - 1], names[|names| - 1];
      FrontAndLast(names);
      EnterAllKeeps(g, ranges, front, visited, sorted);
      var before := EnterAll(g, ranges, front, visited);
      EnterKeeps(g, ranges, last, before.entered, sorted + before.emitted);
      KeptTwice(g, Elems(front), {last}, visited, sorted, before, Enter(g, ranges, last, before.entered));
    }
  }

  lemma KeptTwice(g: Services, a: set<string>, b: set<string>, visited: set<string>, sorted: seq<string>,
                  first: Trace, second: Trace)
    requires Kept(g, a, visited, sorted, first) && Kept(g, b, first.entered, sorted + first.emitted, second)
    ensures Kept(g, a + b, visited, sorted, Trace(second.entered, first.emitted + second.emitted))
  {
    assert sorted + first.emitted + second.emitted == sorted + (first.emitted + second.emitted);
  }

  /** Entering a name keeps the order, leaves the stack as it was, and emits only what the name reaches. */
  lemma {:induction false} EnterKeeps(
    g: Services, ranges: Ranges, name: string, visited: set<string>, sorted: seq<string>)
    requires AreRanges(g, ranges) && name in Universe(g)
    requires IsState(g, visited, sorted) && AllReach(g, Open(visited, sorted), {name})
    ensures Kept(g, {name}, visited, sorted, Enter(g, ranges, name, visited))
    decreases Universe(g) - visited, 0
  {
    if name in visited {
      assert sorted + [] == sorted;
    } else {
      var deps, entered := RangeOf(g, ranges, name), visited + {name};
      RangeMeaning(g, ranges, name);
      OnTheStack(g, name, visited, sorted);
      EnterAllKeeps(g, ranges, deps, entered, sorted);
      Emitted(g, name, visited, sorted, EnterAll(g, ranges, deps, entered));
    }
  }

  lemma OnTheStack(g: Services, name: string, visited: set<string>, sorted: seq<string>)
    requires IsState(g, visited, sorted) && AllReach(g, Open(visited, sorted), {name})
    requires name in Universe(g) && name !in visited
    ensures IsState(g, visited + {name}, sorted)
    ensures Open(visited + {name}, sorted) == Open(visited, sorted) + {name}
    ensures AllReach(g, Open(visited + {name}, sorted), DepsOf(g, name))
  {
    ReachesSelf(g, name);
    forall x, d | x in Open(visited + {name}, sorted) && d in DepsOf(g, name) ensures Reaches(g, x, d) {
      assert Reaches(g, x, name);
      ReachesStep(g, x, name, d);
    }
  }

  /** Once its dependencies have been entered, a name comes off the stack. */
  lemma Emitted(g: Services, name: string, visited: set<string>, sorted: seq<string>, inner: Trace)
    requires Kept(g, DepsOf(g, name), visited + {name}, sorted, inner)
    requires Open(visited + {name}, sorted) == Open(visited, sorted) + {name}
    requires AllReach(g, Open(visited, sorted), {name}) && name !in visited && DepsOf(g, name) <= inner.entered
    ensures Kept(g, {name}, visited, sorted, Trace(inner.entered, inner.emitted + [name]))
  {
    var s := sorted + inner.emitted;
    ReachesSelf(g, name);
    assert name in Open(inner.entered, s);
    forall x | x in inner.entered && x !in s ensures Reaches(g, x, name) {
      assert x in Open(inner.entered, s);
    }
    EmitKeepsOrder(g, s, inner.entered, name);
    assert sorted + (inner.emitted + [name]) == s + [name];
    forall x | x in inner.emitted + [name] ensures Reaches(g, name, x) {
      if x in inner.emitted {
        var d :| d in DepsOf(g, name) && Reaches(g, d, x);
        ReachesStep(g, name, name, d);
        ReachesTransitive(g, name, d, x);
      }
    }
  }

  /** The closure's captured state: what has been entered, and what has been emitted. */
  class Sorter {
    const nodes: Services
    const ranges: Ranges
    var visited: set<string>
    var sorted: seq<string>

    constructor (nodes: Services, ranges: Ranges)
      ensures this.nodes == nodes && this.ranges == ranges && visited == {} && sorted == []
    {
      this.nodes, this.ranges := nodes, ranges;
      visited, sorted := {}, [];
    }

    method Visit(name: string)
      requires AreRanges(nodes, ranges) && name in Universe(nodes)
      modifies this
      ensures Trace(visited, sorted) == After(old(sorted), Enter(nodes, ranges, name, old(visited)))
      decreases Universe(nodes) - visited
    {
      ghost var v0, s0 := visited, sorted;
      if name in visited {
        assert After(s0, Trace(v0, [])).emitted == s0;
        return;
      }
      visited := visited + {name};
      RangeMeaning(nodes, ranges, name);
      var deps := RangeOf(nodes, ranges, name);
      for i := 0 to |deps|
        invariant Elems(deps[..i]) <= Universe(nodes)
        invariant Trace(visited, sorted) == After(s0, EnterAll(nodes, ranges, deps[..i], v0 + {name}))
      {
        EnterOneMore(nodes, ranges, deps, i, v0 + {name});
        ghost var before := EnterAll(nodes, ranges, deps[..i], v0 + {name});
        AfterBoth(s0, before, Enter(nodes, ranges, deps[i], before.entered));
        Visit(deps[i]);
      }
      assert deps[..|deps|] == deps;
      sorted := sorted + [name];
      EnterNew(nodes, ranges, name, v0, s0);
    }
  }

  /** What is there once a run of entries has been appended. */
  function After(sorted: seq<string>, r: Trace): Trace {
    r.(emitted := sorted + r.emitted)
  }

  lemma AfterBoth(s: seq<string>, first: Trace, second: Trace)
    ensures After(After(s, first).emitted, second) == After(s, After(first.emitted, second))
  {
    assert s + first.emitted + second.emitted == s + (first.emitted + second.emitted);
  }

  lemma EnterNew(g: Services, ranges: Ranges, name: string, visited: set<string>, s: seq<string>)
    requires AreRanges(g, ranges) && name in Universe(g) && name !in visited
    ensures Elems(RangeOf(g, ranges, name)) <= Universe(g)
    ensures var inner := EnterAll(g, ranges, RangeOf(g, ranges, name), visited + {name});
      After(s, Enter(g, ranges, name, visited)) == Trace(inner.entered, s + inner.emitted + [name])
  {
    RangeMeaning(g, ranges, name);
    var inner := EnterAll(g, ranges, RangeOf(g, ranges, name), visited + {name});
    assert s + inner.emitted + [name] == s + (inner.emitted + [name]);
  }

  /** roots is the order in which this run's map iteration yields the keys. */
  method TopologicalSort(nodes: Services, roots: seq<string>, ranges: Ranges) returns (sorted: seq<string>)
    requires IsRange(roots, nodes.Keys) && AreRanges(nodes, ranges)
    ensures Elems(roots) <= Universe(nodes) && sorted == EnterAll(nodes, ranges, roots, {}).emitted
    ensures IsTopologicalOrder(nodes, sorted)
    ensures roots != [] ==> RootLast(nodes, sorted, roots[0])
  {
    var s := new Sorter(nodes, ranges);
    for i := 0 to |roots|
      invariant s.nodes == nodes && s.ranges == ranges && Elems(roots[..i]) <= Universe(nodes)
      invariant Trace(s.visited, s.sorted) == EnterAll(nodes, ranges, roots[..i], {})
      modifies s
    {
      EnterOneMore(nodes, ranges, roots, i, {});
      s.Visit(roots[i]);
    }
    assert roots[..|roots|] == roots;
    SortedInOrder(nodes, ranges, roots);
    sorted := s.sorted;
  }

  /** Whatever the ranges, the names come out in order. */
  lemma SortedInOrder(g: Services, ranges: Ranges, roots: seq<string>)
    requires IsRange(roots, g.Keys) && AreRanges(g, ranges)
    ensures IsTopologicalOrder(g, EnterAll(g, ranges, roots, {}).emitted)
    ensures roots != [] ==> RootLast(g, EnterAll(g, ranges, roots, {}).emitted, roots[0])
  {
    var r := EnterAll(g, ranges, roots, {});
    StartState(g);
    EnterAllKeeps(g, ranges, roots, {}, []);
    NothingOpen(g, Elems(roots), r);
    StateInOrder(g, r.emitted);
    if roots != [] {
      FirstRootClosed(g, ranges, roots);
      HasClosedPrefixOrder(g, r.emitted, roots[0]);
    }
  }

  lemma StateInOrder(g: Services, s: seq<string>)
    requires IsState(g, Elems(s), s) && g.Keys <= Elems(s) && ReachedFrom(g, g.Keys, s)
    ensures IsTopologicalOrder(g, s)
  {
    forall n | n in s ensures FromKey(g, n) {
    }
    CoversFromClosure(g, s);
  }

  lemma StartState(g: Services)
    ensures IsState(g, {}, []) && Open({}, []) == {}
  {
  }

  lemma NothingOpen(g: Services, names: set<string>, r: Trace)
    requires Kept(g, names, {}, [], r)
    ensures r.entered == Elems(r.emitted) && IsState(g, r.entered, r.emitted) && ReachedFrom(g, names, r.emitted)
  {
    assert [] + r.emitted == r.emitted;
    forall x | x in r.entered ensures x in Elems(r.emitted) {
      assert x !in Open(r.entered, r.emitted);
    }
  }

  ghost predicate FromKeys(g: Services, s: seq<string>) {
    forall n {:trigger FromKey(g, n)} :: n in s ==> FromKey(g, n)
  }

  /** The first k names end with root and need nothing outside themselves. */
  ghost predicate ClosedPrefix(g: Services, s: seq<string>, k: nat, root: string) {
    0 < k <= |s| && s[k - 1] == root && forall n :: n in s[..k] ==> DepsOf(g, n) <= Elems(s[..k])
  }

  ghost predicate HasClosedPrefix(g: Services, s: seq<string>, root: string) {
    exists k: nat :: ClosedPrefix(g, s, k, root)
  }

  lemma {:induction false} FirstRootClosed(g: Services, ranges: Ranges, roots: seq<string>)
    requires AreRanges(g, ranges) && Elems(roots) <= Universe(g) && roots != []
    ensures HasClosedPrefix(g, EnterAll(g, ranges, roots, {}).emitted, roots[0])
    decreases |roots|
  {
    var front, last := roots[..|roots| - 1], roots[|roots| - 1];
    FrontAndLast(roots);
    var before := EnterAll(g, ranges, front, {});
    var next := Enter(g, ranges, last, before.entered);
    if front == [] {
      OnlyRootClosed(g, ranges, last);
      assert before.emitted + next.emitted == next.emitted;
    } else {
      FirstRootClosed(g, ranges, front);
      PrefixStaysClosed(g, before.emitted, next.emitted, roots[0]);
    }
  }

  lemma OnlyRootClosed(g: Services, ranges: Ranges, root: string)
    requires AreRanges(g, ranges) && root in Universe(g)
    ensures HasClosedPrefix(g, Enter(g, ranges, root, {}).emitted, root)
  {
    var r := Enter(g, ranges, root, {});
    StartState(g);
    EnterKeeps(g, ranges, root, {}, []);
    NothingOpen(g, {root}, r);
    EndsInName(g, ranges, root, {});
    WholeIsClosed(g, r.emitted, root);
  }

  lemma EndsInName(g: Services, ranges: Ranges, name: string, visited: set<string>)
    requires AreRanges(g, ranges) && name in Universe(g) && name !in visited
    ensures var s := Enter(g, ranges, name, visited).emitted; s != [] && s[|s| - 1] == name
  {
  }

  lemma WholeIsClosed(g: Services, s: seq<string>, root: string)
    requires IsState(g, Elems(s), s) && s != [] && s[|s| - 1] == root
    ensures HasClosedPrefix(g, s, root)
  {
    assert s[..|s|] == s;
    assert ClosedPrefix(g, s, |s|, root);
  }

  lemma PrefixStaysClosed(g: Services, s: seq<string>, more: seq<string>, root: string)
    requires HasClosedPrefix(g, s, root)
    ensures HasClosedPrefix(g, s + more, root)
  {
    var k: nat :| ClosedPrefix(g, s, k, root);
    assert (s + more)[..k] == s[..k];
    assert ClosedPrefix(g, s + more, k, root);
  }

  lemma HasClosedPrefixOrder(g: Services, s: seq<string>, root: string)
    requires HasClosedPrefix(g, s, root)
    ensures RootLast(g, s, root)
  {
    var k: nat :| ClosedPrefix(g, s, k, root);
    ClosedPrefixOrder(g, s, k, root);
  }

  lemma ClosedPrefixOrder(g: Services, s: seq<string>, k: nat, root: string)
    requires ClosedPrefix(g, s, k, root)
    ensures RootLast(g, s, root)
  {
    assert s[..k][k - 1] == root;
    forall n | n != root && Reaches(g, root, n) ensures Precedes(s, n, root) {
      ClosedUnderReach(g, Elems(s[..k]), root, n);
      var i :| 0 <= i < k && s[..k][i] == n;
      assert s[i] == n && s[k - 1] == root;
    }
  }

  lemma CoversFromClosure(g: Services, s: seq<string>)
    requires g.Keys <= Elems(s)
    requires forall n :: n in s ==> DepsOf(g, n) <= Elems(s)
    requires FromKeys(g, s)
    ensures Covers(g, s)
  {
    forall n | FromKey(g, n) ensures n in s {
      var k :| k in g && Reaches(g, k, n);
      ClosedUnderReach(g, Elems(s), k, n);
    }
  }

  // ----- what a deployment may rely on

  /** No name can reach itself through one of its dependencies. */
  ghost predicate Acyclic(g: Services) {
    forall n, d :: d in DepsOf(g, n) ==> !Reaches(g, d, n)
  }

  /** On an acyclic graph the order respects transitive dependencies throughout. */
  lemma AcyclicOrder(g: Services, s: seq<string>, a: string, b: string)
    requires IsTopologicalOrder(g, s) && Acyclic(g)
    requires a in s && a != b && Reaches(g, a, b)
    ensures Precedes(s, b, a)
  {
    if Entangled(g, a) {
      var o :| o != a && Reaches(g, a, o) && Reaches(g, o, a);
      var p :| IsPath(g, p) && p[0] == a && p[|p| - 1] == o;
      assert IsPath(g, p[1..]) && p[1] in DepsOf(g, a);
      assert Reaches(g, p[1], o);
      ReachesTransitive(g, p[1], o, a);
    }
    UntangledOrder(g, s, a, b);
  }

  /** On any graph it does so for a name that lies on no cycle through another name. */
  lemma UntangledOrder(g: Services, s: seq<string>, a: string, b: string)
    requires IsTopologicalOrder(g, s) && !Entangled(g, a)
    requires a in s && a != b && Reaches(g, a, b)
    ensures Precedes(s, b, a)
  {
    var j :| 0 <= j < |s| && s[j] == a;
    assert b in s[..j];
    var i :| 0 <= i < j && s[..j][i] == b;
    assert s[i] == b;
  }

  /** Along a path that starts at such a name, the end is emitted before the start. */
  lemma PathOrder(g: Services, s: seq<string>, p: seq<string>)
    requires IsTopologicalOrder(g, s) && IsPath(g, p) && p[0] in s && !Entangled(g, p[0])
    requires p[|p| - 1] != p[0]
    ensures Precedes(s, p[|p| - 1], p[0])
  {
    assert Reaches(g, p[0], p[|p| - 1]);
    UntangledOrder(g, s, p[0], p[|p| - 1]);
  }

  /** In every run, whatever the ranges, everything n reaches comes before n. */
  ghost predicate AlwaysReachedFirst(g: Services, n: string) {
    forall ranges, roots, x :: AreRanges(g, ranges) && IsRange(roots, g.Keys) && x != n && Reaches(g, n, x) ==>
      Precedes(EnterAll(g, ranges, roots, {}).emitted, x, n)
  }

  /** That is so exactly for the names that lie on no cycle through another name. */
  lemma ReachedFirstExactly(g: Services, n: string)
    ensures AlwaysReachedFirst(g, n) <==> !Entangled(g, n)
  {
    if Entangled(g, n) {
      var o, ranges, roots := EntangledComesEarly(g, n);
      EmittedOnce(g, ranges, roots, n, o);
    } else {
      forall ranges, roots, x | AreRanges(g, ranges) && IsRange(roots, g.Keys) && x != n && Reaches(g, n, x)
        ensures Precedes(EnterAll(g, ranges, roots, {}).emitted, x, n)
      {
        SortedInOrder(g, ranges, roots);
        ReachesFromKey(g, n, x);
        ReachesSelf(g, n);
        assert FromKey(g, n);
        UntangledOrder(g, EnterAll(g, ranges, roots, {}).emitted, n, x);
      }
    }
  }

  lemma ReachesFromKey(g: Services, a: string, b: string)
    requires Reaches(g, a, b) && a != b
    ensures a in g
  {
    var p :| IsPath(g, p) && p[0] == a && p[|p| - 1] == b;
    assert p[1] in DepsOf(g, p[0]);
  }

  /** Started at the other name, any run emits n before that name, which n reaches all the same. */
  lemma EntangledComesLate(g: Services, ranges: Ranges, roots: seq<string>, n: string, o: string)
    requires AreRanges(g, ranges) && IsRange(roots, g.Keys) && roots != [] && roots[0] == o
    requires o != n && Reaches(g, n, o) && Reaches(g, o, n)
    ensures Precedes(EnterAll(g, ranges, roots, {}).emitted, n, o)
  {
    SortedInOrder(g, ranges, roots);
  }

  lemma EntangledComesEarly(g: Services, n: string) returns (o: string, ranges: Ranges, roots: seq<string>)
    requires Entangled(g, n)
    ensures o != n && Reaches(g, n, o) && AreRanges(g, ranges) && IsRange(roots, g.Keys)
    ensures Precedes(EnterAll(g, ranges, roots, {}).emitted, n, o)
  {
    o :| o != n && Reaches(g, n, o) && Reaches(g, o, n);
    ReachesFromKey(g, o, n);
    ranges := map k | k in g :: AnyRange(DepsOf(g, k));
    roots := [o] + AnyRange(g.Keys - {o});
    StartWith(o, AnyRange(g.Keys - {o}), g.Keys);
    EntangledComesLate(g, ranges, roots, n, o);
  }

  lemma StartWith(o: string, rest: seq<string>, keys: set<string>)
    requires o in keys && IsRange(rest, keys - {o})
    ensures IsRange([o] + rest, keys)
  {
    forall x ensures x in Elems([o] + rest) <==> x == o || x in Elems(rest) {
    }
    forall i, j | 0 <= i < j < |[o] + rest| ensures ([o] + rest)[i] != ([o] + rest)[j] {
      assert rest[j - 1] in Elems(rest);
    }
  }

  /** Some order in which to range over a map with these keys. */
  ghost function AnyRange(keys: set<string>): (order: seq<string>)
    ensures IsRange(order, keys)
  {
    if keys == {} then []
    else
      var k :| k in keys;
      StartWith(k, AnyRange(keys - {k}), keys);
      [k] + AnyRange(keys - {k})
  }

  /** Of two names only one precedes the other. */
  lemma EmittedOnce(g: Services, ranges: Ranges, roots: seq<string>, n: string, o: string)
    requires AreRanges(g, ranges) && IsRange(roots, g.Keys)
    requires Precedes(EnterAll(g, ranges, roots, {}).emitted, n, o)
    ensures !Precedes(EnterAll(g, ranges, roots, {}).emitted, o, n)
  {
    SortedInOrder(g, ranges, roots);
    NotBothWays(EnterAll(g, ranges, roots, {}).emitted, n, o);
  }

  lemma NotBothWays(s: seq<string>, n: string, o: string)
    requires NoDuplicates(s) && Precedes(s, n, o)
    ensures !Precedes(s, o, n)
  {
    var i, j :| 0 <= i < j < |s| && s[i] == n && s[j] == o;
    forall k | 0 <= k < |s| ensures (s[k] == n ==> k == i) && (s[k] == o ==> k == j) {
    }
  }

  function CyclicExample(): Services {
    var on := ServiceDependency("", false);
    map[
      "a" := ZERO_SERVICE.(dependsOn := map["b" := on]),
      "b" := ZERO_SERVICE.(dependsOn := map["a" := on, "d" := on])]
  }

  function ExampleRanges(): Ranges {
    map["a" := ["b"], "b" := ["a", "d"]]
  }

  /**
   * On a cycle only direct dependencies are ordered: "a" needs "d" through "b" and "d" does not reach
   * back, and yet the sort emits "a" before "d" when it starts at "b" and ranges over "a" before "d".
   */
  lemma TransitiveOrderNeedsAcyclicity()
    ensures var g, ranges, roots := CyclicExample(), ExampleRanges(), ["b", "a"];
      && IsRange(roots, g.Keys) && AreRanges(g, ranges) && Elems(roots) <= Universe(g)
      && EnterAll(g, ranges, roots, {}).emitted == ["a", "d", "b"]
      && Reaches(g, "a", "d") && !Reaches(g, "d", "a")
  {
    var g, ranges := CyclicExample(), ExampleRanges();
    ExampleDeps();
    ExampleReach(g);
    ExampleElems();
    ExampleRun(g, ranges);
  }

  lemma ExampleRun(g: Services, ranges: Ranges)
    requires g == CyclicExample() && ranges == ExampleRanges() && AreRanges(g, ranges) && Universe(g) == {"a", "b", "d"}
    ensures Elems(["b", "a"]) <= Universe(g)
    ensures EnterAll(g, ranges, ["b", "a"], {}).emitted == ["a", "d", "b"]
  {
    ExampleEntries(g, ranges);
    ExampleRoot(g, ranges);
    var b := Enter(g, ranges, "b", {});
    assert Enter(g, ranges, "a", b.entered) == Trace(b.entered, []);
    Pairwise(g, ranges, "b", "a", {});
  }

  lemma ExampleEntries(g: Services, ranges: Ranges)
    requires g == CyclicExample() && ranges == ExampleRanges() && AreRanges(g, ranges) && Universe(g) == {"a", "b", "d"}
    ensures Enter(g, ranges, "a", {"b"}) == Trace({"a", "b"}, ["a"])
    ensures Enter(g, ranges, "d", {"a", "b"}) == Trace({"a", "b", "d"}, ["d"])
  {
    Singly(g, ranges, "b", {"a", "b"});
    assert {"b"} + {"a"} == {"a", "b"} && RangeOf(g, ranges, "a") == ["b"];
    EnterNew(g, ranges, "a", {"b"}, []);
    ExampleLeaf(g, ranges);
  }

  lemma ExampleLeaf(g: Services, ranges: Ranges)
    requires AreRanges(g, ranges) && "d" in Universe(g) && "d" !in g
    ensures Enter(g, ranges, "d", {"a", "b"}) == Trace({"a", "b", "d"}, ["d"])
  {
    EnterNew(g, ranges, "d", {"a", "b"}, []);
    assert {"a", "b"} + {"d"} == {"a", "b", "d"} && RangeOf(g, ranges, "d") == [];
  }

  lemma ExampleRoot(g: Services, ranges: Ranges)
    requires g == CyclicExample() && ranges == ExampleRanges() && AreRanges(g, ranges) && Universe(g) == {"a", "b", "d"}
    requires Enter(g, ranges, "a", {"b"}) == Trace({"a", "b"}, ["a"])
    requires Enter(g, ranges, "d", {"a", "b"}) == Trace({"a", "b", "d"}, ["d"])
    ensures Enter(g, ranges, "b", {}) == Trace({"a", "b", "d"}, ["a", "d", "b"])
  {
    Pairwise(g, ranges, "a", "d", {"b"});
    assert {} + {"b"} == {"b"} && RangeOf(g, ranges, "b") == ["a", "d"];
    assert ["a"] + ["d"] + ["b"] == ["a", "d", "b"];
  }

  lemma Singly(g: Services, ranges: Ranges, x: string, visited: set<string>)
    requires AreRanges(g, ranges) && x in Universe(g)
    ensures Elems([x]) <= Universe(g)
    ensures EnterAll(g, ranges, [x], visited) == Enter(g, ranges, x, visited)
  {
    assert [x][..0] == [];
    EnterOneMore(g, ranges, [x], 0, visited);
    assert [x][..1] == [x];
    var r := Enter(g, ranges, x, visited);
    assert [] + r.emitted == r.emitted;
  }

  lemma Pairwise(g: Services, ranges: Ranges, x: string, y: string, visited: set<string>)
    requires AreRanges(g, ranges) && x in Universe(g) && y in Universe(g)
    ensures Elems([x, y]) <= Universe(g)
    ensures var first := Enter(g, ranges, x, visited); var second := Enter(g, ranges, y, first.entered);
      EnterAll(g, ranges, [x, y], visited) == Trace(second.entered, first.emitted + second.emitted)
  {
    Singly(g, ranges, x, visited);
    EnterOneMore(g, ranges, [x, y], 1, visited);
    assert [x, y][..1] == [x] && [x, y][..2] == [x, y];
  }

  lemma ExampleElems()
    ensures var g := CyclicExample(); IsRange(["b", "a"], g.Keys) && AreRanges(g, ExampleRanges())
    ensures Universe(CyclicExample()) == {"a", "b", "d"}
  {
    ExampleDeps();
    var g := CyclicExample();
    assert Elems(["b", "a"]) == {"a", "b"} && Elems(["b"]) == {"b"} && Elems(["a", "d"]) == {"a", "d"};
    assert "b" in g["a"].dependsOn && "a" in g["b"].dependsOn && "d" in g["b"].dependsOn;
  }

  lemma ExampleDeps()
    ensures var g := CyclicExample();
      g.Keys == {"a", "b"} && DepsOf(g, "a") == {"b"} && DepsOf(g, "b") == {"a", "d"} && DepsOf(g, "d") == {}
  {
  }

  lemma ExampleReach(g: Services)
    requires DepsOf(g, "a") == {"b"} && DepsOf(g, "b") == {"a", "d"} && DepsOf(g, "d") == {}
    ensures Reaches(g, "a", "a") && Reaches(g, "a", "b") && Reaches(g, "a", "d") && Reaches(g, "b", "a")
    ensures !Reaches(g, "d", "a")
  {
    ReachesSelf(g, "a");
    ReachesSelf(g, "b");
    ReachesStep(g, "a", "a", "b");
    ReachesStep(g, "b", "b", "a");
    ReachesStep(g, "a", "b", "d");
    if Reaches(g, "d", "a") {
      ClosedUnderReach(g, {"d"}, "d", "a");
    }
  }
}
