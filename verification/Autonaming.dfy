/** Backfilling one naming entry in a nested config tree, in place (cd/config.go). */
module Autonaming {
  import opened Options

  /** A decoded JSON value: an object that can be updated in place, or anything else. */
  datatype Value = Object(node: Node) | Other(text: string)

  /** map[string]any, a reference in the source. */
  class Node {
    var entries: map<string, Value>

    constructor (entries: map<string, Value>)
      ensures this.entries == entries
    {
      this.entries := entries;
    }
  }

  const KEYS := ["providers", "scaleway", "resources"]
  const REGISTRY_TYPE := "scaleway:registry/namespace:Namespace"
  const PATTERN := "defang-${name}-${hex(7)}"

  // ----- trees, as a snapshot of the nodes they are made of

  type Store = map<Node, map<string, Value>>

  ghost function Snapshot(nodes: set<Node>): Store
    reads nodes
  {
    map m | m in nodes :: m.entries
  }

  ghost predicate Closed(s: Store) {
    forall m, k :: m in s && k in s[m] && s[m][k].Object? ==> s[m][k].node in s
  }

  ghost function Lookup(s: Store, n: Node, path: seq<string>): Option<Value>
    requires Closed(s) && n in s
    decreases |path|
  {
    if path == [] then Some(Object(n))
    else if path[0] !in s[n] then None
    else if |path| == 1 then Some(s[n][path[0]])
    else
      match s[n][path[0]]
      case Object(child) => Lookup(s, child, path[1..])
      case Other(_) => None
  }

  predicate IsObject(v: Option<Value>) {
    v.Some? && v.value.Object?
  }

  /** As decoding leaves it: no object can be reached in two ways. */
  ghost predicate IsTree(s: Store, root: Node) {
    && Closed(s) && root in s
    && forall p, q :: IsObject(Lookup(s, root, p)) && Lookup(s, root, p) == Lookup(s, root, q) ==> p == q
  }

  lemma {:induction false} LookupStep(s: Store, n: Node, p: seq<string>, k: string)
    requires Closed(s) && n in s
    ensures Lookup(s, n, p + [k])
         == match Lookup(s, n, p)
            case Some(Object(m)) => if m in s && k in s[m] then Some(s[m][k]) else None
            case _ => None
    ensures IsObject(Lookup(s, n, p)) ==> Lookup(s, n, p).value.node in s
    decreases |p|
  {
    if p == [] {
      assert p + [k] == [k];
    } else {
      assert (p + [k])[0] == p[0] && (p + [k])[1..] == p[1..] + [k];
      if p[0] in s[n] && s[n][p[0]].Object? {
        LookupStep(s, s[n][p[0]].node, p[1..], k);
        assert |p| == 1 ==> p[1..] == [];
      }
    }
  }

  /** t is s with one entry added below the object at `where`. */
  ghost predicate Added(s: Store, t: Store, root: Node, where: seq<string>, key: string, v: Value) {
    && IsTree(s, root) && Closed(t) && s.Keys <= t.Keys
    && (v.Object? ==> v.node !in s && v.node in t && t[v.node] == map[])
    && IsObject(Lookup(s, root, where))
    && var current := Lookup(s, root, where).value.node;
       && current in s && key !in s[current] && t[current] == s[current][key := v]
       && forall m :: m in s && m != current ==> t[m] == s[m]
  }

  lemma SnocInjective(a: seq<string>, x: string, b: seq<string>, y: string)
    ensures a + [x] == b + [y] ==> a == b && x == y
  {
    assert (a + [x])[..|a|] == a && (b + [y])[..|b|] == b;
    assert (a + [x])[|a|] == x && (b + [y])[|b|] == y;
  }

  /** Then every other path leads where it led before. */
  lemma {:induction false} AddedElsewhere(
    s: Store, t: Store, root: Node, where: seq<string>, key: string, v: Value,
    done: seq<string>, n: Node, path: seq<string>)
    requires Added(s, t, root, where, key, v)
    requires n in s && Lookup(s, root, done) == Some(Object(n))
    ensures Lookup(t, n, path) == if done + path == where + [key] then Some(v) else Lookup(s, n, path)
    decreases |path|
  {
    var current := Lookup(s, root, where).value.node;
    LookupStep(s, root, where, key);
    if path == [] {
      assert done + path == done;
    } else {
      var k := path[0];
      assert n == current ==> done == where;
      assert done + path == done + [k] + path[1..];
      if n == current && k == key {
        assert |path| == 1 ==> done + path == where + [key];
        assert |path| > 1 ==> |done + path| > |where + [key]|;
      } else {
        assert k in t[n] <==> k in s[n];
        if |path| == 1 {
          assert path == [k];
          SnocInjective(done, k, where, key);
        } else if k in s[n] && s[n][k].Object? {
          LookupStep(s, root, done, k);
          AddedElsewhere(s, t, root, where, key, v, done + [k], s[n][k].node, path[1..]);
        } else {
          LookupStep(s, root, done, k);
          NotOnTheWay(s, root, where, key, done, path);
        }
      }
    }
  }

  /** A path cannot go on through a missing entry or one that is not an object. */
  lemma {:induction false} NoPathThrough(s: Store, root: Node, stop: seq<string>, rest: seq<string>)
    requires Closed(s) && root in s && rest != [] && !IsObject(Lookup(s, root, stop))
    ensures Lookup(s, root, stop + rest).None?
    decreases |rest|
  {
    var front := rest[..|rest| - 1];
    LookupStep(s, root, stop + front, rest[|rest| - 1]);
    assert stop + front + [rest[|rest| - 1]] == stop + rest;
    if front == [] {
      assert stop + front == stop;
    } else {
      NoPathThrough(s, root, stop, front);
    }
  }

  lemma NotOnTheWay(s: Store, root: Node, where: seq<string>, key: string, done: seq<string>, path: seq<string>)
    requires Closed(s) && root in s && IsObject(Lookup(s, root, where))
    requires |path| >= 2 && !IsObject(Lookup(s, root, done + [path[0]]))
    ensures done + path != where + [key]
  {
    if done + path == where + [key] {
      var stop, rest := done + [path[0]], path[1..|path| - 1];
      assert rest == [] ==> stop + rest == stop;
      assert stop + rest == (done + path)[..|where|] == where;
      if rest != [] {
        NoPathThrough(s, root, stop, rest);
      }
    }
  }

  // ----- the backfill

  const LEAF := KEYS + [REGISTRY_TYPE]

  /** The entry the backfill makes sure of, and the way to it. */
  ghost predicate OnTheWay(path: seq<string>) {
    path <= LEAF + ["pattern"]
  }

  /** t has everything s has, and beyond that only what lies on the way to the leaf. */
  ghost predicate OnlyBackfilled(s: Store, t: Store, root: Node)
    requires Closed(s) && Closed(t) && root in s && root in t
  {
    && (forall p :: Lookup(s, root, p).Some? ==> Lookup(t, root, p) == Lookup(s, root, p))
    && forall p :: Lookup(t, root, p).Some? && Lookup(s, root, p).None? ==> OnTheWay(p)
  }

  lemma AddedMeaning(s: Store, t: Store, root: Node, where: seq<string>, key: string, v: Value)
    requires Added(s, t, root, where, key, v)
    ensures forall p :: Lookup(t, root, p) == if p == where + [key] then Some(v) else Lookup(s, root, p)
    ensures Lookup(s, root, where + [key]).None?
    ensures IsTree(t, root)
  {
    LookupStep(s, root, where, key);
    forall p ensures Lookup(t, root, p) == if p == where + [key] then Some(v) else Lookup(s, root, p) {
      AddedElsewhere(s, t, root, where, key, v, [], root, p);
      assert [] + p == p;
    }
    forall p, q | IsObject(Lookup(t, root, p)) && Lookup(t, root, p) == Lookup(t, root, q) ensures p == q {
      NodesKnown(s, root, p);
      NodesKnown(s, root, q);
    }
  }

  lemma NodesKnown(s: Store, root: Node, p: seq<string>)
    requires Closed(s) && root in s
    ensures IsObject(Lookup(s, root, p)) ==> Lookup(s, root, p).value.node in s
  {
    LookupStep(s, root, p, "");
  }

  lemma BackfilledFurther(s: Store, t: Store, u: Store, root: Node, where: seq<string>, key: string, v: Value)
    requires IsTree(s, root) && IsTree(t, root) && OnlyBackfilled(s, t, root) && Added(t, u, root, where, key, v)
    requires OnTheWay(where + [key])
    ensures IsTree(u, root) && OnlyBackfilled(s, u, root)
  {
    AddedMeaning(t, u, root, where, key, v);
  }

  /** Nothing but objects where the walk goes. */
  ghost predicate WayIsClear(s: Store, root: Node)
    requires Closed(s) && root in s
  {
    forall i :: 1 <= i <= |KEYS| && Lookup(s, root, KEYS[..i]).Some? ==> IsObject(Lookup(s, root, KEYS[..i]))
  }

  /** How far the walk has come: current stands at KEYS[..i], as it was or freshly made. */
  ghost predicate Walked(start: Store, s: Store, root: Node, i: nat, current: Node)
    requires i <= |KEYS|
  {
    && IsTree(start, root) && IsTree(s, root) && OnlyBackfilled(start, s, root)
    && Lookup(s, root, KEYS[..i]) == Some(Object(current)) && current in s
    && (forall j :: 1 <= j <= i && Lookup(start, root, KEYS[..j]).Some? ==> IsObject(Lookup(start, root, KEYS[..j])))
    && (if Lookup(start, root, KEYS[..i]).Some? then s == start else s[current] == map[])
  }

  lemma Descend(start: Store, s: Store, root: Node, i: nat, current: Node)
    requires i < |KEYS| && Walked(start, s, root, i, current) && KEYS[i] in s[current]
    ensures s == start && Lookup(start, root, KEYS[..i + 1]) == Some(s[current][KEYS[i]])
    ensures s[current][KEYS[i]].Object? ==> Walked(start, s, root, i + 1, s[current][KEYS[i]].node)
  {
    assert KEYS[..i + 1] == KEYS[..i] + [KEYS[i]];
    LookupStep(s, root, KEYS[..i], KEYS[i]);
  }

  lemma Extend(start: Store, s: Store, root: Node, i: nat, current: Node, child: Node)
    requires i < |KEYS| && Walked(start, s, root, i, current) && KEYS[i] !in s[current] && child !in s
    ensures Walked(start, s[current := s[current][KEYS[i] := Object(child)]][child := map[]], root, i + 1, child)
  {
    var key := KEYS[i];
    var t: Store := s[current := s[current][key := Object(child)]][child := map[]];
    assert KEYS[..i + 1] == KEYS[..i] + [key];
    LookupStep(s, root, KEYS[..i], key);
    ObjectAdded(s, root, KEYS[..i], current, key, child);
    AddedMeaning(s, t, root, KEYS[..i], key, Object(child));
    BackfilledFurther(start, s, t, root, KEYS[..i], key, Object(child));
  }

  /** current[key] = object */
  method AddObject(current: Node, key: string, entries: map<string, Value>, ghost nodes: set<Node>)
    returns (child: Node, ghost all: set<Node>)
    requires current in nodes
    modifies current
    ensures fresh(child) && child !in nodes && all == nodes + {child}
    ensures var s := old(Snapshot(nodes));
      Snapshot(all) == s[current := s[current][key := Object(child)]][child := entries]
  {
    child := new Node(entries);
    current.entries := current.entries[key := Object(child)];
    all := nodes + {child};
  }

  /** The loop: `current` moves down the tree and is updated where it stands. */
  method Walk(root: Node, ghost nodes: set<Node>) returns (ok: bool, current: Node, ghost all: set<Node>)
    requires IsTree(Snapshot(nodes), root)
    modifies nodes
    ensures nodes <= all && fresh(all - nodes)
    ensures ok <==> WayIsClear(old(Snapshot(nodes)), root)
    ensures ok ==> Walked(old(Snapshot(nodes)), Snapshot(all), root, |KEYS|, current)
    ensures !ok ==> Snapshot(all) == old(Snapshot(nodes))
  {
    current, all := root, nodes;
    ghost var start := Snapshot(nodes);
    for i := 0 to |KEYS|
      invariant nodes <= all && fresh(all - nodes)
      invariant Walked(start, Snapshot(all), root, i, current)
    {
      var key := KEYS[i];
      ghost var s := Snapshot(all);
      if key in current.entries {
        Descend(start, s, root, i, current);
        match current.entries[key] {
          case Other(_) => return false, current, all;
          case Object(child) => current := child;
        }
      } else {
        var child;
        child, all := AddObject(current, key, map[], all);
        Extend(start, s, root, i, current, child);
        current := child;
      }
    }
    ok := true;
  }

  method Repair(root: Node, ghost nodes: set<Node>) returns (ok: bool, ghost all: set<Node>)
    requires IsTree(Snapshot(nodes), root)
    modifies nodes
    ensures nodes <= all && fresh(all - nodes)
    ensures IsTree(Snapshot(all), root) && OnlyBackfilled(old(Snapshot(nodes)), Snapshot(all), root)
    ensures ok <==> WayIsClear(old(Snapshot(nodes)), root)
    ensures ok ==> Lookup(Snapshot(all), root, LEAF).Some?
    ensures ok && Lookup(old(Snapshot(nodes)), root, LEAF).None? ==>
      Lookup(Snapshot(all), root, LEAF + ["pattern"]) == Some(Other(PATTERN))
    ensures !ok || Lookup(old(Snapshot(nodes)), root, LEAF).Some? ==> Snapshot(all) == old(Snapshot(nodes))
  {
    ghost var start := Snapshot(nodes);
    var current;
    ok, current, all := Walk(root, nodes);
    if !ok {
      return;
    }
    ghost var s := Snapshot(all);
    assert KEYS[..|KEYS|] == KEYS;
    LookupStep(s, root, KEYS, REGISTRY_TYPE);
    LookupStep(start, root, KEYS, REGISTRY_TYPE);
    if REGISTRY_TYPE !in current.entries {
      var leaf;
      leaf, all := AddObject(current, REGISTRY_TYPE, map["pattern" := Other(PATTERN)], all);
      LeafAdded(start, s, Snapshot(all), root, current, leaf);
    }
  }

  /** The leaf and its pattern, in two steps. */
  lemma LeafAdded(start: Store, s: Store, u: Store, root: Node, current: Node, leaf: Node)
    requires IsTree(start, root) && IsTree(s, root) && OnlyBackfilled(start, s, root)
    requires Lookup(s, root, KEYS) == Some(Object(current)) && current in s && REGISTRY_TYPE !in s[current]
    requires leaf !in s
    requires u == s[current := s[current][REGISTRY_TYPE := Object(leaf)]][leaf := map["pattern" := Other(PATTERN)]]
    ensures IsTree(u, root) && OnlyBackfilled(start, u, root)
    ensures Lookup(u, root, LEAF) == Some(Object(leaf))
    ensures Lookup(u, root, LEAF + ["pattern"]) == Some(Other(PATTERN))
  {
    var t: Store := s[current := s[current][REGISTRY_TYPE := Object(leaf)]][leaf := map[]];
    EmptyLeafAdded(start, s, t, root, current, leaf);
    LeafFilled(s[current := s[current][REGISTRY_TYPE := Object(leaf)]], leaf);
    EntryAdded(start, t, u, root, leaf);
  }

  lemma LeafFilled(s: Store, leaf: Node)
    ensures s[leaf := map[]][leaf := map[]["pattern" := Other(PATTERN)]] == s[leaf := map["pattern" := Other(PATTERN)]]
  {
    assert map[]["pattern" := Other(PATTERN)] == map["pattern" := Other(PATTERN)];
  }

  lemma EmptyLeafAdded(start: Store, s: Store, t: Store, root: Node, current: Node, leaf: Node)
    requires IsTree(start, root) && IsTree(s, root) && OnlyBackfilled(start, s, root)
    requires Lookup(s, root, KEYS) == Some(Object(current)) && current in s && REGISTRY_TYPE !in s[current]
    requires leaf !in s && t == s[current := s[current][REGISTRY_TYPE := Object(leaf)]][leaf := map[]]
    ensures IsTree(t, root) && OnlyBackfilled(start, t, root)
    ensures Lookup(t, root, LEAF) == Some(Object(leaf)) && leaf in t && t[leaf] == map[]
  {
    ObjectAdded(s, root, KEYS, current, REGISTRY_TYPE, leaf);
    AddedMeaning(s, t, root, KEYS, REGISTRY_TYPE, Object(leaf));
    BackfilledFurther(start, s, t, root, KEYS, REGISTRY_TYPE, Object(leaf));
  }

  lemma EntryAdded(start: Store, t: Store, u: Store, root: Node, leaf: Node)
    requires IsTree(start, root) && IsTree(t, root) && OnlyBackfilled(start, t, root)
    requires Lookup(t, root, LEAF) == Some(Object(leaf)) && leaf in t && t[leaf] == map[]
    requires u == t[leaf := t[leaf]["pattern" := Other(PATTERN)]]
    ensures IsTree(u, root) && OnlyBackfilled(start, u, root)
    ensures Lookup(u, root, LEAF) == Some(Object(leaf))
    ensures Lookup(u, root, LEAF + ["pattern"]) == Some(Other(PATTERN))
  {
    assert Closed(u);
    assert Added(t, u, root, LEAF, "pattern", Other(PATTERN));
    AddedMeaning(t, u, root, LEAF, "pattern", Other(PATTERN));
    BackfilledFurther(start, t, u, root, LEAF, "pattern", Other(PATTERN));
    assert |LEAF| != |LEAF + ["pattern"]|;
  }

  lemma ObjectAdded(s: Store, root: Node, where: seq<string>, current: Node, key: string, child: Node)
    requires IsTree(s, root) && Lookup(s, root, where) == Some(Object(current))
    requires current in s && key !in s[current] && child !in s
    ensures Added(s, s[current := s[current][key := Object(child)]][child := map[]], root, where, key, Object(child))
  {
    var t: Store := s[current := s[current][key := Object(child)]][child := map[]];
    forall m, k | m in t && k in t[m] && t[m][k].Object? ensures t[m][k].node in t {
      if m == current && k == key {
        assert t[m][k].node == child;
      } else {
        assert k in s[m] && t[m][k] == s[m][k];
      }
    }
  }

  /** What json.Unmarshal makes of the setting; a JSON null leaves a nil map. */
  datatype Decoded = Failed | Null | Root(node: Node)

  class Config {
    var autonaming: Option<Value>

    /** The setting is replaced only once the repaired tree is complete. */
    method EnsureScalewayRegistryAutonaming(decoded: Decoded, ghost nodes: set<Node>)
      returns (ok: bool, ghost all: set<Node>)
      requires decoded.Root? ==> IsTree(Snapshot(nodes), decoded.node)
      modifies this, nodes
      ensures !ok ==> autonaming == old(autonaming)
      ensures ok <==> decoded.Null? || (decoded.Root? && WayIsClear(old(Snapshot(nodes)), decoded.node))
      ensures ok ==> IsObject(autonaming) && IsTree(Snapshot(all), autonaming.value.node)
      ensures ok ==> Lookup(Snapshot(all), autonaming.value.node, LEAF).Some?
      ensures LEAF == ["providers", "scaleway", "resources", "scaleway:registry/namespace:Namespace"]
      ensures ok && decoded.Root? ==> autonaming == Some(Object(decoded.node))
      ensures decoded.Root? ==>
        IsTree(Snapshot(all), decoded.node) && OnlyBackfilled(old(Snapshot(nodes)), Snapshot(all), decoded.node)
      ensures decoded.Null? ==> IsBackfilledFromNothing(Snapshot(all), autonaming)
    {
      all := nodes;
      if decoded.Failed? {
        return false, nodes;
      }
      var root: Node;
      ghost var tree := nodes;
      if decoded.Null? {
        root := new Node(map[]);
        tree := {root};
      } else {
        root := decoded.node;
      }
      EmptyIsTree(root);
      ok, all := Repair(root, tree);
      if ok {
        autonaming := Some(Object(root));
      }
    }
  }

  /** The way to the leaf, its pattern, and nothing else. */
  ghost predicate IsBackfilledFromNothing(s: Store, v: Option<Value>) {
    && IsObject(v) && IsTree(s, v.value.node) && OnlyBackfilled(map[v.value.node := map[]], s, v.value.node)
    && Lookup(s, v.value.node, LEAF + ["pattern"]) == Some(Other(PATTERN))
  }

  lemma EmptyIsTree(root: Node)
    ensures IsTree(map[root := map[]], root)
    ensures Lookup(map[root := map[]], root, LEAF).None?
    ensures WayIsClear(map[root := map[]], root)
  {
    var s := map[root := map[]];
    forall p ensures Lookup(s, root, p) == if p == [] then Some(Object(root)) else None {
    }
  }
}
