/** Filtering, said without a filter: which positions are kept, and what comes of them. */
module Selections {
  import opened Options

  ghost predicate IsIncreasing(idx: seq<nat>, n: nat) {
    (forall i :: 0 <= i < |idx| ==> idx[i] < n) && forall i, j :: 0 <= i < j < |idx| ==> idx[i] < idx[j]
  }

  ghost predicate SelectsAt<T, U>(s: seq<T>, f: T -> Option<U>, out: seq<U>, idx: seq<nat>) {
    && IsIncreasing(idx, |s|) && |idx| == |out|
    && (forall i :: 0 <= i < |idx| ==> f(s[idx[i]]) == Some(out[i]))
    && forall k: nat :: k < |s| && k !in idx ==> f(s[k]).None?
  }

  /** out has one value, in order, for each member of s that f accepts, and no other. */
  ghost predicate IsSelection<T, U>(s: seq<T>, f: T -> Option<U>, out: seq<U>) {
    exists idx: seq<nat> :: SelectsAt(s, f, out, idx)
  }

  lemma EmptySelection<T, U>(f: T -> Option<U>)
    ensures IsSelection([], f, [])
  {
    assert SelectsAt<T, U>([], f, [], []);
  }

  lemma SelectionGrows<T, U>(s: seq<T>, f: T -> Option<U>, out: seq<U>, x: T)
    requires IsSelection(s, f, out)
    ensures IsSelection(s + [x], f, out + match f(x) case Some(v) => [v] case None => [])
  {
    var idx: seq<nat> :| SelectsAt(s, f, out, idx);
    if f(x).Some? {
      assert SelectsAt(s + [x], f, out + [f(x).value], idx + [|s|]);
    } else {
      assert out + [] == out;
      assert SelectsAt(s + [x], f, out, idx);
    }
  }

  /** When everything is accepted, position answers to position. */
  lemma AllSelected<T, U>(s: seq<T>, f: T -> Option<U>, out: seq<U>)
    requires IsSelection(s, f, out) && forall i :: 0 <= i < |s| ==> f(s[i]).Some?
    ensures |out| == |s| && forall i :: 0 <= i < |s| ==> f(s[i]) == Some(out[i])
  {
    var idx: seq<nat> :| SelectsAt(s, f, out, idx);
    AllPositions(idx, |s|);
  }

  lemma {:induction false} AllPositions(idx: seq<nat>, n: nat)
    requires IsIncreasing(idx, n) && forall k: nat :: k < n ==> k in idx
    ensures |idx| == n && forall i :: 0 <= i < n ==> idx[i] == i
  {
    if idx != [] {
      PositionsNeedRoom(idx, n);
    }
    if n > 0 {
      var last := |idx| - 1;
      assert n - 1 in idx;
      LastPosition(idx, n);
      forall k: nat | k < n - 1 ensures k in idx[..last] {
        assert k in idx;
        var at :| 0 <= at < |idx| && idx[at] == k;
        assert idx[..last][at] == k;
      }
      AllPositions(idx[..last], n - 1);
    }
  }

  lemma PositionsNeedRoom(idx: seq<nat>, n: nat)
    requires IsIncreasing(idx, n) && idx != []
    ensures n > 0
  {
    assert idx[0] < n;
  }

  lemma LastPosition(idx: seq<nat>, n: nat)
    requires IsIncreasing(idx, n) && n > 0 && n - 1 in idx
    ensures idx[|idx| - 1] == n - 1 && IsIncreasing(idx[..|idx| - 1], n - 1)
  {
    var at :| 0 <= at < |idx| && idx[at] == n - 1;
    assert idx[at] <= idx[|idx| - 1];
  }
}
