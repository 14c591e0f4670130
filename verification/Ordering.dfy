/** common.Sorted: the keys of a map in ascending order. */
module Ordering {

  /** Lexicographic order by code point, which is Go's order on UTF-8 strings. */
  predicate Less(a: string, b: string) {
    b != "" && (a == "" || a[0] < b[0] || (a[0] == b[0] && Less(a[1..], b[1..])))
  }

  /** a and b agree for a while, and then a ends first or has the smaller character. */
  ghost predicate ComesFirst(a: string, b: string, i: nat) {
    i <= |a| && i < |b| && a[..i] == b[..i] && (i == |a| || a[i] < b[i])
  }

  lemma {:induction false} LessMeaning(a: string, b: string)
    ensures Less(a, b) <==> exists i: nat :: ComesFirst(a, b, i)
    decreases |a|
  {
    if a != "" && b != "" && a[0] == b[0] {
      LessMeaning(a[1..], b[1..]);
      if Less(a, b) {
        var i: nat :| ComesFirst(a[1..], b[1..], i);
        assert a[..i + 1] == [a[0]] + a[1..][..i] && b[..i + 1] == [b[0]] + b[1..][..i];
        assert ComesFirst(a, b, i + 1);
      }
      forall i: nat | ComesFirst(a, b, i) ensures Less(a, b) {
        assert i > 0;
        assert a[1..][..i - 1] == a[..i][1..] && b[1..][..i - 1] == b[..i][1..];
        assert ComesFirst(a[1..], b[1..], i - 1);
      }
    } else {
      if Less(a, b) {
        assert ComesFirst(a, b, 0);
      }
      forall i: nat | ComesFirst(a, b, i) ensures Less(a, b) {
        FirstCharacters(a, b, i);
      }
    }
  }

  lemma FirstCharacters(a: string, b: string, i: nat)
    requires ComesFirst(a, b, i)
    ensures b != "" && (a == "" || a[0] <= b[0])
  {
    if i > 0 {
      assert a[..i][0] == b[..i][0];
    }
  }

  lemma {:induction false} LessIrreflexive(a: string)
    ensures !Less(a, a)
  {
    if a != "" {
      LessIrreflexive(a[1..]);
    }
  }

  lemma {:induction false} LessTotal(a: string, b: string)
    ensures a == b || Less(a, b) || Less(b, a)
    ensures !(Less(a, b) && Less(b, a)) && !Less(a, a)
    decreases |a| + |b|
  {
    if a != "" && b == "" {
      LessIrreflexive(a);
    }
    if a != "" && b != "" {
      LessIrreflexive(a);
      LessTotal(a[1..], b[1..]);
      assert a == [a[0]] + a[1..] && b == [b[0]] + b[1..];
    }
  }

  lemma {:induction false} LessTransitive(a: string, b: string, c: string)
    requires Less(a, b) && Less(b, c)
    ensures Less(a, c)
    decreases |a|
  {
    if a != "" && a[0] == b[0] == c[0] {
      LessTransitive(a[1..], b[1..], c[1..]);
    }
  }

  predicate Ascending(s: seq<string>) {
    forall i, j :: 0 <= i < j < |s| ==> Less(s[i], s[j])
  }

  /** s lists the members of keys, each once, in ascending order. */
  predicate IsListing(s: seq<string>, keys: set<string>) {
    Ascending(s) && (forall k :: k in s ==> k in keys) && forall k :: k in keys ==> k in s
  }

  lemma ListedOnce(s: seq<string>, i: nat)
    requires Ascending(s) && i < |s|
    ensures s[i] !in s[..i]
  {
    LessIrreflexive(s[i]);
  }

  lemma EmptyListing(s: seq<string>, keys: set<string>)
    requires IsListing(s, keys)
    ensures keys == {} ==> s == []
  {
    if s != [] {
      assert s[0] in keys;
    }
  }

  /** There is only one such list. */
  lemma {:induction false} ListingUnique(s: seq<string>, t: seq<string>, keys: set<string>)
    requires IsListing(s, keys) && IsListing(t, keys)
    ensures s == t
    decreases |s|
  {
    if s == [] {
      assert keys == {};
      EmptyListing(t, keys);
    } else {
      assert s[0] in keys;
      assert t[0] in keys;
      LessTotal(s[0], t[0]);
      TailListing(s, keys);
      TailListing(t, keys);
      ListingUnique(s[1..], t[1..], keys - {s[0]});
    }
  }

  lemma TailListing(s: seq<string>, keys: set<string>)
    requires IsListing(s, keys) && s != []
    ensures IsListing(s[1..], keys - {s[0]})
    ensures forall k :: k in keys && k != s[0] ==> Less(s[0], k)
  {
    LessTotal(s[0], s[0]);
    forall k | k in keys && k != s[0] ensures k in s[1..] && Less(s[0], k) {
      var i :| 0 <= i < |s| && s[i] == k;
      assert s[1..][i - 1] == k;
    }
  }

  lemma {:induction false} LeastExists(keys: set<string>)
    requires keys != {}
    ensures exists m :: m in keys && forall k :: k in keys && k != m ==> Less(m, k)
    decreases |keys|
  {
    var x :| x in keys;
    var rest := keys - {x};
    if rest == {} {
      assert keys == {x};
    } else {
      LeastExists(rest);
      var m :| m in rest && forall k :: k in rest && k != m ==> Less(m, k);
      LessTotal(x, m);
      var least := if Less(x, m) then x else m;
      forall k | k in keys && k != least ensures Less(least, k) {
        if least == x && k != m {
          LessTransitive(x, m, k);
        }
      }
      assert least in keys;
    }
  }

  method SortedKeys(keys: set<string>) returns (s: seq<string>)
    ensures IsListing(s, keys)
  {
    s := [];
    var todo := keys;
    while todo != {}
      invariant todo <= keys && IsListing(s, keys - todo)
      invariant forall a, b :: a in s && b in todo ==> Less(a, b)
    {
      LeastExists(todo);
      var m :| m in todo && forall k :: k in todo && k != m ==> Less(m, k);
      s, todo := s + [m], todo - {m};
    }
    assert keys - todo == keys;
  }
}
