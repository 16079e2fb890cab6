/** The order ksort() puts string keys in (byte-wise comparison, modelled as
    comparison of characters) and a sort of a map's key set into it. */
module Order {

  /** Strict lexicographic order: a proper prefix comes first, otherwise the
      first differing character decides. */
  predicate Less(a: string, b: string)
    decreases |a|
  {
    if a == [] then b != []
    else if b == [] then false
    else if a[0] == b[0] then Less(a[1..], b[1..])
    else a[0] < b[0]
  }

  lemma {:induction false} LessIrreflexive(a: string)
    ensures !Less(a, a)
    decreases |a|
  {
    if a != [] { LessIrreflexive(a[1..]); }
  }

  lemma {:induction false} LessTransitive(a: string, b: string, c: string)
    requires Less(a, b) && Less(b, c)
    ensures Less(a, c)
    decreases |a|
  {
    if a != [] && a[0] == b[0] && b[0] == c[0] {
      LessTransitive(a[1..], b[1..], c[1..]);
    }
  }

  /** Any two different strings are ordered one way or the other, and never both. */
  lemma {:induction false} LessTrichotomy(a: string, b: string)
    ensures a == b || Less(a, b) || Less(b, a)
    ensures !(Less(a, b) && Less(b, a))
    decreases |a|
  {
    if a != [] && b != [] && a[0] == b[0] {
      LessTrichotomy(a[1..], b[1..]);
      if a[1..] == b[1..] {
        assert a == [a[0]] + a[1..] && b == [b[0]] + b[1..];
      }
    }
  }

  /** Strictly ascending, hence free of repetitions. */
  ghost predicate Ascending(s: seq<string>)
  {
    forall i, j {:trigger Less(s[i], s[j])} :: 0 <= i < j < |s| ==> Less(s[i], s[j])
  }

  /** Puts k at its place in an ascending sequence (nothing happens when k is already there). */
  function Insert(s: seq<string>, k: string): (r: seq<string>)
    requires Ascending(s)
    ensures Ascending(r)
    ensures forall x :: x in r <==> x in s || x == k
    ensures |r| == if k in s then |s| else |s| + 1
  {
    if s == [] then [k]
    else if Less(k, s[0]) then
      assert forall j :: 0 < j < |s| ==> Less(k, s[j]) by {
        forall j | 0 < j < |s| ensures Less(k, s[j]) { LessTransitive(k, s[0], s[j]); }
      }
      forall x | x in s ensures x != k { LessIrreflexive(k); if x != s[0] { LessTrichotomy(k, x); } }
      [k] + s
    else if k == s[0] then s
    else
      LessTrichotomy(k, s[0]);
      var t := Insert(s[1..], k);
      assert forall x :: x in t ==> Less(s[0], x);
      [s[0]] + t
  }

  /** Sorts a set of keys, as ksort() orders the keys of an array. */
  method SortKeys(keys: set<string>) returns (ks: seq<string>)
    ensures Ascending(ks)
    ensures forall x :: x in ks <==> x in keys
    ensures |ks| == |keys|
  {
    ks := [];
    var rest := keys;
    while rest != {}
      invariant Ascending(ks)
      invariant forall x :: x in keys <==> x in ks || x in rest
      invariant forall x :: x in rest ==> x !in ks
      invariant |ks| + |rest| == |keys|
      decreases |rest|
    {
      var k :| k in rest;
      ks := Insert(ks, k);
      rest := rest - {k};
    }
  }
}
