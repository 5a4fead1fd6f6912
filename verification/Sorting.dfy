// Sorting, known to callers only by its result: equal keys may end in any order.
module Sorting {
  // le is a total preorder on the elements of s.
  ghost predicate Orders<T>(s: seq<T>, le: (T, T) -> bool) {
    && (forall a, b :: a in s && b in s ==> le(a, b) || le(b, a))
    && (forall a, b, c :: a in s && b in s && c in s && le(a, b) && le(b, c) ==> le(a, c))
  }

  ghost predicate SortedBy<T>(s: seq<T>, le: (T, T) -> bool) {
    forall i, j :: 0 <= i < j < |s| ==> le(s[i], s[j])
  }

  lemma Inserted<T>(r: seq<T>, i: nat, x: T, le: (T, T) -> bool)
    requires SortedBy(r, le) && i <= |r|
    requires forall j :: 0 <= j < i ==> le(r[j], x)
    requires forall j :: i <= j < |r| ==> le(x, r[j])
    ensures SortedBy(r[..i] + [x] + r[i..], le)
    ensures multiset(r[..i] + [x] + r[i..]) == multiset(r) + multiset{x}
  {
    var t := r[..i] + [x] + r[i..];
    assert r == r[..i] + r[i..];
    forall a, b | 0 <= a < b < |t| ensures le(t[a], t[b]) {
      assert t[a] == if a < i then r[a] else if a == i then x else r[a - 1];
      assert t[b] == if b < i then r[b] else if b == i then x else r[b - 1];
    }
  }

  lemma Above<T>(s: seq<T>, r: seq<T>, i: nat, j: nat, x: T, le: (T, T) -> bool)
    requires Orders(s, le) && SortedBy(r, le) && i <= j < |r| && x in s && r[i] in s && r[j] in s && !le(r[i], x)
    ensures le(x, r[j])
  {
  }

  method Place<T>(r: seq<T>, x: T, le: (T, T) -> bool) returns (i: nat)
    ensures i <= |r| && forall j :: 0 <= j < i ==> le(r[j], x)
    ensures i < |r| ==> !le(r[i], x)
  {
    i := 0;
    while i < |r| && le(r[i], x)
      invariant i <= |r| && forall j :: 0 <= j < i ==> le(r[j], x)
    {
      i := i + 1;
    }
  }

  lemma EmptySorted<T>(le: (T, T) -> bool)
    ensures SortedBy([], le)
  {
  }

  lemma SameElements<T>(r: seq<T>, s: seq<T>)
    requires multiset(r) == multiset(s)
    ensures |r| == |s|
    ensures forall a :: a in r <==> a in s
  {
    assert |multiset(r)| == |r| && |multiset(s)| == |s|;
    forall a ensures a in r <==> a in s {
      assert a in r <==> a in multiset(r);
      assert a in s <==> a in multiset(s);
    }
  }

  method Sort<T>(s: seq<T>, le: (T, T) -> bool) returns (r: seq<T>)
    requires Orders(s, le)
    ensures SortedBy(r, le) && multiset(r) == multiset(s)
  {
    hide Orders, SortedBy;
    r := [];
    assert SortedBy(r, le) by { EmptySorted(le); }
    for n := 0 to |s|
      invariant SortedBy(r, le) && multiset(r) == multiset(s[..n])
    {
      var i := Place(r, s[n], le);
      SameElements(r, s[..n]);
      forall j | i <= j < |r| ensures le(s[n], r[j]) {
        assert r[i] in r && r[j] in r;
        Above(s, r, i, j, s[n], le);
      }
      Inserted(r, i, s[n], le);
      assert s[..n + 1] == s[..n] + [s[n]];
      r := r[..i] + [s[n]] + r[i..];
    }
    assert s[..|s|] == s;
  }

  lemma Repeated<T>(r: seq<T>, i: nat, j: nat)
    requires i < j < |r| && r[i] == r[j]
    ensures multiset(r)[r[i]] > 1
  {
    assert r == r[..j] + r[j..];
    assert r[i] in r[..j] && r[i] in r[j..];
  }
}
