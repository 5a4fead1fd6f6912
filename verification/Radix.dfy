// Mixed-radix arithmetic: the row-major position of a coordinate and its inverse.
module Radix {
  ghost predicate Positive(s: seq<nat>) {
    forall k :: 0 <= k < |s| ==> s[k] > 0
  }

  ghost predicate InBox(x: seq<nat>, s: seq<nat>) {
    |x| == |s| && forall k :: 0 <= k < |x| ==> x[k] < s[k]
  }

  function Prod(s: seq<nat>): nat {
    if s == [] then 1 else s[0] * Prod(s[1..])
  }

  function Ravel(x: seq<nat>, s: seq<nat>): nat
    requires |x| == |s|
  {
    if s == [] then 0 else x[0] * Prod(s[1..]) + Ravel(x[1..], s[1..])
  }

  lemma ProdPositive(s: seq<nat>)
    requires Positive(s)
    ensures Prod(s) > 0
  {
    if s != [] {
      ProdPositive(s[1..]);
    }
  }

  // The first digit is not reduced, so that a position past the end of the box
  // has a coordinate too: one outside the box.
  function Unravel(j: nat, s: seq<nat>): (x: seq<nat>)
    requires Positive(s)
    ensures |x| == |s|
  {
    if s == [] then [] else
      ProdPositive(s[1..]);
      [j / Prod(s[1..])] + Unravel(j % Prod(s[1..]), s[1..])
  }

  function Plus(x: seq<nat>, y: seq<nat>): (z: seq<nat>)
    requires |x| == |y|
    ensures |z| == |x|
    ensures forall k :: 0 <= k < |z| ==> z[k] == x[k] + y[k]
  {
    seq(|x|, k requires 0 <= k < |x| => x[k] + y[k])
  }

  lemma ProdStep(s: seq<nat>, k: nat)
    requires k < |s|
    ensures Prod(s[k..]) == s[k] * Prod(s[k + 1..])
  {
    assert s[k..][1..] == s[k + 1..];
  }

  lemma MulAssoc(a: nat, b: nat, c: nat)
    ensures a * (b * c) == (a * b) * c
  {
  }

  lemma {:induction false} ProdSplit(s: seq<nat>, k: nat)
    requires k <= |s|
    ensures Prod(s) == Prod(s[..k]) * Prod(s[k..])
  {
    if k == 0 {
      assert s[..0] == [] && s[0..] == s;
    } else {
      ProdSplit(s[1..], k - 1);
      assert s[..k][1..] == s[1..][..k - 1] && s[k..] == s[1..][k - 1..];
      MulAssoc(s[0], Prod(s[1..][..k - 1]), Prod(s[k..]));
    }
  }

  lemma Distribute(a: nat, b: nat, c: nat, d: nat)
    ensures (a * b + d) * c == a * (b * c) + d * c
  {
    assert (a * b + d) * c == (a * b) * c + d * c;
    MulAssoc(a, b, c);
  }

  lemma {:induction false} ProdOnes(s: seq<nat>)
    requires forall k :: 0 <= k < |s| ==> s[k] == 1
    ensures Prod(s) == 1
  {
    if s != [] {
      ProdOnes(s[1..]);
    }
  }

  lemma MulMonotone(a: nat, b: nat, c: nat, d: nat)
    requires a <= b && c <= d
    ensures a * c <= b * d
  {
    assert a * c <= a * d && a * d <= b * d;
  }

  lemma {:induction false} ProdMonotone(s: seq<nat>, t: seq<nat>)
    requires |s| == |t| && forall k :: 0 <= k < |s| ==> s[k] <= t[k]
    ensures Prod(s) <= Prod(t)
  {
    if s != [] {
      ProdMonotone(s[1..], t[1..]);
      MulMonotone(s[0], t[0], Prod(s[1..]), Prod(t[1..]));
    }
  }

  // A suffix product of 1 means that every size in the suffix is 1.
  lemma {:induction false} ProdOneOnes(s: seq<nat>)
    requires Positive(s) && Prod(s) == 1
    ensures forall k :: 0 <= k < |s| ==> s[k] == 1
  {
    if s != [] {
      ProdPositive(s[1..]);
      assert s[0] * Prod(s[1..]) >= s[0] && s[0] * Prod(s[1..]) >= Prod(s[1..]);
      ProdOneOnes(s[1..]);
      forall k | 0 <= k < |s| ensures s[k] == 1 {
        if k > 0 { assert s[k] == s[1..][k - 1]; }
      }
    }
  }

  lemma {:induction false} RavelBound(x: seq<nat>, s: seq<nat>)
    requires InBox(x, s)
    ensures Ravel(x, s) < Prod(s)
  {
    if s != [] {
      RavelBound(x[1..], s[1..]);
      assert x[0] * Prod(s[1..]) + Prod(s[1..]) == (x[0] + 1) * Prod(s[1..]);
      MulMonotone(x[0] + 1, s[0], Prod(s[1..]), Prod(s[1..]));
    }
  }

  lemma MulOrder(a: nat, b: nat, n: nat)
    ensures a <= b ==> a * n <= b * n
  {
  }

  lemma DivModUnique(a: nat, n: nat, q: nat, r: nat)
    requires n > 0 && r < n && a == q * n + r
    ensures a / n == q && a % n == r
  {
    var b := a / n;
    assert a == b * n + a % n;
    MulOrder(b + 1, q, n);
    MulOrder(q + 1, b, n);
  }

  // The multiples of c after b.
  lemma NextMultiple(b: nat, c: nat)
    requires c > 0 && b % c == 0
    ensures (b + c) % c == 0
    ensures forall y :: b < y < b + c ==> y % c != 0
  {
    var h := b / c;
    assert b == h * c + b % c;
    DivModUnique(b + c, c, h + 1, 0);
    forall y | b < y < b + c ensures y % c != 0 {
      DivModUnique(y, c, h, y - b);
    }
  }

  lemma InBoxPositive(x: seq<nat>, s: seq<nat>)
    requires InBox(x, s)
    ensures Positive(s)
  {
    forall k | 0 <= k < |s| ensures s[k] > 0 { assert x[k] < s[k]; }
  }

  lemma {:induction false} UnravelRavel(x: seq<nat>, s: seq<nat>)
    requires InBox(x, s)
    ensures Positive(s) && Unravel(Ravel(x, s), s) == x
  {
    InBoxPositive(x, s);
    if s != [] {
      RavelBound(x[1..], s[1..]);
      DivModUnique(Ravel(x, s), Prod(s[1..]), x[0], Ravel(x[1..], s[1..]));
      UnravelRavel(x[1..], s[1..]);
    }
  }

  lemma UnravelHead(i: nat, s: seq<nat>) returns (q: nat, r: nat)
    requires Positive(s) && s != []
    ensures i == q * Prod(s[1..]) + r && r < Prod(s[1..])
    ensures Unravel(i, s) == [q] + Unravel(r, s[1..])
    ensures i < Prod(s[1..]) ==> q == 0
  {
    var p := Prod(s[1..]);
    ProdPositive(s[1..]);
    q, r := i / p, i % p;
    if i < p { DivModUnique(i, p, 0, i); }
  }

  lemma RavelCons(q: nat, x: seq<nat>, s: seq<nat>)
    requires |x| + 1 == |s|
    ensures Ravel([q] + x, s) == q * Prod(s[1..]) + Ravel(x, s[1..])
  {
    assert ([q] + x)[1..] == x;
  }

  lemma InBoxCons(q: nat, x: seq<nat>, s: seq<nat>)
    requires s != [] && q < s[0] && InBox(x, s[1..])
    ensures InBox([q] + x, s)
  {
  }

  lemma {:induction false} RavelUnravel(j: nat, s: seq<nat>)
    requires Positive(s) && j < Prod(s)
    ensures InBox(Unravel(j, s), s) && Ravel(Unravel(j, s), s) == j
  {
    if s != [] {
      var q, r := UnravelHead(j, s);
      RavelUnravel(r, s[1..]);
      MulOrder(s[0], q, Prod(s[1..]));
      RavelCons(q, Unravel(r, s[1..]), s);
      InBoxCons(q, Unravel(r, s[1..]), s);
    }
  }

  lemma {:induction false} RavelPlus(x: seq<nat>, y: seq<nat>, s: seq<nat>)
    requires |x| == |y| == |s|
    ensures Ravel(Plus(x, y), s) == Ravel(x, s) + Ravel(y, s)
  {
    if s != [] {
      RavelPlus(x[1..], y[1..], s[1..]);
      assert Plus(x, y)[1..] == Plus(x[1..], y[1..]);
      assert (x[0] + y[0]) * Prod(s[1..]) == x[0] * Prod(s[1..]) + y[0] * Prod(s[1..]);
    }
  }

  lemma {:induction false} RavelSplit(x: seq<nat>, s: seq<nat>, k: nat)
    requires |x| == |s| && k <= |s|
    ensures Ravel(x, s) == Ravel(x[..k], s[..k]) * Prod(s[k..]) + Ravel(x[k..], s[k..])
  {
    if k == 0 {
      assert x[0..] == x && s[0..] == s;
    } else {
      RavelSplit(x[1..], s[1..], k - 1);
      ProdSplit(s[1..], k - 1);
      assert x[..k][1..] == x[1..][..k - 1] && s[..k][1..] == s[1..][..k - 1];
      assert x[k..] == x[1..][k - 1..] && s[k..] == s[1..][k - 1..];
      Distribute(x[0], Prod(s[1..][..k - 1]), Prod(s[k..]), Ravel(x[1..][..k - 1], s[1..][..k - 1]));
    }
  }

  lemma RavelAt(x: seq<nat>, s: seq<nat>, k: nat)
    requires |x| == |s| && k < |s|
    ensures Ravel(x, s) == Ravel(x[..k], s[..k]) * Prod(s[k..]) + x[k] * Prod(s[k + 1..]) +
            Ravel(x[k + 1..], s[k + 1..])
  {
    RavelSplit(x, s, k);
    assert x[k..][1..] == x[k + 1..] && s[k..][1..] == s[k + 1..];
  }

  // A digit and the carry into it are no larger than the position they stand for.
  lemma SumBelow(x: seq<nat>, s: seq<nat>, k: nat, carry: nat)
    requires |x| == |s| && k < |s| && Positive(s)
    ensures x[k] + carry <= Ravel(x, s) + carry * Prod(s[k + 1..])
  {
    hide Ravel, Prod;
    RavelAt(x, s, k);
    ProdPositive(s[k + 1..]);
    MulOrder(1, Prod(s[k + 1..]), x[k]);
    MulOrder(1, Prod(s[k + 1..]), carry);
  }

  lemma RavelSet(x: seq<nat>, s: seq<nat>, k: nat, v: nat)
    requires |x| == |s| && k < |s|
    ensures Ravel(x[k := v], s) == Ravel(x, s) + (v - x[k]) * Prod(s[k + 1..])
  {
    var y := x[k := v];
    RavelAt(x, s, k);
    RavelAt(y, s, k);
    assert y[..k] == x[..k] && y[k + 1..] == x[k + 1..];
    assert (v - x[k]) * Prod(s[k + 1..]) == v * Prod(s[k + 1..]) - x[k] * Prod(s[k + 1..]);
  }

  lemma {:induction false} RavelZero(x: seq<nat>, s: seq<nat>)
    requires |x| == |s| && forall k :: 0 <= k < |x| ==> x[k] == 0
    ensures Ravel(x, s) == 0
  {
    if s != [] {
      RavelZero(x[1..], s[1..]);
    }
  }

  // Reading one digit off a position.
  lemma Digit(x: seq<nat>, s: seq<nat>, k: nat)
    requires InBox(x, s) && k < |s|
    ensures Positive(s) && Prod(s[k + 1..]) > 0
    ensures Ravel(x, s) / Prod(s[k + 1..]) % s[k] == x[k]
  {
    hide Ravel, Prod;
    InBoxPositive(x, s);
    ProdPositive(s[k + 1..]);
    var p := Prod(s[k + 1..]);
    RavelAt(x, s, k);
    ProdStep(s, k);
    var h, t := Ravel(x[..k], s[..k]), Ravel(x[k + 1..], s[k + 1..]);
    RavelBound(x[k + 1..], s[k + 1..]);
    Distribute(h, s[k], p, x[k]);
    DivModUnique(Ravel(x, s), p, h * s[k] + x[k], t);
    DivModUnique(h * s[k] + x[k], s[k], h, x[k]);
  }

  // e is a sub-box whose row-major order is also the order of the enclosing box c:
  // below any dimension longer than 1 it spans c completely.
  predicate Contiguous(e: seq<nat>, c: seq<nat>) {
    |e| == |c| && forall j, k :: 0 <= j < k < |e| && e[j] > 1 ==> e[k] == c[k]
  }

  lemma ContiguousTail(e: seq<nat>, c: seq<nat>)
    requires Contiguous(e, c) && e != []
    ensures Contiguous(e[1..], c[1..])
    ensures e[0] > 1 ==> e[1..] == c[1..]
  {
    forall j, k | 0 <= j < k < |e| - 1 && e[1..][j] > 1 ensures e[1..][k] == c[1..][k] {
      assert e[j + 1] > 1 && e[k + 1] == c[k + 1];
    }
  }

  lemma {:induction false} ContiguousRavel(i: nat, e: seq<nat>, c: seq<nat>)
    requires Positive(e) && Contiguous(e, c) && i < Prod(e)
    ensures Ravel(Unravel(i, e), c) == i
  {
    if e != [] {
      ContiguousTail(e, c);
      var q, r := UnravelHead(i, e);
      ContiguousRavel(r, e[1..], c[1..]);
      assert q * Prod(c[1..]) == q * Prod(e[1..]);
      RavelCons(q, Unravel(r, e[1..]), c);
    }
  }
}
