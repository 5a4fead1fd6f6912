// The wrapping slicer with sums of a coordinate and a carry that do not wrap; on requests that leave
// room for them, this is no difference.
module WrapSums {
  import opened Radix
  import opened Slicing
  import opened Stops
  import opened StopProofs
  import opened Delivery
  import opened Exactness
  import opened Wrapping

  // One pass of the dimension loop.
  function BroadVisit(q: Request, base: seq<nat>, s: Sweep): (r: (Sweep, bool))
    requires Ready(q, base, s) && s.left > 0
    ensures |r.0.coords| == |s.coords| && r.0.left == s.left - 1
  {
    var k := s.left - 1;
    var v := s.coords[k] + s.carry;
    if q.Thin(base, k) then
      (Sweep(s.coords[k := q.Digit(k, v)], s.offset, s.advance, q.Carry(k, v), k, true), true)
    else
      var to: nat := Min(q.counts[k], q.Limit(base, k));
      var diff := Wrapped((to - q.Digit(k, v)) * q.Stride(k));
      var t := Sweep(s.coords[k := q.Digit(k, to)], Wrapped(s.offset + diff), Wrapped(s.advance + diff),
                     q.Carry(k, v) + q.Carry(k, to), k, true);
      (t, q.indices[k] == base[k] && q.counts[k] == q.Limit(base, k) && t.offset < q.End())
  }

  function BroadDescend(q: Request, base: seq<nat>, s: Sweep): (r: Sweep)
    requires Ready(q, base, s)
    ensures |r.coords| == |s.coords| && r.left <= s.left
    decreases s.left
  {
    if s.left == 0 then s else
      var (t, more) := BroadVisit(q, base, s);
      if more then BroadDescend(q, base, t) else t
  }

  lemma {:induction false} BroadDescendBox(q: Request, base: seq<nat>, s: Sweep)
    requires Ready(q, base, s) && InBox(s.coords, q.counts)
    ensures InBox(BroadDescend(q, base, s).coords, q.counts)
    decreases s.left
  {
    if s.left > 0 {
      var (t, more) := BroadVisit(q, base, s);
      assert InBox(t.coords, q.counts);
      if more {
        hide BroadVisit;
        BroadDescendBox(q, base, t);
      }
    }
  }

  function BroadNext(q: Request, base: seq<nat>, cur: Cursor): (r: Step)
    requires Live(q, cur) && Lookup(q, base, cur.coords)
    ensures r.Deliver? && InBox(r.next.coords, q.counts)
  {
    if q.shape == [] then Deliver(0, 1, Cursor(cur.offset + 1, cur.coords)) else
      var s := Sweep(cur.coords, cur.offset, 0, 0, |base|, true);
      BroadDescendBox(q, base, s);
      var r := BroadDescend(q, base, s);
      RippleBox(r.coords, q.counts, r.left, r.carry);
      Deliver(Ravel(Within(q, base, cur.coords), q.chunkShape), r.advance,
        Cursor(r.offset, Ripple(r.coords, q.counts, r.left, r.carry)))
  }

  ghost function BroadRun(q: Request, cur: Cursor): Run
    requires q.Valid() && InBox(cur.coords, q.counts)
    decreases q.End() - cur.offset
  {
    if cur.offset >= q.End() then Run([], true) else
      var base := BaseAt(q, cur.coords);
      BaseFacts(q, cur.coords);
      var r := BroadNext(q, base, cur);
      if r.next.offset <= cur.offset || r.start + r.advance >= U64 then Run([], false) else
        var rest := BroadRun(q, r.next);
        Run([Segment(base, r.start, r.start + r.advance)] + rest.segments, rest.ok)
  }

  lemma BroadDescendStep(q: Request, base: seq<nat>, s: Sweep)
    requires Ready(q, base, s) && s.left > 0
    ensures var (t, more) := BroadVisit(q, base, s);
            BroadDescend(q, base, s) == if more then BroadDescend(q, base, t) else t
  {
    hide BroadVisit;
  }

  // The sums of one call stay far from the ends of the 64-bit range.
  ghost predicate Roomy(q: Request)
    requires q.Valid()
  {
    3 * Prod(Padded(q.shape, q.chunkShape)) + |q.shape| < U64
  }

  lemma EndPadded(q: Request)
    requires q.Valid()
    ensures q.End() <= Prod(Padded(q.shape, q.chunkShape))
  {
    hide Prod;
    var p := Padded(q.shape, q.chunkShape);
    forall k | 0 <= k < |p| ensures q.counts[k] <= p[k] {
      DivCeilFacts(q.shape[k], q.chunkShape[k]);
    }
    ProdMonotone(q.counts, p);
  }

  // A digit lets no more than the carry into it out.
  lemma CarryShrinks(x: nat, carry: nat, n: nat)
    requires x < n
    ensures (x + carry) / n <= carry
  {
    var c := (x + carry) / n;
    assert x + carry == c * n + (x + carry) % n;
    MulOrder(carry + 1, c, n);
    MulOrder(1, n, carry);
    Distribute(1, carry, n, 1);
  }

  // A carry never exceeds the number of dimensions it has come up through.
  lemma CarryBound(q: Request, base: seq<nat>, s: Sweep)
    requires Ready(q, base, s) && s.left > 0 && InBox(s.coords, q.counts) && s.carry + s.left <= |base|
    ensures var t := BroadVisit(q, base, s).0; InBox(t.coords, q.counts) && t.carry + t.left <= |base|
  {
    hide Prod;
    var k := s.left - 1;
    CarryShrinks(s.coords[k], s.carry, q.counts[k]);
    var to := Min(q.counts[k], q.Limit(base, k));
    CarryOne(to, q.counts[k]);
  }

  // A carry of the checked loop never exceeds the number of dimensions it has come up through.
  lemma CheckedCarryBound(q: Request, base: seq<nat>, s: Sweep)
    requires Ready(q, base, s) && s.left > 0 && InBox(s.coords, q.counts) && s.carry + s.left <= |base|
    ensures var t := Visit(q, base, s).0; t.ok ==> InBox(t.coords, q.counts) && t.carry + t.left <= |base|
  {
    hide Prod;
    var k := s.left - 1;
    CarryShrinks(s.coords[k], s.carry, q.counts[k]);
    var to := Min(q.counts[k], q.Limit(base, k));
    CarryOne(to, q.counts[k]);
  }

  lemma RoomySum(q: Request, k: nat, x: nat, carry: nat)
    requires q.Valid() && Roomy(q) && k < |q.counts| && x < q.counts[k] && carry <= |q.shape|
    ensures x + carry + 1 < U64
  {
    hide Prod;
    CountFits(q, k);
    EndPadded(q);
  }

  lemma SumsExact(q: Request, k: nat, v: nat, to: nat)
    requires k < |q.counts| && q.counts[k] > 0 && to <= q.counts[k] && v + 1 < U64
    ensures Wrapped(v) == v && Wrapped(q.Carry(k, v) + q.Carry(k, to)) == q.Carry(k, v) + q.Carry(k, to)
  {
    hide Rem, Quot;
    WrappedExact(v);
    CarryBelow(q, k, v);
    CarryDigit(q, k, to);
    WrappedExact(q.Carry(k, v) + q.Carry(k, to));
  }

  lemma VisitBroad(q: Request, base: seq<nat>, s: Sweep)
    requires Ready(q, base, s) && s.left > 0 && InBox(s.coords, q.counts) && s.carry + s.left <= |base| && Roomy(q)
    ensures WrapVisit(q, base, s) == BroadVisit(q, base, s)
  {
    hide Prod, Roomy, Rem, Quot, Wrapped;
    var k := s.left - 1;
    RoomySum(q, k, s.coords[k], s.carry);
    SumsExact(q, k, s.coords[k] + s.carry, Min(q.counts[k], q.Limit(base, k)));
  }

  lemma {:induction false} DescendBroad(q: Request, base: seq<nat>, s: Sweep)
    requires Ready(q, base, s) && InBox(s.coords, q.counts) && s.carry + s.left <= |base| && Roomy(q)
    ensures WrapDescend(q, base, s) == BroadDescend(q, base, s)
    ensures var r := BroadDescend(q, base, s); InBox(r.coords, q.counts) && r.carry <= |base|
    decreases s.left
  {
    hide Prod, Roomy, BroadVisit, WrapVisit;
    if s.left > 0 {
      VisitBroad(q, base, s);
      CarryBound(q, base, s);
      var (t, more) := BroadVisit(q, base, s);
      if more {
        DescendBroad(q, base, t);
      }
    }
  }

  lemma {:induction false} RippleBroad(q: Request, coords: seq<nat>, i: nat, carry: nat)
    requires q.Valid() && InBox(coords, q.counts) && i <= |coords| && carry <= |q.shape| && Roomy(q)
    ensures RippleFits(coords, q.counts, i, carry)
    decreases i
  {
    hide Prod, Roomy;
    if i > 0 {
      var k, v := i - 1, coords[i - 1] + carry;
      RoomySum(q, k, coords[k], carry);
      CarryShrinks(coords[k], carry, q.counts[k]);
      RippleBroad(q, coords[k := v % q.counts[k]], k, v / q.counts[k]);
    }
  }

  // What a call delivers, if it delivers anything.
  lemma NextBroad(q: Request, base: seq<nat>, cur: Cursor)
    requires Live(q, cur) && Lookup(q, base, cur.coords) && Roomy(q)
    ensures var r := BroadNext(q, base, cur);
            WrapNext(q, base, cur) == if r.next.offset <= cur.offset || r.start + r.advance >= U64 then Fault else r
  {
    hide Prod, Roomy, WrapDescend, BroadDescend, Ripple, WrapRipple, RippleFits, Ravel;
    if q.shape != [] {
      var s := Sweep(cur.coords, cur.offset, 0, 0, |base|, true);
      DescendBroad(q, base, s);
      var r := BroadDescend(q, base, s);
      RippleBroad(q, r.coords, r.left, r.carry);
      RippleAgrees(r.coords, q.counts, r.left, r.carry);
    }
  }

  lemma {:induction false} RunBroad(q: Request, cur: Cursor)
    requires q.Valid() && InBox(cur.coords, q.counts) && Roomy(q)
    ensures WrapRun(q, cur) == BroadRun(q, cur)
    decreases q.End() - cur.offset
  {
    hide Prod, Roomy, WrapNext, BroadNext, BaseAt;
    if cur.offset < q.End() {
      var base := BaseAt(q, cur.coords);
      BaseFacts(q, cur.coords);
      NextBroad(q, base, cur);
      var r := BroadNext(q, base, cur);
      if r.next.offset > cur.offset && r.start + r.advance < U64 {
        RunBroad(q, r.next);
      }
    }
  }
}
