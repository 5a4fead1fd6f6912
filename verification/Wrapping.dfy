// The slicer in a build without overflow checks, where u64 arithmetic wraps around.
module Wrapping {
  import opened Radix
  import opened Slicing
  import opened Stops
  import opened StopProofs
  import opened Delivery
  import opened Exactness

  // The u64 that an exact result turns into.
  function Wrapped(x: int): (r: nat)
    ensures r < U64
  {
    x % U64
  }

  lemma WrappedExact(x: int)
    ensures 0 <= x < U64 ==> Wrapped(x) == x
  {
  }

  lemma WrappedShift(x: int, h: int)
    ensures Wrapped(x + h * U64) == Wrapped(x)
  {
    var g, r := x / U64, x % U64;
    assert x + h * U64 == (g + h) * U64 + r;
  }

  // Wrapping a term of a sum first makes no difference.
  lemma WrappedSum(a: int, d: int)
    ensures Wrapped(a + Wrapped(d)) == Wrapped(a + d)
  {
    var h := d / U64;
    assert a + d == a + Wrapped(d) + h * U64;
    WrappedShift(a + Wrapped(d), h);
  }

  // One pass of the dimension loop: the same branches, and all arithmetic modulo 2^64.
  function WrapVisit(q: Request, base: seq<nat>, s: Sweep): (r: (Sweep, bool))
    requires Ready(q, base, s) && s.left > 0
    ensures |r.0.coords| == |s.coords| && r.0.left == s.left - 1
  {
    var k := s.left - 1;
    var v := Wrapped(s.coords[k] + s.carry);
    if q.Thin(base, k) then
      (Sweep(s.coords[k := q.Digit(k, v)], s.offset, s.advance, q.Carry(k, v), k, true), true)
    else
      var to: nat := Min(q.counts[k], q.Limit(base, k));
      var diff := Wrapped((to - q.Digit(k, v)) * q.Stride(k));
      var t := Sweep(s.coords[k := q.Digit(k, to)], Wrapped(s.offset + diff), Wrapped(s.advance + diff),
                     Wrapped(q.Carry(k, v) + q.Carry(k, to)), k, true);
      (t, q.indices[k] == base[k] && q.counts[k] == q.Limit(base, k) && t.offset < q.End())
  }

  function WrapDescend(q: Request, base: seq<nat>, s: Sweep): (r: Sweep)
    requires Ready(q, base, s)
    ensures |r.coords| == |s.coords| && r.left <= s.left
    decreases s.left
  {
    if s.left == 0 then s else
      var (t, more) := WrapVisit(q, base, s);
      if more then WrapDescend(q, base, t) else t
  }

  lemma {:induction false} WrapDescendBox(q: Request, base: seq<nat>, s: Sweep)
    requires Ready(q, base, s) && InBox(s.coords, q.counts)
    ensures InBox(WrapDescend(q, base, s).coords, q.counts)
    decreases s.left
  {
    if s.left > 0 {
      var (t, more) := WrapVisit(q, base, s);
      assert InBox(t.coords, q.counts);
      if more {
        hide WrapVisit;
        WrapDescendBox(q, base, t);
      }
    }
  }

  // The carry left over by the dimension loop.
  function WrapRipple(coords: seq<nat>, counts: seq<nat>, i: nat, carry: nat): (r: seq<nat>)
    requires |coords| == |counts| && i <= |counts| && Positive(counts)
    ensures |r| == |coords|
    decreases i
  {
    if i == 0 then coords else
      var v := Wrapped(coords[i - 1] + carry);
      var r := coords[i - 1 := v % counts[i - 1]];
      if v / counts[i - 1] == 0 then r else WrapRipple(r, counts, i - 1, v / counts[i - 1])
  }

  lemma {:induction false} WrapRippleBox(coords: seq<nat>, counts: seq<nat>, i: nat, carry: nat)
    requires InBox(coords, counts) && i <= |counts| && Positive(counts)
    ensures InBox(WrapRipple(coords, counts, i, carry), counts)
    decreases i
  {
    hide Wrapped;
    if i > 0 {
      var v := Wrapped(coords[i - 1] + carry);
      WrapRippleBox(coords[i - 1 := v % counts[i - 1]], counts, i - 1, v / counts[i - 1]);
    }
  }

  // One call. Fault stands for a call that does not move the offset forwards: its segment is empty,
  // which the code asserts not to happen, or ends before it starts.
  function WrapNext(q: Request, base: seq<nat>, cur: Cursor): (r: Step)
    requires Live(q, cur) && Lookup(q, base, cur.coords)
    ensures r.Deliver? ==> InBox(r.next.coords, q.counts) && r.next.offset > cur.offset
  {
    if q.shape == [] then Deliver(0, 1, Cursor(cur.offset + 1, cur.coords)) else
      var s := Sweep(cur.coords, cur.offset, 0, 0, |base|, true);
      WrapDescendBox(q, base, s);
      var r := WrapDescend(q, base, s);
      var start := Ravel(Within(q, base, cur.coords), q.chunkShape);
      if r.offset <= cur.offset || start + r.advance >= U64 then Fault else
        WrapRippleBox(r.coords, q.counts, r.left, r.carry);
        Deliver(start, r.advance, Cursor(r.offset, WrapRipple(r.coords, q.counts, r.left, r.carry)))
  }

  ghost function WrapRun(q: Request, cur: Cursor): Run
    requires q.Valid() && InBox(cur.coords, q.counts)
    decreases q.End() - cur.offset
  {
    if cur.offset >= q.End() then Run([], true) else
      var base := BaseAt(q, cur.coords);
      BaseFacts(q, cur.coords);
      match WrapNext(q, base, cur)
      case Fault => Run([], false)
      case Deliver(start, advance, next) =>
        var rest := WrapRun(q, next);
        Run([Segment(base, start, start + advance)] + rest.segments, rest.ok)
  }

  lemma TakenExact(q: Request, k: nat, d: nat)
    requires k < |q.chunkShape| && q.Layers(k, d) < U64
    ensures Wrapped(d * q.Stride(k)) == q.Layers(k, d)
  {
    WrappedExact(d * q.Stride(k));
  }

  // Where no operation overflows, the two builds agree.
  lemma VisitAgrees(q: Request, base: seq<nat>, s: Sweep)
    requires Ready(q, base, s) && s.left > 0 && s.ok && s.advance <= s.offset < U64
    requires Visit(q, base, s).0.ok
    ensures WrapVisit(q, base, s) == Visit(q, base, s)
    ensures var t := Visit(q, base, s).0; t.advance <= t.offset < U64
  {
    hide Prod, Rem, Quot, Mul;
    var k := s.left - 1;
    WrappedExact(s.coords[k] + s.carry);
    var to := Min(q.counts[k], q.Limit(base, k));
    if !q.Thin(base, k) {
      TakenExact(q, k, to - q.Digit(k, s.coords[k] + s.carry));
      WrappedExact(q.Carry(k, s.coords[k] + s.carry) + q.Carry(k, to));
      hide Wrapped;
      var diff := q.Layers(k, to - q.Digit(k, s.coords[k] + s.carry));
      WrappedExact(s.offset + diff);
      WrappedExact(s.advance + diff);
    }
  }

  lemma {:induction false} DescendAgrees(q: Request, base: seq<nat>, s: Sweep)
    requires Ready(q, base, s) && s.ok && s.advance <= s.offset < U64
    requires Descend(q, base, s).ok
    ensures WrapDescend(q, base, s) == Descend(q, base, s)
    decreases s.left
  {
    hide Visit, WrapVisit;
    if s.left > 0 {
      var (t, more) := Visit(q, base, s);
      VisitAgrees(q, base, s);
      if more {
        DescendAgrees(q, base, t);
      }
    }
  }

  lemma {:induction false} RippleAgrees(coords: seq<nat>, counts: seq<nat>, i: nat, carry: nat)
    requires |coords| == |counts| && i <= |counts| && Positive(counts) && RippleFits(coords, counts, i, carry)
    ensures WrapRipple(coords, counts, i, carry) == Ripple(coords, counts, i, carry)
    decreases i
  {
    hide Wrapped;
    if i > 0 {
      var v := coords[i - 1] + carry;
      WrappedExact(v);
      if v / counts[i - 1] != 0 {
        RippleAgrees(coords[i - 1 := v % counts[i - 1]], counts, i - 1, v / counts[i - 1]);
      }
    }
  }

  lemma NextAgrees(q: Request, base: seq<nat>, cur: Cursor)
    requires Live(q, cur) && Lookup(q, base, cur.coords) && Next(q, base, cur).Deliver?
    ensures WrapNext(q, base, cur) == Next(q, base, cur)
  {
    hide Descend, WrapDescend, Ripple, WrapRipple, RippleFits, Ravel, Prod;
    EndFits(q);
    if q.shape != [] {
      var s := Sweep(cur.coords, cur.offset, 0, 0, |base|, true);
      NextAdvances(q, base, cur);
      DescendAgrees(q, base, s);
      var r := Descend(q, base, s);
      RippleAgrees(r.coords, q.counts, r.left, r.carry);
    }
  }

  // A run that the checks let pass is the run of both builds.
  lemma {:induction false} RunAgrees(q: Request, cur: Cursor)
    requires q.Valid() && InBox(cur.coords, q.counts) && RunFrom(q, cur).ok
    ensures WrapRun(q, cur) == RunFrom(q, cur)
    decreases q.End() - cur.offset
  {
    hide Next, WrapNext, Prod, BaseAt;
    if cur.offset < q.End() {
      var base := BaseAt(q, cur.coords);
      BaseFacts(q, cur.coords);
      NextAgrees(q, base, cur);
      RunAgrees(q, Next(q, base, cur).next);
    }
  }
}
