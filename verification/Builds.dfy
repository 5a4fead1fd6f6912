// The slicer in a given build.
module Builds {
  import opened Radix
  import opened Slicing
  import opened Types
  import opened Stops
  import opened StopProofs
  import opened Delivery
  import opened Exactness
  import opened SlicerTheorem
  import opened Wrapping
  import opened WrapSteps
  import opened WrapExactness

  function VisitIn(b: Build, q: Request, base: seq<nat>, s: Sweep): (r: (Sweep, bool))
    requires Ready(q, base, s) && s.left > 0
    ensures |r.0.coords| == |s.coords| && r.0.left <= s.left
    ensures r.1 ==> r.0.ok && r.0.left == s.left - 1
  {
    if b.Checked? then Visit(q, base, s) else WrapVisit(q, base, s)
  }

  function DescendIn(b: Build, q: Request, base: seq<nat>, s: Sweep): (r: Sweep)
    requires Ready(q, base, s)
    ensures |r.coords| == |s.coords| && r.left <= s.left
  {
    if b.Checked? then Descend(q, base, s) else WrapDescend(q, base, s)
  }

  lemma DescendInStep(b: Build, q: Request, base: seq<nat>, s: Sweep)
    requires Ready(q, base, s)
    ensures DescendIn(b, q, base, s) ==
            if s.left == 0 then s
            else if VisitIn(b, q, base, s).1 then DescendIn(b, q, base, VisitIn(b, q, base, s).0)
            else VisitIn(b, q, base, s).0
  {
    hide Visit, WrapVisit;
  }

  lemma DescendInBox(b: Build, q: Request, base: seq<nat>, s: Sweep)
    requires Ready(q, base, s) && InBox(s.coords, q.counts)
    ensures InBox(DescendIn(b, q, base, s).coords, q.counts)
  {
    DescendBox(q, base, s);
    WrapDescendBox(q, base, s);
  }

  function RippleIn(b: Build, coords: seq<nat>, counts: seq<nat>, i: nat, carry: nat): (r: seq<nat>)
    requires |coords| == |counts| && i <= |counts| && Positive(counts)
    ensures |r| == |coords|
  {
    if b.Checked? then Ripple(coords, counts, i, carry) else WrapRipple(coords, counts, i, carry)
  }

  predicate FitsIn(b: Build, coords: seq<nat>, counts: seq<nat>, i: nat, carry: nat)
    requires |coords| == |counts| && i <= |counts| && Positive(counts)
  {
    b.Checked? ==> RippleFits(coords, counts, i, carry)
  }

  lemma RippleInBox(b: Build, coords: seq<nat>, counts: seq<nat>, i: nat, carry: nat)
    requires InBox(coords, counts) && i <= |counts| && Positive(counts)
    ensures InBox(RippleIn(b, coords, counts, i, carry), counts)
  {
    RippleBox(coords, counts, i, carry);
    WrapRippleBox(coords, counts, i, carry);
  }

  function NextIn(b: Build, q: Request, base: seq<nat>, cur: Cursor): (r: Step)
    requires Live(q, cur) && Lookup(q, base, cur.coords)
    ensures r.Deliver? ==> InBox(r.next.coords, q.counts)
  {
    if b.Checked? then Next(q, base, cur) else WrapNext(q, base, cur)
  }

  lemma {:induction false} WrapDescendOk(q: Request, base: seq<nat>, s: Sweep)
    requires Ready(q, base, s) && s.ok
    ensures WrapDescend(q, base, s).ok
    decreases s.left
  {
    if s.left > 0 {
      var (t, more) := WrapVisit(q, base, s);
      assert t.ok;
      hide WrapVisit;
      if more {
        WrapDescendOk(q, base, t);
      }
    }
  }

  // The call on a dataset that is not scalar, from the state the dimension loop ends in.
  lemma NextInLoop(b: Build, q: Request, base: seq<nat>, cur: Cursor)
    requires Live(q, cur) && Lookup(q, base, cur.coords) && q.shape != []
    ensures var r := DescendIn(b, q, base, Sweep(cur.coords, cur.offset, 0, 0, |base|, true));
            var start := Ravel(Within(q, base, cur.coords), q.chunkShape);
            NextIn(b, q, base, cur) ==
              if !r.ok || !FitsIn(b, r.coords, q.counts, r.left, r.carry) || start + r.advance >= U64
                 || (b.Unchecked? && r.offset <= cur.offset)
              then Fault
              else Deliver(start, r.advance, Cursor(r.offset, RippleIn(b, r.coords, q.counts, r.left, r.carry)))
  {
    hide Prod, Ravel, Ripple, WrapRipple, RippleFits, Descend, WrapDescend;
    WrapDescendOk(q, base, Sweep(cur.coords, cur.offset, 0, 0, |base|, true));
  }

  lemma DriftArith(advance: nat, d: nat, diff: nat)
    ensures Wrapped(Wrapped(advance + d) + diff) == Wrapped(Wrapped(advance + diff) + d)
  {
    hide Wrapped;
    WrappedSum(diff, advance + d);
    WrappedSum(d, advance + diff);
  }

  lemma DriftStep(q: Request, base: seq<nat>, s: Sweep, d: nat)
    requires Ready(q, base, s) && s.left > 0 && s.advance < U64 && s.offset == Wrapped(s.advance + d)
    ensures var t := WrapVisit(q, base, s).0; t.advance < U64 && t.offset == Wrapped(t.advance + d)
  {
    hide Prod, Rem, Quot, Wrapped;
    var k := s.left - 1;
    if !q.Thin(base, k) {
      var to: nat := Min(q.counts[k], q.Limit(base, k));
      DriftArith(s.advance, d, Wrapped((to - q.Digit(k, Wrapped(s.coords[k] + s.carry))) * q.Stride(k)));
    }
  }

  // Offset and advance move together, even where they wrap.
  lemma {:induction false} WrapDrift(q: Request, base: seq<nat>, s: Sweep, d: nat)
    requires Ready(q, base, s) && s.advance < U64 && s.offset == Wrapped(s.advance + d)
    ensures var r := WrapDescend(q, base, s); r.advance < U64 && r.offset == Wrapped(r.advance + d)
    decreases s.left
  {
    hide Wrapped, Prod;
    if s.left > 0 {
      var (t, more) := WrapVisit(q, base, s);
      DriftStep(q, base, s, d);
      hide WrapVisit;
      if more {
        WrapDrift(q, base, t, d);
      }
    }
  }

  lemma WrappedSmall(a: nat, d: nat)
    requires a < U64 && d < U64
    ensures Wrapped(d + a) > a ==> Wrapped(d + a) == a + d
  {
    if d + a >= U64 {
      WrappedShift(d + a - U64, 1);
      WrappedExact(d + a - U64);
    } else {
      WrappedExact(d + a);
    }
  }

  // Every call that delivers advances.
  lemma NextInAdvances(b: Build, q: Request, base: seq<nat>, cur: Cursor)
    requires Live(q, cur) && Lookup(q, base, cur.coords)
    ensures var r := NextIn(b, q, base, cur);
            r.Deliver? ==> 0 < r.advance && r.next.offset == cur.offset + r.advance
  {
    hide Prod, Ravel, Ripple, WrapRipple, RippleFits, Descend, WrapDescend;
    NextAdvances(q, base, cur);
    if b.Unchecked? && q.shape != [] {
      EndFits(q);
      WrappedExact(cur.offset);
      WrapDrift(q, base, Sweep(cur.coords, cur.offset, 0, 0, |base|, true), cur.offset);
      WrappedSmall(cur.offset, WrapDescend(q, base, Sweep(cur.coords, cur.offset, 0, 0, |base|, true)).advance);
    }
  }

  // Where the checks let a call pass, the builds agree.
  lemma NextInAgrees(b: Build, q: Request, base: seq<nat>, cur: Cursor)
    requires Live(q, cur) && Lookup(q, base, cur.coords) && Next(q, base, cur).Deliver?
    ensures NextIn(b, q, base, cur) == Next(q, base, cur)
  {
    hide Next, WrapNext;
    NextAgrees(q, base, cur);
  }

  ghost function RunIn(b: Build, q: Request, cur: Cursor): Run
    requires q.Valid() && InBox(cur.coords, q.counts)
  {
    if b.Checked? then RunFrom(q, cur) else WrapRun(q, cur)
  }

  lemma RunInStep(b: Build, q: Request, cur: Cursor)
    requires q.Valid() && InBox(cur.coords, q.counts)
    ensures cur.offset < q.End() ==> Live(q, cur) && Lookup(q, BaseAt(q, cur.coords), cur.coords)
    ensures RunIn(b, q, cur) ==
            if cur.offset >= q.End() then Run([], true) else
              var base := BaseAt(q, cur.coords);
              match NextIn(b, q, base, cur)
              case Fault => Run([], false)
              case Deliver(start, advance, next) =>
                var rest := RunIn(b, q, next);
                Run([Segment(base, start, start + advance)] + rest.segments, rest.ok)
  {
    hide Next, WrapNext, BaseAt, Prod;
    BaseFacts(q, cur.coords);
    if cur.offset < q.End() {
      NextInAdvances(b, q, BaseAt(q, cur.coords), cur);
    }
  }

  lemma RunInAgrees(b: Build, q: Request, cur: Cursor)
    requires q.Valid() && InBox(cur.coords, q.counts) && RunFrom(q, cur).ok
    ensures RunIn(b, q, cur) == RunFrom(q, cur)
  {
    hide RunFrom, WrapRun;
    RunAgrees(q, cur);
  }

  // The requests that the build reads in row-major order.
  ghost predicate RegularIn(b: Build, q: Request)
    requires q.Valid()
  {
    if b.Checked? then Regular(q) else WrapRegular(q)
  }

  lemma RegularReads(b: Build, q: Request)
    requires q.Valid() && RegularIn(b, q)
    ensures Correct(q, RunIn(b, q, Origin(q)), 0, q.End())
  {
    hide Regular, WrapRegular, RunFrom, WrapRun, Correct;
    if b.Checked? {
      SlicerExact(q);
    } else {
      WrapSufficient(q);
    }
  }

  // What is regular with overflow checks is regular in every build.
  lemma RegularInBoth(b: Build, q: Request)
    requires q.Valid() && Regular(q)
    ensures RegularIn(b, q)
  {
    hide Regular, WrapRegular, RunFrom, WrapRun;
    RegularWraps(q);
  }
}
