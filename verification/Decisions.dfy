// Deciding, before a read, whether a request is regular.
module Decisions {
  import opened Radix
  import opened Slicing
  import opened Stops
  import opened StopProofs
  import opened Delivery
  import opened Exactness
  import opened SlicerTheorem

  lemma StopAfterFacts(q: Request, o: seq<nat>)
    requires Stop(q, o) && !Last(q, o)
    ensures var p := Unravel(Ravel(o, q.counts) + Span(q, o), q.counts);
            && Stop(q, p) && Ravel(o, q.counts) < Ravel(p, q.counts) == Ravel(o, q.counts) + Span(q, o) < q.End()
  {
    hide Ravel, Prod, Unravel, Span, Pivot, BaseAt;
    SpanFits(q, o);
    RavelUnravel(Ravel(o, q.counts) + Span(q, o), q.counts);
    NextStop(q, o, Unravel(Ravel(o, q.counts) + Span(q, o), q.counts));
  }

  // The stop after o.
  function StopAfter(q: Request, o: seq<nat>): (p: seq<nat>)
    requires Stop(q, o) && !Last(q, o)
    ensures Stop(q, p) && Ravel(o, q.counts) < Ravel(p, q.counts) == Ravel(o, q.counts) + Span(q, o) < q.End()
  {
    StopAfterFacts(q, o);
    Unravel(Ravel(o, q.counts) + Span(q, o), q.counts)
  }

  // Whether every stop from o on is clear.
  predicate ClearFrom(q: Request, o: seq<nat>)
    requires Stop(q, o)
    decreases q.End() - Ravel(o, q.counts)
  {
    Clear(q, o) && (Last(q, o) || ClearFrom(q, StopAfter(q, o)))
  }

  lemma {:induction false} ClearFromAll(q: Request, o: seq<nat>)
    requires Stop(q, o)
    ensures ClearFrom(q, o) <==> forall x :: Stop(q, x) && Ravel(x, q.counts) >= Ravel(o, q.counts) ==> Clear(q, x)
    decreases q.End() - Ravel(o, q.counts)
  {
    hide Ravel, Prod, Span, Pivot, BaseAt, Clear, StopAfter;
    if !Last(q, o) {
      ClearFromAll(q, StopAfter(q, o));
    }
    forall x | Stop(q, x) && Ravel(x, q.counts) >= Ravel(o, q.counts)
      ensures x == o || (!Last(q, o) && Ravel(x, q.counts) >= Ravel(StopAfter(q, o), q.counts))
    {
      StopInside(q, x);
      if Ravel(x, q.counts) < Ravel(o, q.counts) + Span(q, o) {
        NoStopInside(q, o, x);
      }
    }
  }

  predicate FromOrigin(q: Request)
    requires Array(q)
  {
    OriginStop(q);
    ClearFrom(q, seq(|q.counts|, _ => 0))
  }

  // A caller's test: shape, chunk shape, start and counts in, one pass over the stops.
  predicate IsRegular(q: Request)
    requires q.Valid()
  {
    q.shape == [] || FromOrigin(q)
  }

  // The test decides regularity, and so whether the slicer reads the request in row-major order.
  lemma IsRegularExact(q: Request)
    requires q.Valid()
    ensures IsRegular(q) <==> Regular(q)
    ensures IsRegular(q) <==> Correct(q, RunFrom(q, Origin(q)), 0, q.End())
  {
    hide Ravel, Prod, Clear, ClearFrom, RunFrom, Correct, Pivot;
    SlicerExact(q);
    if q.shape != [] {
      OriginStop(q);
      ClearFromAll(q, Origin(q).coords);
    }
  }
}
