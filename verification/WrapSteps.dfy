// What a call that wraps around does from a stop: the wider condition under which it delivers
// exactly the values up to the next stop.
module WrapSteps {
  import opened Radix
  import opened Slicing
  import opened Stops
  import opened StopProofs
  import opened Delivery
  import opened Exactness
  import opened Wrapping

  // The guards at the pivot. The carry may exceed the piece: the layers taken too many further
  // down are then given back, by a difference that wraps around.
  predicate WrapGuarded(q: Request, o: seq<nat>)
    requires At(q, o)
  {
    var m := Pivot(q);
    var carry := CarryOut(q, m + 1);
    if q.Thin(BaseAt(q, o), m) then Guarded(q, o)
    else o[m] + carry < q.counts[m] && (carry == Piece(q, o) || q.Stride(m) == Prod(q.counts[m + 1..]))
  }

  predicate WrapClear(q: Request, o: seq<nat>)
    requires At(q, o)
  {
    Contiguous(Extent(q, o), q.chunkShape) && (Last(q, o) || WrapGuarded(q, o))
  }

  // The requests that a build without overflow checks reads in row-major order.
  ghost predicate WrapRegular(q: Request)
    requires q.Valid()
  {
    q.shape == [] || forall o :: Stop(q, o) ==> WrapClear(q, o)
  }

  // Without a dimension below the pivot there is no carry, and nothing below to be clipped.
  lemma CarryOutLast(q: Request, o: seq<nat>)
    requires At(q, o) && CarryOut(q, Pivot(q) + 1) == 0
    ensures q.Stride(Pivot(q)) == Prod(q.counts[Pivot(q) + 1..])
  {
    hide Pivot;
    if Pivot(q) + 1 < |q.shape| {
      CarryOutPositive(q, Pivot(q) + 1);
    } else {
      assert q.counts[Pivot(q) + 1..] == q.chunkShape[Pivot(q) + 1..] == [];
    }
  }

  // The guards with checks imply those without.
  lemma ClearWrapClear(q: Request, o: seq<nat>)
    requires Stop(q, o) && Clear(q, o)
    ensures WrapClear(q, o)
  {
    hide Ravel, Prod, BaseAt, Piece, Pivot, CarryOut, PassClear;
    if !Last(q, o) && !q.Thin(BaseAt(q, o), Pivot(q)) && CarryOut(q, Pivot(q) + 1) < Piece(q, o) {
      ContiguousBelow(q, o);
      if Piece(q, o) == 1 {
        CarryOutLast(q, o);
      }
    }
  }

  // As far as dimension lo, below the pivot, nothing wraps if the loop arrives there.
  lemma {:induction false} Arrives(q: Request, o: seq<nat>, lo: nat)
    requires Stop(q, o) && Pivot(q) < lo <= |o| && Passed(q, o, lo).offset < q.End()
    requires forall j :: lo <= j < |o| && q.counts[j] > 1 ==> q.counts[j + 1..] == q.chunkShape[j + 1..]
    ensures Ready(q, BaseAt(q, o), Start(q, o)) && Ready(q, BaseAt(q, o), Passed(q, o, lo))
    ensures WrapDescend(q, BaseAt(q, o), Start(q, o)) == WrapDescend(q, BaseAt(q, o), Passed(q, o, lo))
    decreases |o| - lo
  {
    hide BaseAt, Visit, WrapVisit, Pivot, Whole, Ravel, Prod, CarryOut;
    StopInside(q, o);
    if lo == |o| {
      StartPassed(q, o);
    } else {
      CarryOutMonotone(q, o, lo);
      Arrives(q, o, lo + 1);
      PassedStep(q, o, lo);
      EndFits(q);
      VisitAgrees(q, BaseAt(q, o), Passed(q, o, lo + 1));
    }
  }

  // A pass without a carry out of its digit.
  lemma WrapVisitPartly(q: Request, base: seq<nat>, s: Sweep, k: nat, v: nat, to: nat)
    requires Ready(q, base, s) && s.left == k + 1 && !q.Thin(base, k)
    requires v == s.coords[k] + s.carry < q.counts[k] && to == Min(q.counts[k], q.Limit(base, k))
    ensures var diff := Wrapped((to - v) * q.Stride(k));
            WrapVisit(q, base, s) ==
            (Sweep(s.coords[k := q.Digit(k, to)], Wrapped(s.offset + diff), Wrapped(s.advance + diff),
                   q.Carry(k, to), k, true),
             q.indices[k] == base[k] && q.counts[k] == q.Limit(base, k) && Wrapped(s.offset + diff) < q.End())
  {
    hide Prod, Rem, Quot;
    CountFits(q, k);
    WrappedExact(v);
    SplitDigit(q, k, v, 0, v);
    CarryDigit(q, k, to);
    WrappedExact(q.Carry(k, to));
    hide Wrapped;
  }

  lemma GiveBack(a: nat, carry: nat, l: nat, p: nat, s: nat)
    requires a + l * p < U64 && (carry == l || s == p)
    ensures Wrapped(a + carry * p + Wrapped((l - carry) * s)) == a + l * p
  {
    assert carry * p + (l - carry) * p == l * p;
    WrappedSum(a + carry * p, (l - carry) * s);
    WrappedExact(a + l * p);
  }

  lemma PieceEnd(q: Request, o: seq<nat>)
    requires At(q, o)
    ensures var m := Pivot(q); o[m] + Piece(q, o) == Min(q.counts[m], q.Limit(BaseAt(q, o), m))
  {
    hide Pivot, BaseAt;
    BaseFacts(q, o);
  }

  // At the pivot the loop takes, or gives back, what is missing to the span, and stops.
  lemma LandWrapped(q: Request, o: seq<nat>)
    requires Stop(q, o) && !Last(q, o) && !q.Thin(BaseAt(q, o), Pivot(q)) && WrapGuarded(q, o)
    requires Ready(q, BaseAt(q, o), Passed(q, o, Pivot(q) + 1))
    ensures WrapVisit(q, BaseAt(q, o), Passed(q, o, Pivot(q) + 1)) == (Landed(q, o), false)
  {
    hide Ravel, Prod, CarryOut, Pivot, BaseAt, Whole, WrapVisit, Wrapped, Rem, Quot, Piece;
    var m, base := Pivot(q), BaseAt(q, o);
    var carry, l, p := CarryOut(q, m + 1), Piece(q, o), Prod(q.counts[m + 1..]);
    SpanFits(q, o);
    PivotOpen(q, o);
    PieceEnd(q, o);
    EndFits(q);
    WrapVisitPartly(q, base, Passed(q, o, m + 1), m, o[m] + carry, o[m] + l);
    GiveBack(Ravel(o, q.counts), carry, l, p, q.Stride(m));
    GiveBack(0, carry, l, p, q.Stride(m));
  }

  lemma SteppedDelivers(q: Request, o: seq<nat>, r: Step)
    requires At(q, o) && Stepped(q, o, r)
    ensures r.Deliver?
  {
  }

  lemma ArrivalArith(h: nat, high: nat, n: nat, p: nat, v: nat, x: nat)
    requires h < high && x <= v < n && p > 0
    ensures h * (n * p) + x * p + (v - x) * p < high * (n * p)
  {
    assert x * p + (v - x) * p == v * p;
    MulOrder(v + 1, n, p);
    MulOrder(h + 1, high, n * p);
  }

  // With a digit left at the pivot, the carry reaches it before the end of the request.
  lemma ArrivalInside(q: Request, o: seq<nat>)
    requires Stop(q, o) && o[Pivot(q)] + CarryOut(q, Pivot(q) + 1) < q.counts[Pivot(q)]
    ensures Passed(q, o, Pivot(q) + 1).offset < q.End()
  {
    hide Ravel, Prod, Pivot, CarryOut;
    var m := Pivot(q);
    var n, p, h := q.counts[m], Prod(q.counts[m + 1..]), Ravel(o[..m], q.counts[..m]);
    RavelAt(o, q.counts, m);
    RavelZero(o[m + 1..], q.counts[m + 1..]);
    RavelBound(o[..m], q.counts[..m]);
    ProdSplit(q.counts, m);
    ProdStep(q.counts, m);
    ProdPositive(q.counts[m + 1..]);
    ArrivalArith(h, Prod(q.counts[..m]), n, p, o[m] + CarryOut(q, m + 1), o[m]);
  }

  lemma WrapDescendStep(q: Request, base: seq<nat>, s: Sweep)
    requires Ready(q, base, s) && s.left > 0
    ensures var (t, more) := WrapVisit(q, base, s);
            WrapDescend(q, base, s) == if more then WrapDescend(q, base, t) else t
  {
    hide WrapVisit;
  }

  lemma LandedTaken(q: Request, o: seq<nat>)
    requires Stop(q, o)
    ensures Taken(q, o, Landed(q, o))
  {
    hide Ravel, Prod, Pivot, BaseAt, Piece;
    var m := Pivot(q);
    DigitStep(q, o, m, o[m] + Piece(q, o));
    DigitBox(q, o, m, o[m] + Piece(q, o));
  }

  // The call, when the dimension loop has taken the span.
  lemma WrapNextLoop(q: Request, o: seq<nat>)
    requires Stop(q, o) && Live(q, CursorAt(q, o)) && Lookup(q, BaseAt(q, o), o)
    requires Taken(q, o, WrapDescend(q, BaseAt(q, o), Start(q, o))) && Contiguous(Extent(q, o), q.chunkShape)
    ensures var r := WrapDescend(q, BaseAt(q, o), Start(q, o));
            WrapNext(q, BaseAt(q, o), CursorAt(q, o)) ==
              Deliver(Ravel(Local(q, o), q.chunkShape), r.advance,
                Cursor(r.offset, Ripple(r.coords, q.counts, r.left, r.carry)))
  {
    hide Prod, BaseAt, Local, Ravel, Ripple, WrapRipple, RippleFits, WrapDescend, Piece, Span, Pivot, Contiguous,
      Extent, Covered, Wanted;
    LocalIsNext(q, o);
    var r := WrapDescend(q, BaseAt(q, o), Start(q, o));
    SpanFits(q, o);
    RippleSums(q, r.coords, r.left, r.carry);
    RippleAgrees(r.coords, q.counts, r.left, r.carry);
    SpanCovered(q, o);
    VolumeFits(q);
  }

  lemma StepWider(q: Request, o: seq<nat>)
    requires Stop(q, o) && WrapClear(q, o) && !Last(q, o) && !q.Thin(BaseAt(q, o), Pivot(q))
    requires Live(q, CursorAt(q, o)) && Lookup(q, BaseAt(q, o), o)
    ensures Stepped(q, o, WrapNext(q, BaseAt(q, o), CursorAt(q, o)))
  {
    hide Prod, Pivot, Piece, BaseAt, Local, Ravel, Stepped, WrapVisit, Contiguous, WrapDescend, Taken, CarryOut, Stop,
      WrapNext, Landed;
    var m := Pivot(q);
    ContiguousBelow(q, o);
    ArrivalInside(q, o);
    Arrives(q, o, m + 1);
    LandWrapped(q, o);
    WrapDescendStep(q, BaseAt(q, o), Passed(q, o, m + 1));
    LandedTaken(q, o);
    TakenSteps(q, o, Landed(q, o));
    WrapNextLoop(q, o);
  }

  // From a clear stop, one call delivers the span and moves to the next stop.
  lemma WrapStepClear(q: Request, o: seq<nat>)
    requires Stop(q, o) && WrapClear(q, o)
    ensures Live(q, CursorAt(q, o)) && Lookup(q, BaseAt(q, o), o)
    ensures Stepped(q, o, WrapNext(q, BaseAt(q, o), CursorAt(q, o)))
  {
    hide Prod, Pivot, Piece, Span, BaseAt, Local, Extent, Ravel, Ripple, Next, WrapNext, Stepped, Contiguous;
    LiveAt(q, o);
    if Clear(q, o) {
      StepClear(q, o);
      SteppedDelivers(q, o, Next(q, BaseAt(q, o), CursorAt(q, o)));
      NextAgrees(q, BaseAt(q, o), CursorAt(q, o));
    } else {
      StepWider(q, o);
    }
  }

  // Every run from a stop of such a request reads the rest of the request.
  lemma {:induction false} WrapRunRegular(q: Request, o: seq<nat>)
    requires Stop(q, o) && WrapRegular(q)
    ensures var from := Ravel(o, q.counts); Correct(q, WrapRun(q, CursorAt(q, o)), from, q.End() - from)
    decreases q.End() - Ravel(o, q.counts)
  {
    hide Prod, Pivot, Piece, Span, BaseAt, Local, Extent, Ravel, WrapNext, Covered, Wanted, Contiguous;
    assert WrapClear(q, o);
    WrapStepClear(q, o);
    SpanFits(q, o);
    SpanCovered(q, o);
    var step := WrapNext(q, BaseAt(q, o), CursorAt(q, o));
    if step.next.offset < q.End() {
      WrapRunRegular(q, step.next.coords);
      assert CursorAt(q, step.next.coords) == step.next;
    }
    var r, rest := WrapRun(q, CursorAt(q, o)), WrapRun(q, step.next);
    var g := Segment(BaseAt(q, o), step.start, step.start + step.advance);
    assert r == Run([g] + rest.segments, rest.ok);
    assert r.segments[0] == g && r.segments[1..] == rest.segments && g.end - g.start == Span(q, o);
    assert Correct(q, rest, step.next.offset, q.End() - step.next.offset);
    assert g.start <= g.end <= Prod(q.chunkShape);
    assert Covered(q, g.base, g.start, g.end - g.start) == Wanted(q, Ravel(o, q.counts), g.end - g.start);
  }
}
