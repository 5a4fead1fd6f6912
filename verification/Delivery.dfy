// Whole runs of the slicer, and what they deliver.
module Delivery {
  import opened Radix
  import opened Slicing
  import opened Stops
  import opened StopProofs

  // Values start .. end, in stored order, of the chunk at base.
  datatype Segment = Segment(base: seq<nat>, start: nat, end: nat)

  // ok is false when a call faults, or advances by nothing and so would not end.
  datatype Run = Run(segments: seq<Segment>, ok: bool)

  ghost function RunFrom(q: Request, cur: Cursor): Run
    requires q.Valid() && InBox(cur.coords, q.counts)
    decreases q.End() - cur.offset
  {
    if cur.offset >= q.End() then Run([], true) else
      var base := BaseAt(q, cur.coords);
      BaseFacts(q, cur.coords);
      match Next(q, base, cur)
      case Fault => Run([], false)
      case Deliver(start, advance, next) =>
        if next.offset <= cur.offset then Run([], false) else
          var rest := RunFrom(q, next);
          Run([Segment(base, start, start + advance)] + rest.segments, rest.ok)
  }

  ghost function Origin(q: Request): (cur: Cursor)
    requires q.Valid()
    ensures InBox(cur.coords, q.counts)
  {
    Cursor(0, seq(|q.counts|, _ => 0))
  }

  // The coordinate stored at position j of the chunk at base.
  ghost function Stored(q: Request, base: seq<nat>, j: nat): seq<nat>
    requires q.Valid() && |base| == |q.chunkShape|
  {
    Plus(base, Unravel(j, q.chunkShape))
  }

  // The coordinate of the j-th requested value, in row-major order.
  ghost function Asked(q: Request, j: nat): seq<nat>
    requires q.Valid()
  {
    Plus(q.indices, Unravel(j, q.counts))
  }

  // The coordinates of n stored values of the chunk at base.
  ghost function Covered(q: Request, base: seq<nat>, start: nat, n: nat): (c: seq<seq<nat>>)
    requires q.Valid() && |base| == |q.chunkShape|
    ensures |c| == n
  {
    seq(n, i requires 0 <= i < n => Stored(q, base, start + i))
  }

  // The coordinates of the requested box, in row-major order.
  ghost function Wanted(q: Request, from: nat, n: nat): (c: seq<seq<nat>>)
    requires q.Valid()
    ensures |c| == n
  {
    seq(n, i requires 0 <= i < n => Asked(q, from + i))
  }

  // The segments lie inside their chunks, and joined together they are the n values
  // of the request from position from on.
  ghost predicate Reads(q: Request, segments: seq<Segment>, from: nat, n: int)
    requires q.Valid()
  {
    if segments == [] then n == 0 else
      var g := segments[0];
      && |g.base| == |q.chunkShape|
      && g.start <= g.end <= Prod(q.chunkShape) && g.end - g.start <= n
      && Covered(q, g.base, g.start, g.end - g.start) == Wanted(q, from, g.end - g.start)
      && Reads(q, segments[1..], from + (g.end - g.start), n - (g.end - g.start))
  }

  ghost predicate Correct(q: Request, r: Run, from: nat, n: int)
    requires q.Valid()
  {
    r.ok && Reads(q, r.segments, from, n)
  }

  lemma ExtentProd(q: Request, o: seq<nat>)
    requires At(q, o)
    ensures Prod(Extent(q, o)) == Span(q, o)
  {
    var m, e := Pivot(q), Extent(q, o);
    ProdSplit(e, m);
    ProdStep(e, m);
    assert e[m + 1..] == q.counts[m + 1..];
    ProdOnes(e[..m]);
  }

  lemma InsideExtent(q: Request, o: seq<nat>, u: seq<nat>)
    requires Stop(q, o) && InBox(u, Extent(q, o))
    ensures InBox(Plus(o, u), q.counts)
    ensures InBox(Plus(Local(q, o), u), q.chunkShape)
  {
    var m := Pivot(q);
    BaseFacts(q, o);
    forall k | 0 <= k < |o|
      ensures o[k] + u[k] < q.counts[k] && Local(q, o)[k] + u[k] < q.chunkShape[k]
    {
      assert u[k] < Extent(q, o)[k];
      assert Plus(BaseAt(q, o), Local(q, o))[k] == q.indices[k] + o[k];
      if k > m { WholeFacts(q, o, k); }
    }
  }

  // The slice coordinates of the values of a span.
  lemma SpanCoordinates(q: Request, o: seq<nat>, i: nat)
    requires Stop(q, o) && i < Span(q, o)
    ensures Prod(Extent(q, o)) == Span(q, o)
    ensures var u := Unravel(i, Extent(q, o));
            && InBox(u, Extent(q, o)) && Ravel(o, q.counts) + i < q.End()
            && InBox(Plus(o, u), q.counts) && Unravel(Ravel(o, q.counts) + i, q.counts) == Plus(o, u)
  {
    hide Ravel, Prod, Pivot, BaseAt, Piece, Span;
    var m, e := Pivot(q), Extent(q, o);
    ExtentProd(q, o);
    var u := Unravel(i, e);
    RavelUnravel(i, e);
    InsideExtent(q, o, u);
    assert Contiguous(e, q.counts);
    ContiguousRavel(i, e, q.counts);
    RavelPlus(o, u, q.counts);
    RavelBound(Plus(o, u), q.counts);
    UnravelRavel(Plus(o, u), q.counts);
  }

  lemma PlusShift(a: seq<nat>, b: seq<nat>, c: seq<nat>, d: seq<nat>, u: seq<nat>)
    requires |a| == |b| == |c| == |d| == |u| && Plus(a, b) == Plus(c, d)
    ensures Plus(a, Plus(b, u)) == Plus(c, Plus(d, u))
  {
    forall k | 0 <= k < |a| ensures a[k] + b[k] == c[k] + d[k] {
      assert Plus(a, b)[k] == Plus(c, d)[k];
    }
  }

  lemma SpanValue(q: Request, o: seq<nat>, i: nat)
    requires Stop(q, o) && Contiguous(Extent(q, o), q.chunkShape) && i < Span(q, o)
    ensures Ravel(Local(q, o), q.chunkShape) + i < Prod(q.chunkShape)
    ensures Stored(q, BaseAt(q, o), Ravel(Local(q, o), q.chunkShape) + i) == Asked(q, Ravel(o, q.counts) + i)
  {
    hide Ravel, Prod, Pivot, Piece, Span, BaseAt, Local;
    var l, u := Local(q, o), Unravel(i, Extent(q, o));
    SpanCoordinates(q, o, i);
    InsideExtent(q, o, u);
    ContiguousRavel(i, Extent(q, o), q.chunkShape);
    RavelPlus(l, u, q.chunkShape);
    RavelBound(Plus(l, u), q.chunkShape);
    UnravelRavel(Plus(l, u), q.chunkShape);
    BaseFacts(q, o);
    PlusShift(BaseAt(q, o), l, q.indices, o, u);
  }

  // When the span is contiguous in its chunk, stored order is requested order.
  lemma SpanCovered(q: Request, o: seq<nat>)
    requires Stop(q, o) && Contiguous(Extent(q, o), q.chunkShape)
    ensures var s := Ravel(Local(q, o), q.chunkShape);
            && s + Span(q, o) <= Prod(q.chunkShape)
            && Covered(q, BaseAt(q, o), s, Span(q, o)) == Wanted(q, Ravel(o, q.counts), Span(q, o))
  {
    hide Ravel, Prod, Pivot, Piece, Span, BaseAt, Local, Extent, Contiguous, Stored, Asked;
    var s, n := Ravel(Local(q, o), q.chunkShape), Span(q, o);
    SpanFits(q, o);
    var c, w := Covered(q, BaseAt(q, o), s, n), Wanted(q, Ravel(o, q.counts), n);
    forall i | 0 <= i < n ensures c[i] == w[i] {
      hide Unravel;
      SpanValue(q, o, i);
    }
    SpanValue(q, o, n - 1);
  }

  lemma NextArith(h: nat, g: nat, n: nat, w: nat, x: nat, l: nat, y: nat, r: nat)
    requires w > 0 && r < w && y < n && x + l <= n && l > 0
    requires g * (n * w) + y * w + r == h * (n * w) + x * w + l * w
    ensures r == 0
    ensures y == if x + l < n then x + l else 0
  {
    Distribute(g, n, w, y);
    Distribute(h, n, w, x + l);
    assert x * w + l * w == (x + l) * w;
    var a, b := g * n + y, h * n + (x + l);
    assert a * w + r == b * w;
    DivModUnique(b * w, w, b, 0);
    DivModUnique(b * w, w, a, r);
    DivModUnique(a, n, g, y);
    if x + l < n {
      DivModUnique(b, n, h, x + l);
    } else {
      assert b == (h + 1) * n;
      DivModUnique(b, n, h + 1, 0);
    }
  }

  lemma {:induction false} ZeroRavel(x: seq<nat>, s: seq<nat>)
    requires InBox(x, s) && Ravel(x, s) == 0
    ensures forall k :: 0 <= k < |x| ==> x[k] == 0
  {
    if s != [] {
      InBoxPositive(x, s);
      ProdPositive(s[1..]);
      assert x[0] * Prod(s[1..]) >= x[0];
      ZeroRavel(x[1..], s[1..]);
      forall k | 0 <= k < |x| ensures x[k] == 0 {
        if k > 0 { assert x[k] == x[1..][k - 1]; }
      }
    }
  }

  lemma NextAligned(q: Request, o: seq<nat>)
    requires Stop(q, o)
    ensures var m := Pivot(q); o[m] + Piece(q, o) < q.counts[m] ==>
            (q.indices[m] + o[m] + Piece(q, o)) % q.chunkShape[m] == 0
  {
    hide Pivot, BaseAt, Prod;
    var m := Pivot(q);
    BaseFacts(q, o);
    NextMultiple(BaseAt(q, o)[m], q.chunkShape[m]);
  }

  // The position after a span is a stop, or the end.
  lemma NextStop(q: Request, o: seq<nat>, p: seq<nat>)
    requires Stop(q, o) && InBox(p, q.counts) && Ravel(p, q.counts) == Ravel(o, q.counts) + Span(q, o)
    ensures Stop(q, p)
    ensures var m := Pivot(q); p[m] == if o[m] + Piece(q, o) < q.counts[m] then o[m] + Piece(q, o) else 0
  {
    hide Ravel, Prod, Piece, BaseAt;
    var m := Pivot(q);
    var n, l, w := q.counts[m], Piece(q, o), Prod(q.counts[m + 1..]);
    ProdPositive(q.counts[m + 1..]);
    // the position is a multiple of w
    RavelAt(o, q.counts, m);
    RavelZero(o[m + 1..], q.counts[m + 1..]);
    ProdStep(q.counts, m);
    RavelAt(p, q.counts, m);
    RavelBound(p[m + 1..], q.counts[m + 1..]);
    NextArith(Ravel(o[..m], q.counts[..m]), Ravel(p[..m], q.counts[..m]), n, w, o[m], l, p[m],
      Ravel(p[m + 1..], q.counts[m + 1..]));
    ZeroRavel(p[m + 1..], q.counts[m + 1..]);
    forall k | m < k < |p| ensures p[k] == 0 {
      assert p[k] == p[m + 1..][k - m - 1];
    }
    NextAligned(q, o);
  }

  lemma LocalIsNext(q: Request, o: seq<nat>)
    requires At(q, o)
    ensures q.Holds(BaseAt(q, o), o) && Within(q, BaseAt(q, o), o) == Local(q, o)
  {
    BaseFacts(q, o);
    forall k | 0 <= k < |o| ensures q.indices[k] + o[k] - BaseAt(q, o)[k] == Local(q, o)[k] {
      assert Plus(BaseAt(q, o), Local(q, o))[k] == q.indices[k] + o[k];
    }
  }

  // The step delivers the span from o and moves to the next stop.
  ghost predicate Stepped(q: Request, o: seq<nat>, r: Step)
    requires At(q, o)
  {
    && r.Deliver? && InBox(r.next.coords, q.counts)
    && r.start == Ravel(Local(q, o), q.chunkShape) && r.advance == Span(q, o)
    && r.next.offset == Ravel(o, q.counts) + Span(q, o)
    && Ravel(r.next.coords, q.counts) == (if r.next.offset < q.End() then r.next.offset else 0)
    && (r.next.offset < q.End() ==> Stop(q, r.next.coords))
  }

  ghost function CursorAt(q: Request, o: seq<nat>): Cursor
    requires At(q, o)
  {
    Cursor(Ravel(o, q.counts), o)
  }

  lemma LiveAt(q: Request, o: seq<nat>)
    requires At(q, o)
    ensures Live(q, CursorAt(q, o)) && Lookup(q, BaseAt(q, o), o)
  {
    StopInside(q, o);
    BaseFacts(q, o);
  }

  // When the loop has taken exactly the span, the second loop moves to the next stop.
  lemma TakenSteps(q: Request, o: seq<nat>, r: Sweep)
    requires Stop(q, o) && |r.coords| == |o| && r.left <= |o| && Taken(q, o, r)
    ensures var p := Ripple(r.coords, q.counts, r.left, r.carry);
            Stepped(q, o, Deliver(Ravel(Local(q, o), q.chunkShape), r.advance, Cursor(r.offset, p)))
  {
    hide Prod, Pivot, Piece, Span, BaseAt, Local, Extent, Ravel, Ripple;
    SpanFits(q, o);
    RippleValue(q, r.coords, r.left, r.carry);
    var p := Ripple(r.coords, q.counts, r.left, r.carry);
    if r.offset < q.End() {
      DivModUnique(r.offset, q.End(), 0, r.offset);
      NextStop(q, o, p);
    } else {
      DivModUnique(r.offset, q.End(), 1, 0);
    }
  }

  // The call, from the state r the dimension loop ends in.
  lemma NextLoop(q: Request, o: seq<nat>)
    requires At(q, o) && Live(q, CursorAt(q, o)) && Lookup(q, BaseAt(q, o), o)
    requires Taken(q, o, Descend(q, BaseAt(q, o), Start(q, o))) && Contiguous(Extent(q, o), q.chunkShape) && Stop(q, o)
    ensures var r := Descend(q, BaseAt(q, o), Start(q, o));
            Next(q, BaseAt(q, o), CursorAt(q, o)) ==
                     Deliver(Ravel(Local(q, o), q.chunkShape), r.advance,
                       Cursor(r.offset, Ripple(r.coords, q.counts, r.left, r.carry)))
  {
    hide Prod, BaseAt, Local, Ravel, Ripple, RippleFits, Descend, Piece, Span, Pivot, Contiguous, Extent, Covered,
      Wanted;
    LocalIsNext(q, o);
    var r := Descend(q, BaseAt(q, o), Start(q, o));
    SpanFits(q, o);
    RippleSums(q, r.coords, r.left, r.carry);
    SpanCovered(q, o);
    VolumeFits(q);
  }

  lemma StepClear(q: Request, o: seq<nat>)
    requires Stop(q, o) && Clear(q, o)
    ensures Live(q, CursorAt(q, o)) && Lookup(q, BaseAt(q, o), o)
    ensures Stepped(q, o, Next(q, BaseAt(q, o), CursorAt(q, o)))
  {
    hide Prod, Pivot, Piece, Span, BaseAt, Local, Extent, Ravel, Ripple, Descend, Stepped, Next, Contiguous,
      Guarded, Last;
    LiveAt(q, o);
    LoopClear(q, o);
    NextLoop(q, o);
    TakenSteps(q, o, Descend(q, BaseAt(q, o), Start(q, o)));
  }

  // Every run that starts at a stop of a regular request reads the rest of the request.
  lemma {:induction false} RunRegular(q: Request, o: seq<nat>)
    requires Stop(q, o) && Regular(q)
    ensures var from := Ravel(o, q.counts); Correct(q, RunFrom(q, CursorAt(q, o)), from, q.End() - from)
    decreases q.End() - Ravel(o, q.counts)
  {
    hide Prod, Pivot, Piece, Span, BaseAt, Local, Extent, Ravel, Next, Covered, Wanted, Contiguous;
    assert Clear(q, o);
    StepClear(q, o);
    SpanFits(q, o);
    SpanCovered(q, o);
    var step := Next(q, BaseAt(q, o), CursorAt(q, o));
    if step.next.offset < q.End() {
      RunRegular(q, step.next.coords);
      assert CursorAt(q, step.next.coords) == step.next;
    }
    var r, rest := RunFrom(q, CursorAt(q, o)), RunFrom(q, step.next);
    var g := Segment(BaseAt(q, o), step.start, step.start + step.advance);
    assert r == Run([g] + rest.segments, rest.ok);
    assert r.segments[0] == g && r.segments[1..] == rest.segments && g.end - g.start == Span(q, o);
    assert Correct(q, rest, step.next.offset, q.End() - step.next.offset);
    assert g.start <= g.end <= Prod(q.chunkShape);
    assert Covered(q, g.base, g.start, g.end - g.start) == Wanted(q, Ravel(o, q.counts), g.end - g.start);
  }
}
