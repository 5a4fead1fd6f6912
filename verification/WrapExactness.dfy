// Without overflow checks too, the guards are necessary.
module WrapExactness {
  import opened Radix
  import opened Slicing
  import opened Stops
  import opened StopProofs
  import opened Delivery
  import opened Exactness
  import opened SlicerTheorem
  import opened Wrapping
  import opened WrapSums
  import opened WrapSteps
  import Datasets

  // What one pass takes: a negative number where it gives back.
  function Taking(q: Request, base: seq<nat>, s: Sweep): int
    requires Ready(q, base, s) && s.left > 0
  {
    var k := s.left - 1;
    if q.Thin(base, k) then 0
    else (Min(q.counts[k], q.Limit(base, k)) - q.Digit(k, s.coords[k] + s.carry)) * q.Stride(k)
  }

  // What the loop takes, as a number that does not wrap.
  function Gain(q: Request, base: seq<nat>, s: Sweep): int
    requires Ready(q, base, s)
    decreases s.left
  {
    if s.left == 0 then 0 else
      var (t, more) := BroadVisit(q, base, s);
      Taking(q, base, s) + if more then Gain(q, base, t) else 0
  }

  lemma VisitGain(q: Request, base: seq<nat>, s: Sweep)
    requires Ready(q, base, s) && s.left > 0 && s.offset < U64 && s.advance < U64
    ensures var t := BroadVisit(q, base, s).0;
            && t.offset == Wrapped(s.offset + Taking(q, base, s))
            && t.advance == Wrapped(s.advance + Taking(q, base, s))
  {
    hide Prod, Rem, Quot, Wrapped;
    WrappedExact(s.offset);
    WrappedExact(s.advance);
    WrappedSum(s.offset, Taking(q, base, s));
    WrappedSum(s.advance, Taking(q, base, s));
  }

  lemma {:induction false} DescendGain(q: Request, base: seq<nat>, s: Sweep)
    requires Ready(q, base, s) && s.offset < U64 && s.advance < U64
    ensures var r := BroadDescend(q, base, s);
            r.offset == Wrapped(s.offset + Gain(q, base, s)) && r.advance == Wrapped(s.advance + Gain(q, base, s))
    decreases s.left
  {
    hide BroadVisit, Taking;
    WrappedExact(s.offset);
    WrappedExact(s.advance);
    if s.left > 0 {
      var (t, more) := BroadVisit(q, base, s);
      VisitGain(q, base, s);
      if more {
        DescendGain(q, base, t);
        WrappedSum(Gain(q, base, t), s.offset + Taking(q, base, s));
        WrappedSum(Gain(q, base, t), s.advance + Taking(q, base, s));
      }
    }
  }

  // A call moves the offset by what it delivers.
  lemma NextGain(q: Request, base: seq<nat>, cur: Cursor)
    requires Live(q, cur) && Lookup(q, base, cur.coords)
    ensures var r := BroadNext(q, base, cur); r.advance < U64 && r.next.offset == Wrapped(cur.offset + r.advance)
  {
    hide BroadDescend, Ripple, Ravel, Gain;
    EndFits(q);
    if q.shape != [] {
      var s := Sweep(cur.coords, cur.offset, 0, 0, |base|, true);
      DescendGain(q, base, s);
      WrappedSum(cur.offset, Gain(q, base, s));
    } else {
      assert q.End() == 1;
      WrappedExact(cur.offset + 1);
    }
  }

  // A correct run starts with a right step, and goes on correctly.
  lemma BroadHead(q: Request, cur: Cursor)
    requires Live(q, cur) && Correct(q, BroadRun(q, cur), cur.offset, q.End() - cur.offset)
    ensures Lookup(q, BaseAt(q, cur.coords), cur.coords)
    ensures var r := BroadNext(q, BaseAt(q, cur.coords), cur);
            && 0 < r.advance && r.start + r.advance <= Prod(q.chunkShape) &&
              r.next.offset == cur.offset + r.advance <= q.End()
            && Covered(q, BaseAt(q, cur.coords), r.start, r.advance) == Wanted(q, cur.offset, r.advance)
            && Correct(q, BroadRun(q, r.next), r.next.offset, q.End() - r.next.offset)
  {
    hide Prod, BaseAt, Ravel, BroadNext, Covered, Wanted;
    BaseFacts(q, cur.coords);
    var base := BaseAt(q, cur.coords);
    var r := BroadNext(q, base, cur);
    NextGain(q, base, cur);
    EndFits(q);
    var run := BroadRun(q, cur);
    if r.next.offset > cur.offset {
      var g, rest := Segment(base, r.start, r.start + r.advance), BroadRun(q, r.next);
      assert run == Run([g] + rest.segments, rest.ok);
      assert run.segments[0] == g && run.segments[1..] == rest.segments;
      WrappedExact(cur.offset + r.advance);
    }
  }

  lemma WithinBox(q: Request, base: seq<nat>, o: seq<nat>)
    requires q.Holds(base, o) && |q.chunkShape| == |q.indices|
    ensures InBox(Within(q, base, o), q.chunkShape) && Plus(base, Within(q, base, o)) == Plus(q.indices, o)
  {
  }

  lemma WithinStart(q: Request, base: seq<nat>, cur: Cursor)
    requires Live(q, cur) && Lookup(q, base, cur.coords)
    ensures BroadNext(q, base, cur).start == Ravel(Within(q, base, cur.coords), q.chunkShape)
  {
    hide Prod, BroadDescend, Ripple;
  }

  // The first value of a right segment.
  lemma FirstCovered(q: Request, base: seq<nat>, l: seq<nat>, n: nat, from: nat)
    requires q.Valid() && |base| == |l| && InBox(l, q.chunkShape) && n > 0
    requires Covered(q, base, Ravel(l, q.chunkShape), n) == Wanted(q, from, n)
    ensures Plus(base, l) == Plus(q.indices, Unravel(from, q.counts))
  {
    hide Prod, Ravel, Unravel;
    var c, w := Covered(q, base, Ravel(l, q.chunkShape), n), Wanted(q, from, n);
    assert c[0] == Stored(q, base, Ravel(l, q.chunkShape) + 0) && w[0] == Asked(q, from + 0);
    UnravelRavel(l, q.chunkShape);
  }

  lemma PlusCancel(a: seq<nat>, x: seq<nat>, y: seq<nat>)
    requires |a| == |x| == |y| && Plus(a, x) == Plus(a, y)
    ensures x == y
  {
    forall k | 0 <= k < |x| ensures x[k] == y[k] {
      assert Plus(a, x)[k] == Plus(a, y)[k];
    }
  }

  // In a correct run the coordinates and the offset are in step.
  lemma BroadInStep(q: Request, cur: Cursor)
    requires Live(q, cur) && Correct(q, BroadRun(q, cur), cur.offset, q.End() - cur.offset)
    ensures Ravel(cur.coords, q.counts) == cur.offset
  {
    hide Prod, BaseAt, Ravel, BroadRun, Reads, BroadNext, Within, Unravel;
    BroadHead(q, cur);
    BaseFacts(q, cur.coords);
    var base, l := BaseAt(q, cur.coords), Within(q, BaseAt(q, cur.coords), cur.coords);
    WithinBox(q, base, cur.coords);
    WithinStart(q, base, cur);
    FirstCovered(q, base, l, BroadNext(q, base, cur).advance, cur.offset);
    RavelUnravel(cur.offset, q.counts);
    PlusCancel(q.indices, cur.coords, Unravel(cur.offset, q.counts));
  }

  // The call from a stop.
  ghost function BroadStepAt(q: Request, o: seq<nat>): (r: Step)
    requires At(q, o)
    ensures r.Deliver? && InBox(r.next.coords, q.counts)
  {
    LiveAt(q, o);
    BroadNext(q, BaseAt(q, o), CursorAt(q, o))
  }

  // The run from a stop reads the rest of the request.
  ghost predicate ReadsOn(q: Request, o: seq<nat>)
    requires At(q, o)
  {
    Correct(q, BroadRun(q, CursorAt(q, o)), Ravel(o, q.counts), q.End() - Ravel(o, q.counts))
  }

  lemma StopHead(q: Request, o: seq<nat>)
    requires At(q, o) && ReadsOn(q, o)
    ensures var r := BroadStepAt(q, o);
            && RightStep(q, o, r) && 0 < r.advance && r.next.offset == Ravel(o, q.counts) + r.advance <= q.End()
            && Correct(q, BroadRun(q, r.next), r.next.offset, q.End() - r.next.offset)
            && (r.next.offset < q.End() ==> Ravel(r.next.coords, q.counts) == r.next.offset)
  {
    hide Prod, BaseAt, Ravel, BroadRun, Reads, BroadNext, Within, Unravel, Covered, Wanted, Local;
    LiveAt(q, o);
    BroadHead(q, CursorAt(q, o));
    WithinStart(q, BaseAt(q, o), CursorAt(q, o));
    LocalIsNext(q, o);
    var r := BroadStepAt(q, o);
    if r.next.offset < q.End() {
      BroadInStep(q, r.next);
    }
  }

  // A whole dimension below the pivot, with all digits below the pivot 0.
  lemma TailVisit(q: Request, o: seq<nat>, s: Sweep)
    requires Stop(q, o) && Ready(q, BaseAt(q, o), s) && Pivot(q) + 1 < s.left && s.coords == o
    requires s.carry == CarryOut(q, s.left)
    ensures var (t, more) := BroadVisit(q, BaseAt(q, o), s);
            && t.coords == o && t.carry == CarryOut(q, s.left - 1) && Ready(q, BaseAt(q, o), t)
            && (!more ==> t.offset >= q.End())
  {
    hide Prod, Ravel, Pivot, Piece;
    var k := s.left - 1;
    WholeFacts(q, o, k);
    hide BaseAt, Whole;
    DivModUnique(q.counts[k], q.counts[k], 1, 0);
    assert o[k := 0] == o;
    if q.counts[k] == 1 {
      DivModUnique(s.carry, 1, s.carry, 0);
    }
  }

  // Below the pivot, neighbouring layers are neighbours in the chunk.
  lemma TailStride(q: Request, k: nat)
    requires Array(q) && Pivot(q) < k < |q.shape| && (q.counts[k] != 1 || q.Stride(k) == 1)
    requires q.counts[k] > 1 ==> q.counts[k + 1..] == q.chunkShape[k + 1..]
    ensures q.Stride(k) == Prod(q.counts[k + 1..])
  {
    hide Prod, Pivot;
    WholeBelow(q, k);
    StrideBelow(q, k);
  }

  lemma TailTaking(q: Request, o: seq<nat>, s: Sweep)
    requires Stop(q, o) && Ready(q, BaseAt(q, o), s) && Pivot(q) + 1 < s.left && s.coords == o
    requires s.carry == CarryOut(q, s.left)
    requires q.counts[s.left - 1] > 1 ==> q.counts[s.left..] == q.chunkShape[s.left..]
    ensures Taking(q, BaseAt(q, o), s) + CarryOut(q, s.left) * Prod(q.counts[s.left..]) ==
            CarryOut(q, s.left - 1) * Prod(q.counts[s.left - 1..])
  {
    hide Prod, Ravel, Pivot, Piece, Rem, Quot;
    var k := s.left - 1;
    WholeFacts(q, o, k);
    hide BaseAt, Whole;
    if q.counts[k] == 1 && q.Stride(k) != 1 {
      ProdStep(q.counts, k);
    } else {
      TailStride(q, k);
      CarryOutStep(q, k);
    }
  }

  // The loop as far as the pivot, or the end of the request. On a contiguous box the loop has then
  // taken as many layers of the pivot as the carry says.
  lemma {:induction false} Tail(q: Request, o: seq<nat>, s: Sweep) returns (t: Sweep)
    requires Stop(q, o) && Ready(q, BaseAt(q, o), s) && Pivot(q) < s.left && s.coords == o
    requires s.carry == CarryOut(q, s.left)
    ensures var base, m := BaseAt(q, o), Pivot(q);
            BroadDescend(q, base, s).offset < q.End() ==>
              && Ready(q, base, t) && t.left == m + 1 && t.coords == o && t.carry == CarryOut(q, m + 1)
              && BroadDescend(q, base, s) == BroadDescend(q, base, t)
              && ((forall j :: m < j < |o| && q.counts[j] > 1 ==> q.counts[j + 1..] == q.chunkShape[j + 1..]) ==>
                   Gain(q, base, s) + CarryOut(q, s.left) * Prod(q.counts[s.left..]) ==
                     CarryOut(q, m + 1) * Prod(q.counts[m + 1..]) + Gain(q, base, t))
    decreases s.left
  {
    hide Prod, Ravel, Pivot, Piece, BaseAt, Whole, CarryOut, BroadVisit, Taking;
    t := s;
    if s.left > Pivot(q) + 1 {
      TailVisit(q, o, s);
      var (u, more) := BroadVisit(q, BaseAt(q, o), s);
      if q.counts[s.left - 1] > 1 ==> q.counts[s.left..] == q.chunkShape[s.left..] {
        TailTaking(q, o, s);
      }
      if more {
        t := Tail(q, o, u);
      }
    }
  }

  // The loops leave alone the digits they have passed.
  lemma {:induction false} DescendKeeps(q: Request, base: seq<nat>, s: Sweep)
    requires Ready(q, base, s)
    ensures forall j :: s.left <= j < |s.coords| ==> BroadDescend(q, base, s).coords[j] == s.coords[j]
    decreases s.left
  {
    if s.left > 0 {
      var (t, more) := BroadVisit(q, base, s);
      assert forall j :: s.left <= j < |s.coords| ==> t.coords[j] == s.coords[j];
      hide BroadVisit;
      if more {
        DescendKeeps(q, base, t);
      }
    }
  }

  lemma {:induction false} RippleKeeps(coords: seq<nat>, counts: seq<nat>, i: nat, carry: nat)
    requires |coords| == |counts| && i <= |counts| && Positive(counts)
    ensures forall j :: i <= j < |coords| ==> Ripple(coords, counts, i, carry)[j] == coords[j]
    decreases i
  {
    if i > 0 {
      var v := coords[i - 1] + carry;
      RippleKeeps(coords[i - 1 := v % counts[i - 1]], counts, i - 1, v / counts[i - 1]);
    }
  }

  lemma CarryOutEnd(q: Request)
    requires q.Valid()
    ensures CarryOut(q, |q.shape|) == 0
  {
  }

  lemma PivotVisit(q: Request, o: seq<nat>, t: Sweep)
    requires Stop(q, o) && Ready(q, BaseAt(q, o), t) && t.left == Pivot(q) + 1 && t.coords == o
    ensures var m, u := Pivot(q), BroadVisit(q, BaseAt(q, o), t).0;
            && Ready(q, BaseAt(q, o), u) && u.left == m
            && (forall k :: m < k < |o| ==> u.coords[k] == 0)
            && (!q.Thin(BaseAt(q, o), m) ==> u.coords[m] == (o[m] + Piece(q, o)) % q.counts[m])
  {
    hide Prod, Ravel, Pivot, BaseAt;
  }

  // Where a call ends up along the pivot and below it.
  lemma PivotDigits(q: Request, o: seq<nat>)
    requires Stop(q, o) && BroadStepAt(q, o).next.offset < q.End()
    ensures var m, p := Pivot(q), BroadStepAt(q, o).next.coords;
            && (forall k :: m < k < |p| ==> p[k] == 0)
            && (!q.Thin(BaseAt(q, o), m) ==> p[m] == (o[m] + Piece(q, o)) % q.counts[m])
  {
    hide Prod, Ravel, Pivot, Piece, BaseAt, CarryOut, BroadVisit, BroadDescend, Ripple, Gain;
    LiveAt(q, o);
    var m, base := Pivot(q), BaseAt(q, o);
    var r := BroadDescend(q, base, Start(q, o));
    CarryOutEnd(q);
    var t := Tail(q, o, Start(q, o));
    BroadDescendStep(q, base, t);
    var (u, more) := BroadVisit(q, base, t);
    PivotVisit(q, o, t);
    DescendKeeps(q, base, u);
    RippleKeeps(r.coords, q.counts, r.left, r.carry);
  }

  lemma LayersApart(i: nat, j: nat, w: nat, a: nat, l: nat)
    requires w > 0 && i * w == j * w + a && 0 < a <= l * w
    ensures j < i <= j + l && a == (i - j) * w
  {
    if i <= j {
      MulOrder(i, j, w);
    } else {
      assert a == (i - j) * w;
      MulOrder(l + 1, i - j, w);
    }
  }

  lemma DigitLands(h: nat, g: nat, n: nat, x: nat, l: nat, y: nat)
    requires l > 0 && x + l <= n && y < n && y == (x + l) % n && h * n + x < g * n + y <= h * n + x + l
    ensures g * n + y == h * n + x + l
  {
    if x + l < n {
      DivModUnique(x + l, n, 0, x + l);
      MulOrder(h + 1, g, n);
      MulOrder(g + 1, h, n);
    } else {
      DivModUnique(x + l, n, 1, 0);
      MulOrder(g, h, n);
      MulOrder(h + 1, g, n);
    }
  }

  lemma LandArith(h: nat, g: nat, n: nat, w: nat, x: nat, l: nat, y: nat, a: nat)
    requires w > 0 && l > 0 && x + l <= n && y < n && 0 < a <= l * w
    requires g * (n * w) + y * w == h * (n * w) + x * w + a
    requires y == (x + l) % n || l == 1
    ensures a == l * w
  {
    Distribute(g, n, w, y);
    Distribute(h, n, w, x);
    LayersApart(g * n + y, h * n + x, w, a, l);
    if l > 1 {
      DigitLands(h, g, n, x, l, y);
    }
  }

  lemma LandsOnSpan(q: Request, o: seq<nat>, r: Step)
    requires Stop(q, o) && r == BroadStepAt(q, o) && r.next.offset == Ravel(o, q.counts) + r.advance < q.End()
    requires Ravel(r.next.coords, q.counts) == r.next.offset && 0 < r.advance <= Span(q, o)
    ensures r.advance == Span(q, o)
  {
    hide Prod, Ravel, Pivot, Piece, BaseAt, BroadStepAt;
    var m, p := Pivot(q), r.next.coords;
    var w := Prod(q.counts[m + 1..]);
    PivotDigits(q, o);
    if q.Thin(BaseAt(q, o), m) {
      LandThin(q, o);
    }
    RavelAt(o, q.counts, m);
    RavelZero(o[m + 1..], q.counts[m + 1..]);
    RavelAt(p, q.counts, m);
    RavelZero(p[m + 1..], q.counts[m + 1..]);
    ProdStep(q.counts, m);
    ProdPositive(q.counts[m + 1..]);
    LandArith(Ravel(o[..m], q.counts[..m]), Ravel(p[..m], q.counts[..m]), q.counts[m], w, o[m], Piece(q, o), p[m],
      r.advance);
  }

  // A correct call from a stop takes exactly the span.
  lemma SpanTaken(q: Request, o: seq<nat>)
    requires Stop(q, o) && ReadsOn(q, o)
    ensures BroadStepAt(q, o).advance == Span(q, o)
  {
    hide Prod, Ravel, Pivot, Piece, BaseAt, RightStep, BroadStepAt, BroadRun, Correct, ReadsOn;
    StopHead(q, o);
    SpanFits(q, o);
    var r := BroadStepAt(q, o);
    if !Last(q, o) {
      NotPast(q, o, r);
    }
    if r.next.offset < q.End() {
      LandsOnSpan(q, o, r);
    }
  }

  // A right call that takes the whole span had a contiguous box to take.
  lemma SpanTail(q: Request, o: seq<nat>, r: Step, k: nat)
    requires Stop(q, o) && RightStep(q, o, r) && r.advance == Span(q, o)
    requires Pivot(q) <= k < |o| && Extent(q, o)[k] > 1
    ensures q.counts[k + 1..] == q.chunkShape[k + 1..]
  {
    hide Prod, Ravel, Pivot, BaseAt, Piece, Extent, Stored, Asked, Covered, Wanted, Local, Span;
    if q.counts[k + 1..] != q.chunkShape[k + 1..] {
      var i := LastDifference(q.counts, q.chunkShape, k + 1, |o|);
      WholeFacts(q, o, i);
      SpanAbove(q, o, k, i);
      SpanFits(q, o);
      RightAt(q, o, r, Prod(q.counts[i..]));
      ClipMismatch(q, o, i);
    }
  }

  lemma SpanContiguous(q: Request, o: seq<nat>, r: Step)
    requires Stop(q, o) && RightStep(q, o, r) && r.advance == Span(q, o)
    ensures Contiguous(Extent(q, o), q.chunkShape)
  {
    hide Prod, Ravel, BaseAt, Piece, RightStep, Pivot, Span;
    var e := Extent(q, o);
    forall j, k | 0 <= j < k < |e| && e[j] > 1 ensures e[k] == q.chunkShape[k] {
      SpanTail(q, o, r, j);
      assert e[k] == q.counts[k] == q.counts[j + 1..][k - j - 1];
    }
  }

  // A correct run reads on from every stop.
  lemma {:induction false} Onwards(q: Request, o: seq<nat>, x: seq<nat>)
    requires Stop(q, o) && Stop(q, x) && ReadsOn(q, o) && Ravel(o, q.counts) <= Ravel(x, q.counts)
    ensures ReadsOn(q, x)
    decreases Ravel(x, q.counts) - Ravel(o, q.counts)
  {
    hide Prod, Pivot, Piece, Span, BaseAt, Ravel, BroadRun, RightStep, BroadStepAt;
    if x != o {
      StopHead(q, o);
      SpanTaken(q, o);
      StopInside(q, x);
      if Ravel(x, q.counts) < Ravel(o, q.counts) + Span(q, o) {
        NoStopInside(q, o, x);
      }
      var r := BroadStepAt(q, o);
      NextStop(q, o, r.next.coords);
      assert CursorAt(q, r.next.coords) == r.next;
      Onwards(q, r.next.coords, x);
    }
  }

  lemma PaddedBounds(q: Request)
    requires q.Valid()
    ensures var p := Padded(q.shape, q.chunkShape);
            && Positive(p) && |p| == |q.shape|
            && forall j :: 0 <= j < |p| ==> 1 <= q.counts[j] <= p[j] && 1 <= q.chunkShape[j] <= p[j]
  {
    hide Prod;
    var p, c := Padded(q.shape, q.chunkShape), q.chunkShape;
    forall j | 0 <= j < |p| ensures 1 <= q.counts[j] <= p[j] && 1 <= c[j] <= p[j] {
      DivCeilFacts(q.shape[j], c[j]);
      Datasets.PaddedAbove(q.shape[j], c[j]);
    }
  }

  lemma StrideFits(q: Request, k: nat)
    requires q.Valid() && k < |q.shape|
    ensures q.Stride(k) <= Prod(Padded(q.shape, q.chunkShape)[k + 1..])
  {
    hide Prod;
    PaddedBounds(q);
    ProdMonotone(q.chunkShape[k + 1..], Padded(q.shape, q.chunkShape)[k + 1..]);
  }

  // Layers of one dimension are at most half of what the padded dataset has from there on, or one.
  lemma LayersFit(q: Request, k: nat)
    requires q.Valid() && k < |q.shape|
    ensures var p := Padded(q.shape, q.chunkShape);
            q.counts[k] * q.Stride(k) + 2 * Prod(p[k + 1..]) <= 2 * Prod(p[k..]) ||
            (q.chunkShape[k] == 1 && q.counts[k] == 1 && Prod(p[k + 1..]) == Prod(p[k..]))
  {
    hide Prod;
    var p, c := Padded(q.shape, q.chunkShape), q.chunkShape;
    PaddedBounds(q);
    ProdStep(p, k);
    StrideFits(q, k);
    ProdPositive(p[k + 1..]);
    if p[k] > 1 {
      MulMonotone(q.counts[k], p[k], q.Stride(k), Prod(p[k + 1..]));
      MulOrder(2, p[k], Prod(p[k + 1..]));
    }
  }

  lemma SuffixGrows(p: seq<nat>, k: nat)
    requires Positive(p) && k < |p|
    ensures Prod(p[k + 1..]) <= Prod(p[k..])
  {
    hide Prod;
    ProdStep(p, k);
    MulOrder(1, p[k], Prod(p[k + 1..]));
  }

  lemma Between(d: int, n: nat, w: nat)
    requires 0 - n <= d <= n
    ensures 0 - n * w <= d * w <= n * w
  {
    if d >= 0 { MulOrder(d, n, w); } else { MulOrder(-d, n, w); }
  }

  // What one pass takes or gives back.
  lemma TakingBound(q: Request, base: seq<nat>, s: Sweep)
    requires Ready(q, base, s) && s.left > 0
    ensures var p, k := Padded(q.shape, q.chunkShape), s.left - 1;
            var b := 2 * Prod(p[k..]) - 2 * Prod(p[k + 1..]) + 1;
            0 - b <= Taking(q, base, s) <= b
  {
    hide Prod, Padded;
    var k := s.left - 1;
    PaddedBounds(q);
    LayersFit(q, k);
    SuffixGrows(Padded(q.shape, q.chunkShape), k);
    if !q.Thin(base, k) {
      var d, to := q.Digit(k, s.coords[k] + s.carry), Min(q.counts[k], q.Limit(base, k));
      Between(to - d, q.counts[k], q.Stride(k));
      if q.chunkShape[k] == 1 {
        assert q.Depth(base, k) <= 1;
      }
    }
  }

  lemma {:induction false} SuffixesGrow(p: seq<nat>, k: nat)
    requires Positive(p) && k <= |p|
    ensures Prod(p[k..]) <= Prod(p)
  {
    hide Prod;
    if k > 0 {
      SuffixGrows(p, k - 1);
      SuffixesGrow(p, k - 1);
    } else {
      assert p[0..] == p;
    }
  }

  // The passes of a call together: a dimension of more than one layer at least doubles the padded
  // volume, so the sum of all is bounded by twice that.
  lemma {:induction false} GainBound(q: Request, base: seq<nat>, s: Sweep)
    requires Ready(q, base, s)
    ensures var p := Padded(q.shape, q.chunkShape);
            var b := 2 * Prod(p) - 2 * Prod(p[s.left..]) + s.left;
            0 - b <= Gain(q, base, s) <= b
    decreases s.left
  {
    hide Prod, Taking, BroadVisit, Padded;
    var p := Padded(q.shape, q.chunkShape);
    PaddedBounds(q);
    if s.left > 0 {
      var (t, more) := BroadVisit(q, base, s);
      TakingBound(q, base, s);
      if more {
        GainBound(q, base, t);
      } else {
        SuffixesGrow(p, s.left - 1);
      }
    } else {
      assert p[0..] == p;
    }
  }

  lemma Unwrap(g: int, s: nat, b: nat)
    requires Wrapped(g) == s && 0 - b <= g <= b && s + b < U64
    ensures g == s
  {
    assert g == g / U64 * U64 + s;
  }

  // In a correct run what the loop takes, unwrapped, is the span.
  lemma SpanGained(q: Request, o: seq<nat>)
    requires Stop(q, o) && ReadsOn(q, o) && Roomy(q)
    ensures Ready(q, BaseAt(q, o), Start(q, o)) && Gain(q, BaseAt(q, o), Start(q, o)) == Span(q, o)
  {
    hide Prod, Ravel, Pivot, Piece, BaseAt, BroadRun, Gain, BroadDescend, Ripple, Span, ReadsOn;
    StopInside(q, o);
    EndFits(q);
    SpanTaken(q, o);
    LiveAt(q, o);
    var g, p := Gain(q, BaseAt(q, o), Start(q, o)), Padded(q.shape, q.chunkShape);
    DescendGain(q, BaseAt(q, o), Start(q, o));
    GainBound(q, BaseAt(q, o), Start(q, o));
    SpanFits(q, o);
    EndPadded(q);
    Unwrap(g, Span(q, o), 2 * Prod(p) + |o|);
  }

  // The loop has ended in r, and the call moves to the next stop.
  ghost predicate Arrived(q: Request, o: seq<nat>, r: Sweep)
    requires At(q, o)
  {
    && |r.coords| == |o| && r.left <= |o|
    && var p := Ripple(r.coords, q.counts, r.left, r.carry);
       InBox(p, q.counts) && Ravel(p, q.counts) == Ravel(o, q.counts) + Span(q, o) < q.End()
  }

  // The loop arrives at the pivot of a stop that is not the last with the carry of the dimensions
  // below; from there on it takes, or gives back, what is missing to the span.
  lemma PivotArrival(q: Request, o: seq<nat>) returns (t: Sweep)
    requires Stop(q, o) && ReadsOn(q, o) && Roomy(q) && !Last(q, o)
    ensures var base, m := BaseAt(q, o), Pivot(q);
            && Ready(q, base, t) && t.left == m + 1 && t.coords == o && t.carry == CarryOut(q, m + 1)
            && Contiguous(Extent(q, o), q.chunkShape)
            && t.carry * Prod(q.counts[m + 1..]) + Gain(q, base, t) == Span(q, o)
            && Arrived(q, o, BroadDescend(q, base, t))
  {
    hide Prod, Ravel, Pivot, Piece, BaseAt, BroadRun, Gain, BroadDescend, Ripple, Span, ReadsOn, RightStep,
      Contiguous, CarryOut;
    SpanGained(q, o);
    StopHead(q, o);
    SpanTaken(q, o);
    SpanContiguous(q, o, BroadStepAt(q, o));
    ContiguousBelow(q, o);
    LiveAt(q, o);
    CarryOutEnd(q);
    t := Tail(q, o, Start(q, o));
  }

  ghost predicate AllRead(q: Request)
    requires q.Valid()
  {
    forall x :: Stop(q, x) ==> ReadsOn(q, x)
  }

  // What the loop takes at a pivot that is not thin; there it stops.
  lemma PivotGain(q: Request, o: seq<nat>, t: Sweep)
    requires Stop(q, o) && !Last(q, o) && !q.Thin(BaseAt(q, o), Pivot(q))
    requires Ready(q, BaseAt(q, o), t) && t.left == Pivot(q) + 1 && t.coords == o
    ensures var m := Pivot(q);
            Gain(q, BaseAt(q, o), t) == (o[m] + Piece(q, o) - (o[m] + t.carry) % q.counts[m]) * q.Stride(m)
  {
    hide Prod, Ravel, Pivot, BaseAt, Whole;
    PivotOpen(q, o);
  }

  lemma Factor(d: int, p: nat, s: nat)
    requires d * p == d * s
    ensures d == 0 || s == p
  {
    assert d * (s - p) == 0;
  }

  lemma Behind(a: int, d: int, p: nat, s: nat)
    requires 0 < p <= s && a * p == d * s && d < a && 0 <= a
    ensures d > 0 && s > p
  {
    assert a > 0 ==> a * p > 0;
    assert d <= 0 ==> d * s <= 0;
    assert d < 0 ==> d * s < 0;
    assert s == p ==> (a - d) * p == 0;
  }

  lemma ThickArith(x: nat, carry: nat, l: nat, n: nat, p: nat, s: nat)
    requires 0 < p <= s && l > 0 && x + l <= n
    requires carry * p + (x + l - (x + carry) % n) * s == l * p
    ensures (x + carry < n && (carry == l || s == p)) || (s > p && (x + carry) % n > x + l)
  {
    var c, r := (x + carry) / n, (x + carry) % n;
    assert x + carry == c * n + r;
    assert (carry - l) * p == (r - x - l) * s;
    if x + carry < n {
      DivModUnique(x + carry, n, 0, x + carry);
      Factor(carry - l, p, s);
    } else {
      assert c * n >= n by { MulOrder(1, c, n); }
      Behind(carry - l, r - x - l, p, s);
    }
  }

  // A thick pivot whose rows are clipped in the chunk is read one layer at a time, so there can be
  // at most two layers.
  lemma OneLayer(q: Request, o: seq<nat>, p: seq<nat>)
    requires Stop(q, o) && Stop(q, p) && !q.Thin(BaseAt(q, o), Pivot(q)) && o[Pivot(q)] + 2 < q.counts[Pivot(q)]
    requires Piece(q, o) == 1 && Piece(q, p) == 1 && p[Pivot(q)] == o[Pivot(q)] + 1
    ensures q.Stride(Pivot(q)) == 1
  {
    hide Prod, Ravel, Pivot, Piece, BaseAt;
    BaseFacts(q, o);
    PieceFacts(q, o);
    PieceFacts(q, p);
  }

  lemma NextContiguous(q: Request, p: seq<nat>)
    requires Stop(q, p) && ReadsOn(q, p)
    ensures Piece(q, p) > 1 ==> q.Stride(Pivot(q)) == Prod(q.counts[Pivot(q) + 1..])
  {
    hide Prod, Ravel, Pivot, Piece, BaseAt, BroadRun, ReadsOn, RightStep, Contiguous;
    StopHead(q, p);
    SpanTaken(q, p);
    SpanContiguous(q, p, BroadStepAt(q, p));
    ContiguousBelow(q, p);
  }

  lemma ThickNecessary(q: Request, o: seq<nat>)
    requires Stop(q, o) && AllRead(q) && Roomy(q) && !Last(q, o) && !q.Thin(BaseAt(q, o), Pivot(q))
    ensures WrapGuarded(q, o)
  {
    hide Prod, Ravel, Pivot, Piece, BaseAt, Whole, CarryOut, ReadsOn, Gain, BroadDescend, Ripple, Contiguous;
    var m := Pivot(q);
    var t := PivotArrival(q, o);
    PivotGain(q, o, t);
    WholeBelow(q, m);
    StrideBelow(q, m);
    ProdPositive(q.counts[m + 1..]);
    ThickArith(o[m], t.carry, Piece(q, o), q.counts[m], Prod(q.counts[m + 1..]), q.Stride(m));
    if q.Stride(m) != Prod(q.counts[m + 1..]) && (o[m] + t.carry) % q.counts[m] > o[m] + Piece(q, o) {
      var r := BroadDescend(q, BaseAt(q, o), t);
      var p := Ripple(r.coords, q.counts, r.left, r.carry);
      NextStop(q, o, p);
      NextContiguous(q, o);
      NextContiguous(q, p);
      OneLayer(q, o, p);
    }
  }

  lemma ThinPivot(q: Request, o: seq<nat>, t: Sweep) returns (u: Sweep)
    requires Stop(q, o) && q.Thin(BaseAt(q, o), Pivot(q))
    requires Ready(q, BaseAt(q, o), t) && t.left == Pivot(q) + 1 && t.coords == o
    ensures var base, m := BaseAt(q, o), Pivot(q);
            && Ready(q, base, u) && u.left == m
            && u.coords == o[m := q.Digit(m, o[m] + t.carry)] && u.carry == q.Carry(m, o[m] + t.carry)
            && Gain(q, base, u) == Gain(q, base, t) && BroadDescend(q, base, u) == BroadDescend(q, base, t)
  {
    hide Prod, Ravel, Pivot, BaseAt;
    u := BroadVisit(q, BaseAt(q, o), t).0;
  }

  lemma Difference(a: nat, p: nat)
    ensures a * p + (1 - a) * p == 1 * p
  {
  }

  // A thin pivot passes the carry on.
  lemma ThinArrival(q: Request, o: seq<nat>) returns (u: Sweep)
    requires Stop(q, o) && ReadsOn(q, o) && Roomy(q) && !Last(q, o) && q.Thin(BaseAt(q, o), Pivot(q))
    ensures var base, m := BaseAt(q, o), Pivot(q);
            var v := o[m] + CarryOut(q, m + 1);
            && Ready(q, base, u) && u.left == m && u.coords == o[m := q.Digit(m, v)] && u.carry == q.Carry(m, v)
            && Piece(q, o) == 1 && CarryOut(q, m + 1) >= 1
            && Gain(q, base, u) == (1 - CarryOut(q, m + 1)) * Prod(q.counts[m + 1..])
            && Arrived(q, o, BroadDescend(q, base, u))
  {
    hide Prod, Ravel, Pivot, Piece, BaseAt, Whole, CarryOut, ReadsOn, Arrived, Contiguous, BroadVisit;
    var t := PivotArrival(q, o);
    LandThin(q, o);
    u := ThinPivot(q, o, t);
    var m := Pivot(q);
    Difference(CarryOut(q, m + 1), Prod(q.counts[m + 1..]));
  }

  lemma NonNegative(a: int, b: nat)
    requires a >= 0
    ensures a * b >= 0
    ensures a > 0 && b > 0 ==> a * b > 0
  {
  }

  lemma SameDigit(q: Request, base: seq<nat>, s: Sweep)
    requires Ready(q, base, s) && s.left > 0 && InBox(s.coords, q.counts)
    requires s.coords[s.left - 1] < q.Limit(base, s.left - 1)
    requires BroadVisit(q, base, s).0.coords[s.left - 1] == s.coords[s.left - 1]
    ensures Taking(q, base, s) >= 0 && BroadVisit(q, base, s).0.coords == s.coords
  {
    hide Prod;
    var k := s.left - 1;
    var n := q.counts[k];
    var to: nat := Min(n, q.Limit(base, k));
    if !q.Thin(base, k) {
      if to < n { DivModUnique(to, n, 0, to); }
      assert to == n;
      Between(n - q.Digit(k, s.coords[k] + s.carry), n, q.Stride(k));
      NonNegative(n - q.Digit(k, s.coords[k] + s.carry), q.Stride(k));
    }
  }

  // Where the digits end up as they were, the loop gives nothing back.
  lemma {:induction false} ClimbSame(q: Request, base: seq<nat>, s: Sweep)
    requires Ready(q, base, s) && InBox(s.coords, q.counts)
    requires forall k :: 0 <= k < s.left ==> s.coords[k] < q.Limit(base, k)
    requires var r := BroadDescend(q, base, s); forall k :: r.left <= k < s.left ==> r.coords[k] == s.coords[k]
    ensures Gain(q, base, s) >= 0
    decreases s.left
  {
    hide Prod;
    if s.left > 0 {
      var k := s.left - 1;
      var (t, more) := BroadVisit(q, base, s);
      DescendKeeps(q, base, t);
      SameDigit(q, base, s);
      hide BroadVisit, Taking;
      if more {
        ClimbSame(q, base, t);
      }
    }
  }

  // The two loops end in the next stop: its digits, where the dimension loop has been.
  lemma ArrivedDigits(q: Request, o: seq<nat>, u: Sweep) returns (p: seq<nat>)
    requires Stop(q, o) && Ready(q, BaseAt(q, o), u) && u.left <= Pivot(q)
    requires Arrived(q, o, BroadDescend(q, BaseAt(q, o), u))
    ensures Stop(q, p) && Ravel(p, q.counts) == Ravel(o, q.counts) + Span(q, o)
    ensures p[Pivot(q)] == (if o[Pivot(q)] + Piece(q, o) < q.counts[Pivot(q)] then o[Pivot(q)] + Piece(q, o)
            else 0) == u.coords[Pivot(q)]
    ensures var r := BroadDescend(q, BaseAt(q, o), u); forall k :: r.left <= k < |o| ==> p[k] == r.coords[k]
  {
    hide Prod, Ravel, Pivot, Piece, BaseAt, Ripple, BroadDescend, Span;
    var r := BroadDescend(q, BaseAt(q, o), u);
    p := Ripple(r.coords, q.counts, r.left, r.carry);
    RippleKeeps(r.coords, q.counts, r.left, r.carry);
    DescendKeeps(q, BaseAt(q, o), u);
    NextStop(q, o, p);
  }

  // A pivot that is thin and not whole has more than one layer.
  lemma ThinCount(q: Request, o: seq<nat>)
    requires Stop(q, o) && !Last(q, o) && q.Thin(BaseAt(q, o), Pivot(q))
    ensures q.counts[Pivot(q)] > 1
  {
    hide Prod, Ravel, Pivot;
    PivotOpen(q, o);
    BaseFacts(q, o);
  }

  lemma SameRemainder(x: nat, carry: nat, n: nat)
    requires x < n && n > 1 && carry > 1 && (x + carry) % n == if x + 1 < n then x + 1 else 0
    ensures carry > n
  {
    if carry <= n {
      if x + carry < n { DivModUnique(x + carry, n, 0, x + carry); }
      else if x + carry < 2 * n { DivModUnique(x + carry, n, 1, x + carry - n); }
    }
  }

  lemma NoProduct(a: nat, b: nat)
    requires b > 0
    ensures a * b == 0 ==> a == 0
  {
    if a > 0 { MulOrder(1, a, b); }
  }

  // The stop one layer after the origin has no digits above the pivot.
  lemma FirstLayer(q: Request, z: seq<nat>, p: seq<nat>)
    requires Stop(q, z) && Stop(q, p) && (forall k :: 0 <= k < |z| ==> z[k] == 0) && Piece(q, z) == 1
    requires q.counts[Pivot(q)] > 1
    requires Ravel(p, q.counts) == Ravel(z, q.counts) + Span(q, z)
    ensures forall k :: 0 <= k < Pivot(q) ==> p[k] == 0
  {
    hide Prod, Ravel, Pivot, Piece, BaseAt;
    var m := Pivot(q);
    var w := Prod(q.counts[m + 1..]);
    NextStop(q, z, p);
    RavelZero(z, q.counts);
    RavelAt(p, q.counts, m);
    RavelZero(p[m + 1..], q.counts[m + 1..]);
    ProdPositive(q.counts[m..]);
    NoProduct(Ravel(p[..m], q.counts[..m]), Prod(q.counts[m..]));
    ZeroRavel(p[..m], q.counts[..m]);
    forall k | 0 <= k < m ensures p[k] == 0 {
      assert p[k] == p[..m][k];
    }
  }

  lemma GainSign(a: nat, p: nat)
    requires p > 0
    ensures (1 - a) * p >= 0 ==> a <= 1
  {
    if a > 1 {
      MulOrder(1, a - 1, p);
      Distribute(1, a - 1, p, 0);
      assert (1 - a) * p + (a - 1) * p == 0;
    }
  }

  // At the origin no carry larger than 1 can be passed on by a thin pivot.
  lemma OriginCarry(q: Request, z: seq<nat>)
    requires Stop(q, z) && AllRead(q) && Roomy(q) && !Last(q, z) && (forall k :: 0 <= k < |z| ==> z[k] == 0)
    requires q.Thin(BaseAt(q, z), Pivot(q))
    ensures CarryOut(q, Pivot(q) + 1) <= 1
  {
    hide Prod, Ravel, Pivot, Piece, BaseAt, CarryOut, ReadsOn, Gain, BroadDescend, Arrived;
    var m, base := Pivot(q), BaseAt(q, z);
    var u := ThinArrival(q, z);
    var p := ArrivedDigits(q, z, u);
    ThinCount(q, z);
    BaseFacts(q, z);
    FirstLayer(q, z, p);
    DigitBox(q, z, m, z[m] + CarryOut(q, m + 1));
    ClimbSame(q, base, u);
    ProdPositive(q.counts[m + 1..]);
    GainSign(CarryOut(q, m + 1), Prod(q.counts[m + 1..]));
  }

  // If some stop is not the last, the origin is not.
  lemma OriginOpen(q: Request, o: seq<nat>) returns (z: seq<nat>)
    requires Stop(q, o) && !Last(q, o)
    ensures Stop(q, z) && !Last(q, z) && forall k :: 0 <= k < |z| ==> z[k] == 0
  {
    hide Prod, Ravel, Pivot, Piece, BaseAt, Span;
    OriginStop(q);
    z := Origin(q).coords;
    StopInside(q, o);
    if Last(q, z) {
      NoStopInside(q, z, o);
    }
  }

  lemma ThinCarry(q: Request, o: seq<nat>)
    requires Stop(q, o) && AllRead(q) && Roomy(q) && !Last(q, o) && q.Thin(BaseAt(q, o), Pivot(q))
    ensures CarryOut(q, Pivot(q) + 1) == 1
  {
    hide Prod, Ravel, Pivot, Piece, BaseAt, CarryOut, ReadsOn, Gain, BroadDescend, Arrived;
    var m := Pivot(q);
    var u := ThinArrival(q, o);
    if CarryOut(q, m + 1) > 1 {
      var p := ArrivedDigits(q, o, u);
      ThinCount(q, o);
      SameRemainder(o[m], CarryOut(q, m + 1), q.counts[m]);
      var z := OriginOpen(q, o);
      if q.Thin(BaseAt(q, z), m) {
        OriginCarry(q, z);
      } else {
        ThickNecessary(q, z);
      }
    }
  }

  // The loop's state at the first dimension where the chunk is not thin.
  function ThinEnd(q: Request, base: seq<nat>, s: Sweep): (t: Sweep)
    requires Ready(q, base, s)
    ensures Ready(q, base, t) && t.left <= s.left
    decreases s.left
  {
    if s.left == 0 || !q.Thin(base, s.left - 1) then s else ThinEnd(q, base, BroadVisit(q, base, s).0)
  }

  lemma RippleZero(coords: seq<nat>, counts: seq<nat>, i: nat)
    requires InBox(coords, counts) && i <= |counts| && Positive(counts)
    ensures Ripple(coords, counts, i, 0) == coords
  {
    if i > 0 {
      DivModUnique(coords[i - 1], counts[i - 1], 0, coords[i - 1]);
    }
  }

  lemma ThinStep(q: Request, base: seq<nat>, s: Sweep)
    requires Ready(q, base, s) && s.left > 0 && q.Thin(base, s.left - 1)
    ensures var t := BroadVisit(q, base, s).0;
            && Ready(q, base, t) && t.left == s.left - 1
            && (forall j :: 0 <= j < t.left ==> t.coords[j] == s.coords[j])
            && t.coords == s.coords[t.left := q.Digit(t.left, s.coords[t.left] + s.carry)]
            && t.carry == q.Carry(t.left, s.coords[t.left] + s.carry)
            && BroadDescend(q, base, t) == BroadDescend(q, base, s) && Gain(q, base, t) == Gain(q, base, s)
            && PassClear(q, base, t.coords, t.left, t.carry) == PassClear(q, base, s.coords, s.left, s.carry)
  {
    hide Prod;
  }

  lemma ThinRipple(q: Request, coords: seq<nat>, k: nat, carry: nat)
    requires q.Valid() && InBox(coords, q.counts) && k < |coords| && carry <= 1
    ensures var v := coords[k] + carry;
            var next := coords[k := q.Digit(k, v)];
            && InBox(next, q.counts) && q.Carry(k, v) <= 1
            && Ripple(next, q.counts, k, q.Carry(k, v)) == Ripple(coords, q.counts, k + 1, carry)
  {
    hide Prod;
    var v := coords[k] + carry;
    CarryOne(v, q.counts[k]);
    DigitBox(q, coords, k, v);
    if q.Carry(k, v) == 0 {
      RippleZero(coords[k := q.Digit(k, v)], q.counts, k);
    }
  }

  lemma {:induction false} ThinEndFacts(q: Request, base: seq<nat>, s: Sweep)
    requires Ready(q, base, s) && InBox(s.coords, q.counts) && s.carry <= 1
    ensures var t := ThinEnd(q, base, s);
            && (t.left > 0 ==> !q.Thin(base, t.left - 1)) && InBox(t.coords, q.counts) && t.carry <= 1
            && (forall j :: 0 <= j < t.left ==> t.coords[j] == s.coords[j])
            && BroadDescend(q, base, t) == BroadDescend(q, base, s) && Gain(q, base, t) == Gain(q, base, s)
            && PassClear(q, base, t.coords, t.left, t.carry) == PassClear(q, base, s.coords, s.left, s.carry)
            && Ripple(t.coords, q.counts, t.left, t.carry) == Ripple(s.coords, q.counts, s.left, s.carry)
    decreases s.left
  {
    hide Prod, BroadVisit, BroadDescend, Gain, PassClear, Ripple, InBox;
    if s.left > 0 && q.Thin(base, s.left - 1) {
      ThinStep(q, base, s);
      ThinRipple(q, s.coords, s.left - 1, s.carry);
      ThinEndFacts(q, base, BroadVisit(q, base, s).0);
    }
  }

  // Where the first dimension is that is not thin, and the carry into it, depend on the thin dimensions only.
  lemma {:induction false} ThinEndSame(q: Request, base: seq<nat>, s: Sweep, t: Sweep)
    requires Ready(q, base, s) && Ready(q, base, t) && s.left == t.left && s.carry == t.carry
    requires forall j :: ThinEnd(q, base, s).left <= j < s.left ==> s.coords[j] == t.coords[j]
    ensures ThinEnd(q, base, t).left == ThinEnd(q, base, s).left
    ensures ThinEnd(q, base, t).carry == ThinEnd(q, base, s).carry
    decreases s.left
  {
    hide Prod;
    if s.left > 0 && q.Thin(base, s.left - 1) {
      assert ThinEnd(q, base, s).left <= s.left - 1;
      ThinEndSame(q, base, BroadVisit(q, base, s).0, BroadVisit(q, base, t).0);
    }
  }

  // The loop ends with the digits of the sum of its coordinates and the carry into them.
  ghost predicate Adds(q: Request, base: seq<nat>, t: Sweep)
    requires Ready(q, base, t)
  {
    var r := BroadDescend(q, base, t);
    forall k :: r.left <= k < t.left ==> r.coords[k] == Ripple(t.coords, q.counts, t.left, t.carry)[k]
  }

  // u is the loop's state above a thin pivot, with a carry of 1; t its state at the first dimension
  // that is not thin.
  ghost predicate Trail(q: Request, o: seq<nat>, u: Sweep, t: Sweep)
    requires At(q, o)
  {
    var base, m := BaseAt(q, o), Pivot(q);
    && Ready(q, base, u) && u.left == m && u.coords == o[m := q.Digit(m, o[m] + 1)] && u.carry == q.Carry(m, o[m] + 1)
    && t == ThinEnd(q, base, u) && (t.left > 0 ==> !q.Thin(base, t.left - 1))
    && InBox(t.coords, q.counts) && t.carry <= 1 && t.left <= m && (forall j :: 0 <= j < t.left ==> t.coords[j] == o[j])
    && Gain(q, base, t) == 0 && Adds(q, base, t)
    && PassClear(q, base, t.coords, t.left, t.carry) == PassClear(q, base, u.coords, m, u.carry)
  }

  lemma SamePosition(x: seq<nat>, y: seq<nat>, s: seq<nat>)
    requires InBox(x, s) && InBox(y, s) && Ravel(x, s) == Ravel(y, s)
    ensures x == y
  {
    UnravelRavel(x, s);
    UnravelRavel(y, s);
  }

  // The next stop, as the sum of the coordinates and the carry.
  lemma ThinTarget(q: Request, o: seq<nat>, p: seq<nat>, u: Sweep)
    requires Stop(q, o) && !Last(q, o) && Piece(q, o) == 1 && InBox(p, q.counts)
    requires Ravel(p, q.counts) == Ravel(o, q.counts) + Span(q, o)
    requires var m := Pivot(q);
             u.left == m && u.coords == o[m := q.Digit(m, o[m] + 1)] && u.carry == q.Carry(m, o[m] + 1) &&
               InBox(u.coords, q.counts)
    ensures p == Ripple(u.coords, q.counts, u.left, u.carry)
  {
    hide Prod, Ravel, Pivot, Piece, BaseAt, Ripple, Rem, Quot;
    var m := Pivot(q);
    RavelBound(p, q.counts);
    RippleValue(q, u.coords, m, u.carry);
    DigitStep(q, o, m, o[m] + 1);
    DivModUnique(Ravel(p, q.counts), q.End(), 0, Ravel(p, q.counts));
    SamePosition(p, Ripple(u.coords, q.counts, m, u.carry), q.counts);
  }

  lemma AddsTarget(q: Request, base: seq<nat>, t: Sweep, p: seq<nat>)
    requires Ready(q, base, t) && p == Ripple(t.coords, q.counts, t.left, t.carry)
    requires var r := BroadDescend(q, base, t); forall k :: r.left <= k < |base| ==> p[k] == r.coords[k]
    ensures Adds(q, base, t)
  {
  }

  lemma ThinPath(q: Request, o: seq<nat>) returns (u: Sweep, t: Sweep)
    requires Stop(q, o) && ReadsOn(q, o) && Roomy(q) && !Last(q, o) && q.Thin(BaseAt(q, o), Pivot(q))
    requires CarryOut(q, Pivot(q) + 1) == 1
    ensures Trail(q, o, u, t)
  {
    hide Prod, Ravel, Pivot, Piece, BaseAt, CarryOut, ReadsOn, Gain, BroadDescend, Arrived, Ripple, PassClear, Span,
      Adds, ThinEnd, Last;
    var m, base := Pivot(q), BaseAt(q, o);
    u := ThinArrival(q, o);
    var p := ArrivedDigits(q, o, u);
    CarryOne(o[m] + 1, q.counts[m]);
    DigitBox(q, o, m, o[m] + 1);
    ThinEndFacts(q, base, u);
    t := ThinEnd(q, base, u);
    ThinTarget(q, o, p, u);
    AddsTarget(q, base, t, p);
    hide Stop;
  }

  lemma RippleDigit(coords: seq<nat>, counts: seq<nat>, k: nat, carry: nat)
    requires |coords| == |counts| && k < |counts| && Positive(counts)
    ensures Ripple(coords, counts, k + 1, carry)[k] == Rem(coords[k] + carry, counts[k])
  {
    var v := coords[k] + carry;
    RippleKeeps(coords[k := v % counts[k]], counts, k, v / counts[k]);
  }

  // What the digit of the sum says of the count number up to which a thick dimension is taken.
  lemma ThickDigit(q: Request, base: seq<nat>, t: Sweep)
    requires Ready(q, base, t) && t.left > 0 && !q.Thin(base, t.left - 1) && Adds(q, base, t)
    ensures var k := t.left - 1;
            q.Digit(k, Min(q.counts[k], q.Limit(base, k))) == q.Digit(k, t.coords[k] + t.carry)
  {
    hide Prod, Ripple, Rem, Quot;
    var k, u := t.left - 1, BroadVisit(q, base, t).0;
    DescendKeeps(q, base, u);
    RippleDigit(t.coords, q.counts, k, t.carry);
    BroadDescendStep(q, base, t);
    assert u.coords[k] == q.Digit(k, Min(q.counts[k], q.Limit(base, k)));
    hide BroadVisit, BroadDescend;
  }

  lemma StridePositive(q: Request, k: nat)
    requires q.Valid() && k < |q.shape|
    ensures q.Stride(k) > 0
  {
    ProdPositive(q.chunkShape[k + 1..]);
  }

  lemma FullTaking(q: Request, base: seq<nat>, t: Sweep)
    requires Ready(q, base, t) && t.left > 0 && !q.Thin(base, t.left - 1)
    requires var k := t.left - 1; q.Digit(k, t.coords[k] + t.carry) == 0 && q.Limit(base, k) >= q.counts[k]
    ensures Taking(q, base, t) > 0
  {
    hide Prod;
    StridePositive(q, t.left - 1);
    NonNegative(q.counts[t.left - 1], q.Stride(t.left - 1));
  }

  // Taking a whole dimension where the sum has no carry makes the segment too long.
  lemma NoFullStep(q: Request, base: seq<nat>, t: Sweep)
    requires Ready(q, base, t) && t.left > 0 && !q.Thin(base, t.left - 1) && InBox(t.coords, q.counts)
    requires Adds(q, base, t)
    requires forall j :: 0 <= j < t.left ==> t.coords[j] < q.Limit(base, j)
    requires t.coords[t.left - 1] == 0 && t.carry == 0 && q.Limit(base, t.left - 1) >= q.counts[t.left - 1]
    ensures Gain(q, base, t) > 0
  {
    hide Prod;
    var k := t.left - 1;
    var (u, more) := BroadVisit(q, base, t);
    FullTaking(q, base, t);
    RippleZero(t.coords, q.counts, t.left);
    DivModUnique(q.counts[k], q.counts[k], 1, 0);
    assert u.coords == t.coords;
    hide BroadVisit, Taking, Ripple;
    if more {
      ClimbSame(q, base, u);
    }
  }

  lemma StrideOuter(q: Request, k: nat, m: nat)
    requires q.Valid() && k < m < |q.shape| && q.Stride(m) != 1
    ensures q.Stride(k) != 1
  {
    hide Prod;
    var c, d := q.chunkShape[k + 1..], q.chunkShape[m + 1..];
    if q.Stride(k) == 1 {
      ProdOneOnes(c);
      forall j | 0 <= j < |d| ensures d[j] == 1 {
        assert d[j] == c[j + m - k];
      }
      ProdOnes(d);
    }
  }

  lemma RestartBase(q: Request, o: seq<nat>, k: nat)
    requires At(q, o) && k < |o| && q.indices[k] == BaseAt(q, o)[k]
    ensures InBox(o[k := 0], q.counts) && BaseAt(q, o[k := 0]) == BaseAt(q, o)
  {
    hide Prod;
    BaseFacts(q, o);
    var b, c := BaseAt(q, o), BaseAt(q, o[k := 0]);
    DivModUnique(q.indices[k], q.chunkShape[k], q.indices[k] / q.chunkShape[k], 0);
    assert c[k] == b[k];
    assert forall j :: 0 <= j < |b| && j != k ==> c[j] == b[j];
    hide BaseAt;
  }

  lemma Lower(a: nat, b: nat)
    ensures (0 - a) * b <= 0
  {
  }

  // The stop at the start of dimension k, in the same chunk.
  lemma Restart(q: Request, o: seq<nat>, k: nat) returns (x: seq<nat>)
    requires Stop(q, o) && !Last(q, o) && k < Pivot(q) && q.indices[k] == BaseAt(q, o)[k]
    ensures x == o[k := 0] && Stop(q, x) && !Last(q, x) && BaseAt(q, x) == BaseAt(q, o)
  {
    hide Prod, Ravel, Pivot, BaseAt;
    x := o[k := 0];
    RestartBase(q, o, k);
    RavelSet(o, q.counts, k, 0);
    Lower(o[k], Prod(q.counts[k + 1..]));
  }

  // A carry into the last digit of a whole dimension would also go into the first one.
  lemma NoFullCarry(q: Request, o: seq<nat>, u: Sweep, t: Sweep)
    requires Stop(q, o) && AllRead(q) && Roomy(q) && !Last(q, o) && q.Thin(BaseAt(q, o), Pivot(q))
    requires CarryOut(q, Pivot(q) + 1) == 1
    requires Trail(q, o, u, t) && t.left > 0 && t.carry == 1 && q.indices[t.left - 1] == BaseAt(q, o)[t.left - 1]
    ensures q.counts[t.left - 1] != q.Limit(BaseAt(q, o), t.left - 1)
  {
    hide Prod, Ravel, Pivot, Piece, BaseAt, CarryOut, ReadsOn, Gain, BroadDescend, Ripple, PassClear, Span,
      BroadVisit, Adds, Last;
    var k, m := t.left - 1, Pivot(q);
    var x := Restart(q, o, k);
    var ux, tx := ThinPath(q, x);
    ThinEndSame(q, BaseAt(q, o), u, ux);
    ThickDigit(q, BaseAt(q, o), tx);
    StrideOuter(q, k, m);
    var n := q.counts[k];
    DivModUnique(n, n, 1, 0);
    if n > 1 { DivModUnique(1, n, 0, 1); }
  }

  lemma EqualDigits(to: nat, v: nat, n: nat)
    requires 0 < to <= n && v <= n && to % n == v % n
    ensures if to < n then v == to else v == 0 || v == n
  {
    if to < n { DivModUnique(to, n, 0, to); } else { DivModUnique(n, n, 1, 0); }
    if v < n { DivModUnique(v, n, 0, v); } else { DivModUnique(n, n, 1, 0); }
  }

  // A loop that has taken something, and in the end nothing, has gone on.
  lemma GoesOn(q: Request, base: seq<nat>, t: Sweep)
    requires Ready(q, base, t) && t.left > 0 && !q.Thin(base, t.left - 1) && Taking(q, base, t) > 0
    requires Gain(q, base, t) == 0
    ensures q.indices[t.left - 1] == base[t.left - 1] && q.counts[t.left - 1] == q.Limit(base, t.left - 1)
  {
    hide Prod, Taking;
  }

  // Taking a whole dimension makes the segment too long.
  lemma NoFull(q: Request, o: seq<nat>, u: Sweep, t: Sweep)
    requires Stop(q, o) && AllRead(q) && Roomy(q) && !Last(q, o) && q.Thin(BaseAt(q, o), Pivot(q))
    requires CarryOut(q, Pivot(q) + 1) == 1
    requires Trail(q, o, u, t) && t.left > 0
    requires var n, v := q.counts[t.left - 1], t.coords[t.left - 1] + t.carry; v == 0 || v == n
    ensures q.Limit(BaseAt(q, o), t.left - 1) < q.counts[t.left - 1]
  {
    hide Prod, Ravel, Pivot, Piece, BaseAt, CarryOut, ReadsOn, BroadDescend, Ripple, PassClear, Span, Adds, Last,
      Whole, AllRead, Roomy;
    var k, base := t.left - 1, BaseAt(q, o);
    var n := q.counts[k];
    if q.Limit(base, k) >= n {
      if t.coords[k] + t.carry == 0 {
        BaseFacts(q, o);
        NoFullStep(q, base, t);
      } else {
        DivModUnique(n, n, 1, 0);
        FullTaking(q, base, t);
        GoesOn(q, base, t);
        NoFullCarry(q, o, u, t);
      }
    }
  }

  lemma ClimbPass(q: Request, o: seq<nat>, u: Sweep, t: Sweep)
    requires Stop(q, o) && AllRead(q) && Roomy(q) && !Last(q, o) && q.Thin(BaseAt(q, o), Pivot(q))
    requires CarryOut(q, Pivot(q) + 1) == 1
    requires Trail(q, o, u, t) && t.left > 0
    ensures var k := t.left - 1; var v := t.coords[k] + t.carry; v == q.Limit(BaseAt(q, o), k) && v < q.counts[k]
  {
    hide Prod, Ravel, Pivot, Piece, BaseAt, CarryOut, ReadsOn, BroadDescend, Ripple, PassClear, Span, Adds, Last,
      Whole, Gain, AllRead, Roomy;
    var k, base := t.left - 1, BaseAt(q, o);
    var n, v := q.counts[k], t.coords[k] + t.carry;
    BaseFacts(q, o);
    ThickDigit(q, base, t);
    EqualDigits(Min(n, q.Limit(base, k)), v, n);
    if v == 0 || v == n {
      NoFull(q, o, u, t);
    }
  }

  lemma PassStart(q: Request, base: seq<nat>, t: Sweep)
    requires Ready(q, base, t) && (t.left > 0 ==> !q.Thin(base, t.left - 1))
    requires t.left > 0 ==>
               var k := t.left - 1;
               var v := t.coords[k] + t.carry;
               v == q.Limit(base, k) && v < q.counts[k]
    ensures PassClear(q, base, t.coords, t.left, t.carry)
  {
  }

  lemma ThinNecessary(q: Request, o: seq<nat>)
    requires Stop(q, o) && AllRead(q) && Roomy(q) && !Last(q, o) && q.Thin(BaseAt(q, o), Pivot(q))
    ensures Guarded(q, o)
  {
    hide Prod, Ravel, Pivot, Piece, BaseAt, CarryOut, ReadsOn, BroadDescend, Ripple, Span, Adds, Last, Gain;
    ThinCarry(q, o);
    var u, t := ThinPath(q, o);
    if t.left > 0 {
      hide PassClear;
      ClimbPass(q, o, u, t);
    }
    PassStart(q, BaseAt(q, o), t);
  }

  lemma WrapNecessary(q: Request, o: seq<nat>)
    requires Stop(q, o) && AllRead(q) && Roomy(q)
    ensures WrapClear(q, o)
  {
    hide Prod, Ravel, Pivot, Piece, BaseAt, ReadsOn, Guarded, Last, Contiguous, Extent, RightStep, BroadRun;
    StopHead(q, o);
    SpanTaken(q, o);
    SpanContiguous(q, o, BroadStepAt(q, o));
    if !Last(q, o) {
      if q.Thin(BaseAt(q, o), Pivot(q)) {
        ThinNecessary(q, o);
      } else {
        ThickNecessary(q, o);
      }
    }
  }

  lemma ScalarWrap(q: Request)
    requires q.Valid() && q.shape == []
    ensures Correct(q, WrapRun(q, Origin(q)), 0, q.End())
  {
    hide Prod;
    ScalarRun(q);
    RunAgrees(q, Origin(q));
  }

  // For every volume below 2^64, the wider condition suffices.
  lemma WrapSufficient(q: Request)
    requires q.Valid() && WrapRegular(q)
    ensures Correct(q, WrapRun(q, Origin(q)), 0, q.End())
  {
    hide WrapClear, Prod, Ravel, WrapRun, Pivot;
    if q.shape == [] {
      ScalarWrap(q);
    } else {
      OriginStop(q);
      WrapRunRegular(q, Origin(q).coords);
    }
  }

  lemma CorrectReads(q: Request)
    requires Array(q) && Correct(q, BroadRun(q, Origin(q)), 0, q.End())
    ensures AllRead(q)
  {
    hide Prod, BroadRun, Correct, Pivot, BaseAt, Ravel;
    OriginStop(q);
    forall x | Stop(q, x) ensures ReadsOn(q, x) {
      Onwards(q, Origin(q).coords, x);
    }
  }

  // A run without overflow checks reads the request in row-major order exactly when the request
  // is regular in the wider sense.
  lemma WrapExact(q: Request)
    requires q.Valid() && Roomy(q)
    ensures Correct(q, WrapRun(q, Origin(q)), 0, q.End()) <==> WrapRegular(q)
  {
    hide WrapClear, Prod, WrapRun, BroadRun, Correct, Pivot, BaseAt, Roomy;
    if WrapRegular(q) {
      WrapSufficient(q);
    } else if Correct(q, WrapRun(q, Origin(q)), 0, q.End()) {
      forall x | Stop(q, x) ensures WrapClear(q, x) {
        RunBroad(q, Origin(q));
        CorrectReads(q);
        WrapNecessary(q, x);
      }
    }
  }

  // A regular request is read the same way by both builds.
  lemma RegularWraps(q: Request)
    requires q.Valid() && Regular(q)
    ensures WrapRegular(q) && WrapRun(q, Origin(q)) == RunFrom(q, Origin(q))
  {
    hide Clear, WrapClear, Prod, WrapRun, RunFrom, Reads, Pivot, BaseAt;
    SlicerExact(q);
    RunAgrees(q, Origin(q));
    if q.shape != [] {
      forall o | Stop(q, o) ensures WrapClear(q, o) {
        ClearWrapClear(q, o);
      }
    }
  }
}
