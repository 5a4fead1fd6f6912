// The guards are necessary: a stop that is not clear spoils the segment delivered from it.
module Exactness {
  import opened Radix
  import opened Slicing
  import opened Stops
  import opened StopProofs
  import opened Delivery

  // The step from o delivers requested values only, in order.
  ghost predicate RightStep(q: Request, o: seq<nat>, r: Step)
    requires At(q, o)
  {
    && r.Deliver? && r.start == Ravel(Local(q, o), q.chunkShape)
    && r.start + r.advance <= Prod(q.chunkShape) && Ravel(o, q.counts) + r.advance <= q.End()
    && Covered(q, BaseAt(q, o), r.start, r.advance) == Wanted(q, Ravel(o, q.counts), r.advance)
  }

  lemma RightAt(q: Request, o: seq<nat>, r: Step, i: nat)
    requires At(q, o) && RightStep(q, o, r) && i < r.advance
    ensures Stored(q, BaseAt(q, o), r.start + i) == Asked(q, Ravel(o, q.counts) + i)
  {
    hide Stored, Asked, BaseAt, Local, Ravel, Prod;
    assert Covered(q, BaseAt(q, o), r.start, r.advance)[i] == Wanted(q, Ravel(o, q.counts), r.advance)[i];
  }

  ghost function StepAt(q: Request, o: seq<nat>): Step
    requires At(q, o)
  {
    LiveAt(q, o);
    Next(q, BaseAt(q, o), CursorAt(q, o))
  }

  ghost function LoopAt(q: Request, o: seq<nat>): Sweep
    requires At(q, o)
  {
    LiveAt(q, o);
    Descend(q, BaseAt(q, o), Start(q, o))
  }

  lemma StepLoop(q: Request, o: seq<nat>)
    requires At(q, o)
    ensures StepAt(q, o).Deliver? ==>
              LoopAt(q, o).ok &&
              StepAt(q, o).advance == LoopAt(q, o).advance && StepAt(q, o).start == Ravel(Local(q, o), q.chunkShape)
  {
    hide Ravel, BaseAt, Local, Descend;
    LiveAt(q, o);
    LocalIsNext(q, o);
  }

  lemma VisitGrows(q: Request, base: seq<nat>, s: Sweep)
    requires Ready(q, base, s) && s.left > 0
    ensures var t := Visit(q, base, s).0; t.ok ==> t.advance - s.advance == t.offset - s.offset >= 0
  {
  }

  lemma {:induction false} DescendGrows(q: Request, base: seq<nat>, s: Sweep)
    requires Ready(q, base, s)
    ensures var t := Descend(q, base, s); t.ok ==> t.advance - s.advance == t.offset - s.offset >= 0
    decreases s.left
  {
    if s.left > 0 {
      hide Visit;
      VisitGrows(q, base, s);
      var (t, more) := Visit(q, base, s);
      if more {
        DescendGrows(q, base, t);
      }
    }
  }

  // A pass with layers left to take advances.
  lemma Gains(q: Request, base: seq<nat>, s: Sweep)
    requires Ready(q, base, s) && s.left > 0 && !q.Thin(base, s.left - 1)
    requires q.Digit(s.left - 1, s.coords[s.left - 1] + s.carry) < Min(q.counts[s.left - 1], q.Limit(base, s.left - 1))
    ensures Descend(q, base, s).ok ==> Descend(q, base, s).advance > s.advance
  {
    var (t, more) := Visit(q, base, s);
    assert t.ok ==> t.advance > s.advance by {
      hide Descend;
      var k := s.left - 1;
      hide Prod;
      ProdPositive(q.chunkShape[k + 1..]);
      var l := Min(q.counts[k], q.Limit(base, k)) - q.Digit(k, s.coords[k] + s.carry);
      MulOrder(1, l, q.Stride(k));
    }
    hide Visit;
    if more {
      DescendGrows(q, base, t);
    }
  }

  lemma LocalWhole(q: Request, o: seq<nat>, i: nat)
    requires Stop(q, o) && Pivot(q) < i < |o|
    ensures BaseAt(q, o)[i] == q.indices[i] && Local(q, o)[i] == 0
  {
    BaseFacts(q, o);
    WholeFacts(q, o, i);
    assert Plus(BaseAt(q, o), Local(q, o))[i] == q.indices[i] + o[i];
  }

  lemma ClipPosition(q: Request, o: seq<nat>, i: nat)
    requires Stop(q, o) && Pivot(q) < i < |o|
    requires q.counts[i] < q.chunkShape[i] && q.counts[i + 1..] == q.chunkShape[i + 1..]
    ensures BaseAt(q, o)[i] == q.indices[i]
    ensures var x := Local(q, o)[i := q.counts[i]];
            InBox(x, q.chunkShape) && Ravel(x, q.chunkShape) == Ravel(Local(q, o), q.chunkShape) + Prod(q.counts[i..])
  {
    hide Ravel, Prod, Pivot, BaseAt, Local, Whole;
    BaseFacts(q, o);
    LocalWhole(q, o, i);
    ProdStep(q.counts, i);
    RavelSet(Local(q, o), q.chunkShape, i, q.counts[i]);
  }

  // Every call advances: the innermost dimension always has a layer to take.
  lemma NextAdvances(q: Request, base: seq<nat>, cur: Cursor)
    requires Live(q, cur) && Lookup(q, base, cur.coords)
    ensures var r := Next(q, base, cur); r.Deliver? ==> r.advance > 0 && r.next.offset == cur.offset + r.advance
  {
    hide Ravel, Prod, Descend, Ripple;
    if q.shape != [] {
      var k, s := |base| - 1, Sweep(cur.coords, cur.offset, 0, 0, |base|, true);
      assert q.Stride(k) == 1 by { ProdOnes(q.chunkShape[k + 1..]); }
      DivModUnique(cur.coords[k], q.counts[k], 0, cur.coords[k]);
      assert cur.coords[k] < q.Limit(base, k);
      Gains(q, base, s);
      DescendGrows(q, base, s);
    }
  }

  lemma StoredAt(q: Request, base: seq<nat>, x: seq<nat>, i: nat)
    requires q.Valid() && |base| == |q.shape| && InBox(x, q.chunkShape) && i < |x|
    ensures Stored(q, base, Ravel(x, q.chunkShape))[i] == base[i] + x[i]
  {
    hide Ravel, Unravel, Prod;
    UnravelRavel(x, q.chunkShape);
  }

  lemma AskedAt(q: Request, j: nat, i: nat)
    requires q.Valid() && j < q.End() && i < |q.shape|
    ensures q.indices[i] <= Asked(q, j)[i] < q.indices[i] + q.counts[i] <= q.shape[i]
  {
    hide Ravel, Unravel, Prod;
    RavelUnravel(j, q.counts);
  }

  // Past the end of a clipped dimension the stored order leaves the request.
  lemma ClipMismatch(q: Request, o: seq<nat>, i: nat)
    requires Stop(q, o) && Pivot(q) < i < |o|
    requires q.counts[i] < q.chunkShape[i] && q.counts[i + 1..] == q.chunkShape[i + 1..]
    requires Ravel(o, q.counts) + Prod(q.counts[i..]) < q.End()
    ensures Stored(q, BaseAt(q, o), Ravel(Local(q, o), q.chunkShape) + Prod(q.counts[i..]))
         != Asked(q, Ravel(o, q.counts) + Prod(q.counts[i..]))
  {
    hide Ravel, Prod, Pivot, BaseAt, Local, Stored, Asked;
    ClipPosition(q, o, i);
    var x, j := Local(q, o)[i := q.counts[i]], Ravel(o, q.counts) + Prod(q.counts[i..]);
    StoredAt(q, BaseAt(q, o), x, i);
    AskedAt(q, j, i);
  }

  lemma AboveArith(a: nat, b: nat, c: nat, d: nat)
    requires a > 0 && b > 1 && c > 0 && d > 0
    ensures a * (b * (c * d)) > d
  {
    MulOrder(1, c, d);
    MulOrder(2, b, c * d);
    MulOrder(1, a, b * (c * d));
  }

  // A span is longer than the box below any of its dimensions that is not 1.
  lemma SpanAbove(q: Request, o: seq<nat>, k: nat, i: nat)
    requires At(q, o) && Pivot(q) <= k < i < |o| && Extent(q, o)[k] > 1
    ensures Span(q, o) > Prod(q.counts[i..])
  {
    hide Ravel, Prod, Pivot, Piece, BaseAt, Span;
    var m, e := Pivot(q), Extent(q, o);
    ExtentProd(q, o);
    ProdSplit(e, k);
    ProdStep(e, k);
    assert e[k + 1..] == q.counts[k + 1..];
    SuffixMultiple(q.counts, k + 1, i);
    ProdPositive(e[..k]);
    ProdPositive(q.counts[k + 1..i]);
    ProdPositive(q.counts[i..]);
    AboveArith(Prod(e[..k]), e[k], Prod(q.counts[k + 1..i]), Prod(q.counts[i..]));
  }

  lemma PassedReady(q: Request, o: seq<nat>, k: nat)
    requires At(q, o) && k <= |o|
    ensures Ready(q, BaseAt(q, o), Passed(q, o, k))
    ensures Passed(q, o, k).left == k && Passed(q, o, k).ok
  {
    hide Ravel, Prod, BaseAt, CarryOut;
    BaseFacts(q, o);
  }

  // Thin whole dimensions pass the state on.
  lemma {:induction false} PassedThinTo(q: Request, o: seq<nat>, lo: nat, hi: nat)
    requires Stop(q, o) && Pivot(q) < lo <= hi <= |o|
    requires forall j :: lo <= j < hi ==> q.counts[j] == 1 && q.Stride(j) != 1
    requires Passed(q, o, hi).offset < q.End()
    ensures Ready(q, BaseAt(q, o), Passed(q, o, lo)) && Ready(q, BaseAt(q, o), Passed(q, o, hi))
    ensures Passed(q, o, lo) == Passed(q, o, hi).(left := lo)
    ensures Descend(q, BaseAt(q, o), Passed(q, o, hi)) == Descend(q, BaseAt(q, o), Passed(q, o, lo))
    decreases hi - lo
  {
    hide Ravel, Prod, Pivot, BaseAt, CarryOut, Visit, Passed;
    PassedReady(q, o, hi);
    PassedReady(q, o, lo);
    if lo < hi {
      PassedReady(q, o, hi - 1);
      PassedThin(q, o, hi - 1);
      PassedThinTo(q, o, lo, hi - 1);
    }
  }

  lemma {:induction false} LastDifference(s: seq<nat>, t: seq<nat>, k: nat, hi: nat) returns (i: nat)
    requires |s| == |t| && k <= hi <= |s| && s[hi..] == t[hi..] && s[k..] != t[k..]
    ensures k <= i < hi && s[i] != t[i] && s[i + 1..] == t[i + 1..]
    decreases hi
  {
    if s[hi - 1] != t[hi - 1] {
      i := hi - 1;
    } else {
      assert s[hi - 1..] == [s[hi - 1]] + s[hi..] && t[hi - 1..] == [t[hi - 1]] + t[hi..];
      i := LastDifference(s, t, k, hi - 1);
    }
  }

  lemma StrideAbove(q: Request, j: nat, i: nat)
    requires q.Valid() && j < i < |q.shape| && q.chunkShape[i] != 1
    ensures q.Stride(j) != 1
  {
    assert q.chunkShape[i] == q.chunkShape[j + 1..][i - j - 1];
    if q.Stride(j) == 1 {
      ProdOneOnes(q.chunkShape[j + 1..]);
    }
  }

  // With a carry of 1, a dimension of the span that is longer than 1 takes more values.
  lemma GainsAt(q: Request, o: seq<nat>, k: nat)
    requires Stop(q, o) && Pivot(q) <= k < |o| && Extent(q, o)[k] > 1 && CarryOut(q, k + 1) == 1
    ensures Ready(q, BaseAt(q, o), Passed(q, o, k + 1))
    ensures var r := Descend(q, BaseAt(q, o), Passed(q, o, k + 1)); r.ok ==> r.advance > Passed(q, o, k + 1).advance
  {
    hide Prod, Ravel, Pivot, Descend, Visit;
    PassedReady(q, o, k + 1);
    BaseFacts(q, o);
    if k > Pivot(q) {
      WholeFacts(q, o, k);
    }
    hide BaseAt, Whole, CarryOut;
    DivModUnique(o[k] + 1, q.counts[k], 0, o[k] + 1);
    Gains(q, BaseAt(q, o), Passed(q, o, k + 1));
  }

  // The loop takes more than the box below a clipped dimension.
  lemma TailAdvance(q: Request, o: seq<nat>, k: nat, i: nat)
    requires Stop(q, o) && Pivot(q) <= k < i < |o| && Extent(q, o)[k] > 1
    requires q.counts[i] < q.chunkShape[i] && q.counts[i + 1..] == q.chunkShape[i + 1..]
    requires forall j :: k < j < |o| && q.counts[j] > 1 ==> q.counts[j + 1..] == q.chunkShape[j + 1..]
    ensures LoopAt(q, o).ok ==> LoopAt(q, o).advance > Prod(q.counts[i..])
  {
    hide Prod, Ravel, Pivot, Descend, Visit, BaseAt, CarryOut, Piece, Extent, Span;
    SpanAbove(q, o, k, i);
    SpanFits(q, o);
    var c := ReachDimension(q, o, i);
    if Passed(q, o, c).offset < q.End() {
      CarryOutPositive(q, i);
      DescendGrows(q, BaseAt(q, o), Passed(q, o, i));
      ProdPositive(q.counts[i..]);
      MulOrder(2, CarryOut(q, i), Prod(q.counts[i..]));
      if CarryOut(q, i) == 1 {
        forall j | k < j < i ensures q.counts[j] == 1 && q.Stride(j) != 1 {
          assert q.counts[i] == q.counts[j + 1..][i - j - 1] && q.chunkShape[i] == q.chunkShape[j + 1..][i - j - 1];
          StrideAbove(q, j, i);
        }
        PassedThinTo(q, o, k + 1, i);
        assert Passed(q, o, k + 1).carry == 1;
        GainsAt(q, o, k);
      }
    }
  }

  lemma TailWhole(q: Request, o: seq<nat>, k: nat)
    requires Stop(q, o) && RightStep(q, o, StepAt(q, o)) && Pivot(q) <= k < |o| && Extent(q, o)[k] > 1
    requires forall j :: k < j < |o| && q.counts[j] > 1 ==> q.counts[j + 1..] == q.chunkShape[j + 1..]
    ensures q.counts[k + 1..] == q.chunkShape[k + 1..]
  {
    hide Prod, Ravel, Pivot, BaseAt, Piece, Extent, StepAt, LoopAt, Stored, Asked, Covered, Wanted, Local;
    if q.counts[k + 1..] != q.chunkShape[k + 1..] {
      var i := LastDifference(q.counts, q.chunkShape, k + 1, |o|);
      WholeFacts(q, o, i);
      StepLoop(q, o);
      TailAdvance(q, o, k, i);
      RightAt(q, o, StepAt(q, o), Prod(q.counts[i..]));
      ClipMismatch(q, o, i);
    }
  }

  lemma {:induction false} TailsWhole(q: Request, o: seq<nat>, k: nat)
    requires Stop(q, o) && RightStep(q, o, StepAt(q, o)) && Pivot(q) <= k <= |o|
    ensures forall j :: k <= j < |o| && Extent(q, o)[j] > 1 ==> q.counts[j + 1..] == q.chunkShape[j + 1..]
    decreases |o| - k
  {
    hide Prod, Ravel, Pivot, BaseAt, Piece, StepAt, RightStep;
    if k < |o| {
      TailsWhole(q, o, k + 1);
      forall j | k < j < |o| && q.counts[j] > 1 ensures q.counts[j + 1..] == q.chunkShape[j + 1..] {
        assert Extent(q, o)[j] == q.counts[j];
      }
      if Extent(q, o)[k] > 1 {
        TailWhole(q, o, k);
      }
    }
  }

  lemma RightContiguous(q: Request, o: seq<nat>)
    requires Stop(q, o) && RightStep(q, o, StepAt(q, o))
    ensures Contiguous(Extent(q, o), q.chunkShape)
  {
    hide Prod, Ravel, BaseAt, Piece, StepAt, RightStep;
    var m, e := Pivot(q), Extent(q, o);
    TailsWhole(q, o, m);
    forall j, k | 0 <= j < k < |e| && e[j] > 1 ensures e[k] == q.chunkShape[k] {
      assert j >= m && e[k] == q.counts[k] == q.counts[j + 1..][k - j - 1];
    }
  }

  // What the end of a piece means.
  lemma PieceFacts(q: Request, o: seq<nat>)
    requires Stop(q, o)
    ensures var m := Pivot(q);
            var limit := q.Limit(BaseAt(q, o), m);
            && o[m] + Piece(q, o) == Min(q.counts[m], limit)
            && (o[m] > 0 ==> BaseAt(q, o)[m] == q.indices[m] + o[m])
            && (limit < q.counts[m] ==> q.indices[m] + limit == BaseAt(q, o)[m] + q.chunkShape[m])
  {
    var m := Pivot(q);
    BaseFacts(q, o);
    if o[m] > 0 {
      var x, c := q.indices[m] + o[m], q.chunkShape[m];
      assert x == x / c * c + x % c;
    }
  }

  lemma PieceShort(q: Request, o: seq<nat>)
    requires Stop(q, o) && !Whole(q, Pivot(q)) && o[Pivot(q)] == 0
    requires q.indices[Pivot(q)] >= BaseAt(q, o)[Pivot(q)] && Piece(q, o) == q.counts[Pivot(q)]
    ensures q.counts[Pivot(q)] < q.chunkShape[Pivot(q)]
  {
    hide Pivot;
    BaseFacts(q, o);
  }

  lemma TailArith(a: nat, b: nat, c: nat, s: nat, n: nat, p: nat)
    requires 0 < p <= s && 0 < n < c
    ensures a * (c * s) != b * (c * s) + n * p
  {
    MulOrder(p, s, n);
    assert n * p <= n * s;
    assert n * s < c * s && n * p > 0;
    MulOrder(b + 1, a, c * s);
    MulOrder(a, b, c * s);
  }

  // Two stored positions that agree from the pivot on are at least a layer of the pivot apart;
  // the span of a pivot that is not whole is shorter.
  lemma SameTail(q: Request, o: seq<nat>, l: seq<nat>)
    requires Stop(q, o) && !Whole(q, Pivot(q)) && o[Pivot(q)] == 0
    requires q.indices[Pivot(q)] >= BaseAt(q, o)[Pivot(q)] && Piece(q, o) == q.counts[Pivot(q)]
    requires InBox(l, q.chunkShape) && l[Pivot(q)..] == Local(q, o)[Pivot(q)..]
    ensures Ravel(l, q.chunkShape) != Ravel(Local(q, o), q.chunkShape) + Span(q, o)
  {
    hide Ravel, Prod, Pivot, BaseAt, Local;
    var m, c, n := Pivot(q), q.chunkShape[Pivot(q)], q.counts[Pivot(q)];
    RavelSplit(l, q.chunkShape, m);
    RavelSplit(Local(q, o), q.chunkShape, m);
    ProdStep(q.chunkShape, m);
    WholeBelow(q, m);
    StrideBelow(q, m);
    ProdPositive(q.counts[m + 1..]);
    PieceShort(q, o);
    TailArith(Ravel(l[..m], q.chunkShape[..m]), Ravel(Local(q, o)[..m], q.chunkShape[..m]), c, q.Stride(m), n,
      Prod(q.counts[m + 1..]));
  }

  // The values after a span lie outside its chunk, or elsewhere in it: the stored
  // value that follows the span is not the next requested one.
  lemma SpanMismatch(q: Request, o: seq<nat>, l: seq<nat>, p: seq<nat>)
    requires Stop(q, o) && !Last(q, o)
    requires InBox(l, q.chunkShape) && Ravel(l, q.chunkShape) == Ravel(Local(q, o), q.chunkShape) + Span(q, o)
    requires InBox(p, q.counts) && Ravel(p, q.counts) == Ravel(o, q.counts) + Span(q, o)
    ensures Plus(BaseAt(q, o), l) != Plus(q.indices, p)
  {
    hide Ravel, Prod, Piece, Span;
    var m, base := Pivot(q), BaseAt(q, o);
    NextStop(q, o, p);
    BaseFacts(q, o);
    if Plus(base, l) == Plus(q.indices, p) {
      PivotOpen(q, o);
      PieceFacts(q, o);
      assert base[m] + l[m] == q.indices[m] + p[m] by { assert Plus(base, l)[m] == Plus(q.indices, p)[m]; }
      forall k | m < k < |o| ensures l[k] == 0 == Local(q, o)[k] {
        LocalWhole(q, o, k);
        assert Plus(base, l)[k] == Plus(q.indices, p)[k];
      }
      assert Local(q, o)[m] == q.indices[m] + o[m] - base[m] by {
        assert Plus(base, Local(q, o))[m] == Plus(q.indices, o)[m];
      }
      assert l[m..] == Local(q, o)[m..];
      SameTail(q, o, l);
    }
  }

  // A right step that is not the last takes no more than the span.
  lemma NotPast(q: Request, o: seq<nat>, r: Step)
    requires Stop(q, o) && !Last(q, o) && RightStep(q, o, r)
    ensures r.advance <= Span(q, o)
  {
    hide Ravel, Prod, Pivot, BaseAt, Local, Unravel, Covered, Wanted, Span;
    if r.advance > Span(q, o) {
      var i, j := r.start + Span(q, o), Ravel(o, q.counts) + Span(q, o);
      RightAt(q, o, r, Span(q, o));
      RavelUnravel(i, q.chunkShape);
      RavelUnravel(j, q.counts);
      SpanMismatch(q, o, Unravel(i, q.chunkShape), Unravel(j, q.counts));
    }
  }

  lemma ThinVisit(q: Request, base: seq<nat>, s: Sweep)
    requires Ready(q, base, s) && s.left > 0 && q.Thin(base, s.left - 1)
    requires s.coords[s.left - 1] + s.carry < U64
    ensures var k, v := s.left - 1, s.coords[s.left - 1] + s.carry;
            var t := Sweep(s.coords[k := q.Digit(k, v)], s.offset, s.advance, q.Carry(k, v), k, true);
            Visit(q, base, s) == (t, true)
  {
    hide Prod;
  }

  lemma CarryOne(v: nat, n: nat)
    requires n > 0 && v <= n
    ensures v / n <= 1
  {
    if v == n { DivModUnique(v, n, 1, 0); } else { DivModUnique(v, n, 0, v); }
  }

  lemma CarryDigit(q: Request, k: nat, v: nat)
    requires k < |q.counts| && q.counts[k] > 0 && v <= q.counts[k]
    ensures q.Carry(k, v) <= 1
  {
    CarryOne(v, q.counts[k]);
  }

  // A pass of a dimension that is not thin, which neither faults nor advances.
  lemma ThickRight(q: Request, base: seq<nat>, s: Sweep, v: nat)
    requires Ready(q, base, s) && s.ok && s.left > 0 && !q.Thin(base, s.left - 1)
    requires v == s.coords[s.left - 1] + s.carry && v <= q.counts[s.left - 1]
    requires Descend(q, base, s).ok && Descend(q, base, s).advance <= s.advance
    ensures v == q.Limit(base, s.left - 1) && v < q.counts[s.left - 1]
  {
    hide Prod, Ravel;
    var k := s.left - 1;
    if v == q.counts[k] { DivModUnique(v, q.counts[k], 1, 0); } else { DivModUnique(v, q.counts[k], 0, v); }
    if q.Digit(k, v) < Min(q.counts[k], q.Limit(base, k)) {
      Gains(q, base, s);
    } else {
      assert !Visit(q, base, s).0.ok || q.Digit(k, v) == Min(q.counts[k], q.Limit(base, k));
    }
  }

  // A loop that takes nothing more, and does not fault, makes a clear pass.
  lemma {:induction false} ClimbRight(q: Request, base: seq<nat>, s: Sweep)
    requires Ready(q, base, s) && InBox(s.coords, q.counts) && s.carry <= 1
    requires forall k :: 0 <= k < s.left ==> s.coords[k] < q.Limit(base, k)
    requires Descend(q, base, s).ok && Descend(q, base, s).advance <= s.advance && s.ok
    ensures PassClear(q, base, s.coords, s.left, s.carry)
    decreases s.left
  {
    hide Ravel, Prod, Visit, Rem, Quot;
    if s.left > 0 {
      var k, v := s.left - 1, s.coords[s.left - 1] + s.carry;
      if q.Thin(base, k) {
        CountFits(q, k);
        ThinVisit(q, base, s);
        CarryDigit(q, k, v);
        DigitBox(q, s.coords, k, v);
        ClimbRight(q, base, Visit(q, base, s).0);
      } else {
        ThickRight(q, base, s, v);
      }
    }
  }

  // The loop arrives at the pivot with a carry no larger than the piece, and takes no more than the span.
  ghost predicate FromPivot(q: Request, o: seq<nat>)
    requires At(q, o)
  {
    var s := Passed(q, o, Pivot(q) + 1);
    && Ready(q, BaseAt(q, o), s) && s.carry <= Piece(q, o)
    && Descend(q, BaseAt(q, o), s).ok && Descend(q, BaseAt(q, o), s).advance <= Span(q, o)
  }

  lemma RightOk(q: Request, o: seq<nat>)
    requires At(q, o) && RightStep(q, o, StepAt(q, o))
    ensures StepAt(q, o).Deliver?
  {
    hide StepAt;
  }

  lemma LoopIs(q: Request, o: seq<nat>)
    requires At(q, o)
    ensures Ready(q, BaseAt(q, o), Start(q, o)) && LoopAt(q, o) == Descend(q, BaseAt(q, o), Start(q, o))
  {
    hide Descend, BaseAt;
    LiveAt(q, o);
  }

  lemma MulCancel(a: nat, b: nat, p: nat)
    requires p > 0
    ensures a * p <= b * p ==> a <= b
  {
    MulOrder(b + 1, a, p);
  }

  // The step as seen from the pivot.
  lemma PivotRight(q: Request, o: seq<nat>)
    requires Stop(q, o) && !Last(q, o) && RightStep(q, o, StepAt(q, o))
    ensures FromPivot(q, o)
  {
    hide Ravel, Prod, Pivot, BaseAt, Local, StepAt, LoopAt, CarryOut, RightStep, Piece, Descend;
    var m := Pivot(q);
    StepLoop(q, o);
    NotPast(q, o, StepAt(q, o));
    RightOk(q, o);
    RightContiguous(q, o);
    ContiguousBelow(q, o);
    LoopIs(q, o);
    var c := ReachDimension(q, o, m + 1);
    DescendGrows(q, BaseAt(q, o), Passed(q, o, c));
    SpanFits(q, o);
    ProdPositive(q.counts[m + 1..]);
    hide Contiguous, Extent;
    MulCancel(CarryOut(q, m + 1), Piece(q, o), Prod(q.counts[m + 1..]));
  }

  lemma ThinGuarded(q: Request, o: seq<nat>)
    requires Stop(q, o) && !Last(q, o) && RightStep(q, o, StepAt(q, o)) && q.Thin(BaseAt(q, o), Pivot(q))
    ensures Guarded(q, o)
  {
    hide Ravel, Prod, Pivot, BaseAt, StepAt, RightStep, CarryOut, Piece;
    var m, base := Pivot(q), BaseAt(q, o);
    PivotRight(q, o);
    LandThin(q, o);
    BaseFacts(q, o);
    var s, v := Passed(q, o, m + 1), o[m] + CarryOut(q, m + 1);
    var t := Sweep(o[m := q.Digit(m, v)], s.offset, s.advance, q.Carry(m, v), m, true);
    CountFits(q, m);
    assert Visit(q, base, s) == (t, true);
    CarryOne(v, q.counts[m]);
    DigitBox(q, o, m, v);
    hide Visit, PassClear;
    ClimbRight(q, base, t);
  }

  lemma ThickGuarded(q: Request, o: seq<nat>)
    requires Stop(q, o) && !Last(q, o) && RightStep(q, o, StepAt(q, o)) && !q.Thin(BaseAt(q, o), Pivot(q))
    ensures Guarded(q, o)
  {
    hide Ravel, Prod, Pivot, StepAt, RightStep, CarryOut, PassClear, BaseAt;
    var m, base := Pivot(q), BaseAt(q, o);
    PivotRight(q, o);
    PieceFacts(q, o);
    var s, v := Passed(q, o, m + 1), o[m] + CarryOut(q, m + 1);
    if v == q.counts[m] {
      DivModUnique(v, q.counts[m], 1, 0);
      Gains(q, base, s);
    }
  }

  // A step is right at a stop only if the stop is clear.
  lemma RightClear(q: Request, o: seq<nat>)
    requires Stop(q, o) && RightStep(q, o, StepAt(q, o))
    ensures Clear(q, o)
  {
    hide Guarded, Contiguous, Ravel, Prod, Pivot, BaseAt, Extent, StepAt, RightStep;
    RightContiguous(q, o);
    if !Last(q, o) {
      if q.Thin(BaseAt(q, o), Pivot(q)) {
        ThinGuarded(q, o);
      } else {
        ThickGuarded(q, o);
      }
    }
  }

  lemma ScaledInside(a: nat, b: nat, l: nat, w: nat)
    requires a * w <= b * w < (a + l) * w
    ensures a <= b < a + l
  {
    MulOrder(a + l, b, w);
    if b < a {
      assert a * w == b * w + (a - b) * w;
      MulOrder(1, a - b, w);
    }
  }

  lemma DigitInside(g: nat, h: nat, n: nat, x: nat, y: nat, l: nat)
    requires x + l <= n && y < n && g * n + x <= h * n + y < g * n + x + l
    ensures h == g
  {
    MulOrder(h + 1, g, n);
    MulOrder(g + 1, h, n);
  }

  lemma InsideArith(g: nat, h: nat, n: nat, w: nat, x: nat, y: nat, l: nat)
    requires w > 0 && l > 0 && x + l <= n && y < n
    requires g * (n * w) + x * w <= h * (n * w) + y * w < g * (n * w) + x * w + l * w
    ensures h == g && x <= y < x + l
  {
    Distribute(g, n, w, x);
    Distribute(h, n, w, y);
    var a, b := g * n + x, h * n + y;
    assert a * w + l * w == (a + l) * w;
    ScaledInside(a, b, l, w);
    DigitInside(g, h, n, x, y, l);
  }

  lemma InsideAligned(q: Request, o: seq<nat>, x: seq<nat>)
    requires Stop(q, o) && Stop(q, x)
    requires o[Pivot(q)] <= x[Pivot(q)] < o[Pivot(q)] + Piece(q, o)
    ensures x[Pivot(q)] == o[Pivot(q)]
  {
    hide Ravel, Prod, Pivot, BaseAt, Piece;
    var m := Pivot(q);
    BaseFacts(q, o);
    PieceFacts(q, o);
    NextMultiple(BaseAt(q, o)[m], q.chunkShape[m]);
  }

  // There is no stop strictly inside a span.
  lemma NoStopInside(q: Request, o: seq<nat>, x: seq<nat>)
    requires Stop(q, o) && Stop(q, x) && Ravel(o, q.counts) <= Ravel(x, q.counts) < Ravel(o, q.counts) + Span(q, o)
    ensures x == o
  {
    hide Ravel, Prod, Piece, BaseAt;
    var m := Pivot(q);
    var n, w, l := q.counts[m], Prod(q.counts[m + 1..]), Piece(q, o);
    ProdPositive(q.counts[m + 1..]);
    ProdStep(q.counts, m);
    RavelAt(o, q.counts, m);
    RavelAt(x, q.counts, m);
    RavelZero(o[m + 1..], q.counts[m + 1..]);
    RavelZero(x[m + 1..], q.counts[m + 1..]);
    var g, h := Ravel(o[..m], q.counts[..m]), Ravel(x[..m], q.counts[..m]);
    InsideArith(g, h, n, w, o[m], x[m], l);
    PieceFacts(q, o);
    InsideAligned(q, o, x);
    UnravelRavel(o, q.counts);
    UnravelRavel(x, q.counts);
  }

  // A correct run starts with a right step.
  lemma RunHead(q: Request, o: seq<nat>)
    requires Stop(q, o)
    requires var from := Ravel(o, q.counts); Correct(q, RunFrom(q, CursorAt(q, o)), from, q.End() - from)
    ensures RightStep(q, o, StepAt(q, o))
    ensures var next, n := StepAt(q, o).next, Ravel(o, q.counts) + StepAt(q, o).advance;
            Correct(q, RunFrom(q, next), n, q.End() - n)
  {
    hide Prod, Pivot, Piece, Span, BaseAt, Local, Extent, Ravel, Next, Covered, Wanted;
    LiveAt(q, o);
    StepLoop(q, o);
    var step := StepAt(q, o);
    var r := RunFrom(q, CursorAt(q, o));
    if step.Deliver? && step.next.offset > Ravel(o, q.counts) {
      var g, rest := Segment(BaseAt(q, o), step.start, step.start + step.advance), RunFrom(q, step.next);
      assert r == Run([g] + rest.segments, rest.ok);
      assert r.segments[0] == g && r.segments[1..] == rest.segments;
    }
  }

  lemma {:induction false} RightRegular(q: Request, o: seq<nat>, x: seq<nat>)
    requires Stop(q, o) && Stop(q, x) && Ravel(o, q.counts) <= Ravel(x, q.counts)
    requires var from := Ravel(o, q.counts); Correct(q, RunFrom(q, CursorAt(q, o)), from, q.End() - from)
    ensures Clear(q, x)
    decreases Ravel(x, q.counts) - Ravel(o, q.counts)
  {
    hide Prod, Pivot, Piece, Span, BaseAt, Local, Extent, Ravel, Next, Covered, Wanted, Contiguous, Guarded;
    LiveAt(q, o);
    var r, step := RunFrom(q, CursorAt(q, o)), StepAt(q, o);
    RunHead(q, o);
    RightClear(q, o);
    if x != o {
      StepClear(q, o);
      SpanFits(q, o);
      if Ravel(x, q.counts) < Ravel(o, q.counts) + Span(q, o) {
        NoStopInside(q, o, x);
      }
      StopInside(q, x);
      RightRegular(q, step.next.coords, x);
    }
  }
}
