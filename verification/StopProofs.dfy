// What one call does from a stop, dimension by dimension.
module StopProofs {
  import opened Radix
  import opened Slicing
  import opened Stops

  // A whole dimension holds one chunk, which starts at the request's index.
  lemma WholeFacts(q: Request, o: seq<nat>, k: nat)
    requires At(q, o) && k < |o| && Whole(q, k)
    ensures BaseAt(q, o)[k] == q.indices[k]
    ensures q.Depth(BaseAt(q, o), k) == q.counts[k] == q.Limit(BaseAt(q, o), k) <= q.chunkShape[k]
  {
    var i, c := q.indices[k], q.chunkShape[k];
    assert i == i / c * c;
    Distribute(0, 0, c, i / c);
    DivModUnique(i + o[k], c, i / c, o[k]);
  }

  lemma StopInside(q: Request, o: seq<nat>)
    requires At(q, o)
    ensures Ravel(o, q.counts) < q.End()
    ensures Ready(q, BaseAt(q, o), Sweep(o, Ravel(o, q.counts), 0, 0, |o|, true))
  {
    RavelBound(o, q.counts);
    BaseFacts(q, o);
  }

  // The loop state after the dimensions from k on, all whole, have been passed.
  ghost function Passed(q: Request, o: seq<nat>, k: nat): Sweep
    requires At(q, o) && k <= |o|
  {
    var a := CarryOut(q, k) * Prod(q.counts[k..]);
    Sweep(o, Ravel(o, q.counts) + a, a, CarryOut(q, k), k, true)
  }

  lemma CarryArith(carry: nat, n: nat, p: nat)
    requires n > 0
    ensures carry * p + (n - carry % n) * p == (carry / n + 1) * (n * p)
  {
    var a, b := carry / n, carry % n;
    assert carry == a * n + b;
    Distribute(a, n, p, b);
    assert (n - b) * p == n * p - b * p;
    assert (a + 1) * (n * p) == a * (n * p) + n * p;
  }

  lemma DivCeilFacts(a: nat, b: nat)
    requires b > 0
    ensures a <= DivCeil(a, b) * b < a + b
  {
    var d := a + b - 1;
    assert d == d / b * b + d % b;
  }

  // The requested volume fits in 64 bits because the padded dataset does.
  lemma EndFits(q: Request)
    requires q.Valid()
    ensures q.End() < U64
  {
    var p := Padded(q.shape, q.chunkShape);
    forall k | 0 <= k < |p| ensures q.counts[k] <= p[k] {
      DivCeilFacts(q.shape[k], q.chunkShape[k]);
    }
    ProdMonotone(q.counts, p);
  }

  // The position a loop state stands for: its coordinates and the carry not yet added to them.
  ghost function Value(q: Request, s: Sweep): nat
    requires |s.coords| == |q.counts| && s.left <= |q.counts|
  {
    Ravel(s.coords, q.counts) + s.carry * Prod(q.counts[s.left..])
  }

  lemma DigitArith(v: nat, n: nat, p: nat, x: nat)
    requires n > 0
    ensures (v % n - x) * p + (v / n) * (n * p) == (v - x) * p
  {
    var a, b := v / n, v % n;
    assert v == a * n + b;
    Distribute(a, n, p, b);
    assert (v - x) * p == v * p - x * p && (b - x) * p == b * p - x * p;
  }

  // Splitting v into digit and carry changes nothing of the position.
  lemma DigitStep(q: Request, coords: seq<nat>, k: nat, v: nat)
    requires q.Valid() && |coords| == |q.counts| && k < |coords|
    ensures Ravel(coords[k := q.Digit(k, v)], q.counts) + q.Carry(k, v) * Prod(q.counts[k..])
         == Ravel(coords, q.counts) + (v - coords[k]) * Prod(q.counts[k + 1..])
  {
    hide Ravel, Prod;
    var n, p := q.counts[k], Prod(q.counts[k + 1..]);
    RavelSet(coords, q.counts, k, q.Digit(k, v));
    ProdStep(q.counts, k);
    DigitArith(v, n, p, coords[k]);
  }

  lemma DigitBox(q: Request, coords: seq<nat>, k: nat, v: nat)
    requires q.Valid() && InBox(coords, q.counts) && k < |coords|
    ensures InBox(coords[k := q.Digit(k, v)], q.counts)
  {
  }

  // As long as the position lies inside the request, no sum of a coordinate and the carry into it
  // leaves 64 bits.
  lemma SumFits(q: Request, coords: seq<nat>, k: nat, carry: nat)
    requires q.Valid() && |coords| == |q.counts| && k < |coords|
    ensures Ravel(coords, q.counts) + carry * Prod(q.counts[k + 1..]) <= q.End() ==> coords[k] + carry < U64
    ensures Ravel(coords, q.counts) + carry * Prod(q.counts[k + 1..]) < q.End() ==> coords[k] + carry + 1 < U64
  {
    hide Ravel, Prod;
    EndFits(q);
    SumBelow(coords, q.counts, k, carry);
  }

  lemma CountFits(q: Request, k: nat)
    requires q.Valid() && k < |q.counts|
    ensures q.counts[k] <= q.End() < U64
  {
    hide Prod;
    EndFits(q);
    ProdSplit(q.counts, k);
    ProdStep(q.counts, k);
    ProdPositive(q.counts[..k]);
    ProdPositive(q.counts[k + 1..]);
    MulOrder(1, Prod(q.counts[k + 1..]), q.counts[k]);
    MulOrder(1, Prod(q.counts[..k]), Prod(q.counts[k..]));
  }

  lemma QuotBelow(v: nat, n: nat)
    requires n > 0
    ensures v / n <= v
  {
    assert v == v / n * n + v % n;
    MulOrder(1, n, v / n);
  }

  // As long as the position lies inside the request, no sum of the second loop leaves 64 bits.
  lemma {:induction false} RippleSums(q: Request, coords: seq<nat>, i: nat, carry: nat)
    requires q.Valid() && |coords| == |q.counts| && i <= |coords|
    requires Ravel(coords, q.counts) + carry * Prod(q.counts[i..]) <= q.End()
    ensures RippleFits(coords, q.counts, i, carry)
    decreases i
  {
    hide Ravel, Prod;
    if i > 0 {
      var k, v := i - 1, coords[i - 1] + carry;
      SumFits(q, coords, k, carry);
      DigitStep(q, coords, k, v);
      RippleSums(q, coords[k := q.Digit(k, v)], k, q.Carry(k, v));
    }
  }

  // A chunk's volume fits in 64 bits too.
  lemma VolumeFits(q: Request)
    requires q.Valid()
    ensures Prod(q.chunkShape) < U64
  {
    var p := Padded(q.shape, q.chunkShape);
    forall k | 0 <= k < |p| ensures q.chunkShape[k] <= p[k] {
      DivCeilFacts(q.shape[k], q.chunkShape[k]);
      MulOrder(1, DivCeil(q.shape[k], q.chunkShape[k]), q.chunkShape[k]);
    }
    ProdMonotone(q.chunkShape, p);
  }

  // Below a thick enough dimension, stored neighbours are requested neighbours.
  lemma StrideBelow(q: Request, k: nat)
    requires q.Valid() && k < |q.shape|
    requires forall j :: k < j < |q.shape| ==> q.counts[j] <= q.chunkShape[j]
    ensures Prod(q.counts[k + 1..]) <= q.Stride(k)
    ensures q.Stride(k) == 1 ==> Prod(q.counts[k + 1..]) == 1
  {
    var c, n := q.chunkShape[k + 1..], q.counts[k + 1..];
    forall j | 0 <= j < |n| ensures 1 <= n[j] <= c[j] {
      assert n[j] == q.counts[j + k + 1] && c[j] == q.chunkShape[j + k + 1];
    }
    ProdMonotone(n, c);
    ProdPositive(n);
  }

  lemma WholeBelow(q: Request, k: nat)
    requires Array(q) && Pivot(q) <= k < |q.shape|
    ensures forall j :: k < j < |q.shape| ==> q.counts[j] <= q.chunkShape[j]
  {
    forall j | k < j < |q.shape| ensures q.counts[j] <= q.chunkShape[j] {
      assert Whole(q, j);
    }
  }

  lemma PassedThin(q: Request, o: seq<nat>, k: nat)
    requires Stop(q, o) && Pivot(q) < k < |o|
    requires Ready(q, BaseAt(q, o), Passed(q, o, k + 1))
    requires q.counts[k] == 1 && q.Stride(k) != 1 && Passed(q, o, k + 1).offset < q.End()
    ensures Passed(q, o, k) == Passed(q, o, k + 1).(left := k)
    ensures Visit(q, BaseAt(q, o), Passed(q, o, k + 1)) == (Passed(q, o, k), true)
  {
    hide Ravel, Prod;
    WholeFacts(q, o, k);
    ProdStep(q.counts, k);
    SumFits(q, o, k, CarryOut(q, k + 1));
    assert o[k] == 0 && o[k := 0] == o;
    hide BaseAt, Pivot, Whole;
  }

  lemma CarryBelow(q: Request, k: nat, v: nat)
    requires k < |q.counts| && q.counts[k] > 0
    ensures q.Carry(k, v) <= v
  {
    QuotBelow(v, q.counts[k]);
  }

  lemma SplitDigit(q: Request, k: nat, v: nat, c: nat, d: nat)
    requires k < |q.counts| && d < q.counts[k] && v == c * q.counts[k] + d
    ensures q.Digit(k, v) == d && q.Carry(k, v) == c
  {
    DivModUnique(v, q.counts[k], c, d);
  }

  // A pass over a whole dimension that is not thin.
  lemma VisitWhole(q: Request, base: seq<nat>, s: Sweep, k: nat, a: nat)
    requires Ready(q, base, s) && s.left == k + 1 && s.ok && s.coords[k] == 0
    requires base[k] == q.indices[k] && q.Limit(base, k) == q.counts[k] && !q.Thin(base, k)
    requires a == s.advance + (q.counts[k] - q.Digit(k, s.carry)) * q.Stride(k)
    requires s.carry + 1 < U64
    ensures a >= s.advance
    ensures var t := Sweep(s.coords, s.offset - s.advance + a, a, s.carry / q.counts[k] + 1, k, true);
            var r := Visit(q, base, s);
            if t.offset < U64 then r == (t, t.offset < q.End()) else !r.0.ok && !r.1
  {
    hide Prod;
    var n := q.counts[k];
    SplitDigit(q, k, n, 1, 0);
    CarryBelow(q, k, s.carry);
    assert q.Carry(k, s.carry) == s.carry / n;
    assert q.Layers(k, n - q.Digit(k, s.carry)) == (n - q.Digit(k, s.carry)) * q.Stride(k);
    assert s.coords[k := 0] == s.coords;
    hide Rem, Quot, Mul;
  }

  lemma CarryOutStep(q: Request, k: nat)
    requires q.Valid() && k < |q.shape|
    requires q.counts[k] != 1 || q.Stride(k) == 1
    ensures var p := Prod(q.counts[k + 1..]);
            CarryOut(q, k) * Prod(q.counts[k..]) ==
              CarryOut(q, k + 1) * p + (q.counts[k] - q.Digit(k, CarryOut(q, k + 1))) * p
    ensures CarryOut(q, k) * Prod(q.counts[k..]) >= CarryOut(q, k + 1) * Prod(q.counts[k + 1..])
  {
    hide Prod;
    ProdStep(q.counts, k);
    CarryArith(CarryOut(q, k + 1), q.counts[k], Prod(q.counts[k + 1..]));
  }

  lemma PassedThick(q: Request, o: seq<nat>, k: nat)
    requires Stop(q, o) && Pivot(q) < k < |o|
    requires Ready(q, BaseAt(q, o), Passed(q, o, k + 1))
    requires q.counts[k] != 1 || q.Stride(k) == 1
    requires q.Stride(k) == Prod(q.counts[k + 1..]) && Passed(q, o, k + 1).offset < q.End()
    ensures Passed(q, o, k).advance >= Passed(q, o, k + 1).advance
    ensures var t, r := Passed(q, o, k), Visit(q, BaseAt(q, o), Passed(q, o, k + 1));
            if t.offset < U64 then r == (t, t.offset < q.End()) else !r.0.ok && !r.1
  {
    hide Ravel, Prod, Visit;
    WholeFacts(q, o, k);
    CarryOutStep(q, k);
    SumFits(q, o, k, CarryOut(q, k + 1));
    hide Pivot, BaseAt, Whole;
    VisitWhole(q, BaseAt(q, o), Passed(q, o, k + 1), k, Passed(q, o, k).advance);
  }

  lemma PassedStep(q: Request, o: seq<nat>, k: nat)
    requires Stop(q, o) && Pivot(q) < k < |o|
    requires q.counts[k] > 1 ==> q.counts[k + 1..] == q.chunkShape[k + 1..]
    requires Passed(q, o, k + 1).offset < q.End()
    ensures Passed(q, o, k).advance >= Passed(q, o, k + 1).advance
    ensures Ready(q, BaseAt(q, o), Passed(q, o, k + 1))
    ensures var t, r := Passed(q, o, k), Visit(q, BaseAt(q, o), Passed(q, o, k + 1));
            if t.offset < U64 then r == (t, t.offset < q.End()) else !r.0.ok && !r.1
  {
    StopInside(q, o);
    EndFits(q);
    if q.counts[k] == 1 && q.Stride(k) != 1 {
      PassedThin(q, o, k);
    } else {
      WholeBelow(q, k);
      StrideBelow(q, k);
      PassedThick(q, o, k);
    }
  }

  lemma CarryOutMonotone(q: Request, o: seq<nat>, k: nat)
    requires At(q, o) && k < |o|
    ensures Passed(q, o, k).advance >= Passed(q, o, k + 1).advance
  {
    hide Ravel, Prod;
    ProdStep(q.counts, k);
    if q.counts[k] != 1 || q.Stride(k) == 1 {
      CarryOutStep(q, k);
    }
  }

  lemma {:induction false} CarryOutMonotoneTo(q: Request, o: seq<nat>, k: nat, j: nat)
    requires At(q, o) && k <= j <= |o|
    ensures Passed(q, o, k).advance >= Passed(q, o, j).advance
    decreases j - k
  {
    if k < j {
      CarryOutMonotone(q, o, k);
      CarryOutMonotoneTo(q, o, k + 1, j);
    }
  }

  ghost function Start(q: Request, o: seq<nat>): Sweep
    requires q.Valid() && InBox(o, q.counts)
  {
    Sweep(o, Ravel(o, q.counts), 0, 0, |o|, true)
  }

  lemma DescendStep(q: Request, base: seq<nat>, s: Sweep)
    requires Ready(q, base, s) && s.left > 0
    ensures var (t, more) := Visit(q, base, s); Descend(q, base, s) == if more then Descend(q, base, t) else t
  {
    hide Visit;
  }

  lemma StartPassed(q: Request, o: seq<nat>)
    requires At(q, o)
    ensures Passed(q, o, |o|) == Start(q, o)
  {
  }

  // The loop as far as dimension lo: it arrives there, or it stops before, at k, because
  // the end of the request is reached or an operation overflows.
  lemma {:induction false} ReachDimension(q: Request, o: seq<nat>, lo: nat) returns (k: nat)
    requires Stop(q, o) && Pivot(q) < lo <= |o|
    requires forall j :: lo <= j < |o| && q.counts[j] > 1 ==> q.counts[j + 1..] == q.chunkShape[j + 1..]
    ensures lo <= k <= |o| && Ready(q, BaseAt(q, o), Start(q, o)) && Ready(q, BaseAt(q, o), Passed(q, o, k))
    ensures var r := Descend(q, BaseAt(q, o), Start(q, o));
            if Passed(q, o, k).offset < q.End() then k == lo && r == Descend(q, BaseAt(q, o), Passed(q, o, k))
            else k < |o| && Passed(q, o, k + 1).offset < q.End() &&
                 if Passed(q, o, k).offset < U64 then r == Passed(q, o, k) else !r.ok
    decreases |o| - lo
  {
    hide BaseAt, Visit, Pivot, Whole, Ravel, Prod, Descend, CarryOut;
    StopInside(q, o);
    if lo == |o| {
      k := lo;
      StartPassed(q, o);
    } else {
      k := ReachDimension(q, o, lo + 1);
      if Passed(q, o, k).offset < q.End() {
        PassedStep(q, o, lo);
        var (t, more) := Visit(q, BaseAt(q, o), Passed(q, o, k));
        DescendStep(q, BaseAt(q, o), Passed(q, o, k));
        EndFits(q);
        k := lo;
      }
    }
  }

  lemma SpanArith(h: nat, high: nat, n: nat, p: nat, x: nat, l: nat)
    requires h < high && x + l <= n && p > 0 && l > 0
    ensures h * (n * p) + x * p + l * p <= high * (n * p)
    ensures high == 1 && x + l == n ==> h * (n * p) + x * p + l * p == high * (n * p)
    ensures l * p > 0
  {
    assert x * p + l * p == (x + l) * p;
    MulOrder(x + l, n, p);
    MulOrder(h + 1, high, n * p);
  }

  lemma SpanFits(q: Request, o: seq<nat>)
    requires Stop(q, o)
    ensures Ravel(o, q.counts) + Span(q, o) <= q.End()
    ensures Span(q, o) > 0
    ensures OnesAbove(q, Pivot(q)) && o[Pivot(q)] + Piece(q, o) == q.counts[Pivot(q)] ==> Last(q, o)
  {
    hide Pivot, Piece, Prod, Ravel, BaseAt;
    var m, l := Pivot(q), Piece(q, o);
    var n, p, h := q.counts[m], Prod(q.counts[m + 1..]), Ravel(o[..m], q.counts[..m]);
    RavelAt(o, q.counts, m);
    RavelZero(o[m + 1..], q.counts[m + 1..]);
    RavelBound(o[..m], q.counts[..m]);
    ProdSplit(q.counts, m);
    ProdStep(q.counts, m);
    ProdPositive(q.counts[m + 1..]);
    SpanArith(h, Prod(q.counts[..m]), n, p, o[m], l);
    if OnesAbove(q, m) {
      ProdOnes(q.counts[..m]);
    }
  }

  // The second loop adds the left-over carry, modulo the size of the request.
  lemma {:induction false} RippleValue(q: Request, coords: seq<nat>, i: nat, carry: nat)
    requires q.Valid() && InBox(coords, q.counts) && i <= |coords| && q.End() > 0
    ensures InBox(Ripple(coords, q.counts, i, carry), q.counts)
    ensures Ravel(Ripple(coords, q.counts, i, carry), q.counts)
         == (Ravel(coords, q.counts) + carry * Prod(q.counts[i..])) % q.End()
    decreases i
  {
    hide Ravel, Prod;
    RavelBound(coords, q.counts);
    if i == 0 {
      assert q.counts[0..] == q.counts;
      DivModUnique(Ravel(coords, q.counts) + carry * q.End(), q.End(), carry, Ravel(coords, q.counts));
    } else {
      var k, v := i - 1, coords[i - 1] + carry;
      var r := coords[k := q.Digit(k, v)];
      DigitStep(q, coords, k, v);
      DigitBox(q, coords, k, v);
      if q.Carry(k, v) == 0 {
        RavelBound(r, q.counts);
        DivModUnique(Ravel(r, q.counts), q.End(), 0, Ravel(r, q.counts));
      } else {
        RippleValue(q, r, k, q.Carry(k, v));
      }
    }
  }

  // A pass that takes l more layers, without a carry into the dimension overflowing it.
  lemma VisitPartly(q: Request, base: seq<nat>, s: Sweep, k: nat, l: nat)
    requires Ready(q, base, s) && s.ok && s.left == k + 1 && !q.Thin(base, k)
    requires var v := s.coords[k] + s.carry; v < q.counts[k] && v + l == Min(q.counts[k], q.Limit(base, k))
    requires s.offset + l * q.Stride(k) <= q.End()
    ensures var v, d := s.coords[k] + s.carry + l, l * q.Stride(k);
            Visit(q, base, s) ==
            (Sweep(s.coords[k := q.Digit(k, v)], s.offset + d, s.advance + d, q.Carry(k, v), k, true),
             q.indices[k] == base[k] && q.counts[k] == q.Limit(base, k) && s.offset + d < q.End())
  {
    var v := s.coords[k] + s.carry;
    EndFits(q);
    CountFits(q, k);
    DivModUnique(v, q.counts[k], 0, v);
    QuotBelow(v + l, q.counts[k]);
  }

  lemma VisitLeaving(q: Request, base: seq<nat>, s: Sweep, v: nat)
    requires Ready(q, base, s) && s.ok && s.offset < q.End() && s.left > 0
    requires !q.Thin(base, s.left - 1) && v == s.coords[s.left - 1] + s.carry
    requires v == q.Limit(base, s.left - 1) && v < q.counts[s.left - 1]
    ensures q.Digit(s.left - 1, v) == v && q.Carry(s.left - 1, v) == 0
    ensures Visit(q, base, s) == (Sweep(s.coords[s.left - 1 := v], s.offset, s.advance, 0, s.left - 1, true), false)
  {
    hide Visit;
    DivModUnique(v, q.counts[s.left - 1], 0, v);
    VisitPartly(q, base, s, s.left - 1, 0);
  }

  // Above a thin chunk, a clear pass moves the carry up and delivers nothing.
  lemma {:induction false} Climb(q: Request, base: seq<nat>, s: Sweep)
    requires Ready(q, base, s) && s.ok && s.offset < q.End() && InBox(s.coords, q.counts) && Value(q, s) < q.End()
    requires PassClear(q, base, s.coords, s.left, s.carry)
    ensures var r := Descend(q, base, s);
            && r.ok && r.offset == s.offset && r.advance == s.advance
            && InBox(r.coords, q.counts) && Value(q, r) == Value(q, s)
    decreases s.left
  {
    hide Ravel, Prod;
    if s.left > 0 {
      var k := s.left - 1;
      var v := s.coords[k] + s.carry;
      DigitStep(q, s.coords, k, v);
      DigitBox(q, s.coords, k, v);
      SumFits(q, s.coords, k, s.carry);
      if q.Thin(base, k) {
        var t := Sweep(s.coords[k := q.Digit(k, v)], s.offset, s.advance, q.Carry(k, v), k, true);
        assert Visit(q, base, s) == (t, true);
        hide Visit;
        Climb(q, base, t);
      } else {
        hide Visit;
        VisitLeaving(q, base, s, v);
      }
    }
  }

  lemma {:induction false} CarryOutPositive(q: Request, k: nat)
    requires q.Valid() && k < |q.shape|
    ensures CarryOut(q, k) > 0
    decreases |q.shape| - k
  {
    if k + 1 < |q.shape| {
      CarryOutPositive(q, k + 1);
    } else {
      assert q.chunkShape[k + 1..] == [];
    }
    hide Prod;
  }

  // A stop that is not the last has a pivot that is not whole.
  lemma PivotOpen(q: Request, o: seq<nat>)
    requires Stop(q, o) && !Last(q, o)
    ensures !Whole(q, Pivot(q))
    ensures !(q.indices[Pivot(q)] == BaseAt(q, o)[Pivot(q)] && q.counts[Pivot(q)] == q.Limit(BaseAt(q, o), Pivot(q)))
  {
    var m := Pivot(q);
    BaseFacts(q, o);
    SpanFits(q, o);
    if Whole(q, m) {
      WholeFacts(q, o, m);
    }
  }

  // The loop state after the pivot, when exactly the span has been taken.
  ghost function Landed(q: Request, o: seq<nat>): Sweep
    requires At(q, o)
  {
    var m := Pivot(q);
    var to := o[m] + Piece(q, o);
    Sweep(o[m := q.Digit(m, to)], Ravel(o, q.counts) + Span(q, o), Span(q, o), q.Carry(m, to), m, true)
  }

  ghost predicate ThickGuard(q: Request, o: seq<nat>)
    requires At(q, o)
  {
    var m, carry := Pivot(q), CarryOut(q, Pivot(q) + 1);
    && !q.Thin(BaseAt(q, o), m)
    && carry <= Piece(q, o) && o[m] + carry < q.counts[m]
    && (carry < Piece(q, o) ==> q.Stride(m) == Prod(q.counts[m + 1..]))
  }

  lemma LandThick(q: Request, o: seq<nat>)
    requires Stop(q, o) && Ready(q, BaseAt(q, o), Passed(q, o, Pivot(q) + 1))
    requires ThickGuard(q, o)
    ensures Visit(q, BaseAt(q, o), Passed(q, o, Pivot(q) + 1)) == (Landed(q, o), false)
  {
    hide Ravel, Prod, CarryOut, Pivot, BaseAt, Whole, Visit;
    var m, base := Pivot(q), BaseAt(q, o);
    var carry, l, p := CarryOut(q, m + 1), Piece(q, o), Prod(q.counts[m + 1..]);
    SpanFits(q, o);
    if !Last(q, o) { PivotOpen(q, o); }
    assert carry * p + (l - carry) * p == l * p;
    assert (l - carry) * q.Stride(m) == (l - carry) * p by {
      if carry < l { assert q.Stride(m) == p; }
    }
    VisitPartly(q, base, Passed(q, o, m + 1), m, l - carry);
  }

  lemma LandThin(q: Request, o: seq<nat>)
    requires Stop(q, o) && q.Thin(BaseAt(q, o), Pivot(q))
    ensures Piece(q, o) == 1 && CarryOut(q, Pivot(q) + 1) >= 1
    ensures CarryOut(q, Pivot(q) + 1) == 1 ==> Passed(q, o, Pivot(q) + 1).advance == Span(q, o)
  {
    var m := Pivot(q);
    BaseFacts(q, o);
    if m + 1 < |o| {
      CarryOutPositive(q, m + 1);
    }
  }

  lemma {:induction false} SuffixMultiple(s: seq<nat>, i: nat, k: nat)
    requires i <= k <= |s|
    ensures Prod(s[i..]) == Prod(s[i..k]) * Prod(s[k..])
  {
    ProdSplit(s[i..], k - i);
    assert s[i..][..k - i] == s[i..k] && s[i..][k - i..] == s[k..];
  }

  lemma MultipleArith(carry: nat, n: nat, p: nat, w: nat)
    requires n > 0 && carry * p < w * (n * p)
    ensures (carry / n + 1) * (n * p) <= w * (n * p)
    ensures carry * (n * p) == (carry * n) * p
    ensures n == 1 ==> carry * (n * p) <= w * (n * p)
  {
    MulAssoc(w, n, p);
    MulOrder(w * n, carry, p);
    assert carry == carry / n * n + carry % n;
    MulOrder(w, carry / n, n);
    MulOrder(carry / n + 1, w, n * p);
    MulAssoc(carry, n, p);
  }

  // Before the pivot the advance never jumps over the span.
  lemma LandOnSpan(q: Request, o: seq<nat>, k: nat)
    requires Stop(q, o) && Pivot(q) < k < |o|
    requires Passed(q, o, k + 1).advance < Span(q, o)
    ensures Passed(q, o, k).advance <= Span(q, o)
  {
    hide Ravel, Prod, Pivot, Piece, BaseAt;
    var m, n, carry, p := Pivot(q), q.counts[k], CarryOut(q, k + 1), Prod(q.counts[k + 1..]);
    var w := Piece(q, o) * Prod(q.counts[m + 1..k]);
    ProdStep(q.counts, k);
    SuffixMultiple(q.counts, m + 1, k);
    MulAssoc(Piece(q, o), Prod(q.counts[m + 1..k]), n * p);
    MultipleArith(carry, n, p, w);
  }

  lemma ContiguousBelow(q: Request, o: seq<nat>)
    requires At(q, o) && Contiguous(Extent(q, o), q.chunkShape)
    ensures forall j :: Pivot(q) < j < |o| && q.counts[j] > 1 ==> q.counts[j + 1..] == q.chunkShape[j + 1..]
    ensures Piece(q, o) > 1 ==> q.counts[Pivot(q) + 1..] == q.chunkShape[Pivot(q) + 1..]
  {
    var m, e := Pivot(q), Extent(q, o);
    forall j | m <= j < |o| && e[j] > 1 ensures q.counts[j + 1..] == q.chunkShape[j + 1..] {
      forall i | j < i < |o| ensures q.counts[i] == q.chunkShape[i] {
        assert e[i] == q.chunkShape[i];
      }
    }
    assert e[m] == Piece(q, o);
    forall j | m < j < |o| ensures e[j] == q.counts[j] {}
  }

  // A clear stop never takes more than the span before the pivot.
  lemma EarlyClear(q: Request, o: seq<nat>, k: nat)
    requires Stop(q, o) && Clear(q, o) && Pivot(q) < k <= |o|
    requires k == |o| || Passed(q, o, k + 1).offset < q.End()
    ensures Passed(q, o, k).advance <= Span(q, o)
  {
    hide Ravel, Prod, Pivot, BaseAt, Visit, Piece;
    var m := Pivot(q);
    SpanFits(q, o);
    if Last(q, o) {
      if k < |o| {
        LandOnSpan(q, o, k);
      }
    } else {
      if q.Thin(BaseAt(q, o), m) {
        LandThin(q, o);
      }
      hide CarryOut;
      CarryOutMonotoneTo(q, o, m + 1, k);
      MulOrder(CarryOut(q, m + 1), Piece(q, o), Prod(q.counts[m + 1..]));
    }
  }

  lemma ThickClear(q: Request, o: seq<nat>)
    requires Stop(q, o) && Clear(q, o) && !q.Thin(BaseAt(q, o), Pivot(q))
    requires Passed(q, o, Pivot(q) + 1).offset < q.End()
    ensures ThickGuard(q, o)
  {
    hide Ravel, Prod, Pivot, BaseAt, Visit, Piece;
    var m := Pivot(q);
    SpanFits(q, o);
    ContiguousBelow(q, o);
    var carry, l, p := CarryOut(q, m + 1), Piece(q, o), Prod(q.counts[m + 1..]);
    if Last(q, o) {
      MulOrder(l, carry, p);
    }
    if carry < l {
      if l == 1 && m + 1 < |o| {
        CarryOutPositive(q, m + 1);
      }
      assert m + 1 == |o| ==> q.counts[m + 1..] == q.chunkShape[m + 1..] == [];
    }
  }

  // Exactly the span was taken, and the state stands for the next position.
  ghost predicate Taken(q: Request, o: seq<nat>, r: Sweep)
    requires At(q, o) && |r.coords| == |o| && r.left <= |o|
  {
    && r.ok && r.advance == Span(q, o) && r.offset == Ravel(o, q.counts) + Span(q, o)
    && InBox(r.coords, q.counts) && Value(q, r) == r.offset
  }

  lemma ArriveThin(q: Request, o: seq<nat>)
    requires Stop(q, o) && Clear(q, o) && q.Thin(BaseAt(q, o), Pivot(q))
    requires Passed(q, o, Pivot(q) + 1).offset < q.End()
    requires Ready(q, BaseAt(q, o), Passed(q, o, Pivot(q) + 1))
    ensures Taken(q, o, Descend(q, BaseAt(q, o), Passed(q, o, Pivot(q) + 1)))
  {
    hide Ravel, Prod, Pivot, BaseAt, Piece, CarryOut;
    var m, base, s := Pivot(q), BaseAt(q, o), Passed(q, o, Pivot(q) + 1);
    var v := o[m] + s.carry;
    LandThin(q, o);
    SpanFits(q, o);
    MulOrder(1, s.carry, Prod(q.counts[m + 1..]));
    assert s.carry == 1;
    DigitStep(q, o, m, v);
    DigitBox(q, o, m, v);
    SumFits(q, o, m, s.carry);
    var t := Sweep(o[m := q.Digit(m, v)], s.offset, s.advance, q.Carry(m, v), m, true);
    assert Visit(q, base, s) == (t, true);
    hide Visit, PassClear;
    Climb(q, base, t);
  }

  // The loop from the pivot on.
  lemma ArriveClear(q: Request, o: seq<nat>)
    requires Stop(q, o) && Clear(q, o) && Ready(q, BaseAt(q, o), Passed(q, o, Pivot(q) + 1))
    requires Passed(q, o, Pivot(q) + 1).offset < q.End()
    ensures Taken(q, o, Descend(q, BaseAt(q, o), Passed(q, o, Pivot(q) + 1)))
  {
    hide Ravel, Prod, Pivot, BaseAt, Piece, CarryOut, Visit, PassClear;
    if q.Thin(BaseAt(q, o), Pivot(q)) {
      ArriveThin(q, o);
    } else {
      ThickClear(q, o);
      LandThick(q, o);
      DigitStep(q, o, Pivot(q), o[Pivot(q)] + Piece(q, o));
      DigitBox(q, o, Pivot(q), o[Pivot(q)] + Piece(q, o));
    }
  }

  lemma LoopClear(q: Request, o: seq<nat>)
    requires Stop(q, o) && Clear(q, o)
    ensures Ready(q, BaseAt(q, o), Start(q, o))
    ensures Taken(q, o, Descend(q, BaseAt(q, o), Start(q, o)))
  {
    hide Ravel, Prod, CarryOut, Pivot, BaseAt, Whole, Visit, Piece, Guarded;
    var m := Pivot(q);
    ContiguousBelow(q, o);
    var k := ReachDimension(q, o, m + 1);
    SpanFits(q, o);
    EndFits(q);
    if Passed(q, o, k).offset < q.End() {
      ArriveClear(q, o);
    } else {
      EarlyClear(q, o, k);
    }
  }
}
