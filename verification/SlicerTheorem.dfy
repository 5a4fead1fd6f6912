// The slicer reads a request in row-major order exactly when the request is regular.
module SlicerTheorem {
  import opened Radix
  import opened Slicing
  import opened Stops
  import opened StopProofs
  import opened Delivery
  import opened Exactness

  lemma OriginStop(q: Request)
    requires Array(q)
    ensures Stop(q, Origin(q).coords) && Ravel(Origin(q).coords, q.counts) == 0
    ensures CursorAt(q, Origin(q).coords) == Origin(q)
  {
    RavelZero(Origin(q).coords, q.counts);
  }

  lemma ScalarRun(q: Request)
    requires q.Valid() && q.shape == []
    ensures Correct(q, RunFrom(q, Origin(q)), 0, q.End())
  {
    var r, rest := RunFrom(q, Origin(q)), RunFrom(q, Cursor(1, []));
    var base := BaseAt(q, []);
    assert Origin(q) == Cursor(0, []);
    assert base == [] && r == Run([Segment([], 0, 1)] + rest.segments, true);
    assert Stored(q, [], 0) == Asked(q, 0) == [];
    assert Covered(q, [], 0, 1) == Wanted(q, 0, 1);
    assert r.segments[1..] == [];
  }

  lemma RegularCorrect(q: Request)
    requires Array(q) && Regular(q)
    ensures Correct(q, RunFrom(q, Origin(q)), 0, q.End())
  {
    hide Stop, Clear, Prod, Ravel, RunFrom, Pivot, Reads, CursorAt, Regular;
    OriginStop(q);
    RunRegular(q, Origin(q).coords);
  }

  lemma CorrectClear(q: Request, x: seq<nat>)
    requires Array(q) && Correct(q, RunFrom(q, Origin(q)), 0, q.End()) && Stop(q, x)
    ensures Clear(q, x)
  {
    hide Stop, Clear, Prod, Ravel, RunFrom, Pivot, Reads, CursorAt, Regular;
    OriginStop(q);
    RightRegular(q, Origin(q).coords, x);
  }

  // A run reads the request in row-major order exactly when the request is regular.
  lemma SlicerExact(q: Request)
    requires q.Valid()
    ensures Correct(q, RunFrom(q, Origin(q)), 0, q.End()) <==> Regular(q)
  {
    hide Clear, Prod, RunFrom, Correct, Pivot, BaseAt;
    if q.shape == [] {
      ScalarRun(q);
    } else if Regular(q) {
      RegularCorrect(q);
    } else if Correct(q, RunFrom(q, Origin(q)), 0, q.End()) {
      forall x | Stop(q, x) ensures Clear(q, x) {
        CorrectClear(q, x);
      }
    }
  }

  // A request that ends a segment in its last dimension is always regular.
  lemma InnerRegular(q: Request)
    requires Array(q) && Pivot(q) == |q.shape| - 1
    ensures Regular(q)
  {
    hide Ravel, BaseAt, Piece;
    forall o | Stop(q, o) ensures Clear(q, o) {
      var m := Pivot(q);
      assert q.chunkShape[m + 1..] == [];
      assert CarryOut(q, m + 1) == 0;
    }
  }

  lemma {:induction false} CarryOutOne(q: Request, k: nat)
    requires Array(q) && q.chunkShape[|q.shape| - 1] > 1 && k < |q.shape|
    ensures CarryOut(q, k) == 1
    decreases |q.shape| - k
  {
    if k + 1 < |q.shape| {
      CarryOutOne(q, k + 1);
      StrideAbove(q, k, |q.shape| - 1);
      if q.counts[k] > 1 { DivModUnique(1, q.counts[k], 0, 1); }
    } else {
      assert q.chunkShape[k + 1..] == [];
      DivModUnique(0, q.counts[k], 0, 0);
    }
  }

  // The number of layers taken from the last chunk along dimension k.
  ghost function LastPiece(q: Request, k: nat): int
    requires q.Valid() && k < |q.shape|
  {
    Min(q.counts[k], (q.indices[k] + q.counts[k] - 1) % q.chunkShape[k] + 1)
  }

  ghost predicate QuickAt(q: Request, p: int)
    requires q.Valid() && -1 <= p < |q.shape| - 1
  {
    && q.chunkShape[|q.shape| - 1] > 1
    && (p >= 0 ==> !Whole(q, p))
    && (forall k :: p < k < |q.shape| ==> Whole(q, k) && (k > 0 ==> q.counts[k] == q.chunkShape[k]))
    && (p <= 0 || LastPiece(q, p) > 1 || forall j :: 0 <= j <= p ==> q.chunkShape[j] == 1)
  }

  lemma UnclippedContiguous(q: Request, o: seq<nat>)
    requires At(q, o) && forall k :: Pivot(q) < k < |o| ==> q.counts[k] == q.chunkShape[k]
    ensures Contiguous(Extent(q, o), q.chunkShape)
  {
    hide Piece;
  }

  lemma WholeLast(q: Request, o: seq<nat>)
    requires Stop(q, o) && Whole(q, Pivot(q))
    ensures Last(q, o)
  {
    WholeFacts(q, o, Pivot(q));
    SpanFits(q, o);
  }

  lemma {:induction false} ThinPass(q: Request, base: seq<nat>, coords: seq<nat>, i: nat, carry: nat)
    requires Array(q) && |base| == |coords| == |q.shape| && i <= |coords|
    requires forall j :: 0 <= j < i ==> q.Thin(base, j)
    ensures PassClear(q, base, coords, i, carry)
    decreases i
  {
    if i > 0 {
      var v := coords[i - 1] + carry;
      ThinPass(q, base, coords[i - 1 := q.Digit(i - 1, v)], i - 1, q.Carry(i - 1, v));
    }
  }

  lemma UnitGuarded(q: Request, o: seq<nat>)
    requires Stop(q, o) && CarryOut(q, Pivot(q) + 1) == 1 && q.chunkShape[|q.shape| - 1] > 1 && Pivot(q) < |q.shape| - 1
    requires forall j :: 0 <= j <= Pivot(q) ==> q.chunkShape[j] == 1
    ensures Guarded(q, o)
  {
    hide Prod, Ravel, BaseAt, Pivot, CarryOut;
    var m, base := Pivot(q), BaseAt(q, o);
    BaseFacts(q, o);
    forall j | 0 <= j <= m ensures q.Thin(base, j) {
      StrideAbove(q, j, |q.shape| - 1);
    }
    ThinPass(q, base, o[m := q.Digit(m, o[m] + 1)], m, q.Carry(m, o[m] + 1));
  }

  // At the outermost dimension there is nothing above to pass.
  lemma OuterGuarded(q: Request, o: seq<nat>)
    requires Stop(q, o) && !Last(q, o) && Pivot(q) == 0 && CarryOut(q, 1) == 1
    ensures Guarded(q, o)
  {
    hide Prod, Ravel, BaseAt;
    SpanFits(q, o);
  }

  lemma ThickLastGuarded(q: Request, o: seq<nat>)
    requires Stop(q, o) && CarryOut(q, Pivot(q) + 1) == 1 && LastPiece(q, Pivot(q)) > 1
    ensures Guarded(q, o)
  {
    hide Prod, Ravel;
    var m, base := Pivot(q), BaseAt(q, o);
    BaseFacts(q, o);
    PieceFacts(q, o);
  }

  lemma QuickStop(q: Request, p: int, o: seq<nat>)
    requires Array(q) && -1 <= p < |q.shape| - 1 && QuickAt(q, p) && Stop(q, o) && Pivot(q) < |q.shape| - 1
    ensures Clear(q, o)
  {
    hide Prod, Ravel, BaseAt, Piece, Guarded, CarryOut, PassClear;
    var m := Pivot(q);
    assert m >= p;
    UnclippedContiguous(q, o);
    if m > p {
      WholeLast(q, o);
    } else if !Last(q, o) {
      CarryOutOne(q, m + 1);
      if m == 0 {
        OuterGuarded(q, o);
      } else if LastPiece(q, m) > 1 {
        ThickLastGuarded(q, o);
      } else {
        UnitGuarded(q, o);
      }
    }
  }

  lemma PlaneStop(q: Request, o: seq<nat>)
    requires |q.shape| == 2 && Stop(q, o) && Pivot(q) == 0 && q.counts[1] == q.chunkShape[1]
    ensures Clear(q, o)
  {
    UnclippedContiguous(q, o);
    if !Last(q, o) {
      assert q.Stride(1) == 1;
      DivModUnique(0, q.counts[1], 0, 0);
      assert CarryOut(q, 1) == 1;
      OuterGuarded(q, o);
    }
  }

  // A test without a search over stops: the request has one dimension, or ends its segments in the
  // last one, or reads all dimensions behind p in whole, unclipped chunks.
  lemma QuickRegular(q: Request, p: int)
    requires q.Valid() && -1 <= p
    requires
      var d := |q.shape|;
      || d <= 1
      || q.indices[d - 1] % q.chunkShape[d - 1] != 0
      || q.counts[d - 1] != Min(q.chunkShape[d - 1], q.shape[d - 1] - q.indices[d - 1])
      || (d == 2 && q.counts[1] == q.chunkShape[1])
      || (&& p < d - 1 && q.chunkShape[d - 1] > 1
          && (p >= 0 ==> !Whole(q, p))
          && (forall k :: p < k < d ==> Whole(q, k) && (k > 0 ==> q.counts[k] == q.chunkShape[k]))
          && (|| p <= 0
              || (q.counts[p] > 1 && (q.indices[p] + q.counts[p] - 1) % q.chunkShape[p] > 0)
              || forall j :: 0 <= j <= p ==> q.chunkShape[j] == 1))
    ensures Regular(q)
  {
    hide Clear, CarryOut;
    var d := |q.shape|;
    if d > 0 && Pivot(q) == d - 1 {
      InnerRegular(q);
    } else if d > 0 {
      forall o | Stop(q, o) ensures Clear(q, o) {
        if d == 2 && q.counts[1] == q.chunkShape[1] {
          PlaneStop(q, o);
        } else {
          QuickStop(q, p, o);
        }
      }
    }
  }
}
