// A request that is read correctly only because a difference wraps around.
module WrappedRequests {
  import opened Radix
  import opened Slicing
  import opened Stops
  import opened Delivery
  import opened SlicerTheorem
  import opened Wrapping
  import opened WrapSums
  import opened WrapSteps
  import opened WrapExactness
  import opened IrregularRequests

  // Below the first dimension, two of size 1 add a carry each.
  const GIVEBACK := Request([12, 1, 1], [4, 1, 1], [3, 0, 0], [9, 1, 1])

  lemma GivebackValid()
    ensures Array(GIVEBACK) && GIVEBACK.End() == 9 && Roomy(GIVEBACK)
  {
    hide Prod;
    Prod3(12, 1, 1);
    Prod3(9, 1, 1);
    assert Padded(GIVEBACK.shape, GIVEBACK.chunkShape) == [12, 1, 1];
    assert GIVEBACK.counts == [9, 1, 1];
  }

  lemma GivebackStrides()
    ensures GIVEBACK.Stride(0) == 1 && GIVEBACK.Stride(1) == 1 && GIVEBACK.Stride(2) == 1
  {
    hide Prod;
    Strides3(GIVEBACK);
  }

  lemma GivebackPivot()
    requires Array(GIVEBACK)
    ensures Pivot(GIVEBACK) == 0
  {
    hide Prod;
    var q := GIVEBACK;
    assert q.counts[0] == 9 && q.counts[1] == 1 && q.counts[2] == 1;
    assert q.indices[1] == 0 && q.indices[2] == 0 && q.chunkShape[1] == 1 && q.chunkShape[2] == 1 &&
           q.shape[1] == 1 && q.shape[2] == 1;
    assert Whole(q, 1) && Whole(q, 2) && !OnesAbove(q, 1) && !OnesAbove(q, 2);
  }

  lemma GivebackCarry()
    requires Array(GIVEBACK)
    ensures CarryOut(GIVEBACK, 1) == 2
  {
    hide Prod;
    GivebackStrides();
    var q := GIVEBACK;
    assert q.counts[1] == 1 && q.counts[2] == 1;
    assert CarryOut(q, 3) == 0;
    assert CarryOut(q, 2) == 1;
  }

  lemma GivebackContiguous(o: seq<nat>)
    requires Stop(GIVEBACK, o) && Pivot(GIVEBACK) == 0
    ensures Contiguous(Extent(GIVEBACK, o), GIVEBACK.chunkShape)
    ensures GIVEBACK.Stride(0) == Prod(GIVEBACK.counts[1..])
  {
    hide Prod, Ravel, Piece, Pivot;
    GivebackStrides();
    Prod2(1, 1);
    assert GIVEBACK.counts[1..] == [1, 1];
    var e := Extent(GIVEBACK, o);
    assert e[1] == 1 && e[2] == 1;
  }

  // Every stop is clear when differences wrap around.
  lemma GivebackClear(o: seq<nat>)
    requires Stop(GIVEBACK, o) && Pivot(GIVEBACK) == 0 && CarryOut(GIVEBACK, 1) == 2
    ensures WrapClear(GIVEBACK, o)
  {
    hide Prod, Ravel, CarryOut, Pivot, Contiguous, Extent, Piece, Last;
    GivebackContiguous(o);
    GivebackStrides();
    assert GIVEBACK.counts[0] == 9 && GIVEBACK.indices[0] == 3 && GIVEBACK.chunkShape[0] == 4;
    assert o[0] < 7;
  }

  // The first is not, when they fail.
  lemma GivebackFails(o: seq<nat>)
    requires Stop(GIVEBACK, o) && Pivot(GIVEBACK) == 0 && CarryOut(GIVEBACK, 1) == 2 && o[0] == 0
    requires Ravel(o, GIVEBACK.counts) == 0
    ensures !Clear(GIVEBACK, o)
  {
    hide Prod, Ravel, CarryOut, Pivot, Contiguous, Extent;
    GivebackValid();
    GivebackContiguous(o);
    GivebackStrides();
    BaseFacts(GIVEBACK, o);
    assert GIVEBACK.counts[0] == 9 && GIVEBACK.indices[0] == 3 && GIVEBACK.chunkShape[0] == 4 &&
           GIVEBACK.shape[0] == 12;
  }

  // With overflow checks the first call fails: 2 layers are taken where the chunk has 1 left, and
  // the difference is negative. Without them the second layer is given back.
  lemma GivebackWraps()
    ensures GIVEBACK.Valid() && !Regular(GIVEBACK)
    ensures !Correct(GIVEBACK, RunFrom(GIVEBACK, Origin(GIVEBACK)), 0, GIVEBACK.End())
    ensures WrapRegular(GIVEBACK) && Correct(GIVEBACK, WrapRun(GIVEBACK, Origin(GIVEBACK)), 0, GIVEBACK.End())
  {
    hide Prod, RunFrom, WrapRun, Reads, CarryOut, Pivot, Ravel, Clear, WrapClear;
    GivebackValid();
    GivebackPivot();
    GivebackCarry();
    var q := GIVEBACK;
    OriginStop(q);
    GivebackFails(Origin(q).coords);
    forall o | Stop(q, o) ensures WrapClear(q, o) {
      GivebackClear(o);
    }
    SlicerExact(q);
    WrapSufficient(q);
  }
}
