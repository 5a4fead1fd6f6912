// Full reads of datasets whose chunks are whole outermost layers: no chunk is split.
module WholeReads {
  import opened Radix
  import opened Slicing
  import opened Chunks
  import opened Datasets
  import opened Stops
  import opened StopProofs
  import opened Delivery
  import opened Exactness
  import opened SlicerTheorem
  import opened Builds
  import opened Slicers

  ghost function FullRequest(ds: Dataset): Request {
    RequestOf(ds, seq(|ds.shape|, _ => 0), ds.shape)
  }

  // Chunk shape 1, .., 1, c, then the full sizes.
  ghost predicate Layered(ds: Dataset, m: nat) {
    && m < |ds.shape| == |ds.chunkShape|
    && (forall k :: 0 <= k < m ==> ds.chunkShape[k] == 1)
    && (forall k :: m < k < |ds.shape| ==> ds.chunkShape[k] == ds.shape[k])
  }

  ghost predicate FullRead(ds: Dataset, m: nat) {
    Datasets.Valid(ds) && Positive(ds.shape) && Layered(ds, m) && Array(FullRequest(ds))
  }

  lemma FullFacts(ds: Dataset, m: nat)
    requires Datasets.Valid(ds) && Positive(ds.shape) && Layered(ds, m)
    ensures FullRead(ds, m)
  {
    hide Prod;
  }

  // The number of values of chunk i, cut off at the end of the dataset.
  ghost function ClippedVolume(ds: Dataset, i: nat): nat
    requires Datasets.Valid(ds) && i < |ds.chunks|
  {
    Prod(seq(|ds.shape|, k requires 0 <= k < |ds.shape| =>
      if ds.chunks[i].offset[k] + ds.chunkShape[k] > ds.shape[k] then ds.shape[k] - ds.chunks[i].offset[k]
        else ds.chunkShape[k]))
  }

  // Below dimension m every dimension is covered by one chunk.
  lemma FullWhole(ds: Dataset, m: nat, k: nat)
    requires FullRead(ds, m) && m < k < |ds.shape|
    ensures Whole(FullRequest(ds), k)
  {
    hide Prod;
  }

  lemma StopAligned(ds: Dataset, m: nat, o: seq<nat>, k: nat)
    requires FullRead(ds, m) && Stop(FullRequest(ds), o) && k < |o|
    ensures o[k] % ds.chunkShape[k] == 0
  {
    hide Prod, Datasets.Valid;
    var q, p := FullRequest(ds), Pivot(FullRequest(ds));
    if k > p || o[k] == 0 {
      DivModUnique(0, ds.chunkShape[k], 0, 0);
    } else if m <= k < p {
      if p > m { FullWhole(ds, m, p); }
    }
  }

  // A stop of the full read begins a chunk.
  lemma StopBegins(ds: Dataset, m: nat, o: seq<nat>)
    requires FullRead(ds, m) && Stop(FullRequest(ds), o)
    ensures BaseAt(FullRequest(ds), o) == o
    ensures forall k :: 0 <= k < |o| ==> Local(FullRequest(ds), o)[k] == 0
  {
    hide Prod, Datasets.Valid, Pivot, BaseAt;
    var q := FullRequest(ds);
    BaseFacts(q, o);
    forall k | 0 <= k < |o| ensures Local(q, o)[k] == 0 && BaseAt(q, o)[k] == o[k] {
      StopAligned(ds, m, o, k);
      assert Plus(BaseAt(q, o), Local(q, o))[k] == q.indices[k] + o[k];
    }
  }

  // The offset of every chunk is a stop of the full read.
  lemma ChunkStop(ds: Dataset, m: nat, i: nat)
    requires FullRead(ds, m) && i < |ds.chunks|
    ensures Stop(FullRequest(ds), ds.chunks[i].offset)
  {
    hide Prod;
    var q, o := FullRequest(ds), ds.chunks[i].offset;
    assert OnGrid(ds.chunks[i], ds.shape, ds.chunkShape);
    forall k | Pivot(q) < k < |o| ensures o[k] == 0 {
      assert Whole(q, k);
      DivModUnique(o[k], ds.chunkShape[k], 0, o[k]);
    }
  }

  // Chunks later in the list begin later in the row-major order of the dataset.
  lemma ChunkOrder(ds: Dataset, m: nat, i: nat, j: nat)
    requires FullRead(ds, m) && i < j < |ds.chunks|
    ensures InBox(ds.chunks[i].offset, ds.shape) && InBox(ds.chunks[j].offset, ds.shape)
    ensures Ravel(ds.chunks[i].offset, ds.shape) < Ravel(ds.chunks[j].offset, ds.shape)
  {
    hide Prod, Ravel;
    assert OnGrid(ds.chunks[i], ds.shape, ds.chunkShape) && OnGrid(ds.chunks[j], ds.shape, ds.chunkShape);
    CompareRavel(ds.chunks[i].offset, ds.chunks[j].offset, ds.shape);
  }

  // Every stop is the offset of a chunk.
  lemma StopChunk(ds: Dataset, m: nat, o: seq<nat>) returns (i: nat)
    requires FullRead(ds, m) && Stop(FullRequest(ds), o)
    ensures i < |ds.chunks| && ds.chunks[i].offset == o && ChunkFor(ds, FullRequest(ds), o) == ds.chunks[i]
  {
    hide Prod, ChunkAtCoord, BaseAt;
    var q := FullRequest(ds);
    StopBegins(ds, m, o);
    ChunkForBase(ds, q, o);
    var c := ChunkAtCoord(ds, Plus(q.indices, o));
    i :| 0 <= i < |ds.chunks| && ds.chunks[i] == c;
  }

  lemma PivotFull(ds: Dataset, m: nat)
    requires FullRead(ds, m)
    ensures Pivot(FullRequest(ds)) <= m || OnesAbove(FullRequest(ds), Pivot(FullRequest(ds)))
  {
    hide Prod;
    if Pivot(FullRequest(ds)) > m {
      FullWhole(ds, m, Pivot(FullRequest(ds)));
    }
  }

  // The extent of a stop, along dimension k, is that of the clipped chunk.
  lemma ExtentDepth(ds: Dataset, m: nat, o: seq<nat>, k: nat)
    requires FullRead(ds, m) && Stop(FullRequest(ds), o) && k < |o|
    ensures Extent(FullRequest(ds), o)[k] == FullRequest(ds).Depth(BaseAt(FullRequest(ds), o), k)
  {
    hide Prod, BaseAt, Datasets.Valid, Piece;
    var q, p := FullRequest(ds), Pivot(FullRequest(ds));
    StopBegins(ds, m, o);
    BaseFacts(q, o);
    if k > p {
      WholeFacts(q, o, k);
    } else if k == p {
      PieceFacts(q, o);
    } else if m <= k {
      PivotFull(ds, m);
    }
  }

  // A call at a chunk takes the whole clipped chunk.
  lemma ChunkSpan(ds: Dataset, m: nat, i: nat)
    requires FullRead(ds, m) && i < |ds.chunks| && Stop(FullRequest(ds), ds.chunks[i].offset)
    ensures Span(FullRequest(ds), ds.chunks[i].offset) == ClippedVolume(ds, i)
    ensures Ravel(Local(FullRequest(ds), ds.chunks[i].offset), ds.chunkShape) == 0
  {
    hide Prod, Ravel, Pivot, Piece, BaseAt, Local, Extent, Span;
    var q, o := FullRequest(ds), ds.chunks[i].offset;
    StopBegins(ds, m, o);
    ExtentProd(q, o);
    RavelZero(Local(q, o), ds.chunkShape);
    var e, d := Extent(q, o), seq(|ds.shape|, k requires 0 <= k < |ds.shape| =>
      if o[k] + ds.chunkShape[k] > ds.shape[k] then ds.shape[k] - o[k] else ds.chunkShape[k]);
    forall k | 0 <= k < |o| ensures e[k] == d[k] {
      ExtentDepth(ds, m, o, k);
    }
    assert e == d;
  }

  // The call after chunk i is at chunk i + 1, or the read is complete.
  lemma NextChunk(ds: Dataset, m: nat, i: nat)
    requires FullRead(ds, m) && Regular(FullRequest(ds)) && i < |ds.chunks|
    ensures var q, o := FullRequest(ds), ds.chunks[i].offset;
            && Stop(q, o) && Clear(q, o)
            && var r := StepAt(q, o);
            && Stepped(q, o, r)
            && if i + 1 < |ds.chunks| then r.next.offset < q.End() && r.next.coords == ds.chunks[i + 1].offset
               else r.next.offset >= q.End()
  {
    hide Prod, Ravel, Clear, Span, Pivot, BaseAt, Next, Local, ChunkFor, Datasets.Valid;
    var q, o := FullRequest(ds), ds.chunks[i].offset;
    ChunkStop(ds, m, i);
    StepClear(q, o);
    SpanFits(q, o);
    var r := StepAt(q, o);
    if i + 1 < |ds.chunks| {
      var x := ds.chunks[i + 1].offset;
      ChunkStop(ds, m, i + 1);
      ChunkOrder(ds, m, i, i + 1);
      StopInside(q, x);
      if Ravel(x, q.counts) < Ravel(o, q.counts) + Span(q, o) {
        NoStopInside(q, o, x);
      }
    }
    if r.next.offset < q.End() {
      var j := StopChunk(ds, m, r.next.coords);
      if j <= i {
        if j < i { ChunkOrder(ds, m, j, i); }
      } else if j > i + 1 {
        ChunkOrder(ds, m, i + 1, j);
      }
    }
  }

  // From chunk i on, one slice for each chunk, in the order of the chunk list, from the chunk's start
  // to its clipped end.
  ghost predicate Unsplit(ds: Dataset, p: Plan, i: nat)
    requires Datasets.Valid(ds) && i <= |ds.chunks|
  {
    && p.ok && |p.slices| == |ds.chunks| - i
    && forall j :: 0 <= j < |p.slices| ==> p.slices[j] == Slice(ds.chunks[i + j], 0, ClippedVolume(ds, i + j))
  }

  lemma ServesAt(ds: Dataset, m: nat, o: seq<nat>)
    requires FullRead(ds, m) && Stop(FullRequest(ds), o)
    ensures Serves(ds, FullRequest(ds), o) && CursorAt(FullRequest(ds), o).offset < FullRequest(ds).End()
  {
    hide Prod, Ravel;
    StopInside(FullRequest(ds), o);
  }

  // From chunk i on, the plan is one slice for each chunk, in list order, whole.
  lemma {:induction false} PlanUnsplit(ds: Dataset, m: nat, i: nat)
    requires FullRead(ds, m) && Regular(FullRequest(ds)) && i < |ds.chunks|
    requires Stop(FullRequest(ds), ds.chunks[i].offset)
    ensures var p := PlanFrom(ds, FullRequest(ds), CursorAt(FullRequest(ds), ds.chunks[i].offset));
            Unsplit(ds, p, i)
    decreases |ds.chunks| - i
  {
    hide Prod, Ravel, Clear, Span, Pivot, BaseAt, Next, Local, ChunkFor, Datasets.Valid, ClippedVolume, Regular;
    var q, o := FullRequest(ds), ds.chunks[i].offset;
    NextChunk(ds, m, i);
    ChunkSpan(ds, m, i);
    ServesAt(ds, m, o);
    PlanStep(ds, q, CursorAt(q, o));
    NextInAgrees(ds.build, q, BaseAt(q, o), CursorAt(q, o));
    var k := StopChunk(ds, m, o);
    if k < i { ChunkOrder(ds, m, k, i); }
    if k > i { ChunkOrder(ds, m, i, k); }
    var r := StepAt(q, o);
    if i + 1 < |ds.chunks| {
      ChunkStop(ds, m, i + 1);
      PlanUnsplit(ds, m, i + 1);
      assert r.next == CursorAt(q, ds.chunks[i + 1].offset);
    }
  }

  lemma ExtentOne(ds: Dataset, m: nat, o: seq<nat>, j: nat)
    requires FullRead(ds, m) && Stop(FullRequest(ds), o) && j < m < |ds.shape|
    ensures Extent(FullRequest(ds), o)[j] == 1
  {
    hide Prod, BaseAt, Piece, Datasets.Valid;
    var q, p := FullRequest(ds), Pivot(FullRequest(ds));
    if j == p {
      StopBegins(ds, m, o);
      PieceFacts(q, o);
      BaseFacts(q, o);
    } else if j > p {
      assert Whole(q, j);
    }
  }

  // The extent of a stop is one of whole layers of the chunk.
  lemma LayersContiguous(ds: Dataset, m: nat, o: seq<nat>)
    requires FullRead(ds, m) && Stop(FullRequest(ds), o)
    ensures Contiguous(Extent(FullRequest(ds), o), ds.chunkShape)
  {
    hide Prod, Ravel, BaseAt, Piece, Pivot, Datasets.Valid;
    var q := FullRequest(ds);
    var e, p := Extent(q, o), Pivot(q);
    forall j, k | 0 <= j < k < |e| && e[j] > 1 ensures e[k] == ds.chunkShape[k] {
      if j < m { ExtentOne(ds, m, o, j); }
      PivotFull(ds, m);
    }
  }

  // The chunks of dimensions up to the pivot are one thick, but for dimension m.
  lemma PivotLayered(ds: Dataset, m: nat)
    requires FullRead(ds, m) && !Whole(FullRequest(ds), Pivot(FullRequest(ds)))
    ensures Pivot(FullRequest(ds)) <= m && forall j :: 0 <= j < Pivot(FullRequest(ds)) ==> ds.chunkShape[j] == 1
  {
    hide Prod;
    if Pivot(FullRequest(ds)) > m {
      FullWhole(ds, m, Pivot(FullRequest(ds)));
    }
  }

  lemma LayersThin(ds: Dataset, m: nat, o: seq<nat>)
    requires FullRead(ds, m) && ds.chunkShape[|ds.shape| - 1] > 1 && Stop(FullRequest(ds), o)
    requires !Whole(FullRequest(ds), Pivot(FullRequest(ds))) && Pivot(FullRequest(ds)) < |ds.shape| - 1
    ensures forall j :: 0 <= j < Pivot(FullRequest(ds)) ==> FullRequest(ds).Thin(BaseAt(FullRequest(ds), o), j)
  {
    hide Prod, BaseAt, Pivot, Datasets.Valid, Whole, Piece;
    var q := FullRequest(ds);
    PivotLayered(ds, m);
    BaseFacts(q, o);
    forall j | 0 <= j < Pivot(q) ensures q.Thin(BaseAt(q, o), j) {
      StrideAbove(q, j, |q.shape| - 1);
    }
  }

  lemma ThickPiece(ds: Dataset, m: nat, o: seq<nat>)
    requires FullRead(ds, m) && Stop(FullRequest(ds), o)
    requires FullRequest(ds).Depth(BaseAt(FullRequest(ds), o), Pivot(FullRequest(ds))) > 1
    ensures Piece(FullRequest(ds), o) > 1
  {
    hide Prod, BaseAt;
    StopBegins(ds, m, o);
    PieceFacts(FullRequest(ds), o);
    BaseFacts(FullRequest(ds), o);
  }

  lemma LayersThick(ds: Dataset, m: nat, o: seq<nat>)
    requires FullRead(ds, m) && ds.chunkShape[|ds.shape| - 1] > 1 && Stop(FullRequest(ds), o)
    requires Pivot(FullRequest(ds)) < |ds.shape| - 1
    requires !FullRequest(ds).Thin(BaseAt(FullRequest(ds), o), Pivot(FullRequest(ds)))
    ensures Piece(FullRequest(ds), o) > 1
  {
    hide Prod, BaseAt, Pivot, Datasets.Valid, Whole, Piece;
    var q := FullRequest(ds);
    BaseFacts(q, o);
    StrideAbove(q, Pivot(q), |q.shape| - 1);
    ThickPiece(ds, m, o);
  }

  lemma LayerGuarded(ds: Dataset, m: nat, o: seq<nat>)
    requires FullRead(ds, m) && ds.chunkShape[|ds.shape| - 1] > 1 && Stop(FullRequest(ds), o)
    requires Pivot(FullRequest(ds)) < |ds.shape| - 1 && !Last(FullRequest(ds), o)
    ensures Guarded(FullRequest(ds), o)
  {
    hide Prod, Ravel, BaseAt, CarryOut, PassClear, Pivot, Piece, Datasets.Valid, Last, Whole;
    var q := FullRequest(ds);
    var p, base := Pivot(q), BaseAt(q, o);
    PivotOpen(q, o);
    CarryOutOne(q, p + 1);
    if q.Thin(base, p) {
      LayersThin(ds, m, o);
      ThinPass(q, base, o[p := q.Digit(p, o[p] + 1)], p, q.Carry(p, o[p] + 1));
    } else {
      LayersThick(ds, m, o);
    }
  }

  // A full read in whole layers is regular when the chunks are more than one thick along the
  // last dimension.
  lemma LayeredRegular(ds: Dataset, m: nat)
    requires FullRead(ds, m) && ds.chunkShape[|ds.shape| - 1] > 1
    ensures Regular(FullRequest(ds))
  {
    hide Prod, Ravel, Guarded, Last, Contiguous;
    var q := FullRequest(ds);
    if Pivot(q) == |ds.shape| - 1 {
      InnerRegular(q);
    } else {
      forall o | Stop(q, o) ensures Clear(q, o) {
        LayersContiguous(ds, m, o);
        if !Last(q, o) { LayerGuarded(ds, m, o); }
      }
    }
  }

  lemma FirstChunk(ds: Dataset, m: nat)
    requires FullRead(ds, m)
    ensures |ds.chunks| > 0 && Stop(FullRequest(ds), ds.chunks[0].offset)
    ensures CursorAt(FullRequest(ds), ds.chunks[0].offset) == Origin(FullRequest(ds))
  {
    hide Prod, Ravel, Datasets.Valid, ChunkFor, Pivot, Piece, BaseAt;
    OriginStop(FullRequest(ds));
    var i := StopChunk(ds, m, Origin(FullRequest(ds)).coords);
    if i > 0 {
      ChunkOrder(ds, m, 0, i);
    }
  }

  lemma PlanOfFull(ds: Dataset, m: nat)
    requires FullRead(ds, m)
    ensures Serves(ds, FullRequest(ds), Origin(FullRequest(ds)).coords)
    ensures PlanOf(ds, seq(|ds.shape|, _ => 0), ds.shape) == PlanFrom(ds, FullRequest(ds), Origin(FullRequest(ds)))
  {
    hide PlanFrom, Prod;
  }

  lemma RegularUnsplit(ds: Dataset, m: nat)
    requires FullRead(ds, m) && Regular(FullRequest(ds))
    ensures Unsplit(ds, PlanOf(ds, seq(|ds.shape|, _ => 0), ds.shape), 0)
  {
    hide Prod, Ravel, Datasets.Valid, Regular, PlanFrom, PlanOf, Unsplit, Stop, Clear, Origin, CursorAt, InBounds;
    FirstChunk(ds, m);
    PlanUnsplit(ds, m, 0);
    PlanOfFull(ds, m);
  }

  // A full read of a dataset whose chunk shape is 1, .., 1, c, and then the full sizes is not
  // fractured: it has one slice for each chunk, in the order of the chunk list, from the chunk's start
  // to its clipped end. Chunks one thick along the last dimension need a regular request.
  lemma NoFracture(ds: Dataset, m: nat)
    requires Datasets.Valid(ds) && Positive(ds.shape) && m < |ds.shape|
    requires forall k :: 0 <= k < m ==> ds.chunkShape[k] == 1
    requires forall k :: m < k < |ds.shape| ==> ds.chunkShape[k] == ds.shape[k]
    requires ds.chunkShape[|ds.shape| - 1] > 1 || (FullRequest(ds).Valid() && Regular(FullRequest(ds)))
    ensures var p := PlanOf(ds, seq(|ds.shape|, _ => 0), ds.shape);
            && p.ok && |p.slices| == |ds.chunks|
            && forall j :: 0 <= j < |p.slices| ==> p.slices[j] == Slice(ds.chunks[j], 0, ClippedVolume(ds, j))
  {
    FullFacts(ds, m);
    hide Prod, Datasets.Valid, Regular, PlanOf, ClippedVolume, Layered;
    if ds.chunkShape[|ds.shape| - 1] > 1 {
      LayeredRegular(ds, m);
    }
    RegularUnsplit(ds, m);
  }
}
