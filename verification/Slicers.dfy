// The slicer as an iterator over the segments of a request.
module Slicers {
  import opened Radix
  import opened Slicing
  import opened Chunks
  import opened Datasets
  import opened Stops
  import opened Delivery
  import opened Types
  import opened Wrapping
  import opened Builds
  import opened Options

  // Overflow stands for u64 arithmetic that has no result, or, where it wraps around, for a call that
  // does not move forwards.
  datatype Item = Done | Item(chunk: Chunk, start: nat, end: nat) | Overflow

  // The position in the chunk at offset of the coordinate coords: a fold over the dimensions.
  function ChunkStart(coords: seq<nat>, offset: seq<nat>, dimSz: seq<nat>, start: int): int
    requires |coords| == |offset| == |dimSz|
  {
    if coords == [] then start
    else ChunkStart(coords[1..], offset[1..], dimSz[1..], start + (coords[0] as int - offset[0]) * dimSz[0])
  }

  lemma {:induction false} ChunkStartRavel(coords: seq<nat>, offset: seq<nat>, dimSz: seq<nat>, start: int,
                                           l: seq<nat>, s: seq<nat>)
    requires |coords| == |offset| == |dimSz| == |l| == |s|
    requires forall k :: 0 <= k < |s| ==> dimSz[k] == Prod(s[k + 1..]) && l[k] + offset[k] == coords[k]
    ensures ChunkStart(coords, offset, dimSz, start) == start + Ravel(l, s)
  {
    if coords != [] {
      forall k | 0 <= k < |s| - 1 ensures dimSz[1..][k] == Prod(s[1..][k + 1..]) {
        assert s[1..][k + 1..] == s[k + 2..] && dimSz[1..][k] == dimSz[k + 1];
      }
      ChunkStartRavel(coords[1..], offset[1..], dimSz[1..], start + (coords[0] as int - offset[0]) * dimSz[0], l[1..],
        s[1..]);
    }
  }

  lemma {:induction false} ChunkStartPrefix(coords: seq<nat>, offset: seq<nat>, dimSz: seq<nat>, start: int, k: nat)
    requires |coords| == |offset| == |dimSz| && k <= |coords|
    requires forall j :: 0 <= j < |coords| ==> offset[j] <= coords[j]
    ensures var p := ChunkStart(coords[..k], offset[..k], dimSz[..k], start);
            && start <= p <= ChunkStart(coords, offset, dimSz, start)
            && (k < |coords| ==>
                  0 <= (coords[k] - offset[k]) * dimSz[k] <= ChunkStart(coords, offset, dimSz, start) - p)
  {
    if coords != [] {
      var next := start + (coords[0] as int - offset[0]) * dimSz[0];
      assert next >= start;
      if k > 0 {
        assert coords[..k][1..] == coords[1..][..k - 1] && offset[..k][1..] == offset[1..][..k - 1];
        assert dimSz[..k][1..] == dimSz[1..][..k - 1];
        ChunkStartPrefix(coords[1..], offset[1..], dimSz[1..], next, k - 1);
      } else {
        ChunkStartPrefix(coords[1..], offset[1..], dimSz[1..], next, 0);
      }
    }
  }

  ghost function RequestOf(ds: Dataset, indices: seq<nat>, counts: seq<nat>): Request {
    Request(ds.shape, ds.chunkShape, indices, counts)
  }

  predicate InBounds(ds: Dataset, indices: seq<nat>, counts: seq<nat>) {
    && |indices| == |counts| == |ds.shape|
    && forall k :: 0 <= k < |counts| ==> 0 < counts[k] && indices[k] + counts[k] <= ds.shape[k]
  }

  ghost predicate Serves(ds: Dataset, q: Request, o: seq<nat>) {
    Datasets.Valid(ds) && q.Valid() && q.shape == ds.shape && q.chunkShape == ds.chunkShape && InBox(o, q.counts)
  }

  // A piece of a chunk: its values start .. end, in stored order.
  datatype Slice = Slice(chunk: Chunk, start: nat, end: nat)

  datatype Plan = Plan(slices: seq<Slice>, ok: bool)

  ghost function Before(g: Slice, p: Plan): Plan {
    Plan([g] + p.slices, p.ok)
  }

  // The chunk looked up for the next call, and its offset.
  ghost function ChunkFor(ds: Dataset, q: Request, o: seq<nat>): (c: Chunk)
    requires Serves(ds, q, o)
    ensures c in ds.chunks
  {
    ChunkAtCoord(ds, Plus(q.indices, o))
  }

  // Everything the slicer delivers from the state cur on.
  ghost function PlanFrom(ds: Dataset, q: Request, cur: Cursor): Plan
    requires Serves(ds, q, cur.coords)
    decreases q.End() - cur.offset
  {
    if cur.offset >= q.End() then Plan([], true) else
      var base := BaseAt(q, cur.coords);
      BaseFacts(q, cur.coords);
      match NextIn(ds.build, q, base, cur)
      case Fault => Plan([], false)
      case Deliver(start, advance, next) =>
        if next.offset <= cur.offset then Plan([], false) else
          Before(Slice(ChunkFor(ds, q, cur.coords), start, start + advance), PlanFrom(ds, q, next))
  }

  lemma PlanStep(ds: Dataset, q: Request, cur: Cursor)
    requires Serves(ds, q, cur.coords) && cur.offset < q.End()
    ensures Lookup(q, BaseAt(q, cur.coords), cur.coords)
    ensures var r := NextIn(ds.build, q, BaseAt(q, cur.coords), cur);
            if r.Fault? then PlanFrom(ds, q, cur) == Plan([], false)
            else r.next.offset > cur.offset &&
                 PlanFrom(ds, q, cur) == Before(Slice(ChunkFor(ds, q, cur.coords), r.start, r.start + r.advance),
                   PlanFrom(ds, q, r.next))
  {
    hide NextIn, Datasets.Valid, ChunkAtCoord, Prod, BaseAt;
    BaseFacts(q, cur.coords);
    NextInAdvances(ds.build, q, BaseAt(q, cur.coords), cur);
  }

  lemma PlanDone(ds: Dataset, q: Request, cur: Cursor)
    requires Serves(ds, q, cur.coords) && cur.offset >= q.End()
    ensures PlanFrom(ds, q, cur) == Plan([], true)
  {
  }

  // The slices are the segments of the run, with their chunks.
  ghost predicate Matches(ds: Dataset, slices: seq<Slice>, segments: seq<Segment>) {
    |slices| == |segments| &&
    forall i :: 0 <= i < |slices| ==>
      slices[i].chunk in ds.chunks && Segment(slices[i].chunk.offset, slices[i].start, slices[i].end) == segments[i]
  }

  lemma ChunkForBase(ds: Dataset, q: Request, o: seq<nat>)
    requires Serves(ds, q, o)
    ensures ChunkFor(ds, q, o).offset == BaseAt(q, o)
  {
    hide Prod, ChunkAtCoord;
    LookupOffset(ds, Plus(q.indices, o));
  }

  lemma {:induction false} PlanIsRun(ds: Dataset, q: Request, cur: Cursor)
    requires Serves(ds, q, cur.coords)
    ensures Matches(ds, PlanFrom(ds, q, cur).slices, RunIn(ds.build, q, cur).segments)
    ensures PlanFrom(ds, q, cur).ok == RunIn(ds.build, q, cur).ok
    decreases q.End() - cur.offset
  {
    hide NextIn, RunIn, Datasets.Valid, ChunkAtCoord, Prod, BaseAt;
    RunInStep(ds.build, q, cur);
    if cur.offset < q.End() {
      BaseFacts(q, cur.coords);
      ChunkForBase(ds, q, cur.coords);
      var r := NextIn(ds.build, q, BaseAt(q, cur.coords), cur);
      if r.Deliver? {
        NextInAdvances(ds.build, q, BaseAt(q, cur.coords), cur);
        PlanIsRun(ds, q, r.next);
      }
    }
  }

  ghost predicate StridesOk(ds: Dataset) {
    |ds.chunkDimSz| == |ds.chunkShape| && forall k :: 0 <= k < |ds.chunkShape| ==>
      ds.chunkDimSz[k] == Prod(ds.chunkShape[k + 1..])
  }

  lemma ScalarChunk(ds: Dataset)
    requires Datasets.Valid(ds) && ds.shape == []
    ensures |ds.chunks| == 1
  {
  }

  lemma ScalarNext(ds: Dataset, q: Request, cur: Cursor)
    requires Serves(ds, q, cur.coords) && ds.shape == [] && cur.offset < q.End()
    ensures |ds.chunks| == 1 && ChunkFor(ds, q, cur.coords) == ds.chunks[0]
    ensures Live(q, cur) && Lookup(q, BaseAt(q, cur.coords), cur.coords)
    ensures NextIn(ds.build, q, BaseAt(q, cur.coords), cur) == Deliver(0, 1, Cursor(cur.offset + 1, cur.coords))
  {
    ScalarChunk(ds);
  }

  lemma BoundsFacts(ds: Dataset, q: Request, o: seq<nat>)
    requires Serves(ds, q, o)
    ensures InBox(Plus(q.indices, o), ds.shape) && StridesOk(ds)
  {
    hide Prod;
    forall k | 0 <= k < |ds.chunkShape| ensures ds.chunkDimSz[k] == Prod(ds.chunkShape[k + 1..]) {
      SizesProd(ds.chunkShape, 1, k);
    }
  }

  lemma StartIsLocal(ds: Dataset, q: Request, o: seq<nat>)
    requires At(q, o) && q.chunkShape == ds.chunkShape && StridesOk(ds)
    ensures ChunkStart(Plus(q.indices, o), BaseAt(q, o), ds.chunkDimSz, 0) == Ravel(Local(q, o), q.chunkShape)
    ensures q.Holds(BaseAt(q, o), o) && Within(q, BaseAt(q, o), o) == Local(q, o)
  {
    LocalIsNext(q, o);
    BaseFacts(q, o);
    hide Prod, Ravel, BaseAt, Local, ChunkStart;
    var x, b, l := Plus(q.indices, o), BaseAt(q, o), Local(q, o);
    forall k | 0 <= k < |o| ensures l[k] + b[k] == x[k] {
      assert Plus(b, l)[k] == x[k];
    }
    ChunkStartRavel(x, b, ds.chunkDimSz, 0, l, q.chunkShape);
  }

  lemma ArrayFacts(ds: Dataset, q: Request, o: seq<nat>)
    requires Serves(ds, q, o) && ds.shape != []
    ensures InBox(Plus(q.indices, o), ds.shape) && StridesOk(ds)
    ensures ChunkAtCoord(ds, Plus(q.indices, o)).offset == BaseAt(q, o) && Lookup(q, BaseAt(q, o), o)
    ensures ChunkStart(Plus(q.indices, o), BaseAt(q, o), ds.chunkDimSz, 0) == Ravel(Local(q, o), q.chunkShape)
    ensures q.Holds(BaseAt(q, o), o) && Within(q, BaseAt(q, o), o) == Local(q, o)
  {
    hide Prod, Ravel, ChunkAtCoord, ChunkStart;
    BaseFacts(q, o);
    ChunkForBase(ds, q, o);
    BoundsFacts(ds, q, o);
    StartIsLocal(ds, q, o);
  }

  class ChunkSlicer {
    const ds: Dataset
    const indices: seq<nat>
    const counts: seq<nat>
    const end: nat
    const offsetCoords: array<nat>
    var offset: nat

    ghost predicate Valid()
      reads this, offsetCoords
    {
      && Datasets.Valid(ds)
      && (end > 0 ==>
            && RequestOf(ds, indices, counts).Valid() && end == Prod(counts)
            && offsetCoords.Length == |counts| && InBox(offsetCoords[..], counts))
    }

    ghost function State(): Cursor
      reads this, offsetCoords
    {
      Cursor(offset, offsetCoords[..])
    }

    // What is still to come.
    ghost function Remaining(): Plan
      requires Valid()
      reads this, offsetCoords
    {
      if end == 0 then Plan([], true) else PlanFrom(ds, RequestOf(ds, indices, counts), State())
    }

    constructor Empty(ds: Dataset)
      requires Datasets.Valid(ds)
      ensures Valid() && fresh(offsetCoords) && this.ds == ds
      ensures end == 0 && Remaining() == Plan([], true)
    {
      this.ds := ds;
      indices := [];
      counts := [];
      end := 0;
      offset := 0;
      offsetCoords := new nat[0];
    }

    constructor New(ds: Dataset, indices: seq<nat>, counts: seq<nat>)
      requires Datasets.Valid(ds) && InBounds(ds, indices, counts)
      ensures Valid() && fresh(offsetCoords) && this.ds == ds && this.indices == indices && this.counts == counts
      ensures end == Prod(counts) > 0
      ensures State() == Origin(RequestOf(ds, indices, counts))
      ensures Remaining() == PlanFrom(ds, RequestOf(ds, indices, counts), State())
    {
      this.ds := ds;
      this.indices := indices;
      this.counts := counts;
      end := Prod(counts);
      offset := 0;
      offsetCoords := new nat[|counts|](_ => 0);
      new;
      ProdPositive(counts);
      assert offsetCoords[..] == Origin(RequestOf(ds, indices, counts)).coords;
    }

    // The dimension loop's state, with the loop's local variables.
    ghost function Loop(advance: nat, carry: nat, k: nat): Sweep
      reads this, offsetCoords
    {
      Sweep(offsetCoords[..], offset, advance, carry, k, true)
    }

    // The dimension loop is about to visit dimension k - 1.
    ghost predicate Sweeping(base: seq<nat>, s: Sweep)
      reads this, offsetCoords
    {
      && s.coords == offsetCoords[..] && s.offset == offset && s.ok
      && end == Prod(counts) && |ds.chunkDimSz| == |ds.chunkShape|
      && Ready(RequestOf(ds, indices, counts), base, s)
    }

    // The size of the chunk at base along dimension k, cut off at the end of the dataset.
    function Size(base: seq<nat>, k: nat): (size: int)
      requires k < |base| == |ds.shape| == |ds.chunkShape|
      ensures size == RequestOf(ds, indices, counts).Depth(base, k)
    {
      var dimEnd: int := base[k] + ds.chunkShape[k];
      if dimEnd > ds.shape[k] then ds.chunkShape[k] - (dimEnd - ds.shape[k]) else ds.chunkShape[k]
    }

    method VisitChecked(base: seq<nat>, k: nat, advance: nat, carry: nat)
      returns (ok: bool, advance': nat, carry': nat, more: bool)
      requires Sweeping(base, Loop(advance, carry, k + 1))
      requires k < |ds.chunkDimSz| && ds.chunkDimSz[k] == Prod(ds.chunkShape[k + 1..])
      modifies this`offset, offsetCoords
      ensures var r := Visit(RequestOf(ds, indices, counts), base, old(Loop(advance, carry, k + 1)));
              if ok then r == (Loop(advance', carry', k), more) else !r.0.ok
    {
      hide Prod, Rem, Quot, Mul;
      ghost var q, s := RequestOf(ds, indices, counts), Loop(advance, carry, k + 1);
      var dimSz := ds.chunkDimSz[k];
      var size := Size(base, k);
      var v := offsetCoords[k] + carry;
      if v >= U64 {
        return false, advance, carry, false;
      }
      if size == 1 && dimSz != 1 {
        offsetCoords[k] := Rem(v, counts[k]);
        assert offsetCoords[..] == s.coords[k := q.Digit(k, v)];
        return true, advance, Quot(v, counts[k]), true;
      }
      var current := Rem(v, counts[k]);
      var chunkEnd := base[k] + size - indices[k];
      var to: nat := Min(counts[k], chunkEnd);
      carry' := Quot(v, counts[k]) + Quot(to, counts[k]);
      if to < current || offset + Mul(to - current, dimSz) >= U64 || carry' >= U64 {
        return false, advance, carry, false;
      }
      var diff := Mul(to - current, dimSz);
      offset := offset + diff;
      offsetCoords[k] := Rem(to, counts[k]);
      assert offsetCoords[..] == s.coords[k := q.Digit(k, to)];
      return true, advance + diff, carry', indices[k] == base[k] && counts[k] == chunkEnd && offset < end;
    }

    method VisitUnchecked(base: seq<nat>, k: nat, advance: nat, carry: nat)
      returns (advance': nat, carry': nat, more: bool)
      requires Sweeping(base, Loop(advance, carry, k + 1))
      requires k < |ds.chunkDimSz| && ds.chunkDimSz[k] == Prod(ds.chunkShape[k + 1..])
      modifies this`offset, offsetCoords
      ensures var r := WrapVisit(RequestOf(ds, indices, counts), base, old(Loop(advance, carry, k + 1)));
              r == (Loop(advance', carry', k), more)
    {
      hide Prod, Rem, Quot, Mul, Wrapped;
      ghost var q, s := RequestOf(ds, indices, counts), Loop(advance, carry, k + 1);
      var dimSz := ds.chunkDimSz[k];
      var size := Size(base, k);
      var v := Wrapped(offsetCoords[k] + carry);
      if size == 1 && dimSz != 1 {
        offsetCoords[k] := Rem(v, counts[k]);
        assert offsetCoords[..] == s.coords[k := q.Digit(k, v)];
        return advance, Quot(v, counts[k]), true;
      }
      var current := Rem(v, counts[k]);
      var chunkEnd := base[k] + size - indices[k];
      var to: nat := Min(counts[k], chunkEnd);
      var diff := Wrapped((to - current) * dimSz);
      offset := Wrapped(offset + diff);
      offsetCoords[k] := Rem(to, counts[k]);
      assert offsetCoords[..] == s.coords[k := q.Digit(k, to)];
      carry' := Wrapped(Quot(v, counts[k]) + Quot(to, counts[k]));
      return Wrapped(advance + diff), carry', indices[k] == base[k] && counts[k] == chunkEnd && offset < end;
    }

    // The body of the dimension loop.
    method VisitDimension(base: seq<nat>, k: nat, advance: nat, carry: nat)
      returns (ok: bool, advance': nat, carry': nat, more: bool)
      requires Sweeping(base, Loop(advance, carry, k + 1))
      requires k < |ds.chunkDimSz| && ds.chunkDimSz[k] == Prod(ds.chunkShape[k + 1..])
      modifies this`offset, offsetCoords
      ensures var r := VisitIn(ds.build, RequestOf(ds, indices, counts), base, old(Loop(advance, carry, k + 1)));
              if ok then r == (Loop(advance', carry', k), more) else !r.0.ok
    {
      hide Visit, WrapVisit;
      if ds.build.Checked? {
        ok, advance', carry', more := VisitChecked(base, k, advance, carry);
      } else {
        ok := true;
        advance', carry', more := VisitUnchecked(base, k, advance, carry);
      }
    }

    // The dimension loop, from the last dimension upwards.
    method WalkDimensions(base: seq<nat>) returns (ok: bool, advance: nat, carry: nat, k: nat)
      requires Sweeping(base, Loop(0, 0, |base|)) && StridesOk(ds)
      modifies this`offset, offsetCoords
      ensures var r := DescendIn(ds.build, RequestOf(ds, indices, counts), base, old(Loop(0, 0, |base|)));
              if ok then r == Loop(advance, carry, k) else !r.ok
    {
      hide Prod, VisitIn, DescendIn;
      ghost var q, first := RequestOf(ds, indices, counts), Loop(0, 0, |base|);
      advance, carry, k := 0, 0, |base|;
      ok := true;
      var more := true;
      while k > 0 && more
        invariant ok && Sweeping(base, Loop(advance, carry, k))
        invariant DescendIn(ds.build, q, base, first)
                  == if more then DescendIn(ds.build, q, base, Loop(advance, carry, k)) else Loop(advance, carry, k)
      {
        DescendInStep(ds.build, q, base, Loop(advance, carry, k));
        k := k - 1;
        ok, advance, carry, more := VisitDimension(base, k, advance, carry);
        if !ok {
          return;
        }
      }
      DescendInStep(ds.build, q, base, Loop(advance, carry, k));
    }

    // The loop that adds the carry that is left over to the dimensions above i.
    method AddCarry(i: nat, carry: nat) returns (ok: bool)
      requires offsetCoords.Length == |counts| && Positive(counts) && i <= |counts|
      requires InBox(offsetCoords[..], counts)
      modifies offsetCoords
      ensures ok == FitsIn(ds.build, old(offsetCoords[..]), counts, i, carry)
      ensures ok ==> offsetCoords[..] == RippleIn(ds.build, old(offsetCoords[..]), counts, i, carry)
    {
      var k: nat, c: nat, more := i, carry, true;
      while k > 0 && more
        invariant k <= |counts|
        invariant FitsIn(ds.build, old(offsetCoords[..]), counts, i, carry)
                  == (more ==> FitsIn(ds.build, offsetCoords[..], counts, k, c))
        invariant RippleIn(ds.build, old(offsetCoords[..]), counts, i, carry)
                  == if more then RippleIn(ds.build, offsetCoords[..], counts, k, c) else offsetCoords[..]
      {
        k := k - 1;
        ghost var coords := offsetCoords[..];
        var v := offsetCoords[k] + c;
        if v >= U64 && ds.build.Checked? {
          return false;
        }
        if ds.build.Unchecked? {
          v := Wrapped(v);
        }
        offsetCoords[k] := Rem(v, counts[k]);
        c := Quot(v, counts[k]);
        more := c != 0;
        assert offsetCoords[..] == coords[k := Rem(v, counts[k])];
      }
      return true;
    }

    // r is the front of the plan p, and the rest of it remains.
    ghost predicate TookFront(p: Plan, r: Item)
      reads this, offsetCoords
    {
      match r
      case Done => Valid() && p == Remaining() == Plan([], true)
      case Overflow => p == Plan([], false)
      case Item(chunk, start, end) =>
        Valid() && chunk in ds.chunks && p == Before(Slice(chunk, start, end), Remaining())
    }

    // What a call of Next from the state cur has done.
    ghost predicate Moved(cur: Cursor, r: Item)
      reads this, offsetCoords
    {
      var q := RequestOf(ds, indices, counts);
      && Datasets.Valid(ds) && Live(q, cur) && Lookup(q, BaseAt(q, cur.coords), cur.coords)
      && match NextIn(ds.build, q, BaseAt(q, cur.coords), cur)
         case Fault => r == Overflow
         case Deliver(start, advance, next) =>
           Valid() && State() == next && r == Item(ChunkFor(ds, q, cur.coords), start, start + advance)
    }

    method NextScalar() returns (r: Item)
      requires Valid() && offset < end && ds.shape == []
      modifies this`offset, offsetCoords
      ensures Moved(old(State()), r)
    {
      hide Prod, Datasets.Valid, Ravel, Lookup, Live, NextIn;
      ScalarNext(ds, RequestOf(ds, indices, counts), State());
      offset := offset + 1;
      r := Item(ds.chunks[0], 0, 1);
    }

    method NextArray() returns (r: Item)
      requires Valid() && offset < end && ds.shape != []
      modifies this`offset, offsetCoords
      ensures Moved(old(State()), r)
    {
      hide Prod, Datasets.Valid, DescendIn, RippleIn, FitsIn, NextIn, Ravel, ChunkAtCoord;
      ghost var q, cur := RequestOf(ds, indices, counts), State();
      ArrayFacts(ds, q, cur.coords);
      var was := offset;
      var start := Plus(indices, offsetCoords[..]);
      var chunk := ChunkAtCoord(ds, start);
      var chunkStart := ChunkStart(start, chunk.offset, ds.chunkDimSz, 0);
      NextInLoop(ds.build, q, chunk.offset, cur);
      var ok, advance, carry, i := WalkDimensions(chunk.offset);
      if !ok {
        return Overflow;
      }
      ghost var s := Loop(advance, carry, i);
      DescendInBox(ds.build, q, chunk.offset, old(Loop(0, 0, |ds.shape|)));
      ok := AddCarry(i, carry);
      if !ok || chunkStart + advance >= U64 || (ds.build.Unchecked? && offset <= was) {
        return Overflow;
      }
      RippleInBox(ds.build, s.coords, counts, i, carry);
      r := Item(chunk, chunkStart, chunkStart + advance);
    }

    // Before the end the state moves as the function Next says, and the chunk is the one
    // that holds the current coordinate.
    method NextInside() returns (r: Item)
      requires Valid() && offset < end
      modifies this`offset, offsetCoords
      ensures Moved(old(State()), r)
    {
      hide Moved, Datasets.Valid;
      if |ds.shape| == 0 {
        r := NextScalar();
      } else {
        r := NextArray();
      }
    }

    // The next slice: the front of the plan, of which the rest remains.
    method Next() returns (r: Item)
      requires Valid()
      modifies this`offset, offsetCoords
      ensures TookFront(old(Remaining()), r)
    {
      hide Prod, NextIn, Ravel, BaseAt, ChunkFor, ChunkAtCoord, Lookup, Datasets.Valid, Live;
      if offset >= end {
        return Done;
      }
      PlanStep(ds, RequestOf(ds, indices, counts), State());
      r := NextInside();
    }
  }

  // No difference of chunk_start is negative, and every partial sum lies in the chunk.
  lemma StartFits(ds: Dataset, q: Request, o: seq<nat>, k: nat)
    requires Serves(ds, q, o) && k < |o| && |ds.chunkDimSz| == |ds.chunkShape|
    ensures var x, base := Plus(q.indices, o), ChunkFor(ds, q, o).offset;
            && |base| == |x| && base[k] <= x[k] < ds.shape[k]
            && 0 <= ChunkStart(x[..k], base[..k], ds.chunkDimSz[..k], 0) < Prod(ds.chunkShape) < U64
            && 0 <= (x[k] - base[k]) * ds.chunkDimSz[k] < Prod(ds.chunkShape)
  {
    hide Prod, Ravel, ChunkStart, ChunkAtCoord, BaseAt, Local, Datasets.Valid;
    ArrayFacts(ds, q, o);
    BaseFacts(q, o);
    RavelBound(Local(q, o), q.chunkShape);
    forall j | 0 <= j < |o| ensures BaseAt(q, o)[j] <= Plus(q.indices, o)[j] {
      assert Plus(BaseAt(q, o), Local(q, o))[j] == q.indices[j] + o[j];
    }
    ChunkStartPrefix(Plus(q.indices, o), BaseAt(q, o), ds.chunkDimSz, 0, k);
    InBoxPositive(Plus(q.indices, o), ds.shape);
    GeometryFits(ds, k);
  }

  lemma PlanNotEmpty(ds: Dataset, q: Request, cur: Cursor)
    requires Serves(ds, q, cur.coords) && cur.offset < q.End()
    ensures PlanFrom(ds, q, cur) != Plan([], true)
  {
    hide PlanFrom, Datasets.Valid, NextIn, BaseAt, ChunkFor;
    PlanStep(ds, q, cur);
  }

  // The requests that are served are those that are not empty and lie in the dataset.
  lemma BoundsValid(ds: Dataset, indices: seq<nat>, counts: seq<nat>)
    requires Datasets.Valid(ds)
    ensures InBounds(ds, indices, counts) <==> RequestOf(ds, indices, counts).Valid()
  {
  }

  // What is delivered for a request: nothing when it is empty or out of bounds.
  ghost function PlanOf(ds: Dataset, indices: seq<nat>, counts: seq<nat>): Plan
    requires Datasets.Valid(ds)
  {
    if InBounds(ds, indices, counts) then
      var q := RequestOf(ds, indices, counts);
      PlanFrom(ds, q, Origin(q))
    else Plan([], true)
  }

  // Nothing is delivered exactly when some count is 0, or the request ends outside the dataset in
  // some dimension.
  lemma PlanEmpty(ds: Dataset, indices: seq<nat>, counts: seq<nat>)
    requires Datasets.Valid(ds) && |indices| == |counts| == |ds.shape|
    ensures PlanOf(ds, indices, counts) == Plan([], true)
       <==> exists k :: 0 <= k < |counts| && (counts[k] == 0 || indices[k] + counts[k] > ds.shape[k])
  {
    hide PlanFrom;
    BoundsValid(ds, indices, counts);
    if InBounds(ds, indices, counts) {
      var q := RequestOf(ds, indices, counts);
      ProdPositive(counts);
      hide Datasets.Valid, Prod;
      PlanNotEmpty(ds, q, Origin(q));
    }
  }

  method ChunkSlices(ds: Dataset, indices: seq<nat>, counts: seq<nat>) returns (s: ChunkSlicer)
    requires Datasets.Valid(ds)
    ensures fresh(s) && fresh(s.offsetCoords) && s.Valid() && s.ds == ds
    ensures s.Remaining() == PlanOf(ds, indices, counts)
  {
    hide Datasets.Valid;
    if InBounds(ds, indices, counts) {
      s := new ChunkSlicer.New(ds, indices, counts);
    } else {
      s := new ChunkSlicer.Empty(ds);
    }
  }

  // All that a slicer still delivers; None if it overflows.
  method Collect(slicer: ChunkSlicer) returns (r: Option<seq<Slice>>)
    requires slicer.Valid()
    modifies slicer`offset, slicer.offsetCoords
    ensures var p := old(slicer.Remaining()); r == if p.ok then Some(p.slices) else None
  {
    hide ChunkSlicer.Valid, ChunkSlicer.Remaining, ChunkSlicer.Moved;
    ghost var plan := slicer.Remaining();
    var slices: seq<Slice>, more := [], true;
    while more
      invariant slicer.Valid()
      invariant plan == Plan(slices + slicer.Remaining().slices, slicer.Remaining().ok)
      invariant !more ==> slicer.Remaining() == Plan([], true)
      decreases |slicer.Remaining().slices|, more
    {
      var item := slicer.Next();
      match item
      case Done => more := false;
      case Overflow => return None;
      case Item(c, start, end) => slices := slices + [Slice(c, start, end)];
    }
    assert slices + [] == slices;
    return Some(slices);
  }
}
