// When the parallel reader stays inside its buffer. It compares the buffer with the number of
// values requested, and then copies as many values as the slices hold.
module ParallelBounds {
  import opened Radix
  import opened Slicing
  import opened Datasets
  import opened Sorting
  import opened Stops
  import opened Delivery
  import opened IrregularRequests
  import opened Slicers
  import opened Builds
  import opened Options
  import opened Bytes
  import opened Storage
  import opened Gathering
  import opened Scattering
  import opened CacheReaders
  import opened DirectReaders
  import opened ParallelReads

  // The number of values the slices hold.
  function Total(slices: seq<Slice>): nat {
    if slices == [] then 0 else
      (if slices[0].start <= slices[0].end then slices[0].end - slices[0].start else 0) + Total(slices[1..])
  }

  lemma {:induction false} GatherTotal(store: Store, ds: Dataset, slices: seq<Slice>)
    requires Proper(ds, slices) && Gather(store, ds, slices).Some?
    ensures |Gather(store, ds, slices).value| == Mul(Total(slices), ds.dsize)
  {
    hide SliceBytes;
    if slices != [] {
      var g := slices[0];
      assert g in slices && forall h :: h in slices[1..] ==> h in slices;
      SliceLength(store, ds, g);
      GatherTotal(store, ds, slices[1..]);
      var n := g.end - g.start;
      SplitLength(n, n + Total(slices[1..]), n + Total(slices[1..]), ds.dsize);
    }
  }

  // Slices that read a stretch of n values hold n values.
  lemma {:induction false} ReadsTotal(ds: Dataset, q: Request, slices: seq<Slice>, segments: seq<Segment>,
                                      from: nat, n: nat)
    requires q.Valid() && Matches(ds, slices, segments) && Reads(q, segments, from, n)
    ensures Total(slices) == n
    decreases |slices|
  {
    hide Covered, Wanted, Prod;
    if slices != [] {
      var g := slices[0];
      assert Segment(g.chunk.offset, g.start, g.end) == segments[0];
      ReadsTotal(ds, q, slices[1..], segments[1..], from + (g.end - g.start), n - (g.end - g.start));
    }
  }

  // The slices of a regular request hold the values requested, no more.
  lemma RegularTotal(ds: Dataset, indices: seq<nat>, counts: seq<nat>)
    requires Datasets.Valid(ds) && RequestOf(ds, indices, counts).Valid()
    requires RegularIn(ds.build, RequestOf(ds, indices, counts))
    ensures PlanOf(ds, indices, counts).ok && Total(PlanOf(ds, indices, counts).slices) == Prod(counts)
  {
    var q := RequestOf(ds, indices, counts);
    BoundsValid(ds, indices, counts);
    hide RegularIn, Datasets.Valid, RunIn, PlanFrom, Reads, Prod;
    RegularReads(ds.build, q);
    PlanIsRun(ds, q, Origin(q));
    ReadsTotal(ds, q, PlanFrom(ds, q, Origin(q)).slices, RunIn(ds.build, q, Origin(q)).segments, 0, q.End());
  }

  // The slices of any request hold at least the values requested: the run ends at or past them.
  lemma {:induction false} PlanTotal(ds: Dataset, q: Request, cur: Cursor)
    requires Serves(ds, q, cur.coords) && PlanFrom(ds, q, cur).ok
    ensures cur.offset + Total(PlanFrom(ds, q, cur).slices) >= q.End()
    decreases q.End() - cur.offset
  {
    hide NextIn, Datasets.Valid, ChunkAtCoord, Prod, BaseAt, PlanFrom;
    if cur.offset < q.End() {
      PlanStep(ds, q, cur);
      BaseFacts(q, cur.coords);
      NextInAdvances(ds.build, q, BaseAt(q, cur.coords), cur);
      PlanTotal(ds, q, NextIn(ds.build, q, BaseAt(q, cur.coords), cur).next);
    } else {
      PlanDone(ds, q, cur);
    }
  }

  // Every store that is up next lies inside the buffer.
  ghost predicate Inside(s: State) {
    forall w :: 0 <= w < |s.todo| && s.todo[w] != [] ==> CanStep(s, w)
  }

  // Every store that is up next lies inside the buffer, in every state that the workers can reach,
  // in any order of their steps.
  ghost predicate StaysInside(s: State) {
    forall schedule, end :: Reaches(s, schedule, end) ==> Inside(end)
  }

  // A worker that makes i steps while the others wait.
  lemma {:induction false} Alone(s: State, w: nat, i: nat) returns (schedule: seq<nat>, end: State)
    requires w < |s.todo| && i <= |s.todo[w]| && forall j :: 0 <= j < i ==> s.todo[w][j].pos < |s.buffer|
    ensures Reaches(s, schedule, end)
    ensures |end.todo| == |s.todo| && |end.buffer| == |s.buffer| && end.todo[w] == s.todo[w][i..]
    decreases i
  {
    if i == 0 {
      schedule, end := [], s;
    } else {
      assert CanStep(s, w);
      var t := After(s, w);
      forall j | 0 <= j < i - 1 ensures t.todo[w][j].pos < |t.buffer| {
        assert t.todo[w][j] == s.todo[w][j + 1];
      }
      var rest;
      rest, end := Alone(t, w, i - 1);
      schedule := [w] + rest;
      assert schedule[0] == w && schedule[1..] == rest;
      assert s.todo[w][1..][i - 1..] == s.todo[w][i..];
    }
  }

  // The first write outside.
  lemma {:induction false} FirstOutside(ws: seq<Write>, n: nat, i: nat) returns (j: nat)
    requires i < |ws| && ws[i].pos >= n
    ensures j <= i && ws[j].pos >= n && forall k :: 0 <= k < j ==> ws[k].pos < n
  {
    if k :| 0 <= k < i && ws[k].pos >= n {
      j := FirstOutside(ws, n, k);
    } else {
      j := i;
    }
  }

  lemma GatherSize(store: Store, ds: Dataset, slices: seq<Slice>, ts: seq<Tagged>)
    requires Shuffling(ds, slices, ts) && Gather(store, ds, slices).Some?
    ensures |Gather(store, ds, slices).value| == Mul(Total(slices), ds.dsize)
  {
    GatherTotal(store, ds, slices);
  }

  // If the slices hold more than fits, some worker, left alone, comes to store outside.
  lemma Strays(store: Store, ds: Dataset, slices: seq<Slice>, ts: seq<Tagged>, was: seq<byte>)
    returns (schedule: seq<nat>, end: State)
    requires Shuffling(ds, slices, ts) && SortedBy(ts, AddrLe) && Gather(store, ds, slices).Some?
    requires Mul(Total(slices), ds.dsize) > |was|
    ensures Reaches(State(was, Programs(store, ds, ChunkBy(ts))), schedule, end) && !Inside(end)
  {
    hide Gather, Programs, ChunkBy, Shuffling, SortedBy, Reaches, Mul;
    GatherSize(store, ds, slices, ts);
    var w, i := TargetWrite(store, ds, slices, ts, Mul(Total(slices), ds.dsize) - 1);
    var s := State(was, Programs(store, ds, ChunkBy(ts)));
    var j := FirstOutside(s.todo[w], |was|, i);
    schedule, end := Alone(s, w, j);
    assert end.todo[w][0] == s.todo[w][j];
    assert !CanStep(end, w);
  }

  lemma SoundInside(target: seq<byte>, was: seq<byte>, s: State)
    requires Sound(target, was, s)
    ensures Inside(s)
  {
    forall w | 0 <= w < |s.todo| && s.todo[w] != [] ensures CanStep(s, w) {
      StepSound(target, was, s, w);
    }
  }

  // The workers stay inside the buffer, under every schedule, exactly when the values of the
  // slices fit into it.
  lemma StoresInside(store: Store, ds: Dataset, slices: seq<Slice>, ts: seq<Tagged>, was: seq<byte>)
    requires Shuffling(ds, slices, ts) && SortedBy(ts, AddrLe) && Gather(store, ds, slices).Some?
    ensures StaysInside(State(was, Programs(store, ds, ChunkBy(ts)))) <==> Mul(Total(slices), ds.dsize) <= |was|
  {
    hide Gather, Programs, ChunkBy, Shuffling, SortedBy, Reaches, Mul, Inside;
    var s := State(was, Programs(store, ds, ChunkBy(ts)));
    if Mul(Total(slices), ds.dsize) <= |was| {
      GatherSize(store, ds, slices, ts);
      InitialSound(store, ds, slices, ts, was);
      forall schedule, end | Reaches(s, schedule, end) ensures Inside(end) {
        RunSound(Gather(store, ds, slices).value, was, s, schedule, end);
        SoundInside(Gather(store, ds, slices).value, was, end);
      }
    } else {
      var schedule, end := Strays(store, ds, slices, ts, was);
    }
  }

  lemma SizePositive(ds: Dataset)
    requires Datasets.Valid(ds)
    ensures ds.dsize > 0
  {
  }

  lemma ProductOrder(a: nat, b: nat, n: nat)
    requires n > 0
    ensures Mul(a, n) <= Mul(b, n) <==> a <= b
  {
    if a <= b { MulOrder(a, b, n); } else { MulOrder(b + 1, a, n); }
  }

  // The reader's own check, that the values requested fit, keeps the workers inside every buffer
  // that passes it exactly when the slices hold no more values than requested.
  lemma CheckSuffices(store: Store, ds: Dataset, indices: seq<nat>, counts: seq<nat>, ts: seq<Tagged>)
    requires Datasets.Valid(ds) && Shuffling(ds, PlanOf(ds, indices, counts).slices, ts) && SortedBy(ts, AddrLe)
    requires Gather(store, ds, PlanOf(ds, indices, counts).slices).Some?
    ensures (forall was: seq<byte> :: Mul(Prod(counts), ds.dsize) <= |was| ==>
            StaysInside(State(was, Programs(store, ds, ChunkBy(ts)))))
            <==> Total(PlanOf(ds, indices, counts).slices) <= Prod(counts)
  {
    hide Gather, Programs, ChunkBy, PlanOf, Shuffling, SortedBy, StaysInside, Prod, Mul, Datasets.Valid;
    var slices, ps := PlanOf(ds, indices, counts).slices, Programs(store, ds, ChunkBy(ts));
    var n := Mul(Prod(counts), ds.dsize);
    SizePositive(ds);
    ProductOrder(Total(slices), Prod(counts), ds.dsize);
    if Total(slices) <= Prod(counts) {
      forall was: seq<byte> | n <= |was| ensures StaysInside(State(was, ps)) {
        StoresInside(store, ds, slices, ts, was);
      }
    } else {
      var tight: seq<byte> := seq(n, _ => 0 as byte);
      StoresInside(store, ds, slices, ts, tight);
    }
  }

  // For a regular request on a file that holds the array a, the reader's own check suffices: under
  // every schedule all stores lie inside the place of the values requested, and once all workers
  // are done that place holds them, in order.
  lemma ParallelValues(store: Store, ds: Dataset, indices: seq<nat>, counts: seq<nat>, a: seq<nat> -> seq<byte>,
                       ts: seq<Tagged>, was: seq<byte>, schedule: seq<nat>, end: State)
    requires Datasets.Valid(ds) && Gathering.Holds(store, ds, a) && RequestOf(ds, indices, counts).Valid()
    requires RegularIn(ds.build, RequestOf(ds, indices, counts))
    requires multiset(ts) == multiset(Tag(PlanOf(ds, indices, counts).slices, 0)) && SortedBy(ts, AddrLe)
    requires Mul(Prod(counts), ds.dsize) <= |was|
    requires Reaches(State(was, Programs(store, ds, ChunkBy(ts))), schedule, end)
    ensures PlanOf(ds, indices, counts).ok && Inside(end) && |end.buffer| == |was|
    ensures forall w, i :: 0 <= w < |end.todo| && 0 <= i < |end.todo[w]| ==>
            end.todo[w][i].pos < Mul(Prod(counts), ds.dsize)
    ensures end.buffer[Mul(Prod(counts), ds.dsize)..] == was[Mul(Prod(counts), ds.dsize)..]
    ensures (forall w :: 0 <= w < |end.todo| ==> end.todo[w] == []) ==>
              forall j: nat :: j < Prod(counts) ==> ValueIn(ds, indices, counts, a, end.buffer, j)
  {
    hide Gathering.Holds, Datasets.Valid, RegularIn, Gather, Reaches, ChunkBy, PlanOf, Tag, SortedBy,
      Program, Prod, ValueIn;
    var slices, n := PlanOf(ds, indices, counts).slices, Mul(Prod(counts), ds.dsize);
    ExpectedRegular(store, ds, indices, counts, a);
    RegularTotal(ds, indices, counts);
    PlanOfProper(ds, indices, counts);
    GatherTotal(store, ds, slices);
    var target := Gather(store, ds, slices).value;
    InitialSound(store, ds, slices, ts, was);
    RunSound(target, was, State(was, Programs(store, ds, ChunkBy(ts))), schedule, end);
    SoundInside(target, was, end);
    if forall w :: 0 <= w < |end.todo| ==> end.todo[w] == [] {
      ParallelRead(store, ds, indices, counts, ts, was, schedule, end);
      ReadValues(store, ds, indices, counts, a, Some(n), was, end.buffer);
    }
  }

  // A dataset on which a request holds more values than it asks for.
  ghost predicate Overrunning(store: Store, ds: Dataset, a: seq<nat> -> seq<byte>) {
    Datasets.Valid(ds) && ds.shape == OVERRUN.shape && ds.chunkShape == OVERRUN.chunkShape &&
      Gathering.Holds(store, ds, a)
  }

  lemma OverrunPlan(store: Store, ds: Dataset, a: seq<nat> -> seq<byte>)
    requires Overrunning(store, ds, a)
    ensures InBounds(ds, OVERRUN.indices, OVERRUN.counts) && Prod(OVERRUN.counts) == 75
    ensures var p := PlanOf(ds, OVERRUN.indices, OVERRUN.counts);
            p.ok && Total(p.slices) == 95 && Gather(store, ds, p.slices).Some?
  {
    hide RunIn, RunFrom, PlanFrom, Gathering.Holds, Datasets.Valid, SliceBytes, Prod, Covered;
    var q := OVERRUN;
    OverrunDelivers();
    RunInAgrees(ds.build, OVERRUN, Origin(OVERRUN));
    assert RequestOf(ds, q.indices, q.counts) == q;
    PlanIsRun(ds, q, Origin(q));
    var slices := PlanFrom(ds, q, Origin(q)).slices;
    var g := slices[0];
    assert Segment(g.chunk.offset, g.start, g.end) == Segment([0, 10], 0, 95);
    assert slices == [g] && slices[1..] == [];
    Prod2(10, 10);
    SliceHolds(store, ds, q, a, g);
    assert Total(slices) == 95 + Total([]);
  }

  // 75 values are requested and 95 copied: a buffer of just the size requested passes the reader's
  // check, and a worker comes to store outside it. The readers that copy into a checked slice fail.
  lemma OverrunStrays(store: Store, ds: Dataset, a: seq<nat> -> seq<byte>, ts: seq<Tagged>, was: seq<byte>)
    returns (schedule: seq<nat>, end: State)
    requires Overrunning(store, ds, a) && |was| == Mul(75, ds.dsize)
    requires multiset(ts) == multiset(Tag(PlanOf(ds, OVERRUN.indices, OVERRUN.counts).slices, 0))
    requires SortedBy(ts, AddrLe)
    ensures InBounds(ds, OVERRUN.indices, OVERRUN.counts) && Mul(Prod(OVERRUN.counts), ds.dsize) <= |was|
    ensures Reaches(State(was, Programs(store, ds, ChunkBy(ts))), schedule, end) && !Inside(end)
    ensures forall r, now :: Outcome(Expected(store, ds, OVERRUN.indices, OVERRUN.counts), |was|, r, was, now) ==>
            r.None?
  {
    hide PlanOf, Gather, Reaches, SortedBy, Programs, ChunkBy, Tag, Inside, Gathering.Holds, Prod;
    OverrunPlan(store, ds, a);
    var slices := PlanOf(ds, OVERRUN.indices, OVERRUN.counts).slices;
    PlanOfProper(ds, OVERRUN.indices, OVERRUN.counts);
    GatherTotal(store, ds, slices);
    MulOrder(76, 95, ds.dsize);
    schedule, end := Strays(store, ds, slices, ts, was);
  }
}
