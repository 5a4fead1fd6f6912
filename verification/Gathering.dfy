// The bytes of a request: what its slices hold, and what they mean.
module Gathering {
  import opened Radix
  import opened Slicing
  import opened Chunks
  import opened Datasets
  import opened Delivery
  import opened Builds
  import opened Slicers
  import opened Options
  import opened Bytes
  import opened Storage

  function LayoutOf(ds: Dataset): Layout {
    Layout(Prod(ds.chunkShape) * ds.dsize, ds.dsize, ds.gzip, ds.shuffle)
  }

  function Decoded(store: Store, ds: Dataset, c: Chunk): Option<seq<byte>> {
    ReadChunk(store, c.addr, c.size, LayoutOf(ds))
  }

  // The bytes from..to of a decoded chunk; None if it is shorter.
  function Cut(cache: seq<byte>, start: nat, end: nat): Option<seq<byte>> {
    if start <= end <= |cache| then Some(cache[start..end]) else None
  }

  function SliceBytes(store: Store, ds: Dataset, g: Slice): Option<seq<byte>> {
    var cache := Decoded(store, ds, g.chunk);
    if cache.None? then None else Cut(cache.value, g.start * ds.dsize, g.end * ds.dsize)
  }

  // The bytes of the slices, joined; None if one of them cannot be had.
  function Gather(store: Store, ds: Dataset, slices: seq<Slice>): Option<seq<byte>> {
    if slices == [] then Some([]) else
      var b, rest := SliceBytes(store, ds, slices[0]), Gather(store, ds, slices[1..]);
      if b.None? || rest.None? then None else Some(b.value + rest.value)
  }

  // The values of an array at the given coordinates, joined.
  ghost function Concat(a: seq<nat> -> seq<byte>, cs: seq<seq<nat>>): seq<byte> {
    if cs == [] then [] else a(cs[0]) + Concat(a, cs[1..])
  }

  ghost predicate Sized(a: seq<nat> -> seq<byte>, dsz: nat) {
    forall x :: |a(x)| == dsz
  }

  lemma ConcatCons(a: seq<nat> -> seq<byte>, c: seq<nat>, cs: seq<seq<nat>>)
    ensures Concat(a, [c] + cs) == a(c) + Concat(a, cs)
  {
    assert ([c] + cs)[1..] == cs;
  }

  lemma Associate(x: seq<byte>, y: seq<byte>, z: seq<byte>)
    ensures x + (y + z) == (x + y) + z
  {
  }

  lemma {:induction false} ConcatPlus(a: seq<nat> -> seq<byte>, cs: seq<seq<nat>>, ds: seq<seq<nat>>)
    ensures Concat(a, cs + ds) == Concat(a, cs) + Concat(a, ds)
  {
    if cs == [] {
      assert cs + ds == ds;
    } else {
      hide Concat;
      ConcatPlus(a, cs[1..], ds);
      ConcatCons(a, cs[0], cs[1..]);
      ConcatCons(a, cs[0], cs[1..] + ds);
      Associate(a(cs[0]), Concat(a, cs[1..]), Concat(a, ds));
      assert cs == [cs[0]] + cs[1..] && cs + ds == [cs[0]] + (cs[1..] + ds);
    }
  }

  lemma {:induction false} ConcatLength(a: seq<nat> -> seq<byte>, cs: seq<seq<nat>>, dsz: nat)
    requires Sized(a, dsz)
    ensures |Concat(a, cs)| == |cs| * dsz
  {
    if cs != [] {
      ConcatLength(a, cs[1..], dsz);
      assert |cs| * dsz == dsz + (|cs| - 1) * dsz;
    }
  }

  lemma SplitLength(i: nat, j: nat, n: nat, dsz: nat)
    requires i <= j <= n
    ensures i * dsz + (j - i) * dsz == j * dsz && j * dsz <= n * dsz
  {
    MulOrder(j, n, dsz);
  }

  lemma ConcatSlice(a: seq<nat> -> seq<byte>, cs: seq<seq<nat>>, i: nat, j: nat, dsz: nat)
    requires Sized(a, dsz) && i <= j <= |cs|
    ensures |Concat(a, cs)| == |cs| * dsz && i * dsz <= j * dsz <= |cs| * dsz
    ensures Concat(a, cs)[i * dsz..j * dsz] == Concat(a, cs[i..j])
  {
    hide Sized, Concat;
    SplitLength(i, j, |cs|, dsz);
    ConcatLength(a, cs, dsz);
    ConcatLength(a, cs[..i], dsz);
    ConcatLength(a, cs[i..j], dsz);
    ConcatPlus(a, cs[..i], cs[i..j]);
    ConcatPlus(a, cs[..i] + cs[i..j], cs[j..]);
    assert cs == cs[..i] + cs[i..j] + cs[j..];
    Middle(Concat(a, cs[..i]), Concat(a, cs[i..j]), Concat(a, cs[j..]));
  }

  // The coordinates of a whole stored chunk, clipped or not, in stored order.
  ghost function ChunkCoordinates(ds: Dataset, base: seq<nat>): (c: seq<seq<nat>>)
    requires |base| == |ds.chunkShape| && Positive(ds.chunkShape)
    ensures |c| == Prod(ds.chunkShape)
  {
    seq(Prod(ds.chunkShape), j requires 0 <= j < Prod(ds.chunkShape) => Plus(base, Unravel(j, ds.chunkShape)))
  }

  // The file holds the array a: every chunk decodes to a's values.
  ghost predicate Holds(store: Store, ds: Dataset, a: seq<nat> -> seq<byte>)
    requires Datasets.Valid(ds)
  {
    Sized(a, ds.dsize) &&
    forall c :: c in ds.chunks ==> Decoded(store, ds, c) == Some(Concat(a, ChunkCoordinates(ds, c.offset)))
  }

  lemma CutCovered(ds: Dataset, q: Request, g: Slice)
    requires |g.chunk.offset| == |ds.chunkShape| && q.Valid() && q.chunkShape == ds.chunkShape
    requires g.start <= g.end <= Prod(ds.chunkShape)
    ensures |ChunkCoordinates(ds, g.chunk.offset)| == Prod(ds.chunkShape)
    ensures ChunkCoordinates(ds, g.chunk.offset)[g.start..g.end] == Covered(q, g.chunk.offset, g.start, g.end - g.start)
  {
    hide Prod, Unravel;
    var x, y := ChunkCoordinates(ds, g.chunk.offset)[g.start..g.end],
        Covered(q, g.chunk.offset, g.start, g.end - g.start);
    forall i | 0 <= i < |x| ensures x[i] == y[i] {
      assert x[i] == ChunkCoordinates(ds, g.chunk.offset)[g.start + i];
    }
  }

  // A slice inside a chunk holds the values at the coordinates it covers.
  lemma SliceHolds(store: Store, ds: Dataset, q: Request, a: seq<nat> -> seq<byte>, g: Slice)
    requires Datasets.Valid(ds) && Holds(store, ds, a) && g.chunk in ds.chunks
    requires q.Valid() && q.chunkShape == ds.chunkShape
    requires g.start <= g.end <= Prod(ds.chunkShape)
    ensures SliceBytes(store, ds, g) == Some(Concat(a, Covered(q, g.chunk.offset, g.start, g.end - g.start)))
  {
    hide Prod, ReadChunk;
    var cs := ChunkCoordinates(ds, g.chunk.offset);
    CutCovered(ds, q, g);
    hide Datasets.Valid, ChunkCoordinates, Covered, Concat;
    ConcatSlice(a, cs, g.start, g.end, ds.dsize);
  }

  lemma WantedSplit(q: Request, from: nat, k: nat, n: nat)
    requires q.Valid() && k <= n
    ensures Wanted(q, from, n) == Wanted(q, from, k) + Wanted(q, from + k, n - k)
  {
    hide Asked;
    var x, y := Wanted(q, from, n), Wanted(q, from, k) + Wanted(q, from + k, n - k);
    forall i | 0 <= i < n ensures x[i] == y[i] {}
  }

  lemma ConcatNone(a: seq<nat> -> seq<byte>)
    ensures Concat(a, []) == []
  {
  }

  // Slices that read a stretch of the request hold its values.
  lemma {:induction false} GatherReads(store: Store, ds: Dataset, q: Request, a: seq<nat> -> seq<byte>,
                                       slices: seq<Slice>, segments: seq<Segment>, from: nat, n: nat)
    requires Datasets.Valid(ds) && Holds(store, ds, a) && q.Valid() && q.chunkShape == ds.chunkShape
    requires Matches(ds, slices, segments) && Reads(q, segments, from, n)
    ensures Gather(store, ds, slices) == Some(Concat(a, Wanted(q, from, n)))
    decreases |slices|
  {
    hide Holds, Datasets.Valid, Covered, Concat, SliceBytes, Prod;
    if slices == [] {
      assert Wanted(q, from, n) == [];
      ConcatNone(a);
    } else {
      var g := slices[0];
      var k := g.end - g.start;
      assert Segment(g.chunk.offset, g.start, g.end) == segments[0];
      SliceHolds(store, ds, q, a, g);
      GatherReads(store, ds, q, a, slices[1..], segments[1..], from + k, n - k);
      WantedSplit(q, from, k, n);
      ConcatPlus(a, Wanted(q, from, k), Wanted(q, from + k, n - k));
    }
  }

  // Gathering the slices of a regular request gives the values of the requested box in
  // row-major order, and nothing faults.
  lemma GatherRegular(store: Store, ds: Dataset, indices: seq<nat>, counts: seq<nat>, a: seq<nat> -> seq<byte>)
    requires Datasets.Valid(ds) && Holds(store, ds, a) && RequestOf(ds, indices, counts).Valid()
    requires RegularIn(ds.build, RequestOf(ds, indices, counts))
    ensures var q, p := RequestOf(ds, indices, counts), PlanOf(ds, indices, counts);
            p.ok && Gather(store, ds, p.slices) == Some(Concat(a, Wanted(q, 0, q.End())))
  {
    var q := RequestOf(ds, indices, counts);
    BoundsValid(ds, indices, counts);
    hide RegularIn, Holds, Datasets.Valid, RunIn, PlanFrom, Gather, Wanted, Reads;
    RegularReads(ds.build, q);
    PlanIsRun(ds, q, Origin(q));
    GatherReads(store, ds, q, a, PlanFrom(ds, q, Origin(q)).slices, RunIn(ds.build, q, Origin(q)).segments, 0, q.End());
  }

  // The j-th value of the result is the array's value at indices + unravel(j, counts).
  lemma ValueAt(q: Request, a: seq<nat> -> seq<byte>, dsz: nat, j: nat)
    requires q.Valid() && Sized(a, dsz) && j < q.End()
    ensures var b := Concat(a, Wanted(q, 0, q.End()));
            && |b| == q.End() * dsz && j * dsz <= (j + 1) * dsz <= |b|
            && b[j * dsz..(j + 1) * dsz] == a(Plus(q.indices, Unravel(j, q.counts)))
  {
    hide Sized, Prod;
    var w := Wanted(q, 0, q.End());
    ConcatSlice(a, w, j, j + 1, dsz);
    assert w[j..j + 1] == [Asked(q, j)];
    assert Concat(a, [Asked(q, j)]) == a(Asked(q, j)) + Concat(a, []);
  }

  // What has been gathered so far, before what is still to come.
  ghost function Joined(done: seq<byte>, rest: Option<seq<byte>>): Option<seq<byte>> {
    if rest.None? then None else Some(done + rest.value)
  }

  // Taking the first slice of a plan.
  lemma GatherHead(store: Store, ds: Dataset, p: Plan, g: Slice, rest: Plan, done: seq<byte>)
    requires p == Before(g, rest)
    ensures p.ok == rest.ok
    ensures Joined(done, Gather(store, ds, p.slices))
         == if SliceBytes(store, ds, g).None? then None
            else Joined(done + SliceBytes(store, ds, g).value, Gather(store, ds, rest.slices))
  {
    hide SliceBytes;
    assert p.slices[0] == g && p.slices[1..] == rest.slices;
    var b, r := SliceBytes(store, ds, g), Gather(store, ds, rest.slices);
    if b.Some? && r.Some? {
      assert done + (b.value + r.value) == (done + b.value) + r.value;
    }
  }

  lemma GatherNone(store: Store, ds: Dataset)
    ensures Gather(store, ds, []) == Some([])
  {
  }

  // The chunk is stored in the file as the dataset's filters say.
  ghost predicate WrittenChunk(store: Store, ds: Dataset, a: seq<nat> -> seq<byte>,
                               deflate: seq<byte> -> seq<byte>, c: Chunk)
    requires |c.offset| == |ds.chunkShape| && Positive(ds.chunkShape)
  {
    && c.addr + c.size <= |store.file|
    && StoredAs(deflate, Concat(a, ChunkCoordinates(ds, c.offset)), ds.dsize, ds.shuffle, ds.gzip,
                store.file[c.addr..c.addr + c.size])
  }

  ghost predicate Written(store: Store, ds: Dataset, a: seq<nat> -> seq<byte>, deflate: seq<byte> -> seq<byte>)
    requires Datasets.Valid(ds)
  {
    forall c :: c in ds.chunks ==> WrittenChunk(store, ds, a, deflate, c)
  }

  lemma ReadWhole(store: Store, addr: nat, size: nat, l: Layout)
    requires addr + size <= |store.file|
    ensures ReadChunk(store, addr, size, l) == Decode(store.inflate, store.file[addr..addr + size], l)
  {
  }

  lemma WrittenDecodes(store: Store, ds: Dataset, a: seq<nat> -> seq<byte>, deflate: seq<byte> -> seq<byte>, c: Chunk)
    requires |c.offset| == |ds.chunkShape| && Positive(ds.chunkShape) && Sized(a, ds.dsize)
    requires WrittenChunk(store, ds, a, deflate, c)
    requires ds.shuffle && ds.dsize > 1 ==> ds.dsize in {2, 4, 8}
    requires forall s: seq<byte> :: |s| == Prod(ds.chunkShape) * ds.dsize ==> store.inflate(deflate(s)) == Some(s)
    ensures Decoded(store, ds, c) == Some(Concat(a, ChunkCoordinates(ds, c.offset)))
  {
    hide Prod, Concat, Sized, StoredAs, Decode, ChunkCoordinates, ReadChunk;
    ConcatLength(a, ChunkCoordinates(ds, c.offset), ds.dsize);
    DecodeStored(store.inflate, deflate, Concat(a, ChunkCoordinates(ds, c.offset)), LayoutOf(ds),
      store.file[c.addr..c.addr + c.size]);
    ReadWhole(store, c.addr, c.size, LayoutOf(ds));
  }

  // A file that was written from a, with the filters of the dataset, holds a, if inflate inverts deflate.
  lemma WrittenHolds(store: Store, ds: Dataset, a: seq<nat> -> seq<byte>, deflate: seq<byte> -> seq<byte>)
    requires Datasets.Valid(ds) && Written(store, ds, a, deflate) && Sized(a, ds.dsize)
    requires ds.shuffle && ds.dsize > 1 ==> ds.dsize in {2, 4, 8}
    requires forall s: seq<byte> :: |s| == Prod(ds.chunkShape) * ds.dsize ==> store.inflate(deflate(s)) == Some(s)
    ensures Holds(store, ds, a)
  {
    hide Prod, WrittenChunk, Decoded, Concat, Sized, ChunkCoordinates;
    forall c | c in ds.chunks ensures Decoded(store, ds, c) == Some(Concat(a, ChunkCoordinates(ds, c.offset))) {
      WrittenDecodes(store, ds, a, deflate, c);
    }
  }
}
