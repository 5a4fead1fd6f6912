// The reader that keeps decoded chunks in a cache across requests.
module CacheReaders {
  import opened Radix
  import opened Slicing
  import opened Chunks
  import opened Datasets
  import opened Delivery
  import opened Slicers
  import opened Builds
  import opened Options
  import opened Bytes
  import opened Storage
  import opened Gathering
  import opened Caches

  ghost predicate EntryOf(store: Store, ds: Dataset, e: Entry) {
    exists c :: c in ds.chunks && c.addr == e.addr && Decoded(store, ds, c) == Some(e.bytes)
  }

  // Every entry is the decoded chunk at its address.
  ghost predicate Faithful(store: Store, ds: Dataset, cache: seq<Entry>) {
    forall e :: e in cache ==> EntryOf(store, ds, e)
  }

  lemma HitIsDecoded(store: Store, ds: Dataset, cache: seq<Entry>, c: Chunk)
    requires Datasets.Valid(ds) && Faithful(store, ds, cache) && c in ds.chunks && Find(cache, c.addr).Some?
    ensures Decoded(store, ds, c) == Find(cache, c.addr)
  {
    hide Decoded;
    var e := Entry(c.addr, Find(cache, c.addr).value);
    assert EntryOf(store, ds, e);
    var d :| d in ds.chunks && d.addr == c.addr && Decoded(store, ds, d) == Some(e.bytes);
    var i :| 0 <= i < |ds.chunks| && ds.chunks[i] == c;
    var j :| 0 <= j < |ds.chunks| && ds.chunks[j] == d;
    assert i == j;
  }

  // The bytes a read leaves in the destination: the gathered ones, then what was there.
  ghost predicate ReadDone(b: Option<seq<byte>>, was: seq<byte>, now: seq<byte>) {
    b.Some? && |b.value| <= |was| && now == b.value + was[|b.value|..]
  }

  // A read that succeeds has written the expected bytes; it fails exactly when these cannot
  // be had, or do not fit. Too small a destination is left alone.
  ghost predicate Outcome(b: Option<seq<byte>>, vsz: nat, r: Option<nat>, was: seq<byte>, now: seq<byte>) {
    && (r.Some? <==> vsz <= |was| && b.Some? && |b.value| <= |was|)
    && (r.Some? ==> r.value == vsz && ReadDone(b, was, now))
    && (vsz > |was| ==> now == was)
  }

  ghost function Expected(store: Store, ds: Dataset, indices: seq<nat>, counts: seq<nat>): Option<seq<byte>>
    requires Datasets.Valid(ds)
  {
    var p := PlanOf(ds, indices, counts);
    if p.ok then Gather(store, ds, p.slices) else None
  }

  // done was written; together with the rest of the plan it makes up the total.
  ghost predicate Progress(store: Store, ds: Dataset, total: Option<seq<byte>>, done: seq<byte>, rest: Plan) {
    total == if rest.ok then Joined(done, Gather(store, ds, rest.slices)) else None
  }

  lemma LayoutPositive(ds: Dataset)
    requires Datasets.Valid(ds)
    ensures Prod(ds.chunkShape) * ds.dsize > 0
  {
    ProdPositive(ds.chunkShape);
    hide Prod;
  }

  ghost function LayoutSize(ds: Dataset): (n: nat)
    requires Datasets.Valid(ds)
    ensures n > 0
  {
    LayoutPositive(ds);
    Prod(ds.chunkShape) * ds.dsize
  }

  lemma ProgressStart(store: Store, ds: Dataset, p: Plan)
    ensures Progress(store, ds, if p.ok then Gather(store, ds, p.slices) else None, [], p)
  {
    hide Gather;
    var b := Gather(store, ds, p.slices);
    assert b.Some? ==> [] + b.value == b.value;
  }

  class CacheReader {
    const ds: Dataset
    const store: Store
    const capacity: nat
    var cache: seq<Entry>

    ghost predicate Valid()
      reads this
    {
      && Datasets.Valid(ds) && capacity > 0
      && |cache| <= capacity && Faithful(store, ds, cache)
    }

    constructor WithDataset(ds: Dataset, store: Store)
      requires Datasets.Valid(ds)
      ensures Valid() && this.ds == ds && this.store == store && cache == []
      ensures capacity == CapacityFor(LayoutSize(ds))
    {
      LayoutPositive(ds);
      this.ds := ds;
      this.store := store;
      capacity := CapacityFor(Prod(ds.chunkShape) * ds.dsize);
      cache := [];
    }

    // The decoded chunk, from the cache or the file.
    method Fetch(c: Chunk) returns (r: Option<seq<byte>>)
      requires Valid() && c in ds.chunks
      modifies this`cache
      ensures Valid() && r == Decoded(store, ds, c)
      ensures cache == if r.Some? then Accessed(old(cache), capacity, c.addr, r.value) else old(cache)
    {
      hide Datasets.Valid, ReadChunk;
      r := Find(cache, c.addr);
      if r.Some? {
        HitIsDecoded(store, ds, cache, c);
        TouchLength(cache, c.addr, r.value);
        cache := Touch(cache, c.addr, r.value);
      } else {
        r := ReadChunkAt(store, c.addr, c.size, LayoutOf(ds));
        if r.Some? {
          assert EntryOf(store, ds, Entry(c.addr, r.value));
          cache := Put(cache, capacity, c.addr, r.value);
        }
      }
    }

    // The bytes of one slice.
    method FetchSlice(g: Slice) returns (r: Option<seq<byte>>)
      requires Valid() && g.chunk in ds.chunks
      modifies this`cache
      ensures Valid() && r == SliceBytes(store, ds, g)
    {
      hide Datasets.Valid, Decoded, Faithful;
      r := Fetch(g.chunk);
      if r.Some? {
        r := Cut(r.value, g.start * ds.dsize, g.end * ds.dsize);
      }
    }

    // One pass of the loop over the slices: ok is false on an error.
    method ReadSlice(slicer: ChunkSlicer, dst: array<byte>, pos: nat, ghost total: Option<seq<byte>>)
      returns (more: bool, ok: bool, pos': nat)
      requires Valid() && slicer.Valid() && slicer.ds == ds && pos <= dst.Length
      requires slicer.offsetCoords as object != dst
      requires Progress(store, ds, total, dst[..pos], slicer.Remaining())
      modifies this`cache, dst, slicer`offset, slicer.offsetCoords
      ensures Valid()
      ensures !ok ==> total.None? || |total.value| > dst.Length
      ensures ok ==> slicer.Valid() && pos <= pos' <= dst.Length && dst[pos'..] == old(dst[..])[pos'..]
      ensures ok ==> Progress(store, ds, total, dst[..pos'], slicer.Remaining())
      ensures ok && more ==> |slicer.Remaining().slices| < |old(slicer.Remaining()).slices|
      ensures ok && !more ==> slicer.Remaining() == Plan([], true)
    {
      hide Datasets.Valid, Gather, SliceBytes, Decoded, PlanFrom, Faithful;
      ghost var rest := slicer.Remaining();
      var item := slicer.Next();
      match item
      case Done => return false, true, pos;
      case Overflow => return false, false, pos;
      case Item(c, start, end) =>
        GatherHead(store, ds, rest, Slice(c, start, end), slicer.Remaining(), dst[..pos]);
        var bytes := FetchSlice(Slice(c, start, end));
        if bytes.None? || pos + |bytes.value| > dst.Length {
          return false, false, pos;
        }
        ghost var done := dst[..pos];
        CopyTo(dst, pos, bytes.value);
        pos' := pos + |bytes.value|;
        assert dst[..pos'] == done + bytes.value;
        return true, true, pos';
    }

    method ReadSlices(slicer: ChunkSlicer, dst: array<byte>, ghost total: Option<seq<byte>>) returns (ok: bool)
      requires Valid() && slicer.Valid() && slicer.ds == ds && slicer.offsetCoords as object != dst
      requires Progress(store, ds, total, [], slicer.Remaining())
      modifies this`cache, dst, slicer`offset, slicer.offsetCoords
      ensures Valid()
      ensures if ok then ReadDone(total, old(dst[..]), dst[..]) else total.None? || |total.value| > dst.Length
    {
      hide Datasets.Valid, Gather, Faithful, PlanFrom;
      var pos: nat, more := 0, true;
      ok := true;
      assert dst[..0] == [];
      while more
        invariant ok && pos <= dst.Length && Valid() && dst[pos..] == old(dst[..])[pos..]
        invariant slicer.Valid()
        invariant Progress(store, ds, total, dst[..pos], slicer.Remaining())
        invariant !more ==> slicer.Remaining() == Plan([], true)
        decreases |slicer.Remaining().slices|, more
      {
        hide Progress;
        more, ok, pos := ReadSlice(slicer, dst, pos, total);
        if !ok {
          return;
        }
      }
      GatherNone(store, ds);
      assert dst[..] == dst[..pos] + dst[pos..];
    }

    // The result and the bytes written do not depend on the cache, nor on its capacity.
    method ReadTo(indices: seq<nat>, counts: seq<nat>, dst: array<byte>) returns (r: Option<nat>)
      requires Valid()
      modifies this`cache, dst
      ensures Valid()
      ensures Outcome(Expected(store, ds, indices, counts), Mul(Prod(counts), ds.dsize), r, old(dst[..]), dst[..])
    {
      hide Datasets.Valid, Prod, Mul, Faithful, PlanOf, Gather;
      var vsz := Mul(Prod(counts), ds.dsize);
      if dst.Length < vsz {
        return None;
      }
      var slicer := ChunkSlices(ds, indices, counts);
      ProgressStart(store, ds, slicer.Remaining());
      var ok := ReadSlices(slicer, dst, Expected(store, ds, indices, counts));
      r := if ok then Some(vsz) else None;
    }
  }

  // For a regular request on a file that holds the array a, the expected bytes are a's values
  // on the requested box, in row-major order.
  lemma ExpectedRegular(store: Store, ds: Dataset, indices: seq<nat>, counts: seq<nat>, a: seq<nat> -> seq<byte>)
    requires Datasets.Valid(ds) && Gathering.Holds(store, ds, a) && RequestOf(ds, indices, counts).Valid()
    requires RegularIn(ds.build, RequestOf(ds, indices, counts))
    ensures var q := RequestOf(ds, indices, counts);
            && Expected(store, ds, indices, counts) == Some(Concat(a, Wanted(q, 0, q.End())))
            && |Concat(a, Wanted(q, 0, q.End()))| == q.End() * ds.dsize
  {
    GatherRegular(store, ds, indices, counts, a);
    hide Datasets.Valid;
    var q := RequestOf(ds, indices, counts);
    ConcatLength(a, Wanted(q, 0, q.End()), ds.dsize);
  }

  // The decoded bytes kept in memory.
  lemma CacheBound(reader: CacheReader, a: seq<nat> -> seq<byte>)
    requires reader.Valid() && Gathering.Holds(reader.store, reader.ds, a)
    requires reader.capacity == CapacityFor(LayoutSize(reader.ds))
    ensures TotalBytes(reader.cache) <= CACHE_SZ || TotalBytes(reader.cache) <= LayoutSize(reader.ds)
  {
    var ds, sz := reader.ds, LayoutSize(reader.ds);
    forall e | e in reader.cache ensures |e.bytes| <= sz {
      assert EntryOf(reader.store, ds, e);
      var c :| c in ds.chunks && c.addr == e.addr && Decoded(reader.store, ds, c) == Some(e.bytes);
      ConcatLength(a, ChunkCoordinates(ds, c.offset), ds.dsize);
    }
    CapacityBound(reader.cache, sz, sz, 1);
  }

  ghost predicate ValueIn(ds: Dataset, indices: seq<nat>, counts: seq<nat>, a: seq<nat> -> seq<byte>,
                          now: seq<byte>, j: nat) {
    && |indices| == |counts| && Positive(counts)
    && j * ds.dsize <= (j + 1) * ds.dsize <= |now|
    && now[j * ds.dsize..(j + 1) * ds.dsize] == a(Plus(indices, Unravel(j, counts)))
  }

  lemma HoldsSized(store: Store, ds: Dataset, a: seq<nat> -> seq<byte>)
    requires Datasets.Valid(ds) && Gathering.Holds(store, ds, a)
    ensures Sized(a, ds.dsize)
  {
  }

  lemma PrefixSlice(s: seq<byte>, b: seq<byte>, i: nat, j: nat)
    requires |b| <= |s| && s[..|b|] == b && i <= j <= |b|
    ensures s[i..j] == b[i..j]
  {
    forall k | 0 <= k < j - i ensures s[i..j][k] == b[i..j][k] {
      assert s[i + k] == s[..|b|][i + k];
    }
  }

  lemma ReadValue(ds: Dataset, q: Request, a: seq<nat> -> seq<byte>, b: seq<byte>, now: seq<byte>, j: nat)
    requires q.Valid() && Sized(a, ds.dsize) && b == Concat(a, Wanted(q, 0, q.End())) && j < q.End()
    requires |b| <= |now| && now[..|b|] == b
    ensures ValueIn(ds, q.indices, q.counts, a, now, j)
  {
    hide Sized, Prod;
    ValueAt(q, a, ds.dsize, j);
    PrefixSlice(now, b, j * ds.dsize, (j + 1) * ds.dsize);
  }

  // A read of a request that is empty or out of bounds succeeds, if the destination is long enough
  // for the counts, and writes nothing.
  lemma ReadNothing(store: Store, ds: Dataset, indices: seq<nat>, counts: seq<nat>, r: Option<nat>,
                    was: seq<byte>, now: seq<byte>)
    requires Datasets.Valid(ds) && |indices| == |counts| == |ds.shape|
    requires exists k :: 0 <= k < |counts| && (counts[k] == 0 || indices[k] + counts[k] > ds.shape[k])
    requires Outcome(Expected(store, ds, indices, counts), Mul(Prod(counts), ds.dsize), r, was, now)
    ensures now == was && r == if Mul(Prod(counts), ds.dsize) <= |was| then Some(Mul(Prod(counts), ds.dsize)) else None
  {
    PlanEmpty(ds, indices, counts);
    GatherNone(store, ds);
    hide Datasets.Valid, PlanOf, Prod, Mul;
  }

  // What a read of a regular request leaves in a destination that is long enough: at place j the
  // value of the array at indices + unravel(j, counts), and behind the last one what was there.
  lemma ReadValues(store: Store, ds: Dataset, indices: seq<nat>, counts: seq<nat>, a: seq<nat> -> seq<byte>,
                   r: Option<nat>, was: seq<byte>, now: seq<byte>)
    requires Datasets.Valid(ds) && Gathering.Holds(store, ds, a) && RequestOf(ds, indices, counts).Valid()
    requires RegularIn(ds.build, RequestOf(ds, indices, counts))
    requires Outcome(Expected(store, ds, indices, counts), Mul(Prod(counts), ds.dsize), r, was, now)
    requires Mul(Prod(counts), ds.dsize) <= |was|
    ensures r == Some(Mul(Prod(counts), ds.dsize)) && |now| == |was|
    ensures forall j: nat :: j < Prod(counts) ==> ValueIn(ds, indices, counts, a, now, j)
    ensures now[Mul(Prod(counts), ds.dsize)..] == was[Mul(Prod(counts), ds.dsize)..]
  {
    var q := RequestOf(ds, indices, counts);
    ExpectedRegular(store, ds, indices, counts, a);
    HoldsSized(store, ds, a);
    hide Datasets.Valid, Expected, RegularIn, Gathering.Holds, Prod, Sized;
    var b := Concat(a, Wanted(q, 0, q.End()));
    forall j: nat | j < Prod(counts) ensures ValueIn(ds, indices, counts, a, now, j) {
      ReadValue(ds, q, a, b, now, j);
    }
  }
}
