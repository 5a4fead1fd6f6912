// The reader that takes the slices in file order.
module DirectReaders {
  import opened Radix
  import opened Slicing
  import opened Chunks
  import opened Datasets
  import opened Sorting
  import opened Stops
  import opened Slicers
  import opened Builds
  import opened Options
  import opened Bytes
  import opened Storage
  import opened Gathering
  import opened Scattering
  import opened CacheReaders

  predicate AddrLe(a: Tagged, b: Tagged) {
    a.slice.chunk.addr <= b.slice.chunk.addr
  }

  // The slices of a plan run forwards, on chunks of the dataset.
  ghost predicate Proper(ds: Dataset, slices: seq<Slice>) {
    forall g :: g in slices ==> g.start <= g.end && g.chunk in ds.chunks
  }

  lemma {:induction false} PlanProper(ds: Dataset, q: Request, cur: Cursor)
    requires Serves(ds, q, cur.coords)
    ensures Proper(ds, PlanFrom(ds, q, cur).slices)
    decreases q.End() - cur.offset
  {
    hide NextIn, Datasets.Valid, ChunkAtCoord, Radix.Prod, BaseAt, PlanFrom;
    if cur.offset < q.End() {
      PlanStep(ds, q, cur);
      var r := NextIn(ds.build, q, BaseAt(q, cur.coords), cur);
      if r.Deliver? {
        PlanProper(ds, q, r.next);
      }
    } else {
      PlanDone(ds, q, cur);
    }
  }

  lemma PlanOfProper(ds: Dataset, indices: seq<nat>, counts: seq<nat>)
    requires Datasets.Valid(ds)
    ensures Proper(ds, PlanOf(ds, indices, counts).slices)
  {
    hide PlanFrom;
    if InBounds(ds, indices, counts) {
      PlanProper(ds, RequestOf(ds, indices, counts), Delivery.Origin(RequestOf(ds, indices, counts)));
    }
  }

  // The tagged slices sorted by file address; equal addresses in any order.
  method GroupChunkSlices(ds: Dataset, indices: seq<nat>, counts: seq<nat>) returns (r: Option<seq<Tagged>>)
    requires Datasets.Valid(ds)
    ensures r.Some? <==> PlanOf(ds, indices, counts).ok
    ensures r.Some? ==> multiset(r.value) == multiset(Tag(PlanOf(ds, indices, counts).slices, 0))
    ensures r.Some? ==> SortedBy(r.value, AddrLe)
  {
    hide Datasets.Valid, PlanOf, Tag;
    var slicer := ChunkSlices(ds, indices, counts);
    var slices := Collect(slicer);
    if slices.None? {
      return None;
    }
    var sorted := Sort(Tag(slices.value, 0), AddrLe);
    r := Some(sorted);
  }

  // The loop of the sequential reader has dealt with the first i tagged slices.
  ghost predicate Settled(ds: Dataset, target: seq<byte>, was: seq<byte>, now: seq<byte>, ts: seq<Tagged>) {
    && |target| <= |was| == |now| && now[|target|..] == was[|target|..]
    && forall p :: 0 <= p < |target| ==> now[p] == target[p] || Pending(ds, ts, p)
  }

  // Writing a slice that agrees with the target settles its bytes and spoils no others.
  lemma SettleStep(store: Store, ds: Dataset, target: seq<byte>, was: seq<byte>, now: seq<byte>, ts: seq<Tagged>,
                   next: seq<byte>)
    requires Settled(ds, target, was, now, ts) && ts != [] && Agrees(store, ds, ts[0], target)
    requires ts[0].slice.start <= ts[0].slice.end
    requires var b, at := SliceBytes(store, ds, ts[0].slice).value, ts[0].current * ds.dsize;
             at + |b| <= |now| && next == now[..at] + b + now[at + |b|..]
    ensures Settled(ds, target, was, next, ts[1..])
  {
    hide SliceBytes, Covers;
    var t := ts[0];
    var b, at := SliceBytes(store, ds, t.slice).value, t.current * ds.dsize;
    forall p | 0 <= p < |target| ensures next[p] == target[p] || Pending(ds, ts[1..], p) {
      if at <= p < at + |b| {
        assert target[p] == target[at..at + |b|][p - at];
      } else {
        SliceCovers(store, ds, t, p);
        assert next[p] == now[p];
        if Pending(ds, ts, p) {
          var k :| 0 <= k < |ts| && Covers(ds, ts[k], p);
          assert ts[1..][k - 1] == ts[k];
        }
      }
    }
  }

  lemma {:induction false} TagSlice(slices: seq<Slice>, offset: nat, t: Tagged)
    requires t in Tag(slices, offset)
    ensures t.slice in slices
  {
    var g := slices[0];
    var next := offset + if g.start <= g.end then g.end - g.start else 0;
    if t != Tagged(g, offset) {
      TagSlice(slices[1..], next, t);
    }
  }

  // ts are the tagged slices of a plan, in some order.
  ghost predicate Shuffling(ds: Dataset, slices: seq<Slice>, ts: seq<Tagged>) {
    Proper(ds, slices) && multiset(ts) == multiset(Tag(slices, 0))
  }

  lemma ShuffledProper(ds: Dataset, slices: seq<Slice>, ts: seq<Tagged>, k: nat)
    requires Shuffling(ds, slices, ts) && k < |ts|
    ensures ts[k].slice in slices && ts[k].slice.chunk in ds.chunks && ts[k].slice.start <= ts[k].slice.end
  {
    SameElements(ts, Tag(slices, 0));
    assert ts[k] in ts;
    TagSlice(slices, 0, ts[k]);
  }

  // When the target can be had, every tagged slice agrees with it.
  lemma ShuffledAgrees(store: Store, ds: Dataset, slices: seq<Slice>, ts: seq<Tagged>, k: nat)
    requires Shuffling(ds, slices, ts) && k < |ts| && Gather(store, ds, slices).Some?
    ensures Agrees(store, ds, ts[k], Gather(store, ds, slices).value)
  {
    hide Gather, Agrees;
    var tags := Tag(slices, 0);
    SameElements(ts, tags);
    assert ts[k] in ts;
    var j :| 0 <= j < |tags| && tags[j] == ts[k];
    TagAgrees(store, ds, slices, 0, [], j);
    assert [] + Gather(store, ds, slices).value == Gather(store, ds, slices).value;
  }

  // Before the first write every byte of the target is still to be written.
  lemma ShuffledPending(store: Store, ds: Dataset, slices: seq<Slice>, ts: seq<Tagged>, was: seq<byte>)
    requires Shuffling(ds, slices, ts) && Gather(store, ds, slices).Some?
    requires |Gather(store, ds, slices).value| <= |was|
    ensures Settled(ds, Gather(store, ds, slices).value, was, was, ts)
  {
    hide Gather, Covers, Tag;
    var target := Gather(store, ds, slices).value;
    SameElements(ts, Tag(slices, 0));
    forall p | 0 <= p < |target| ensures Pending(ds, ts, p) {
      var k := TagCovers(store, ds, slices, 0, p);
      assert Tag(slices, 0)[k] in ts;
    }
  }

  // When every tagged slice fits, the target can be had and fits.
  lemma ShuffledFit(store: Store, ds: Dataset, slices: seq<Slice>, ts: seq<Tagged>, n: nat)
    requires Shuffling(ds, slices, ts) && forall j :: 0 <= j < |ts| ==> Fits(store, ds, ts[j], n)
    ensures Gather(store, ds, slices).Some? && |Gather(store, ds, slices).value| <= n
  {
    hide Gather, Fits, Tag;
    SameElements(ts, Tag(slices, 0));
    forall t | t in Tag(slices, 0) ensures Fits(store, ds, t, n) {
      assert t in ts;
    }
    AllFit(store, ds, slices, 0, n);
  }

  ghost predicate Increasing(s: seq<nat>) {
    forall i, j :: 0 <= i < j < |s| ==> s[i] < s[j]
  }

  // The chunk read last is kept: it is the chunk of the slice before, and its address is the last one read.
  datatype Last = Last(chunk: Chunk, bytes: seq<byte>)

  ghost predicate ReadsOnce(store: Store, ds: Dataset, ts: seq<Tagged>, i: nat, last: Option<Last>, addrs: seq<nat>)
    requires i <= |ts|
  {
    && Increasing(addrs)
    && (forall a :: a in addrs <==> exists k :: 0 <= k < i && ts[k].slice.chunk.addr == a)
    && (last.None? <==> addrs == [])
    && (last.Some? ==> last.value.chunk in ds.chunks && Decoded(store, ds, last.value.chunk) == Some(last.value.bytes)
                       && last.value.chunk.addr == addrs[|addrs| - 1])
  }

  lemma SameAddress(ds: Dataset, c: Chunk, d: Chunk)
    requires Datasets.Valid(ds) && c in ds.chunks && d in ds.chunks && c.addr == d.addr
    ensures c == d
  {
    var i :| 0 <= i < |ds.chunks| && ds.chunks[i] == c;
    var j :| 0 <= j < |ds.chunks| && ds.chunks[j] == d;
  }

  // A new address is larger than every one read so far.
  lemma NewRead(ds: Dataset, store: Store, ts: seq<Tagged>, i: nat, last: Option<Last>, addrs: seq<nat>,
                bytes: seq<byte>)
    requires i < |ts| && SortedBy(ts, AddrLe) && ReadsOnce(store, ds, ts, i, last, addrs)
    requires ts[i].slice.chunk in ds.chunks && Decoded(store, ds, ts[i].slice.chunk) == Some(bytes)
    requires last.Some? ==> last.value.chunk.addr != ts[i].slice.chunk.addr
    ensures ReadsOnce(store, ds, ts, i + 1, Some(Last(ts[i].slice.chunk, bytes)), addrs + [ts[i].slice.chunk.addr])
  {
    hide Decoded;
    var a := ts[i].slice.chunk.addr;
    if addrs != [] {
      var b := addrs[|addrs| - 1];
      assert b in addrs;
      var k :| 0 <= k < i && ts[k].slice.chunk.addr == b;
      assert AddrLe(ts[k], ts[i]);
    }
    forall x ensures x in addrs + [a] <==> exists k :: 0 <= k < i + 1 && ts[k].slice.chunk.addr == x {
      if x in addrs {
        var k :| 0 <= k < i && ts[k].slice.chunk.addr == x;
      }
      if x == a { assert ts[i].slice.chunk.addr == x; }
    }
  }

  lemma OldRead(ds: Dataset, store: Store, ts: seq<Tagged>, i: nat, last: Option<Last>, addrs: seq<nat>)
    requires i < |ts| && ReadsOnce(store, ds, ts, i, last, addrs)
    requires last.Some? && last.value.chunk.addr == ts[i].slice.chunk.addr
    ensures ReadsOnce(store, ds, ts, i + 1, last, addrs)
  {
    hide Decoded;
    var a := ts[i].slice.chunk.addr;
    assert a in addrs;
    forall x ensures x in addrs <==> exists k :: 0 <= k < i + 1 && ts[k].slice.chunk.addr == x {
      if x in addrs {
        var k :| 0 <= k < i && ts[k].slice.chunk.addr == x;
      }
    }
  }

  // The decoded chunk of a slice: the kept one if it is at the same address, else read anew.
  method FetchOrKeep(store: Store, ds: Dataset, ts: seq<Tagged>, i: nat, last: Option<Last>, addrs: seq<nat>)
    returns (last': Option<Last>, addrs': seq<nat>)
    requires Datasets.Valid(ds) && i < |ts| && SortedBy(ts, AddrLe) && ts[i].slice.chunk in ds.chunks
    requires ReadsOnce(store, ds, ts, i, last, addrs)
    ensures last'.None? ==> Decoded(store, ds, ts[i].slice.chunk).None?
    ensures last'.Some? ==> ReadsOnce(store, ds, ts, i + 1, last', addrs')
                            && Decoded(store, ds, ts[i].slice.chunk) == Some(last'.value.bytes)
  {
    hide Datasets.Valid, ReadChunk;
    var c := ts[i].slice.chunk;
    if last.Some? && last.value.chunk.addr == c.addr {
      SameAddress(ds, last.value.chunk, c);
      OldRead(ds, store, ts, i, last, addrs);
      return last, addrs;
    }
    var bytes := ReadChunkAt(store, c.addr, c.size, LayoutOf(ds));
    if bytes.None? {
      return None, addrs;
    }
    NewRead(ds, store, ts, i, last, addrs, bytes.value);
    return Some(Last(c, bytes.value)), addrs + [c.addr];
  }

  // The bytes still to be written, if they can be had at all.
  ghost predicate Going(ds: Dataset, target: Option<seq<byte>>, was: seq<byte>, now: seq<byte>, ts: seq<Tagged>) {
    |now| == |was| && (target.Some? && |target.value| <= |was| ==> Settled(ds, target.value, was, now, ts))
  }

  // Writing one tagged slice: ok is false if its bytes cannot be had, or do not fit.
  method WriteSlice(store: Store, ds: Dataset, ghost slices: seq<Slice>, ts: seq<Tagged>, i: nat, cache: seq<byte>,
                    dst: array<byte>, ghost was: seq<byte>)
    returns (ok: bool)
    requires Shuffling(ds, slices, ts) && i < |ts|
    requires Decoded(store, ds, ts[i].slice.chunk) == Some(cache)
    requires Going(ds, Gather(store, ds, slices), was, dst[..], ts[i..])
    modifies dst
    ensures ok <==> Fits(store, ds, ts[i], dst.Length)
    ensures ok ==> Going(ds, Gather(store, ds, slices), was, dst[..], ts[i + 1..])
  {
    hide Decoded, Gather, Settled, Agrees;
    var t := ts[i];
    var b, at := Cut(cache, t.slice.start * ds.dsize, t.slice.end * ds.dsize), t.current * ds.dsize;
    if b.None? || at + |b.value| > dst.Length {
      return false;
    }
    ghost var now := dst[..];
    CopyTo(dst, at, b.value);
    var target := Gather(store, ds, slices);
    if target.Some? && |target.value| <= |was| {
      ShuffledProper(ds, slices, ts, i);
      ShuffledAgrees(store, ds, slices, ts, i);
      SettleStep(store, ds, target.value, was, now, ts[i..], dst[..]);
      assert ts[i..][1..] == ts[i + 1..];
    }
    return true;
  }

  lemma NoReads(store: Store, ds: Dataset, ts: seq<Tagged>)
    ensures ReadsOnce(store, ds, ts, 0, None, [])
  {
  }

  lemma ShuffledFits(store: Store, ds: Dataset, slices: seq<Slice>, ts: seq<Tagged>, k: nat, n: nat)
    requires Shuffling(ds, slices, ts) && k < |ts| && Gather(store, ds, slices).Some?
    ensures Decoded(store, ds, ts[k].slice.chunk).Some?
    ensures |Gather(store, ds, slices).value| <= n ==> Fits(store, ds, ts[k], n)
  {
    hide Gather, Decoded, Shuffling;
    ShuffledAgrees(store, ds, slices, ts, k);
  }

  lemma SettledDone(ds: Dataset, target: seq<byte>, was: seq<byte>, now: seq<byte>, ts: seq<Tagged>)
    requires Settled(ds, target, was, now, ts) && ts == []
    ensures ReadDone(Some(target), was, now)
  {
    assert now == now[..|target|] + now[|target|..];
    assert now[..|target|] == target;
  }

  // The loop over the sorted slices.
  method WriteAll(store: Store, ds: Dataset, ghost slices: seq<Slice>, ts: seq<Tagged>, dst: array<byte>)
    returns (ok: bool, addrs: seq<nat>)
    requires Datasets.Valid(ds) && Shuffling(ds, slices, ts) && SortedBy(ts, AddrLe)
    modifies dst
    ensures var target := Gather(store, ds, slices);
            if ok then ReadDone(target, old(dst[..]), dst[..]) else target.None? || |target.value| > dst.Length
    ensures ok ==> exists last :: ReadsOnce(store, ds, ts, |ts|, last, addrs)
  {
    hide Datasets.Valid, Decoded, Gather, Agrees, Shuffling, SortedBy, ReadsOnce;
    ghost var target := Gather(store, ds, slices);
    var last: Option<Last> := None;
    addrs := [];
    NoReads(store, ds, ts);
    if target.Some? && |target.value| <= dst.Length {
      ShuffledPending(store, ds, slices, ts, dst[..]);
    }
    assert ts[0..] == ts;
    for i := 0 to |ts|
      invariant Going(ds, target, old(dst[..]), dst[..], ts[i..])
      invariant forall j :: 0 <= j < i ==> Fits(store, ds, ts[j], dst.Length)
      invariant ReadsOnce(store, ds, ts, i, last, addrs)
    {
      hide Going;
      ShuffledProper(ds, slices, ts, i);
      if target.Some? {
        ShuffledFits(store, ds, slices, ts, i, dst.Length);
      }
      last, addrs := FetchOrKeep(store, ds, ts, i, last, addrs);
      if last.None? {
        return false, addrs;
      }
      ok := WriteSlice(store, ds, slices, ts, i, last.value.bytes, dst, old(dst[..]));
      if !ok {
        return;
      }
    }
    ShuffledFit(store, ds, slices, ts, dst.Length);
    SettledDone(ds, target.value, old(dst[..]), dst[..], ts[|ts|..]);
    return true, addrs;
  }

  lemma {:induction false} SliceTag(slices: seq<Slice>, offset: nat, g: Slice) returns (t: Tagged)
    requires g in slices
    ensures t in Tag(slices, offset) && t.slice == g
  {
    var h := slices[0];
    var next := offset + if h.start <= h.end then h.end - h.start else 0;
    if g == h {
      t := Tagged(h, offset);
      assert Tag(slices, offset)[0] == t;
    } else {
      t := SliceTag(slices[1..], next, g);
    }
  }

  lemma AddressesRead(store: Store, ds: Dataset, slices: seq<Slice>, ts: seq<Tagged>, last: Option<Last>,
                      addrs: seq<nat>)
    requires Shuffling(ds, slices, ts) && ReadsOnce(store, ds, ts, |ts|, last, addrs)
    ensures Increasing(addrs) && forall a :: a in addrs <==> exists g :: g in slices && g.chunk.addr == a
  {
    SameElements(ts, Tag(slices, 0));
    hide Decoded;
    forall a ensures a in addrs <==> exists g :: g in slices && g.chunk.addr == a {
      if a in addrs {
        var k :| 0 <= k < |ts| && ts[k].slice.chunk.addr == a;
        ShuffledProper(ds, slices, ts, k);
      }
      if g :| g in slices && g.chunk.addr == a {
        var t := SliceTag(slices, 0, g);
        assert t in ts;
        var k :| 0 <= k < |ts| && ts[k] == t;
        assert ts[k].slice.chunk.addr == a;
      }
    }
  }

  // Reading in file order leaves the same result and the same bytes as reading in request
  // order; each chunk touched is read from the file once.
  method ReadTo(store: Store, ds: Dataset, indices: seq<nat>, counts: seq<nat>, dst: array<byte>)
    returns (r: Option<nat>, addrs: seq<nat>)
    requires Datasets.Valid(ds)
    modifies dst
    ensures Outcome(Expected(store, ds, indices, counts), Mul(Prod(counts), ds.dsize), r, old(dst[..]), dst[..])
    ensures r.Some? ==> forall i, j :: 0 <= i < j < |addrs| ==> addrs[i] < addrs[j]
    ensures r.Some? ==> forall a :: a in addrs <==>
            exists g :: g in PlanOf(ds, indices, counts).slices && g.chunk.addr == a
  {
    hide Datasets.Valid, Gather, Tag, PlanOf;
    var vsz := Mul(Prod(counts), ds.dsize);
    if dst.Length < vsz {
      return None, [];
    }
    var groups := GroupChunkSlices(ds, indices, counts);
    if groups.None? {
      return None, [];
    }
    ghost var slices := PlanOf(ds, indices, counts).slices;
    PlanOfProper(ds, indices, counts);
    var ok;
    ok, addrs := WriteAll(store, ds, slices, groups.value, dst);
    r := if ok then Some(vsz) else None;
    if ok {
      ghost var last :| ReadsOnce(store, ds, groups.value, |groups.value|, last, addrs);
      AddressesRead(store, ds, slices, groups.value, last, addrs);
    }
  }
}
