// The stream readers: the slices of a request, one item each, raw or in XDR form.
module Streams {
  import opened Radix
  import opened Slicing
  import opened Chunks
  import opened Datasets
  import opened Delivery
  import opened Slicers
  import opened Builds
  import opened Options
  import opened Types
  import opened Bytes
  import opened Storage
  import opened Gathering
  import opened Caches
  import opened CacheReaders
  import opened DirectReaders
  import opened ParallelReads
  import opened Xdr

  // How a decoded chunk is turned into the bytes that are cached and served, and how many
  // times longer these are.
  datatype Form = Form(render: seq<byte> -> Option<seq<byte>>, x: nat)

  function RawForm(): Form {
    Form(b => Some(b), 1)
  }

  function XdrForm(ds: Dataset): Form
    requires ds.dtype.size > 0
  {
    Form(b => XdrBytes(ds.dtype, ds.order, b), XdrFactor(ds.dtype))
  }

  function Rendered(store: Store, ds: Dataset, f: Form, c: Chunk): Option<seq<byte>> {
    var cache := Decoded(store, ds, c);
    if cache.None? then None else f.render(cache.value)
  }

  // The item served for a slice.
  function Served(store: Store, ds: Dataset, f: Form, g: Slice): Option<seq<byte>> {
    var cache := Rendered(store, ds, f, g.chunk);
    if cache.None? then None else Cut(cache.value, g.start * ds.dsize * f.x, g.end * ds.dsize * f.x)
  }

  ghost predicate RenderingOf(store: Store, ds: Dataset, f: Form, e: Entry) {
    exists c :: c in ds.chunks && c.addr == e.addr && Rendered(store, ds, f, c) == Some(e.bytes)
  }

  // Every entry is the rendered chunk at its address.
  ghost predicate Rendering(store: Store, ds: Dataset, f: Form, cache: seq<Entry>) {
    forall e :: e in cache ==> RenderingOf(store, ds, f, e)
  }

  lemma HitIsRendered(store: Store, ds: Dataset, f: Form, cache: seq<Entry>, c: Chunk)
    requires Datasets.Valid(ds) && Rendering(store, ds, f, cache) && c in ds.chunks && Find(cache, c.addr).Some?
    ensures Rendered(store, ds, f, c) == Find(cache, c.addr)
  {
    hide Rendered;
    var e := Entry(c.addr, Find(cache, c.addr).value);
    assert RenderingOf(store, ds, f, e);
    var d :| d in ds.chunks && d.addr == c.addr && Rendered(store, ds, f, d) == Some(e.bytes);
    hide Datasets.Valid;
    SameAddress(ds, c, d);
  }

  // The cache after a slice of the chunk c has been served, or could not be.
  function CacheStep(store: Store, ds: Dataset, f: Form, cache: seq<Entry>, capacity: nat, c: Chunk): seq<Entry>
    requires capacity > 0
  {
    var bytes := Rendered(store, ds, f, c);
    if bytes.Some? then Accessed(cache, capacity, c.addr, bytes.value) else cache
  }

  // The cache after the slices.
  ghost function CacheAfter(store: Store, ds: Dataset, f: Form, cache: seq<Entry>, capacity: nat, slices: seq<Slice>):
    seq<Entry>
    requires capacity > 0
  {
    if slices == [] then cache else
      var n := |slices| - 1;
      CacheStep(store, ds, f, CacheAfter(store, ds, f, cache, capacity, slices[..n]), capacity, slices[n].chunk)
  }

  // peak is not exceeded by what the cache holds after any of the items.
  ghost predicate PeakOver(store: Store, ds: Dataset, f: Form, slices: seq<Slice>, items: seq<seq<byte>>, peak: nat)
    requires Datasets.Valid(ds)
  {
    forall i :: 0 <= i <= |items| <= |slices| ==>
      TotalBytes(CacheAfter(store, ds, f, [], CapacityFor(LayoutSize(ds)), slices[..i])) <= peak
  }

  // One pass of the stream's loop: the item of g, and the cache after it.
  method Serve(store: Store, ds: Dataset, f: Form, cache: seq<Entry>, capacity: nat, g: Slice)
    returns (item: Option<seq<byte>>, cache': seq<Entry>)
    requires Datasets.Valid(ds) && Rendering(store, ds, f, cache) && |cache| <= capacity && capacity > 0
    requires g.chunk in ds.chunks
    ensures item == Served(store, ds, f, g)
    ensures Rendering(store, ds, f, cache') && |cache'| <= capacity
    ensures cache' == CacheStep(store, ds, f, cache, capacity, g.chunk)
  {
    hide Datasets.Valid, ReadChunk;
    var c := g.chunk;
    var bytes := Find(cache, c.addr);
    if bytes.Some? {
      HitIsRendered(store, ds, f, cache, c);
      TouchLength(cache, c.addr, bytes.value);
      cache' := Touch(cache, c.addr, bytes.value);
    } else {
      var decoded := ReadChunkAt(store, c.addr, c.size, LayoutOf(ds));
      if decoded.None? {
        return None, cache;
      }
      bytes := f.render(decoded.value);
      if bytes.None? {
        return None, cache;
      }
      assert RenderingOf(store, ds, f, Entry(c.addr, bytes.value));
      cache' := Put(cache, capacity, c.addr, bytes.value);
    }
    item := Cut(bytes.value, g.start * ds.dsize * f.x, g.end * ds.dsize * f.x);
  }

  // items are what is served for the first slices.
  ghost predicate ServedFirst(store: Store, ds: Dataset, f: Form, slices: seq<Slice>, items: seq<seq<byte>>) {
    |items| <= |slices| && forall i :: 0 <= i < |items| ==> Served(store, ds, f, slices[i]) == Some(items[i])
  }

  // The stream has served all slices, or stopped at the first that cannot be served.
  ghost predicate Streamed(store: Store, ds: Dataset, f: Form, slices: seq<Slice>, items: seq<seq<byte>>) {
    && ServedFirst(store, ds, f, slices, items)
    && (|items| < |slices| ==> Served(store, ds, f, slices[|items|]).None?)
  }

  // At most 32 MiB of decoded chunks, or one chunk, times the growth by rendering.
  ghost predicate PeakWithin(store: Store, ds: Dataset, f: Form, peak: nat)
    requires Datasets.Valid(ds)
  {
    (forall c, b :: c in ds.chunks && Rendered(store, ds, f, c) == Some(b) ==> |b| <= f.x * LayoutSize(ds))
    ==> peak <= f.x * CACHE_SZ || peak <= f.x * LayoutSize(ds)
  }

  lemma NothingCached(store: Store, ds: Dataset, f: Form)
    requires Datasets.Valid(ds)
    ensures Rendering(store, ds, f, []) && PeakWithin(store, ds, f, 0) && TotalBytes([]) == 0
  {
  }

  lemma PeakBound(store: Store, ds: Dataset, f: Form, cache: seq<Entry>)
    requires Datasets.Valid(ds) && Rendering(store, ds, f, cache) && |cache| <= CapacityFor(LayoutSize(ds))
    ensures PeakWithin(store, ds, f, TotalBytes(cache))
  {
    hide Rendered, Datasets.Valid, TotalBytes;
    if forall c, b :: c in ds.chunks && Rendered(store, ds, f, c) == Some(b) ==> |b| <= f.x * LayoutSize(ds) {
      forall e | e in cache ensures |e.bytes| <= f.x * LayoutSize(ds) {
        assert RenderingOf(store, ds, f, e);
      }
      CapacityBound(cache, LayoutSize(ds), f.x * LayoutSize(ds), f.x);
    }
  }

  method ServeAll(store: Store, ds: Dataset, f: Form, slices: seq<Slice>) returns (items: seq<seq<byte>>,
                  ghost peak: nat)
    requires Datasets.Valid(ds) && Proper(ds, slices)
    ensures Streamed(store, ds, f, slices, items)
    ensures PeakWithin(store, ds, f, peak) && PeakOver(store, ds, f, slices, items, peak)
  {
    hide Datasets.Valid, Served, Rendered, Prod, Rendering, PeakWithin, TotalBytes, CacheStep;
    LayoutPositive(ds);
    var capacity := CapacityFor(Prod(ds.chunkShape) * ds.dsize);
    var cache: seq<Entry> := [];
    items := [];
    peak := 0;
    NothingCached(store, ds, f);
    for i := 0 to |slices|
      invariant |items| == i && ServedFirst(store, ds, f, slices, items)
      invariant Rendering(store, ds, f, cache) && |cache| <= capacity
      invariant PeakWithin(store, ds, f, peak)
      invariant cache == CacheAfter(store, ds, f, [], capacity, slices[..i])
      invariant forall j :: 0 <= j <= i ==> TotalBytes(CacheAfter(store, ds, f, [], capacity, slices[..j])) <= peak
    {
      assert slices[i] in slices;
      assert slices[..i + 1][..i] == slices[..i];
      var item;
      item, cache := Serve(store, ds, f, cache, capacity, slices[i]);
      PeakBound(store, ds, f, cache);
      peak := if TotalBytes(cache) > peak then TotalBytes(cache) else peak;
      if item.None? {
        return;
      }
      items := items + [item.value];
    }
  }

  // A stream: one item for each slice, in request order, until one cannot be had.
  // None stands for an overflow in the slicer, before the stream starts. peak is the most
  // memory its cache takes.
  method Stream(store: Store, ds: Dataset, f: Form, indices: seq<nat>, counts: seq<nat>)
    returns (items: Option<seq<seq<byte>>>, ghost peak: nat)
    requires Datasets.Valid(ds)
    ensures items.Some? <==> PlanOf(ds, indices, counts).ok
    ensures items.Some? ==> Streamed(store, ds, f, PlanOf(ds, indices, counts).slices, items.value)
    ensures PeakWithin(store, ds, f, peak)
    ensures items.Some? ==> PeakOver(store, ds, f, PlanOf(ds, indices, counts).slices, items.value, peak)
  {
    hide Datasets.Valid, PlanOf, Served, Rendered, Prod, Streamed, PeakWithin, PeakOver;
    NothingCached(store, ds, f);
    PlanOfProper(ds, indices, counts);
    var slicer := ChunkSlices(ds, indices, counts);
    var slices := Collect(slicer);
    if slices.None? {
      return None, 0;
    }
    var out;
    out, peak := ServeAll(store, ds, f, slices.value);
    items := Some(out);
  }

  lemma StreamedTail(store: Store, ds: Dataset, f: Form, slices: seq<Slice>, items: seq<seq<byte>>)
    requires items != [] && slices != [] && Streamed(store, ds, f, slices, items)
    ensures Served(store, ds, f, slices[0]) == Some(items[0]) && Streamed(store, ds, f, slices[1..], items[1..])
  {
    hide Served;
    forall i | 0 <= i < |items| - 1 ensures Served(store, ds, f, slices[1..][i]) == Some(items[1..][i]) {
      assert slices[1..][i] == slices[i + 1] && items[1..][i] == items[i + 1];
    }
  }

  // The raw stream, joined, is what the readers write.
  lemma {:induction false} RawStream(store: Store, ds: Dataset, slices: seq<Slice>, items: seq<seq<byte>>)
    requires Streamed(store, ds, RawForm(), slices, items)
    ensures Gather(store, ds, slices) == if |items| == |slices| then Some(Flatten(items)) else None
  {
    if slices != [] && items != [] {
      hide Decoded;
      StreamedTail(store, ds, RawForm(), slices, items);
      RawStream(store, ds, slices[1..], items[1..]);
    }
  }

  // Chunks decode to whole values.
  ghost predicate WholeValues(store: Store, ds: Dataset) {
    ds.dsize == ds.dtype.size &&
    forall c :: c in ds.chunks && Decoded(store, ds, c).Some? ==> Aligned(|Decoded(store, ds, c).value|, ds.dtype.size)
  }

  lemma FactorPositive(dtype: Datatype, order: Order)
    requires Supported(dtype, order)
    ensures XdrFactor(dtype) > 0
  {
  }

  // Cutting the converted chunk, or converting the cut.
  lemma XdrCut(dtype: Datatype, order: Order, c: seq<byte>, i: nat, j: nat)
    requires Supported(dtype, order) && Aligned(|c|, dtype.size) && Aligned(i, dtype.size)
    requires Aligned(j, dtype.size) && i <= j
    ensures var x, w := XdrFactor(dtype), XdrWords(dtype, order, c);
            if j <= |c| then Aligned(j - i, dtype.size) && Cut(w, i * x, j * x) == Some(XdrWords(dtype, order, c[i..j]))
            else Cut(w, i * x, j * x).None?
  {
    hide XdrFactor, XdrWords, Supported;
    var x := XdrFactor(dtype);
    AlignedDifference(i, j, dtype.size);
    if j <= |c| {
      AlignedDifference(j, |c|, dtype.size);
      assert c == c[..i] + c[i..j] + c[j..];
      XdrMiddle(dtype, order, c[..i], c[i..j], c[j..]);
    } else {
      XdrLength(dtype, order, c);
      MulOrder(|c| + 1, j, x);
      FactorPositive(dtype, order);
      SplitProduct(|c|, 1, x);
    }
  }

  // An item of the XDR stream is the item of the raw stream, converted.
  lemma XdrItem(store: Store, ds: Dataset, g: Slice)
    requires ds.dtype.size > 0 && Supported(ds.dtype, ds.order) && WholeValues(store, ds) && g.chunk in ds.chunks
    requires g.start <= g.end
    ensures var b := SliceBytes(store, ds, g);
            if b.None? then Served(store, ds, XdrForm(ds), g).None?
            else
              && Aligned(|b.value|, ds.dtype.size)
              && Served(store, ds, XdrForm(ds), g) == Some(XdrWords(ds.dtype, ds.order, b.value))
  {
    hide Decoded, XdrFactor, XdrWords, XdrBytes, Supported;
    var cache, n, x := Decoded(store, ds, g.chunk), ds.dsize, XdrFactor(ds.dtype);
    if cache.Some? {
      var c, i, j := cache.value, g.start * n, g.end * n;
      XdrIsWords(ds.dtype, ds.order, c);
      SplitLength(g.start, g.end, g.end, n);
      MultipleRem(g.start, n);
      MultipleRem(g.end, n);
      XdrCut(ds.dtype, ds.order, c, i, j);
    }
  }

  // The XDR stream, joined, is the conversion of what the readers write; and it is complete
  // exactly when that can be had.
  lemma {:induction false} XdrStream(store: Store, ds: Dataset, slices: seq<Slice>, items: seq<seq<byte>>)
    requires ds.dtype.size > 0 && Supported(ds.dtype, ds.order) && WholeValues(store, ds) && Proper(ds, slices)
    requires Streamed(store, ds, XdrForm(ds), slices, items)
    ensures |items| == |slices| <==> Gather(store, ds, slices).Some?
    ensures |items| == |slices| ==>
              var b := Gather(store, ds, slices).value;
              Aligned(|b|, ds.dtype.size) && Flatten(items) == XdrWords(ds.dtype, ds.order, b)
              && XdrBytes(ds.dtype, ds.order, b) == Some(Flatten(items))
    decreases |slices|
  {
    hide Served, SliceBytes, XdrWords, XdrBytes, Supported;
    if slices == [] {
      NoWords(ds.dtype, ds.order);
      XdrIsWords(ds.dtype, ds.order, []);
    } else {
      assert slices[0] in slices && forall g :: g in slices[1..] ==> g in slices;
      XdrItem(store, ds, slices[0]);
      if items != [] {
        StreamedTail(store, ds, XdrForm(ds), slices, items);
        XdrStream(store, ds, slices[1..], items[1..]);
        if |items| == |slices| {
          var b, rest := SliceBytes(store, ds, slices[0]).value, Gather(store, ds, slices[1..]).value;
          XdrPlus(ds.dtype, ds.order, b, rest);
          XdrIsWords(ds.dtype, ds.order, b + rest);
        }
      }
    }
  }

  // A file that holds an array decodes to whole values, and rendering it takes no more room
  // than the form says.
  lemma HoldsWhole(store: Store, ds: Dataset, a: seq<nat> -> seq<byte>)
    requires Datasets.Valid(ds) && Gathering.Holds(store, ds, a)
    ensures WholeValues(store, ds)
    ensures forall c :: c in ds.chunks ==>
            Decoded(store, ds, c).Some? && |Decoded(store, ds, c).value| == LayoutSize(ds)
  {
    hide Decoded;
    forall c | c in ds.chunks ensures |Decoded(store, ds, c).value| == Prod(ds.chunkShape) * ds.dsize {
      ConcatLength(a, ChunkCoordinates(ds, c.offset), ds.dsize);
    }
    MultipleRem(Prod(ds.chunkShape), ds.dsize);
  }

  // The two streams: the raw one of any dataset, and the XDR one of a supported type.
  ghost predicate Offered(ds: Dataset, f: Form) {
    ds.dtype.size > 0 && (f == RawForm() || (f == XdrForm(ds) && Supported(ds.dtype, ds.order)))
  }

  lemma RenderedSize(store: Store, ds: Dataset, f: Form, c: Chunk, n: nat)
    requires ds.dsize == ds.dtype.size && Offered(ds, f)
    requires Decoded(store, ds, c).Some? && |Decoded(store, ds, c).value| == n && Aligned(n, ds.dtype.size)
    ensures Rendered(store, ds, f, c).Some? && |Rendered(store, ds, f, c).value| == f.x * n
  {
    hide Decoded, XdrFactor, XdrWords, XdrBytes, Supported;
    var d := Decoded(store, ds, c).value;
    if f != RawForm() {
      XdrIsWords(ds.dtype, ds.order, d);
      XdrLength(ds.dtype, ds.order, d);
    }
  }

  // The bound on memory holds for both streams.
  lemma StreamPeak(store: Store, ds: Dataset, f: Form, a: seq<nat> -> seq<byte>, peak: nat)
    requires Datasets.Valid(ds) && Gathering.Holds(store, ds, a) && PeakWithin(store, ds, f, peak)
    requires Offered(ds, f)
    ensures peak <= f.x * CACHE_SZ || peak <= f.x * LayoutSize(ds)
  {
    HoldsWhole(store, ds, a);
    hide Decoded, Gathering.Holds, Datasets.Valid, Rendered, Offered, LayoutSize;
    forall c, b | c in ds.chunks && Rendered(store, ds, f, c) == Some(b) ensures |b| <= f.x * LayoutSize(ds) {
      RenderedSize(store, ds, f, c, LayoutSize(ds));
    }
  }

  // For a regular request on a file that holds the array a, the raw stream, joined, is a's values
  // on the requested box in row-major order.
  lemma StreamRegular(store: Store, ds: Dataset, indices: seq<nat>, counts: seq<nat>, a: seq<nat> -> seq<byte>,
                      items: seq<seq<byte>>)
    requires Datasets.Valid(ds) && Gathering.Holds(store, ds, a) && RequestOf(ds, indices, counts).Valid()
    requires RegularIn(ds.build, RequestOf(ds, indices, counts))
    requires Streamed(store, ds, RawForm(), PlanOf(ds, indices, counts).slices, items)
    ensures var q := RequestOf(ds, indices, counts); Flatten(items) == Concat(a, Wanted(q, 0, q.End()))
  {
    ExpectedRegular(store, ds, indices, counts, a);
    hide Gathering.Holds, Datasets.Valid, PlanOf, Streamed, RegularIn;
    RawStream(store, ds, PlanOf(ds, indices, counts).slices, items);
  }

  lemma SizePositive(ds: Dataset)
    requires Datasets.Valid(ds)
    ensures ds.dsize == ds.dtype.size > 0
  {
  }

  // For such a request the XDR stream, joined, is the conversion of these values.
  lemma XdrStreamRegular(store: Store, ds: Dataset, indices: seq<nat>, counts: seq<nat>, a: seq<nat> -> seq<byte>,
                         items: seq<seq<byte>>)
    requires Datasets.Valid(ds) && Gathering.Holds(store, ds, a) && RequestOf(ds, indices, counts).Valid()
    requires RegularIn(ds.build, RequestOf(ds, indices, counts)) && Supported(ds.dtype, ds.order)
    requires Streamed(store, ds, XdrForm(ds), PlanOf(ds, indices, counts).slices, items)
    ensures var q := RequestOf(ds, indices, counts);
            var values := Concat(a, Wanted(q, 0, q.End()));
            Aligned(|values|, ds.dsize) && Flatten(items) == XdrWords(ds.dtype, ds.order, values)
  {
    ExpectedRegular(store, ds, indices, counts, a);
    HoldsWhole(store, ds, a);
    PlanOfProper(ds, indices, counts);
    SizePositive(ds);
    hide Gathering.Holds, Datasets.Valid, PlanOf, XdrWords, XdrBytes, Supported, Streamed, WholeValues, RegularIn;
    XdrStream(store, ds, PlanOf(ds, indices, counts).slices, items);
  }

  ghost predicate Renders(store: Store, ds: Dataset, f: Form, c: Chunk, sz: nat) {
    Rendered(store, ds, f, c).Some? && |Rendered(store, ds, f, c).value| == sz
  }

  // Slices of different chunks, each of which takes sz bytes when rendered.
  ghost predicate Apart(store: Store, ds: Dataset, f: Form, slices: seq<Slice>, sz: nat) {
    && (forall i :: 0 <= i < |slices| ==> Renders(store, ds, f, slices[i].chunk, sz))
    && (forall i, j :: 0 <= i < j < |slices| ==> slices[i].chunk.addr != slices[j].chunk.addr)
  }

  // The cache holds the chunks of these slices.
  ghost predicate Filled(cache: seq<Entry>, slices: seq<Slice>, sz: nat) {
    && |cache| == |slices| && TotalBytes(cache) == |slices| * sz
    && (forall e :: e in cache ==> exists i :: 0 <= i < |slices| && slices[i].chunk.addr == e.addr)
  }

  lemma NotCached(cache: seq<Entry>, slices: seq<Slice>, n: nat)
    requires n < |slices| && forall i, j :: 0 <= i < j < |slices| ==> slices[i].chunk.addr != slices[j].chunk.addr
    requires forall e :: e in cache ==> exists i :: 0 <= i < n && slices[..n][i].chunk.addr == e.addr
    ensures Find(cache, slices[n].chunk.addr).None?
  {
  }

  lemma MissStep(store: Store, ds: Dataset, f: Form, cache: seq<Entry>, capacity: nat, c: Chunk)
    requires |cache| < capacity && Find(cache, c.addr).None? && Rendered(store, ds, f, c).Some?
    ensures CacheStep(store, ds, f, cache, capacity, c) == [Entry(c.addr, Rendered(store, ds, f, c).value)] + cache
  {
    hide Rendered;
    WithoutAbsent(cache, c.addr);
  }

  lemma TotalCons(e: Entry, cache: seq<Entry>)
    ensures TotalBytes([e] + cache) == |e.bytes| + TotalBytes(cache)
  {
    assert ([e] + cache)[1..] == cache;
  }

  lemma FilledAddrs(cache: seq<Entry>, slices: seq<Slice>, n: nat, e: Entry)
    requires n < |slices| && slices[n].chunk.addr == e.addr
    requires forall d :: d in cache ==> exists i :: 0 <= i < n && slices[..n][i].chunk.addr == d.addr
    ensures forall d :: d in [e] + cache ==> exists i :: 0 <= i < |slices| && slices[i].chunk.addr == d.addr
  {
    forall d | d in [e] + cache ensures exists i :: 0 <= i < |slices| && slices[i].chunk.addr == d.addr {
      if d != e {
        assert d in cache;
        var i :| 0 <= i < n && slices[..n][i].chunk.addr == d.addr;
        assert slices[i].chunk.addr == d.addr;
      }
    }
  }

  lemma FillStep(store: Store, ds: Dataset, f: Form, cache: seq<Entry>, capacity: nat, slices: seq<Slice>, sz: nat)
    requires 0 < |slices| <= capacity && Apart(store, ds, f, slices, sz) && Filled(cache, slices[..|slices| - 1], sz)
    ensures Filled(CacheStep(store, ds, f, cache, capacity, slices[|slices| - 1].chunk), slices, sz)
  {
    hide Rendered, TotalBytes, CacheStep, Find, Without;
    var n := |slices| - 1;
    var c := slices[n].chunk;
    assert Renders(store, ds, f, c, sz);
    NotCached(cache, slices, n);
    var e := Entry(c.addr, Rendered(store, ds, f, c).value);
    MissStep(store, ds, f, cache, capacity, c);
    TotalCons(e, cache);
    assert |slices| * sz == n * sz + sz;
    FilledAddrs(cache, slices, n, e);
  }

  lemma CacheAfterLast(store: Store, ds: Dataset, f: Form, capacity: nat, slices: seq<Slice>)
    requires 0 < capacity && slices != []
    ensures var n := |slices| - 1;
            CacheAfter(store, ds, f, [], capacity, slices) ==
              CacheStep(store, ds, f, CacheAfter(store, ds, f, [], capacity, slices[..n]), capacity, slices[n].chunk)
  {
    hide CacheStep;
  }

  // Slices of n different chunks, where as many fit into the cache, fill it with n chunks.
  lemma {:induction false} CacheFills(store: Store, ds: Dataset, f: Form, slices: seq<Slice>, capacity: nat, sz: nat)
    requires 0 < capacity && |slices| <= capacity && Apart(store, ds, f, slices, sz)
    ensures Filled(CacheAfter(store, ds, f, [], capacity, slices), slices, sz)
  {
    hide Rendered, CacheStep, Renders;
    if slices != [] {
      var n := |slices| - 1;
      assert forall i :: 0 <= i < n ==> slices[..n][i] == slices[i];
      CacheFills(store, ds, f, slices[..n], capacity, sz);
      hide Filled, CacheAfter;
      CacheAfterLast(store, ds, f, capacity, slices);
      FillStep(store, ds, f, CacheAfter(store, ds, f, [], capacity, slices[..n]), capacity, slices, sz);
    }
  }

  ghost predicate DecodesTo(store: Store, ds: Dataset, c: Chunk, n: nat) {
    Decoded(store, ds, c).Some? && |Decoded(store, ds, c).value| == n
  }

  // Slices of different chunks of n decoded bytes are apart.
  lemma DecodedApart(store: Store, ds: Dataset, f: Form, slices: seq<Slice>, n: nat)
    requires ds.dsize == ds.dtype.size && Offered(ds, f) && Aligned(n, ds.dtype.size)
    requires forall i :: 0 <= i < |slices| ==> DecodesTo(store, ds, slices[i].chunk, n)
    requires forall i, j :: 0 <= i < j < |slices| ==> slices[i].chunk.addr != slices[j].chunk.addr
    ensures Apart(store, ds, f, slices, f.x * n)
  {
    hide Decoded, Rendered, Offered;
    forall i | 0 <= i < |slices| ensures Renders(store, ds, f, slices[i].chunk, f.x * n) {
      assert DecodesTo(store, ds, slices[i].chunk, n);
      RenderedSize(store, ds, f, slices[i].chunk, n);
    }
  }

  lemma HoldsDecodes(store: Store, ds: Dataset, a: seq<nat> -> seq<byte>, slices: seq<Slice>)
    requires Datasets.Valid(ds) && Gathering.Holds(store, ds, a) && Proper(ds, slices)
    ensures ds.dsize == ds.dtype.size && Aligned(LayoutSize(ds), ds.dtype.size)
    ensures forall i :: 0 <= i < |slices| ==> DecodesTo(store, ds, slices[i].chunk, LayoutSize(ds))
  {
    HoldsWhole(store, ds, a);
    SizePositive(ds);
    MultipleRem(Prod(ds.chunkShape), ds.dsize);
    hide Decoded, Gathering.Holds, Datasets.Valid, Prod;
    forall i | 0 <= i < |slices| ensures DecodesTo(store, ds, slices[i].chunk, LayoutSize(ds)) {
      assert slices[i] in slices;
    }
  }

  // The factor in the bound is needed: a stream whose first n slices are of n different chunks, and
  // as many fit into the cache, keeps n rendered chunks.
  lemma PeakAttained(store: Store, ds: Dataset, f: Form, a: seq<nat> -> seq<byte>, slices: seq<Slice>,
                     items: seq<seq<byte>>, peak: nat, n: nat)
    requires Datasets.Valid(ds) && Gathering.Holds(store, ds, a) && Proper(ds, slices)
    requires Offered(ds, f)
    requires n <= |items| <= |slices| && n <= CapacityFor(LayoutSize(ds)) && PeakOver(store, ds, f, slices, items, peak)
    requires forall i, j :: 0 <= i < j < n ==> slices[i].chunk.addr != slices[j].chunk.addr
    ensures peak >= n * (f.x * LayoutSize(ds))
  {
    hide Decoded, Gathering.Holds, Datasets.Valid, Offered, LayoutSize, CacheAfter, Apart, TotalBytes;
    var first := slices[..n];
    assert forall i :: 0 <= i < n ==> first[i] == slices[i];
    HoldsDecodes(store, ds, a, slices);
    DecodedApart(store, ds, f, first, LayoutSize(ds));
    CacheFills(store, ds, f, first, CapacityFor(LayoutSize(ds)), f.x * LayoutSize(ds));
  }

  lemma FactorWide(dtype: Datatype)
    requires Widened(dtype)
    ensures XdrFactor(dtype) >= 2
  {
  }

  // With a capacity of more than one chunk that divides 32 MiB, the XDR stream of a widened type
  // exceeds both the maximum of 32 MiB and one converted chunk.
  lemma PeakExceeds(store: Store, ds: Dataset, a: seq<nat> -> seq<byte>, slices: seq<Slice>, items: seq<seq<byte>>,
                    peak: nat, n: nat)
    requires Datasets.Valid(ds) && Gathering.Holds(store, ds, a) && Proper(ds, slices)
    requires Supported(ds.dtype, ds.order) && Widened(ds.dtype) && n > 1 && n * LayoutSize(ds) == CACHE_SZ
    requires n <= |items| <= |slices| && PeakOver(store, ds, XdrForm(ds), slices, items, peak)
    requires forall i, j :: 0 <= i < j < n ==> slices[i].chunk.addr != slices[j].chunk.addr
    ensures peak >= 2 * CACHE_SZ && peak > XdrForm(ds).x * LayoutSize(ds)
  {
    hide Decoded, Gathering.Holds, Rendered, CacheAfter, Supported;
    var l, x := LayoutSize(ds), XdrFactor(ds.dtype);
    DivModUnique(CACHE_SZ, l, n, 0);
    hide Datasets.Valid, LayoutSize, XdrFactor, PeakOver, Widened;
    FactorWide(ds.dtype);
    PeakAttained(store, ds, XdrForm(ds), a, slices, items, peak, n);
    MulAssoc(n, x, l);
    MulAssoc(x, n, l);
    MulOrder(2, x, n * l);
    MulOrder(2, n, x * l);
    MulOrder(1, x, l);
  }

  function Addrs(slices: seq<Slice>): (h: seq<nat>)
    ensures |h| == |slices|
  {
    seq(|slices|, i requires 0 <= i < |slices| => slices[i].chunk.addr)
  }

  lemma NothingUsed(capacity: nat)
    ensures Lru([], capacity, [])
  {
  }

  // After slices that could be served the cache is least-recently-used, with their chunks as history.
  lemma {:induction false} CacheIsLru(store: Store, ds: Dataset, f: Form, slices: seq<Slice>, capacity: nat)
    requires capacity > 0 && forall i :: 0 <= i < |slices| ==> Rendered(store, ds, f, slices[i].chunk).Some?
    ensures Lru(CacheAfter(store, ds, f, [], capacity, slices), capacity, Addrs(slices))
  {
    hide Rendered, Lru, Accessed;
    if slices == [] {
      NothingUsed(capacity);
    } else {
      var n := |slices| - 1;
      assert forall i :: 0 <= i < n ==> slices[..n][i] == slices[i];
      CacheIsLru(store, ds, f, slices[..n], capacity);
      var c := slices[n].chunk;
      LruStep(CacheAfter(store, ds, f, [], capacity, slices[..n]), capacity, Addrs(slices[..n]), c.addr,
        Rendered(store, ds, f, c).value);
      assert Addrs(slices) == Addrs(slices[..n]) + [c.addr];
    }
  }

  // The bound on memory of the raw stream, for every data type.
  lemma RawPeak(store: Store, ds: Dataset, a: seq<nat> -> seq<byte>, peak: nat)
    requires Datasets.Valid(ds) && Gathering.Holds(store, ds, a) && PeakWithin(store, ds, RawForm(), peak)
    ensures peak <= CACHE_SZ || peak <= LayoutSize(ds)
  {
    SizePositive(ds);
    hide Datasets.Valid, Gathering.Holds, PeakWithin, LayoutSize;
    StreamPeak(store, ds, RawForm(), a, peak);
  }
}
