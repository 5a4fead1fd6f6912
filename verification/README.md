# A model of hidefix: reading hyper-slabs of chunked arrays

hidefix reads chunked, filtered arrays out of a file, given an index of where each chunk is
stored. A request for a box of the array is turned by the chunk slicer into pieces
`(chunk, start, end)` of stored chunks. The readers then copy these pieces, through a cache,
in file order, in parallel or as a stream, into one row-major buffer. The specification behind
all of it is one line: value `j` of the output is the array's value at
`indices + unravel(j, counts)`.

This project models that stack in Dafny, for any number of dimensions, and proves when and why
the line holds.

## What is proved

**The slicer** (`Radix`, `Slicing`, `Stops`, `StopProofs`, `Delivery`, `Exactness`,
`SlicerTheorem`, `Slicers`, `Decisions`, `IrregularRequests`, `Wrapping`, `WrapSums`, `WrapSteps`,
`WrapExactness`, `WrappedRequests`, `Builds`). `Slicing.Next` is one call of `ChunkSlicer::next` as a function:
the dimension loop with its two branches, the carry, the clipped edge chunks, and the loop for
the left-over carry. `Slicers.ChunkSlicer.Next` is the same in place, on the fields `offset` and
`offsetCoords`, and is proved equal to it. `Delivery.Correct` says what a run should deliver: the
coordinates of the stored values, segment after segment, are the coordinates of the requested
box in row-major order, each segment lies inside its chunk, and no difference, product or sum of
`next` leaves 64 bits.

The code does not deliver this for every request, so the theorem is an equivalence:
`SlicerTheorem.SlicerExact` states that a run is correct *exactly* when the request is `Regular`.
`Regular` depends on shape, chunk shape, start and counts only, and can be checked before the
call. A dimension is *whole* when the request covers one chunk of it, from the chunk's start to
its (clipped) end; the *pivot* is the innermost dimension that is not whole or
has only counts of 1 above it. The *stops* are the positions at which a run
pauses: those where the pivot's digit is 0 or at a chunk boundary and all digits below are 0.
At every stop the following must hold.

- The box from the stop to the chunk's end along the pivot is contiguous in the stored chunk:
  below the first dimension it is longer than 1 in, it has the full chunk size. (Otherwise a
  clipped row is taken as contiguous with the next.)
- Unless the box ends the request: where the chunk is more than one thick along the pivot (the
  counting branch), the carry that comes up from below is at most the number of layers in the
  box, and does not exhaust the pivot's count. (Otherwise the dimension wraps around and is
  taken twice.)
- Unless the box ends the request: where the chunk is one thick along the pivot and its stride is
  not 1 (the skipping branch), the carry is at most 1, and each dimension further up either takes
  the skipping branch as well, or stands exactly at the end of its chunk without exhausting its
  count. (Otherwise the loop takes layers of a dimension that it should only step.)

`Decisions.IsRegular` is a compiled test for a caller: one pass over the stops, on shape, chunk
shape, start and counts. `SlicerTheorem.QuickRegular` is a sufficient test in closed form that needs
no stops. `IrregularRequests` holds three concrete requests that the code reads wrongly, one for
each way to fail, with the first segment delivered and the first value that is wrong.

The repository's release profile does not turn overflow checks on. `Wrapping` is `next` with
arithmetic modulo 2^64, and `WrapExactness.WrapExact` is the equivalence for it. The condition is
the same but for the second guard: the carry may exceed the layers in the box, since the layers
taken too many are given back by a difference that wraps around, if neighbouring layers of the
box are neighbours in the chunk. A regular request is read the same way by both builds
(`WrapExactness.RegularWraps`); `WrappedRequests` holds one that only the wrapping build reads
rightly. `Builds` puts the two side by side. A dataset carries the build it is read in, so the
slicer class and all readers are modelled for both, and their theorems ask for a request that is
regular in that build (`Builds.RegularIn`).

**The chunk list** (`Chunks`, `Sorting`, `Datasets`). After the sort and the count check of
`Dataset::index`, the list is the row-major enumeration of the chunk grid, and the lookup by
ravelled grid cell finds the one chunk that contains a coordinate.

**The readers** (`Gathering`, `Caches`, `CacheReaders`, `Scattering`, `DirectReaders`,
`ParallelReads`, `ParallelBounds`, `Streams`, `ByteOrders`, `Instances`). All four deliver the same bytes, `CacheReaders.Expected`: the cache
reader whatever its cache holds; the direct reader for any order of slices with equal addresses,
reading each touched chunk once; the parallel reader under every interleaving of single-byte
stores of its workers; the streams, raw and in XDR form, once their items are joined.
`CacheReaders.ExpectedRegular` and `CacheReaders.ReadValues` tie these bytes to the array. What it
means that a file holds an array is said twice: by the chunks it decodes to (`Gathering.Holds`), and
by the bytes stored in it for the filters of the dataset (`Gathering.Written`); the second implies
the first (`Gathering.WrittenHolds`).

The parallel reader checks that the buffer holds the values *requested*, and then copies the values
of the *slices* without a bound. `ParallelBounds.StoresInside` says when its stores lie inside the
buffer: exactly when the slices hold no more values than fit. For a regular request the two numbers
are equal, so the check suffices (`ParallelBounds.ParallelValues`). For irregular ones it need not:
in `ParallelBounds.OverrunStrays` 75 values are requested and one segment of 95 is delivered. The
other readers copy into checked slices, and fail there. `Instances.QuartersOverrun` is a dataset and
a file of this kind.

The comment on `stream` (src/reader/stream.rs:48) promises bytes "Always in Big Endian". The code
yields the stored order; only `stream_xdr` converts. `ByteOrders.StreamByteOrder` says when the
promise holds nevertheless: for a big-endian dataset, or if every value requested reads the same
both ways. For all possible values of a type that is a big-endian dataset or values of one byte
(`ByteOrders.BigEndianAlways`). `Instances.LittleStream` is a file on which it fails.

**The filters** (`Shuffle`, `Storage`, `Xdr`) and **the chunk table** (`ChunkTable`): shuffling
and its three inverses, decoding as the inverse of the storage pipeline, XDR conversion and
its compatibility with cutting, the byte form of the chunk list.

## How to read the model

- Numbers are unbounded naturals. A valid dataset has fewer than 2^64 values when its shape is
  rounded up to whole chunks. In a build with overflow checks, `Slicing.Fault` (and
  `Slicers.Overflow`) stands for u64 arithmetic in `next` that has no result. A build without
  checks wraps around and goes on, as in `Wrapping`; there `Fault` stands for a call that does not
  move the offset forwards.
- `Option` stands for both error results and panics; the kinds of error are not told apart.
- A read on an empty or out-of-bounds box plans nothing and succeeds without writing, as in the
  code (`Slicers.PlanOf`).
- The file is a sequence of bytes and the decompressor a function; an inverse compressor is a
  hypothesis of `Storage.DecodeEncode` and `Gathering.WrittenHolds` only.
- `stream_xdr` caches converted chunks but sizes its cache by unconverted ones. Its bound is
  therefore 32 MiB (or one chunk) times the XDR factor, and this is attained
  (`Streams.PeakExceeds`), against the comment at src/reader/stream.rs:25.
- `hide` statements at the start of a proof keep definitions away from the solver; they assume nothing.

## Model

| member | source | states |
|---|---|---|
| SlicerTheorem.SlicerExact | src/idx/dataset/dataset.rs:498-634 | with overflow checks, for any dimension and any in-bounds request: the segments of a whole run enumerate the requested box in row-major order, inside their chunks and without any difference, product or sum leaving 64 bits, if and only if the request is regular |
| Decisions.IsRegularExact | src/idx/dataset/dataset.rs:498-634 | the compiled test decides regularity, and so whether such a run is correct |
| WrapExactness.WrapExact | src/idx/dataset/dataset.rs:498-634 | without overflow checks, all arithmetic modulo 2^64: the run enumerates the requested box in row-major order if and only if the request is regular in the wider sense, where three times the padded volume and the number of dimensions together stay below 2^64 |
| WrapExactness.WrapSufficient | src/idx/dataset/dataset.rs:498-634 | the wider condition suffices for every volume below 2^64 |
| WrapExactness.RegularWraps | src/idx/dataset/dataset.rs:498-634 | a regular request is regular in the wider sense, and both builds make the same run of it |
| WrappedRequests.GivebackWraps | src/idx/dataset/dataset.rs:581-589 | shape 12x1x1, chunks 4x1x1, start (3,0,0), counts 9x1x1: not read correctly with overflow checks, and read correctly without |
| Wrapping.RunAgrees | src/idx/dataset/dataset.rs:498-634 | a run that no overflow stops is the run of both builds |
| WrapSteps.WrapStepClear | src/idx/dataset/dataset.rs:498-634 | from a stop that meets the wider guards, one wrapping call delivers the span and moves to the next stop |
| WrapExactness.BroadInStep | src/idx/dataset/dataset.rs:498-523 | in a correct wrapping run, with sums of a coordinate and a carry taken exactly, the coordinates ravel to the offset before every call |
| WrapExactness.SpanTaken | src/idx/dataset/dataset.rs:528-605 | in such a run every call from a stop takes exactly the span |
| WrapExactness.SpanContiguous | src/idx/dataset/dataset.rs:587-605 | a call that delivers a span rightly had a contiguous box to deliver |
| WrapExactness.ThickNecessary | src/idx/dataset/dataset.rs:574-589 | in such a run the guard of the counting branch holds at every stop that is not the last |
| WrapExactness.ThinNecessary | src/idx/dataset/dataset.rs:569-573 | so does the guard of the skipping branch |
| SlicerTheorem.QuickRegular | src/idx/dataset/dataset.rs:498-634 | a closed-form test on start, counts and chunk shape that implies regularity: one dimension, or a segment ending in the last dimension, or unclipped whole inner dimensions with a last piece along the pivot thicker than 1 (or unit chunks from there up) |
| SlicerTheorem.InnerRegular | src/idx/dataset/dataset.rs:594-605 | a request whose pivot is the last dimension (it is not one whole chunk, or all counts above are 1) is regular, however ragged the dataset |
| IrregularRequests.WrapIncorrect | src/idx/dataset/dataset.rs:574-589 | shape 20x20x10, chunks 10x10x10, start (0,9,0), counts 20x1x10: the first segment is 90..110; the chunk's value 100 is at (1,0,0), where (1,9,0) is requested |
| IrregularRequests.SheetIncorrect | src/idx/dataset/dataset.rs:569-573 | shape 10x5x10, chunks 10x1x10, full read: the first segment is 0..110 of a chunk of 100 values; its value 10 is at (1,0,0), where (0,1,0) is requested |
| IrregularRequests.ClippedIncorrect | src/idx/dataset/dataset.rs:594-605 | shape 20x15, chunks 10x10, start (0,10), counts 20x5: the first segment is 0..95; its value 5 is the padding at (0,15), where (1,10) is requested |
| IrregularRequests.OverrunDelivers | src/idx/dataset/dataset.rs:589-605 | the same with counts 15x5: the whole run is the one segment 0..95, for 75 values requested |
| Delivery.StepClear | src/idx/dataset/dataset.rs:498-634 | from a stop whose guards hold, one call delivers the span to the next stop, and leaves offset and offset_coords in step: the coordinates ravel to the offset, or to 0 at the end |
| Delivery.RunRegular | src/idx/dataset/dataset.rs:498-634 | by induction over a run: from every stop of a regular request the rest is read correctly |
| Delivery.SpanCovered | src/idx/dataset/dataset.rs:520-605 | if the span is contiguous in the chunk, stored order from the chunk start is the requested row-major order |
| Delivery.NextStop | src/idx/dataset/dataset.rs:589-605 | the position after a span is again a stop, the pivot's digit moved to the piece's end or back to 0 |
| Exactness.NextAdvances | src/idx/dataset/dataset.rs:621-624 | every call on every request advances by at least one value, and the offset by what is delivered, so the iterator ends |
| Exactness.RightContiguous | src/idx/dataset/dataset.rs:587-605 | a call that delivers the right values had a contiguous box to deliver |
| Exactness.RightClear | src/idx/dataset/dataset.rs:528-605 | a call that delivers the right values from a stop had all guards hold there: the guards are necessary |
| Exactness.RightRegular | src/idx/dataset/dataset.rs:498-634 | a correct run makes every stop from its start on clear |
| Exactness.ClipMismatch | src/idx/dataset/dataset.rs:553-558 | past the clipped end of a dimension, the next stored value is not the next requested one |
| Exactness.SpanMismatch | src/idx/dataset/dataset.rs:594-605 | a segment that runs past its span is wrong at the first value past it |
| StopProofs.LoopClear | src/idx/dataset/dataset.rs:528-605 | from a clear stop the dimension loop takes exactly the span, and the coordinates with the carry left over stand for the position after it |
| StopProofs.ReachDimension | src/idx/dataset/dataset.rs:528-605 | the state of the dimension loop after the whole dimensions below the pivot, in closed form, with the two ways to stop early: end of request or overflow |
| StopProofs.Climb | src/idx/dataset/dataset.rs:569-605 | above a chunk one thick, a clear pass only moves the carry upwards: nothing is delivered, the position is kept |
| StopProofs.RippleValue | src/idx/dataset/dataset.rs:607-619 | the loop for the left-over carry adds it to the ravelled coordinates, modulo the size of the request |
| StopProofs.SumFits | src/idx/dataset/dataset.rs:569-576 | while the position lies inside the request, the sum of a coordinate and the carry into it stays in 64 bits |
| StopProofs.RippleSums | src/idx/dataset/dataset.rs:607-619 | so does every sum of the loop for the left-over carry |
| WrapSums.CheckedCarryBound | src/idx/dataset/dataset.rs:569-591 | on any request, a carry never exceeds the number of dimensions it has come up through |
| WrapSums.RunBroad | src/idx/dataset/dataset.rs:498-634 | in that range of volumes no sum of a coordinate and a carry wraps around, on any request |
| StopProofs.DigitStep | src/idx/dataset/dataset.rs:574-578 | splitting a coordinate into digit and carry keeps the position the state stands for |
| StopProofs.SpanFits | src/idx/dataset/dataset.rs:589-605 | a span is not empty and ends within the request; with ones above and the pivot exhausted it is the last |
| Radix.UnravelRavel | src/idx/dataset/dataset.rs:481-492 | unravel inverts ravel inside the box |
| Radix.RavelUnravel | src/idx/dataset/dataset.rs:481-492 | ravel inverts unravel below the volume |
| Radix.ContiguousRavel | src/idx/dataset/dataset.rs:528-605 | positions of a contiguous box ravel to the same number in the box and in the chunk |
| Slicing.RippleBox | src/idx/dataset/dataset.rs:607-619 | the left-over carry keeps every slice coordinate below its count |
| Slicing.DescendBox | src/idx/dataset/dataset.rs:528-605 | so does the dimension loop, on any request |
| Slicers.ChunkStartRavel | src/idx/dataset/dataset.rs:481-492 | the fold of chunk_start is the ravelled position of the coordinate in the chunk |
| Slicers.ArrayFacts | src/idx/dataset/dataset.rs:513-523 | what next looks up before its loop: the chunk found holds the current coordinate, chunk_start is its position in the chunk, and the loop's preconditions hold |
| Slicers.PlanStep | src/idx/dataset/dataset.rs:498-634 | what is still to come is the slice of one call, followed by what is to come after it; the offset grows strictly |
| Builds.RegularReads | src/idx/dataset/dataset.rs:498-634 | in either build, the run of a request that is regular in that build is correct |
| Builds.NextInAdvances | src/idx/dataset/dataset.rs:621-624 | in either build, a call that delivers moves the offset by what it delivers, at least one value |
| Slicers.PlanIsRun | src/idx/dataset/dataset.rs:498-634 | the slices on the dataset's chunks are the segments of the run |
| Slicers.ChunkSlicer.New | src/idx/dataset/dataset.rs:446-477 | a fresh slicer at the origin, with the whole run still to come |
| Slicers.ChunkSlicer.Empty | src/idx/dataset/dataset.rs:429-444 | a slicer with nothing to come |
| Slicers.ChunkSlicer.VisitDimension | src/idx/dataset/dataset.rs:528-605 | one pass of the dimension loop in place is one Visit of the build; with checks it reports an overflow where Visit does |
| Slicers.ChunkSlicer.WalkDimensions | src/idx/dataset/dataset.rs:528-605 | the loop in place is the recursive Descend of the build |
| Slicers.ChunkSlicer.AddCarry | src/idx/dataset/dataset.rs:607-619 | the second loop in place is the recursive Ripple of the build, and with checks fails exactly where a sum leaves 64 bits |
| Slicers.ChunkSlicer.NextArray | src/idx/dataset/dataset.rs:513-633 | the call in place moves the fields and delivers as the function Next says, on the chunk that holds the current coordinate |
| Slicers.ChunkSlicer.Next | src/idx/dataset/dataset.rs:498-634 | takes the front off what is still to come; returns Done only when nothing is |
| Slicers.ChunkSlices | src/idx/dataset/dataset.rs:287-307 | a fresh slicer with the plan of the request still to come |
| Slicers.PlanEmpty | src/idx/dataset/dataset.rs:294-306 | the plan is empty if and only if some count is 0, or start plus count exceeds the shape in some dimension |
| CacheReaders.ReadNothing | src/reader/cache.rs:47-92 | a read of such a request succeeds without writing, if the buffer is long enough for the counts |
| Slicers.Collect | src/idx/dataset/dataset.rs:318-328 | iterating to the end yields exactly the plan, or None on overflow |
| Chunks.ContainsEqual | src/idx/chunk.rs:58-71 | contains answers Equal exactly for the points in the chunk's box |
| Chunks.ContainsOrder | src/idx/chunk.rs:56-71 | contains answers Less (Greater) if and only if, along the first dimension in which the point is not in the box, it is before (after) it |
| Chunks.CompareRavel | src/idx/chunk.rs:152-164 | lexicographic order is the order of ravelled positions |
| Chunks.CompareTransitive | src/idx/chunk.rs:152-164 | the order used for sorting is transitive |
| Chunks.CompareEqual | src/idx/chunk.rs:152-164 | Equal means equal offsets, and swapping the arguments swaps the answer |
| Sorting.Sort | src/idx/dataset/dataset.rs:135-135 | an ordered permutation; equal elements in any order |
| Datasets.Index | src/idx/dataset/dataset.rs:135-163 | succeeds exactly when the number of chunks is the volume of the grid, keeps shape, type, byte order and filters as given, and then, for distinct chunks on the grid, yields a valid dataset |
| Datasets.SizesProd | src/idx/dataset/dataset.rs:193-243 | the reversed scan yields the products of the sizes behind each dimension |
| Datasets.ChunkAtCell | src/idx/dataset/dataset.rs:135-154 | chunk i of the sorted list stands at cell unravel(i) of the grid |
| Datasets.LookupOffset | src/idx/dataset/dataset.rs:358-371 | the chunk found for x begins at x rounded down to the chunk shape |
| Datasets.LookupUnique | src/idx/dataset/dataset.rs:358-371 | a chunk of the list contains x (Equal) if and only if it is the one found |
| Datasets.GeometryFits | src/idx/dataset/dataset.rs:193-243 | strides, sizes and chunk ends fit in 64 bits when the padded volume does |
| Datasets.LookupFits | src/idx/dataset/dataset.rs:362-368 | every partial sum of the lookup, and every product in it, is below the number of chunks, and so below 2^64 |
| Slicers.StartFits | src/idx/dataset/dataset.rs:485-491 | no difference of chunk_start is negative, and every partial sum and product lies below the chunk volume |
| WholeReads.LayeredRegular | src/idx/dataset/dataset.rs:569-605 | a full read with chunks 1..1, c, full is regular when the last chunk size is more than 1 |
| WholeReads.NoFracture | tests/read_norkyst.rs:132-150 | such a full read yields exactly one slice per chunk, in list order, from 0 to the clipped chunk volume; with a last chunk size of 1, when the request is regular |
| WholeReads.NextChunk | src/idx/dataset/dataset.rs:569-605 | in such a read, a call at the start of chunk i delivers all of it and stops at chunk i + 1 |
| Gathering.GatherRegular | src/reader/cache.rs:60-89 | for a regular request, the bytes gathered slice by slice are the array's values on the box, row-major |
| Gathering.SliceHolds | src/reader/cache.rs:60-86 | a slice of a decoded chunk holds the values at the coordinates it covers |
| Gathering.ValueAt | src/reader/cache.rs:47-92 | value j of the gathered bytes is the array's at indices + unravel(j, counts) |
| Gathering.WrittenHolds | src/reader/chunk.rs:14-73 | a file whose chunks are stored as the dataset says, transposed if shuffled and then deflated if compressed, holds the array |
| CacheReaders.CacheReader.WithDataset | src/reader/cache.rs:20-31 | an empty cache of the computed capacity |
| CacheReaders.CacheReader.Fetch | src/reader/cache.rs:68-86 | returns the decoded chunk, from the cache or the file, keeps every entry equal to the decoded chunk at its address, and counts as an access of it |
| CacheReaders.CacheReader.ReadTo | src/reader/cache.rs:47-92 | result and bytes written are a function of file, dataset and request alone, whatever the cache holds and its capacity, in either build; the rest of the buffer is kept; it fails exactly when a byte cannot be had or does not fit |
| CacheReaders.CacheReader.ReadSlices | src/reader/cache.rs:60-89 | what is written and what is still to come always make up the whole |
| CacheReaders.HitIsDecoded | src/reader/cache.rs:68-71 | an entry found at a chunk's address is that chunk, decoded |
| CacheReaders.ExpectedRegular | src/reader/cache.rs:47-92 | on a regular request the bytes of every reader are the array's values on the box, and as many as the counts say |
| CacheReaders.ReadValues | src/reader/cache.rs:47-92 | a read of a regular request succeeds, leaves at each place j the value at indices + unravel(j, counts), and nothing else changes |
| CacheReaders.CacheBound | src/reader/cache.rs:20-31 | in every valid state the cache holds at most 32 MiB of decoded bytes, or one chunk |
| Caches.CapacityExact | src/reader/cache.rs:21-23 | the capacity is the number of chunks that fit into 32 MiB, at least one |
| Caches.LruStep | src/reader/cache.rs:68-86 | every access keeps that the cache holds the chunks used last, the latest first, and has dropped only chunks used before all of these |
| Streams.CacheIsLru | src/reader/stream.rs:65-89 | so it is in a stream, after any slices that can be served |
| Caches.CapacityBound | src/reader/cache.rs:21-28 | that many entries of at most x chunk sizes are at most x times 32 MiB, or one entry |
| DirectReaders.GroupChunkSlices | src/idx/dataset/dataset.rs:311-333 | the slices with their destinations, sorted by address, ties in any order |
| DirectReaders.FetchOrKeep | src/reader/direct.rs:132-151 | the chunk kept from the slice before is reused at the same address; otherwise a larger address is read |
| DirectReaders.WriteAll | src/reader/direct.rs:130-165 | scattering any address-sorted permutation of the slices leaves the gathered bytes |
| DirectReaders.ReadTo | src/reader/direct.rs:113-168 | in either build the same outcome as the cache reader, and the addresses read are strictly increasing and exactly those touched: each chunk is decoded once |
| DirectReaders.AddressesRead | src/reader/direct.rs:128-151 | the log of addresses read is strictly increasing and holds exactly the addresses of the slices |
| Scattering.TagAgrees | src/idx/dataset/dataset.rs:318-328 | each slice's bytes are the gathered bytes at its destination |
| Scattering.TagCovers | src/idx/dataset/dataset.rs:318-328 | every gathered byte lies in some slice's destination |
| Scattering.TagDisjoint | src/reader/direct.rs:79-88 | destinations of different slices do not overlap, as the comment at the unsafe copy claims |
| Scattering.AllFit | src/reader/direct.rs:164-164 | if every slice can be had and fits, the whole can be had and fits |
| ParallelReads.GroupsPartition | src/reader/direct.rs:48-50 | grouping neighbours by address loses nothing, each group is of one chunk, and no two groups share one |
| ParallelReads.NoRace | src/reader/direct.rs:79-88 | no two workers store to the same byte |
| ParallelReads.StepSound | src/reader/direct.rs:69-89 | where the bytes fit: a step of any worker is possible and keeps that each target byte is right or still to be written, and all stores are of target bytes |
| ParallelReads.RunSound | src/reader/direct.rs:52-94 | so does every run, under every schedule |
| ParallelReads.ParallelRead | src/reader/direct.rs:35-97 | under every interleaving, and for a buffer of any length: once all workers are done, the bytes of the sequential readers have found room, and the buffer holds just these |
| ParallelBounds.StoresInside | src/reader/direct.rs:69-89 | the stores lie inside the buffer under every interleaving if and only if the values of the slices fit into it |
| ParallelBounds.CheckSuffices | src/reader/direct.rs:43-46 | every buffer that passes the length check keeps the stores inside if and only if the slices hold no more values than requested |
| ParallelBounds.PlanTotal | src/idx/dataset/dataset.rs:498-634 | the slices of any run that ends hold at least the values requested |
| ParallelBounds.RegularTotal | src/idx/dataset/dataset.rs:498-634 | those of a regular request hold exactly the values requested |
| ParallelBounds.ParallelValues | src/reader/direct.rs:35-97 | for a regular request the length check suffices: under every interleaving all stores lie in the place of the values requested, and at the end value j is the array's at indices + unravel(j, counts) |
| ParallelBounds.OverrunStrays | src/reader/direct.rs:43-89 | shape 20x15, chunks 10x10, start (0,10), counts 15x5: a buffer of just 75 values passes the check, a worker comes to store outside it, and the other readers fail |
| Streams.Serve | src/reader/stream.rs:71-90 | an item depends on file and slice only, not on the cache, whose entries stay rendered chunks |
| Streams.Stream | src/reader/stream.rs:49-148 | in either build, one item per slice in request order, up to the first that cannot be had, with bounded memory, and a peak that covers the cache after every item |
| Streams.StreamRegular | src/reader/stream.rs:49-93 | on a regular request the raw stream, joined, is the array's values on the box, for every data type and byte order |
| Streams.XdrStreamRegular | src/reader/stream.rs:96-148 | and the XDR stream of a supported type, joined, is their conversion |
| ByteOrders.BigEndianWord | src/reader/stream.rs:48-92 | a stored word, served as it is, has its value as a big-endian number if and only if it is stored so or reads the same both ways |
| ByteOrders.BigEndianAlways | src/reader/stream.rs:48-92 | all words of a size do if and only if the order is big-endian or the size is 1 |
| ByteOrders.StreamByteOrder | src/reader/stream.rs:48-92 | on a regular request the raw stream, joined, is big-endian if and only if the dataset is, or every value requested reads the same both ways |
| Instances.LittleStream | src/reader/stream.rs:48-92 | a little-endian dataset of the 2-byte value 1: its raw stream yields 1, 0, which is 256 as a big-endian number |
| Instances.MixedHolds | src/reader/chunk.rs:62-66 | a file with the bytes 1, 2, 0, 0, shuffled, holds the 2-byte values 1 and 2 |
| Instances.MixedStream | src/reader/stream.rs:49-93 | and its stream yields 1, 0, 2, 0 |
| Instances.QuartersOverrun | src/reader/direct.rs:43-89 | four chunks of 100 zero bytes each are a dataset and a file for ParallelBounds.OverrunStrays |
| Streams.RawStream | src/reader/stream.rs:49-93 | the raw stream, joined, is the bytes gathered by the readers, complete exactly when these can be had |
| Streams.XdrItem | src/reader/stream.rs:116-145 | slicing the converted chunk is converting the slice, and either both can be had or neither |
| Streams.XdrStream | src/reader/stream.rs:96-148 | the XDR stream, joined, is the conversion of the bytes gathered by the readers |
| Streams.StreamPeak | src/reader/stream.rs:25-26 | on a file that holds an array, a stream's cache never exceeds the XDR factor times 32 MiB, or times one chunk |
| Streams.PeakAttained | src/reader/stream.rs:65-89 | a stream over n different chunks, where n fit into the cache, keeps n rendered chunks |
| Streams.PeakExceeds | src/reader/stream.rs:25-26 | so stream_xdr of a widened type exceeds the documented maximum of 32 MiB or one chunk, by twice or more |
| Shuffle.Shuffle | src/filters/shuffle.rs:29-49 | byte i of word j goes to i * sz + j |
| Shuffle.Unshuffle | src/filters/shuffle.rs:53-73 | the source is the shuffled form of the result |
| Shuffle.UnshuffleStructured | src/filters/shuffle.rs:80-98 | the same, with the loops exchanged |
| Shuffle.UnshuffleSized | src/filters/shuffle.rs:102-127 | the inverse of shuffling for word sizes 1, 2, 4, 8; no result otherwise |
| Shuffle.TransposedUnique | src/filters/shuffle.rs:29-49 | the relation determines the shuffled bytes: every byte is placed, and once |
| Shuffle.OriginalUnique | src/filters/shuffle.rs:53-98 | it determines the original bytes, so all the inverses agree |
| Shuffle.UnshuffleShuffle | src/filters/shuffle.rs:29-127 | shuffling and unshuffling are mutually inverse, for every word size and length |
| Storage.DecodeChunk | src/reader/chunk.rs:38-73 | inflate, then unshuffle, with the error of either |
| Storage.ReadBack | src/reader/chunk.rs:4-36 | a chunk stored by the pipeline at an address is read back as it was, and chunks elsewhere in the file are read as before |
| Storage.ReadSize | src/reader/chunk.rs:4-36 | what is read has the decoded chunk size if compressed, else the stored size |
| Storage.DecodeStored | src/reader/chunk.rs:38-73 | what is stored so decodes to the content, for all four settings of the filters |
| Storage.DecodeEncode | src/reader/chunk.rs:38-73 | decoding inverts shuffle-then-deflate for all four settings of the filters |
| Storage.EncodeDecode | src/reader/chunk.rs:62-66 | without compression, encoding inverts decoding |
| Xdr.LEDigit | src/filters/byteorder.rs:52-68 | the bytes of a little-endian word are its digits to the base 256, the lowest first |
| Xdr.SignedRange | src/filters/xdr.rs:22-43 | a signed value is the word, or the word less 2^(8n), whichever lies in the range of n-byte integers |
| Xdr.XdrUnsigned | src/filters/xdr.rs:45-61 | an unsigned value of 1, 2, 4 or 8 bytes, or the bit pattern of a float of 4 or 8, in either order becomes the big-endian word with the same value (sections 4.2 and 4.5 to 4.7 of RFC 4506) |
| Xdr.XdrSigned | src/filters/xdr.rs:45-61 | a signed one becomes the big-endian two's complement word with the same value (sections 4.1 and 4.5 of RFC 4506) |
| Xdr.XdrCastSlice | src/filters/xdr.rs:22-43 | the widening loop is the conversion word by word |
| Xdr.SwapWords | src/filters/byteorder.rs:171-187 | the loop reverses every word in place |
| Xdr.ToBigESized | src/filters/byteorder.rs:192-215 | succeeds exactly for the sizes and lengths that have a swap, and then converts in place; otherwise leaves the buffer alone |
| Xdr.Xdr | src/filters/xdr.rs:45-61 | converts the buffer, or reports the same errors as its parts |
| Xdr.XdrIsWords | src/filters/xdr.rs:45-61 | for each supported type the conversion is word by word, also where bytes are passed through |
| Xdr.XdrLength | src/filters/xdr.rs:6-19 | the output is xdr_factor times as long |
| Xdr.XdrPlus | src/filters/xdr.rs:22-61 | converting is a homomorphism on whole words |
| Xdr.XdrMiddle | src/reader/stream.rs:117-121 | cutting the output at scaled positions is converting the cut |
| Xdr.SwapIsBE | src/filters/byteorder.rs:52-68 | swapping a little-endian load gives the big-endian value |
| ChunkTable.TableLayout | src/idx/chunk.rs:17-28 | chunk i stands at word i * (D + 2): address, size, then the offset |
| ChunkTable.TableRead | src/idx/chunk.rs:96-143 | it is read from there, in that order |
| ChunkTable.WordBytes | src/idx/serde.rs:72-80 | word i stands at byte 8 * i, lowest byte first |
| ChunkTable.WordRead | src/idx/serde.rs:82-97 | it is read from there, lowest byte first, and fits in 64 bits |
| ChunkTable.ChunksSurvive | src/idx/chunk.rs:107-143 | flattening chunks to words and reinterpreting gives back every field of every chunk |
| ChunkTable.WordsSurvive | src/idx/chunk.rs:107-143 | reinterpreting succeeds exactly for multiples of D + 2 words, and flattening gives the words back |
| ChunkTable.BytesReread | src/idx/serde.rs:72-98 | bytes read as words exactly when they are a multiple of 8, and are written back unchanged |
| ChunkTable.TableSurvives | src/idx/serde.rs:72-98 | a chunk table written to bytes and read back is the same table |

## Left out

- Opening files, walking groups and collecting chunks from HDF5: `Datasets.Index` starts from the collected chunks.
- Resolving extents to indices and counts, and the ndarray conversions: requests are given by indices and counts.
- The decompressor is a parameter; its correctness is a hypothesis.
- Thread pools, async plumbing and file handles: the parallel reader is one worker per group and stores byte by byte, in any order.
- ParallelReads.ParallelRead: assumes that every slice can be decoded; a worker that fails on the way is not modelled.
- The contents of the buffer after a failed read, and which error it is.
- Products with the size of a value in the readers (`start * dsz`, `counts.product() * dsz`) are not bounded by 64 bits.
- Builds.NextIn: without overflow checks, a call that delivers an empty segment counts as a failure; the code asserts that there is none, and without assertions would go on.
- SlicerTheorem.QuickRegular: one direction only; the exact condition is `Regular`, which `Decisions.IsRegular` decides.
- WrapExactness.WrapExact: its "only if" half needs three times the padded volume and the number of dimensions together to stay below 2^64, so that the sums of one call cannot wrap all the way around; the "if" half does not.
- ParallelBounds.StoresInside: the exact condition is on the slices of the request, which a caller can add up; that a request be regular suffices, but is not necessary.
- Gathering.Holds: takes each edge chunk as stored at full chunk shape, as the code does; the padding values are part of the array function.
- Big-endian hosts, the float variants of `Swap`, floats of 1 or 2 bytes in XDR, and unknown byte orders in the XDR theorems.
- Alignment requirements of the in-place casts, and the legality of the unsafe reinterpretations: `ChunkTable` models their result.
- Caches.Put: models the least-recently-used cache as a list; the hash table behind it is not modelled.
- Sorting.Sort: an insertion sort in place of the library's; only the order and the permutation are used.
- `StrengthReducedU64` is ordinary division; `dim_sz`, `size`, `valid` and the other serde forms are not modelled.
- Python bindings, binaries and benchmarks.
