// A chunked dataset, and the lookup of the chunk that holds a coordinate.
module Datasets {
  import opened Radix
  import opened Slicing
  import opened Chunks
  import opened Sorting
  import opened Options
  import opened Types

  // The suffix products of s, accumulated from the last entry: p is the product so far.
  function Sizes(s: seq<nat>, p: nat): (r: seq<nat>)
    ensures |r| == |s|
  {
    if s == [] then [] else Sizes(s[..|s| - 1], p * s[|s| - 1]) + [p]
  }

  lemma MulSwap(a: nat, b: nat, c: nat, d: nat)
    requires a == b * c && c == d * 1
    ensures a == d * b
  {
  }

  lemma ProdLast(s: seq<nat>)
    requires s != []
    ensures Prod(s) == s[|s| - 1] * Prod(s[..|s| - 1])
  {
    hide Prod;
    var n := |s| - 1;
    ProdSplit(s, n);
    ProdStep(s, n);
    ProdOnes(s[n + 1..]);
    MulSwap(Prod(s), Prod(s[..n]), Prod(s[n..]), s[n]);
  }

  lemma {:induction false} SizesProd(s: seq<nat>, p: nat, k: nat)
    requires k < |s|
    ensures Sizes(s, p)[k] == p * Prod(s[k + 1..])
  {
    var n := |s| - 1;
    if k == n {
      assert s[k + 1..] == [];
    } else {
      SizesProd(s[..n], p * s[n], k);
      hide Prod;
      ProdLast(s[k + 1..]);
      assert s[k + 1..][..n - k - 1] == s[..n][k + 1..];
      MulAssoc(p, s[n], Prod(s[..n][k + 1..]));
    }
  }

  // The number of chunks along each dimension.
  function Grid(shape: seq<nat>, chunkShape: seq<nat>): (g: seq<nat>)
    requires |shape| == |chunkShape| && Positive(chunkShape)
    ensures |g| == |shape|
  {
    seq(|shape|, k requires 0 <= k < |shape| => DivCeil(shape[k], chunkShape[k]))
  }

  // The build is that of the program that reads the dataset.
  datatype Dataset = Dataset(
    build: Build, dtype: Datatype, dsize: nat, order: Order, shuffle: bool, gzip: bool,
    chunks: seq<Chunk>, shape: seq<nat>, chunkShape: seq<nat>,
    scaledDimSz: seq<nat>, chunkDimSz: seq<nat>)

  function New(build: Build, dtype: Datatype, order: Order, shuffle: bool, gzip: bool, shape: seq<nat>,
               chunks: seq<Chunk>, chunkShape: seq<nat>): (ds: Dataset)
    requires |shape| == |chunkShape| && Positive(chunkShape)
    ensures ds.build == build && ds.dtype == dtype && ds.order == order && ds.shuffle == shuffle && ds.gzip == gzip
  {
    var scaled, strides := Sizes(Grid(shape, chunkShape), 1), Sizes(chunkShape, 1);
    Dataset(build, dtype, dtype.size, order, shuffle, gzip, chunks, shape, chunkShape, scaled, strides)
  }

  // A chunk of the grid: it begins inside the dataset, at a multiple of the chunk shape.
  ghost predicate OnGrid(c: Chunk, shape: seq<nat>, chunkShape: seq<nat>)
    requires |shape| == |chunkShape| && Positive(chunkShape)
  {
    |c.offset| == |shape| && forall k :: 0 <= k < |shape| ==> c.offset[k] % chunkShape[k] == 0 && c.offset[k] < shape[k]
  }

  ghost predicate Valid(ds: Dataset) {
    && |ds.shape| == |ds.chunkShape| && Positive(ds.chunkShape)
    && ds == New(ds.build, ds.dtype, ds.order, ds.shuffle, ds.gzip, ds.shape, ds.chunks, ds.chunkShape)
    && ds.dsize > 0
    && |ds.chunks| == Prod(Grid(ds.shape, ds.chunkShape))
    && (forall i :: 0 <= i < |ds.chunks| ==> OnGrid(ds.chunks[i], ds.shape, ds.chunkShape))
    && (forall i, j :: 0 <= i < j < |ds.chunks| ==> Compare(ds.chunks[i].offset, ds.chunks[j].offset) == Less)
    && (forall i, j :: 0 <= i < j < |ds.chunks| ==> ds.chunks[i].addr != ds.chunks[j].addr)
    && Prod(Padded(ds.shape, ds.chunkShape)) < U64
  }

  // The cell of the chunk grid that holds the coordinate x.
  function Cell(x: seq<nat>, chunkShape: seq<nat>): (c: seq<nat>)
    requires |x| == |chunkShape| && Positive(chunkShape)
    ensures |c| == |x|
  {
    seq(|x|, k requires 0 <= k < |x| => x[k] / chunkShape[k])
  }

  lemma CeilAbove(x: nat, s: nat, c: nat)
    requires c > 0 && x < s
    ensures x / c < DivCeil(s, c)
  {
    var q := x / c;
    assert x == q * c + x % c;
    var d := s + c - 1;
    assert d == d / c * c + d % c;
    MulOrder(d / c, q, c);
  }

  lemma CellInGrid(x: seq<nat>, shape: seq<nat>, chunkShape: seq<nat>)
    requires InBox(x, shape) && |shape| == |chunkShape| && Positive(chunkShape)
    ensures InBox(Cell(x, chunkShape), Grid(shape, chunkShape))
  {
    forall k | 0 <= k < |x| ensures x[k] / chunkShape[k] < DivCeil(shape[k], chunkShape[k]) {
      CeilAbove(x[k], shape[k], chunkShape[k]);
    }
  }

  // The cell of a chunk of the grid, scaled back, is its offset.
  lemma CellOffset(c: Chunk, shape: seq<nat>, chunkShape: seq<nat>)
    requires |shape| == |chunkShape| && Positive(chunkShape) && OnGrid(c, shape, chunkShape)
    ensures InBox(Cell(c.offset, chunkShape), Grid(shape, chunkShape))
    ensures Times(Cell(c.offset, chunkShape), chunkShape) == c.offset
  {
    CellInGrid(c.offset, shape, chunkShape);
    forall k | 0 <= k < |shape| ensures c.offset[k] / chunkShape[k] * chunkShape[k] == c.offset[k] {
      assert c.offset[k] == c.offset[k] / chunkShape[k] * chunkShape[k] + c.offset[k] % chunkShape[k];
    }
  }

  ghost function Position(ds: Dataset, i: nat): nat
    requires Valid(ds) && i < |ds.chunks|
  {
    Ravel(Cell(ds.chunks[i].offset, ds.chunkShape), Grid(ds.shape, ds.chunkShape))
  }

  lemma PositionIncreases(ds: Dataset, i: nat, j: nat)
    requires Valid(ds) && i < j < |ds.chunks|
    ensures Position(ds, i) < Position(ds, j) < |ds.chunks|
  {
    hide Ravel, Prod;
    var a, b := Cell(ds.chunks[i].offset, ds.chunkShape), Cell(ds.chunks[j].offset, ds.chunkShape);
    CellOffset(ds.chunks[i], ds.shape, ds.chunkShape);
    CellOffset(ds.chunks[j], ds.shape, ds.chunkShape);
    CompareScaled(a, b, ds.chunkShape);
    CompareRavel(a, b, Grid(ds.shape, ds.chunkShape));
    RavelBound(b, Grid(ds.shape, ds.chunkShape));
  }

  lemma {:induction false} PositionAtLeast(ds: Dataset, i: nat)
    requires Valid(ds) && i < |ds.chunks|
    ensures Position(ds, i) >= i
  {
    hide Valid, Position;
    if i > 0 {
      PositionAtLeast(ds, i - 1);
      PositionIncreases(ds, i - 1, i);
    }
  }

  lemma {:induction false} PositionAtMost(ds: Dataset, i: nat)
    requires Valid(ds) && i < |ds.chunks|
    ensures Position(ds, i) <= i
    decreases |ds.chunks| - i
  {
    if i + 1 < |ds.chunks| {
      hide Valid, Position;
      PositionAtMost(ds, i + 1);
      PositionIncreases(ds, i, i + 1);
    } else {
      hide Ravel, Prod;
      CellOffset(ds.chunks[i], ds.shape, ds.chunkShape);
      RavelBound(Cell(ds.chunks[i].offset, ds.chunkShape), Grid(ds.shape, ds.chunkShape));
    }
  }

  // The sorted chunk list enumerates the chunk grid in row-major order.
  lemma ChunkAtCell(ds: Dataset, i: nat)
    requires Valid(ds) && i < |ds.chunks|
    ensures Ravel(Cell(ds.chunks[i].offset, ds.chunkShape), Grid(ds.shape, ds.chunkShape)) == i
  {
    PositionAtLeast(ds, i);
    PositionAtMost(ds, i);
  }

  // The position of the chunk that holds x in the list: a fold over the dimensions.
  function CoordFold(x: seq<nat>, chunkShape: seq<nat>, sizes: seq<nat>, offset: nat): nat
    requires |x| == |chunkShape| == |sizes| && Positive(chunkShape)
  {
    if x == [] then offset else CoordFold(x[1..], chunkShape[1..], sizes[1..], offset + x[0] / chunkShape[0] * sizes[0])
  }

  lemma {:induction false} CoordFoldRavel(x: seq<nat>, chunkShape: seq<nat>, sizes: seq<nat>, offset: nat,
                                          grid: seq<nat>)
    requires |x| == |chunkShape| == |sizes| == |grid| && Positive(chunkShape)
    requires forall k :: 0 <= k < |x| ==> sizes[k] == Prod(grid[k + 1..])
    ensures CoordFold(x, chunkShape, sizes, offset) == offset + Ravel(Cell(x, chunkShape), grid)
  {
    if x != [] {
      forall k | 0 <= k < |x| - 1 ensures sizes[1..][k] == Prod(grid[1..][k + 1..]) {
        assert grid[1..][k + 1..] == grid[k + 2..] && sizes[1..][k] == sizes[k + 1];
      }
      CoordFoldRavel(x[1..], chunkShape[1..], sizes[1..], offset + x[0] / chunkShape[0] * sizes[0], grid[1..]);
      assert Cell(x, chunkShape)[1..] == Cell(x[1..], chunkShape[1..]);
    }
  }

  lemma CoordFoldIsCell(ds: Dataset, x: seq<nat>)
    requires Valid(ds) && InBox(x, ds.shape)
    ensures CoordFold(x, ds.chunkShape, ds.scaledDimSz, 0) ==
            Ravel(Cell(x, ds.chunkShape), Grid(ds.shape, ds.chunkShape))
    ensures CoordFold(x, ds.chunkShape, ds.scaledDimSz, 0) < |ds.chunks|
  {
    hide Ravel, Prod, CoordFold, Sizes;
    var grid := Grid(ds.shape, ds.chunkShape);
    forall k | 0 <= k < |x| ensures ds.scaledDimSz[k] == Prod(grid[k + 1..]) {
      SizesProd(grid, 1, k);
    }
    CoordFoldRavel(x, ds.chunkShape, ds.scaledDimSz, 0, grid);
    CellInGrid(x, ds.shape, ds.chunkShape);
    RavelBound(Cell(x, ds.chunkShape), grid);
  }

  function ChunkAtCoord(ds: Dataset, x: seq<nat>): (c: Chunk)
    requires Valid(ds) && InBox(x, ds.shape)
    ensures c in ds.chunks
  {
    CoordFoldIsCell(ds, x);
    ds.chunks[CoordFold(x, ds.chunkShape, ds.scaledDimSz, 0)]
  }

  // The chunk found begins at the cell of x.
  lemma LookupOffset(ds: Dataset, x: seq<nat>)
    requires Valid(ds) && InBox(x, ds.shape)
    ensures ChunkAtCoord(ds, x).offset == Times(Cell(x, ds.chunkShape), ds.chunkShape)
  {
    hide Ravel, Prod, CoordFold, Sizes;
    var i, grid := CoordFold(x, ds.chunkShape, ds.scaledDimSz, 0), Grid(ds.shape, ds.chunkShape);
    CoordFoldIsCell(ds, x);
    ChunkAtCell(ds, i);
    CellOffset(ds.chunks[i], ds.shape, ds.chunkShape);
    CellInGrid(x, ds.shape, ds.chunkShape);
    UnravelRavel(Cell(x, ds.chunkShape), grid);
    UnravelRavel(Cell(ds.chunks[i].offset, ds.chunkShape), grid);
  }

  lemma CellBounds(o: nat, x: nat, c: nat)
    requires c > 0 && o % c == 0
    ensures o <= x < o + c <==> o == x / c * c
  {
    assert x == x / c * c + x % c;
    assert o == o / c * c;
    if o <= x < o + c {
      DivModUnique(x, c, o / c, x - o);
    }
  }

  lemma SameOffset(ds: Dataset, a: Chunk, b: Chunk)
    requires Valid(ds) && a in ds.chunks && b in ds.chunks && a.offset == b.offset
    ensures a == b
  {
    var i :| 0 <= i < |ds.chunks| && ds.chunks[i] == a;
    var j :| 0 <= j < |ds.chunks| && ds.chunks[j] == b;
    CompareEqual(a.offset, b.offset);
  }

  // The chunk found is the one chunk that contains x.
  lemma LookupUnique(ds: Dataset, x: seq<nat>, c: Chunk)
    requires Valid(ds) && InBox(x, ds.shape) && c in ds.chunks
    ensures Contains(c.offset, x, ds.chunkShape) == Equal <==> c == ChunkAtCoord(ds, x)
  {
    hide Ravel, Prod, CoordFold, Sizes, Contains, ChunkAtCoord;
    LookupOffset(ds, x);
    ContainsEqual(c.offset, x, ds.chunkShape);
    forall k | 0 <= k < |x|
      ensures c.offset[k] <= x[k] < c.offset[k] + ds.chunkShape[k] <==>
              c.offset[k] == x[k] / ds.chunkShape[k] * ds.chunkShape[k]
    {
      CellBounds(c.offset[k], x[k], ds.chunkShape[k]);
    }
    if forall k :: 0 <= k < |x| ==> c.offset[k] <= x[k] < c.offset[k] + ds.chunkShape[k] {
      SameOffset(ds, c, ChunkAtCoord(ds, x));
    }
  }

  // What the file says of its chunks: each is on the grid, and no two share an offset or an address.
  ghost predicate Collected(chunks: seq<Chunk>, shape: seq<nat>, chunkShape: seq<nat>)
    requires |shape| == |chunkShape| && Positive(chunkShape)
  {
    && (forall c :: c in chunks ==> OnGrid(c, shape, chunkShape))
    && (forall c :: multiset(chunks)[c] <= 1)
    && (forall a, b :: a in chunks && b in chunks && a != b ==> a.offset != b.offset && a.addr != b.addr)
  }

  lemma OffsetsOrdered(chunks: seq<Chunk>, d: nat, le: (Chunk, Chunk) -> bool)
    requires forall c :: c in chunks ==> |c.offset| == d
    requires forall a: Chunk, b: Chunk ::
               le(a, b) == (|a.offset| == |b.offset| && Compare(a.offset, b.offset) != Greater)
    ensures Orders(chunks, le)
  {
    forall a, b | a in chunks && b in chunks ensures le(a, b) || le(b, a) {
      CompareEqual(a.offset, b.offset);
      CompareEqual(b.offset, a.offset);
    }
    forall a, b, c | a in chunks && b in chunks && c in chunks && le(a, b) && le(b, c) ensures le(a, c) {
      CompareTransitive(a.offset, b.offset, c.offset);
    }
  }

  lemma SortedStrictly(chunks: seq<Chunk>, collected: seq<Chunk>, shape: seq<nat>, chunkShape: seq<nat>)
    requires |shape| == |chunkShape| && Positive(chunkShape) && Collected(collected, shape, chunkShape)
    requires multiset(chunks) == multiset(collected) && forall i :: 0 <= i < |chunks| ==> |chunks[i].offset| == |shape|
    requires forall i, j :: 0 <= i < j < |chunks| ==> Compare(chunks[i].offset, chunks[j].offset) != Greater
    ensures forall i :: 0 <= i < |chunks| ==> OnGrid(chunks[i], shape, chunkShape)
    ensures forall i, j :: 0 <= i < j < |chunks| ==> Compare(chunks[i].offset, chunks[j].offset) == Less
    ensures forall i, j :: 0 <= i < j < |chunks| ==> chunks[i].addr != chunks[j].addr
  {
    SameElements(chunks, collected);
    forall i, j | 0 <= i < j < |chunks|
      ensures Compare(chunks[i].offset, chunks[j].offset) == Less && chunks[i].addr != chunks[j].addr
    {
      if chunks[i] == chunks[j] {
        Repeated(chunks, i, j);
      }
      CompareEqual(chunks[i].offset, chunks[j].offset);
    }
    forall i | 0 <= i < |chunks| ensures OnGrid(chunks[i], shape, chunkShape) {
      assert chunks[i] in collected;
    }
  }

  // The dataset made of the sorted chunks is valid.
  lemma NewValid(build: Build, dtype: Datatype, order: Order, shuffle: bool, gzip: bool, shape: seq<nat>,
                 chunks: seq<Chunk>, collected: seq<Chunk>, chunkShape: seq<nat>)
    requires |shape| == |chunkShape| && Positive(chunkShape) && Collected(collected, shape, chunkShape)
    requires multiset(chunks) == multiset(collected) && forall i :: 0 <= i < |chunks| ==> |chunks[i].offset| == |shape|
    requires forall i, j :: 0 <= i < j < |chunks| ==> Compare(chunks[i].offset, chunks[j].offset) != Greater
    requires |chunks| == Prod(Grid(shape, chunkShape)) && dtype.size > 0 && Prod(Padded(shape, chunkShape)) < U64
    ensures Valid(New(build, dtype, order, shuffle, gzip, shape, chunks, chunkShape))
  {
    hide Prod, Grid, Padded, Sizes, Collected, OnGrid, Compare;
    SortedStrictly(chunks, collected, shape, chunkShape);
  }

  lemma CollectedIs(collected: seq<Chunk>, shape: seq<nat>, chunkShape: seq<nat>)
    requires |shape| == |chunkShape| && Positive(chunkShape) && forall c :: c in collected ==> |c.offset| == |shape|
    requires forall c :: c in collected ==> forall k :: 0 <= k < |shape| ==>
               c.offset[k] % chunkShape[k] == 0 && c.offset[k] < shape[k]
    requires forall c :: multiset(collected)[c] <= 1
    requires forall a, b :: a in collected && b in collected && a != b ==> a.offset != b.offset && a.addr != b.addr
    ensures Collected(collected, shape, chunkShape)
  {
  }

  // Sorting the collected chunks and checking their number.
  method Index(build: Build, dtype: Datatype, order: Order, shuffle: bool, gzip: bool, shape: seq<nat>,
               collected: seq<Chunk>, chunkShape: seq<nat>)
    returns (r: Option<Dataset>)
    requires |shape| == |chunkShape| && Positive(chunkShape)
    requires forall c :: c in collected ==> |c.offset| == |shape|
    ensures r.Some? <==> |collected| == Prod(Grid(shape, chunkShape))
    ensures r.Some? ==> r.value.shape == shape && r.value.chunkShape == chunkShape
                        && multiset(r.value.chunks) == multiset(collected)
    ensures r.Some? ==> r.value.build == build && r.value.dtype == dtype && r.value.dsize == dtype.size
                        && r.value.order == order && r.value.shuffle == shuffle && r.value.gzip == gzip
    ensures r.Some? && dtype.size > 0 && Prod(Padded(shape, chunkShape)) < U64
            && (forall c :: c in collected ==> forall k :: 0 <= k < |shape| ==>
                  c.offset[k] % chunkShape[k] == 0 && c.offset[k] < shape[k])
            && (forall c :: multiset(collected)[c] <= 1)
            && (forall a, b :: a in collected && b in collected && a != b ==> a.offset != b.offset && a.addr != b.addr)
            ==> Valid(r.value)
  {
    hide Prod, Grid, Padded, Sizes, Valid, Collected, OnGrid, Compare;
    var le := (a: Chunk, b: Chunk) => |a.offset| == |b.offset| && Compare(a.offset, b.offset) != Greater;
    OffsetsOrdered(collected, |shape|, le);
    var chunks := Sort(collected, le);
    SameElements(chunks, collected);
    var expected := Prod(Grid(shape, chunkShape));
    if |chunks| != expected {
      return None;
    }
    r := Some(New(build, dtype, order, shuffle, gzip, shape, chunks, chunkShape));
    if (forall c :: c in collected ==> forall k :: 0 <= k < |shape| ==>
          c.offset[k] % chunkShape[k] == 0 && c.offset[k] < shape[k])
       && (forall c :: multiset(collected)[c] <= 1)
       && (forall a, b :: a in collected && b in collected && a != b ==> a.offset != b.offset && a.addr != b.addr)
       && dtype.size > 0 && Prod(Padded(shape, chunkShape)) < U64
    {
      CollectedIs(collected, shape, chunkShape);
      NewValid(build, dtype, order, shuffle, gzip, shape, chunks, collected, chunkShape);
    }
  }

  lemma {:induction false} CoordFoldGrows(x: seq<nat>, chunkShape: seq<nat>, sizes: seq<nat>, offset: nat)
    requires |x| == |chunkShape| == |sizes| && Positive(chunkShape)
    ensures CoordFold(x, chunkShape, sizes, offset) >= offset
  {
    if x != [] {
      CoordFoldGrows(x[1..], chunkShape[1..], sizes[1..], offset + x[0] / chunkShape[0] * sizes[0]);
    }
  }

  // The fold over the first k dimensions, and the term that dimension k adds to it.
  lemma {:induction false} CoordFoldPrefix(x: seq<nat>, chunkShape: seq<nat>, sizes: seq<nat>, offset: nat, k: nat)
    requires |x| == |chunkShape| == |sizes| && Positive(chunkShape) && k <= |x|
    ensures var p := CoordFold(x[..k], chunkShape[..k], sizes[..k], offset);
            && p <= CoordFold(x, chunkShape, sizes, offset)
            && (k < |x| ==> p + x[k] / chunkShape[k] * sizes[k] <= CoordFold(x, chunkShape, sizes, offset))
  {
    if x != [] {
      var next := offset + x[0] / chunkShape[0] * sizes[0];
      if k > 0 {
        assert x[..k][1..] == x[1..][..k - 1] && sizes[..k][1..] == sizes[1..][..k - 1];
        assert chunkShape[..k][1..] == chunkShape[1..][..k - 1];
        CoordFoldPrefix(x[1..], chunkShape[1..], sizes[1..], next, k - 1);
      } else {
        CoordFoldGrows(x[1..], chunkShape[1..], sizes[1..], next);
      }
    }
  }

  lemma PaddedAbove(s: nat, c: nat)
    requires s > 0 && c > 0
    ensures 1 <= DivCeil(s, c) <= DivCeil(s, c) * c && s <= DivCeil(s, c) * c && c <= DivCeil(s, c) * c
  {
    CeilAbove(0, s, c);
    DivModUnique(0, c, 0, 0);
    var d := s + c - 1;
    assert d == d / c * c + d % c;
    MulOrder(1, DivCeil(s, c), c);
    MulOrder(1, c, DivCeil(s, c));
  }

  lemma SuffixSmaller(s: seq<nat>, k: nat)
    requires Positive(s) && k < |s|
    ensures Prod(s[k + 1..]) <= Prod(s)
  {
    hide Prod;
    ProdSplit(s, k + 1);
    ProdPositive(s[..k + 1]);
    MulOrder(1, Prod(s[..k + 1]), Prod(s[k + 1..]));
  }

  lemma FactorSmaller(s: seq<nat>, k: nat)
    requires Positive(s) && k < |s|
    ensures s[k] <= Prod(s)
  {
    hide Prod;
    ProdSplit(s, k);
    ProdStep(s, k);
    ProdPositive(s[..k]);
    ProdPositive(s[k + 1..]);
    MulOrder(1, Prod(s[k + 1..]), s[k]);
    MulOrder(1, Prod(s[..k]), Prod(s[k..]));
  }

  lemma ChunkBelow(o: nat, s: nat, c: nat)
    requires c > 0 && o % c == 0 && o < s
    ensures o + c <= DivCeil(s, c) * c
  {
    CeilAbove(o, s, c);
    MulOrder(o / c + 1, DivCeil(s, c), c);
    assert (o / c + 1) * c == o / c * c + c;
  }

  // Every size, stride and chunk end fits in 64 bits when the padded dataset does.
  lemma GeometryFits(ds: Dataset, k: nat)
    requires Valid(ds) && Positive(ds.shape) && k < |ds.shape|
    ensures Prod(ds.chunkShape) < U64 && Prod(ds.shape) < U64 && |ds.chunks| < U64
    ensures ds.chunkDimSz[k] <= Prod(ds.chunkShape) && ds.scaledDimSz[k] <= |ds.chunks|
    ensures forall i :: 0 <= i < |ds.chunks| ==> ds.chunks[i].offset[k] + ds.chunkShape[k] < U64
  {
    var padded, grid, d := Padded(ds.shape, ds.chunkShape), Grid(ds.shape, ds.chunkShape), |ds.shape|;
    hide Prod, Sizes;
    forall j | 0 <= j < d
      ensures ds.shape[j] <= padded[j] && ds.chunkShape[j] <= padded[j] && 1 <= grid[j] <= padded[j]
    {
      PaddedAbove(ds.shape[j], ds.chunkShape[j]);
    }
    ProdMonotone(ds.chunkShape, padded);
    ProdMonotone(ds.shape, padded);
    ProdMonotone(grid, padded);
    SizesProd(ds.chunkShape, 1, k);
    SizesProd(grid, 1, k);
    SuffixSmaller(ds.chunkShape, k);
    SuffixSmaller(grid, k);
    FactorSmaller(padded, k);
    forall i | 0 <= i < |ds.chunks| ensures ds.chunks[i].offset[k] + ds.chunkShape[k] < U64 {
      var c := ds.chunks[i];
      assert OnGrid(c, ds.shape, ds.chunkShape);
      ChunkBelow(c.offset[k], ds.shape[k], ds.chunkShape[k]);
    }
  }

  // Every partial sum of the lookup, and every product in it, is below the number of chunks.
  lemma LookupFits(ds: Dataset, x: seq<nat>, k: nat)
    requires Valid(ds) && InBox(x, ds.shape) && k < |x|
    ensures CoordFold(x[..k], ds.chunkShape[..k], ds.scaledDimSz[..k], 0) < |ds.chunks| < U64
    ensures x[k] / ds.chunkShape[k] * ds.scaledDimSz[k] < |ds.chunks|
  {
    CoordFoldIsCell(ds, x);
    CoordFoldPrefix(x, ds.chunkShape, ds.scaledDimSz, 0, k);
    InBoxPositive(x, ds.shape);
    GeometryFits(ds, k);
  }
}
