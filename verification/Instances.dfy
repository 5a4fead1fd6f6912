// Concrete datasets and files on which properties of the documentation fail.
module Instances {
  import opened Radix
  import opened Slicing
  import opened Types
  import opened Delivery
  import opened SlicerTheorem
  import opened IrregularRequests
  import opened Chunks
  import opened Datasets
  import opened Builds
  import opened Slicers
  import opened Options
  import opened Bytes
  import opened Shuffle
  import opened Storage
  import opened Gathering
  import opened ParallelReads
  import opened ParallelBounds
  import opened Xdr
  import opened Streams

  // One value of two bytes, little-endian.
  function Little(build: Build): Dataset {
    New(build, UInt(2), LE, false, false, [1], [Chunk(0, 2, [0])], [1])
  }

  // It is 1.
  const LITTLE := Store([1, 0], (b: seq<byte>) => None)

  function One(x: seq<nat>): seq<byte> {
    [1, 0]
  }

  lemma LittleValid(build: Build)
    ensures Datasets.Valid(Little(build))
  {
    var ds := Little(build);
    assert Prod([1]) == 1 by { assert [1][1..] == []; }
    assert Grid(ds.shape, ds.chunkShape) == [1] && Padded(ds.shape, ds.chunkShape) == [1];
    hide Prod;
  }

  lemma LittleHolds(build: Build)
    ensures Datasets.Valid(Little(build)) && Gathering.Holds(LITTLE, Little(build), One)
  {
    LittleValid(build);
    hide Datasets.Valid;
    var ds := Little(build);
    assert Prod([1]) == 1 by { assert [1][1..] == []; }
    forall c | c in ds.chunks ensures Decoded(LITTLE, ds, c) == Some(Concat(One, ChunkCoordinates(ds, c.offset))) {
      var cs := ChunkCoordinates(ds, c.offset);
      assert cs[1..] == [];
      assert Concat(One, cs) == One(cs[0]) + Concat(One, cs[1..]) == [1, 0];
      assert LITTLE.file[0..2] == [1, 0];
    }
  }

  // Its raw stream yields 1, 0, which as a big-endian number is 256.
  lemma LittleStream(build: Build, items: seq<seq<byte>>)
    requires Datasets.Valid(Little(build))
    requires Streamed(LITTLE, Little(build), RawForm(), PlanOf(Little(build), [0], [1]).slices, items)
    ensures Flatten(items) == [1, 0] && FromBE(Flatten(items)) == 256 && FromLE(Flatten(items)) == 1
  {
    hide Streamed, PlanOf;
    var ds, q := Little(build), RequestOf(Little(build), [0], [1]);
    LittleHolds(build);
    QuickRegular(q, -1);
    RegularInBoth(build, q);
    StreamRegular(LITTLE, ds, [0], [1], One, items);
    assert Prod([1]) == 1 by { assert [1][1..] == []; }
    var w := Wanted(q, 0, 1);
    assert Concat(One, w) == One(w[0]) + Concat(One, w[1..]);
    assert Reverse([1, 0]) == [0, 1] && [1, 0][1..] == [0] && [0, 1][1..] == [1] && [0][1..] == [] && [1][1..] == [];
  }

  // Two little-endian values of two bytes, stored shuffled.
  function Mixed(build: Build): Dataset {
    New(build, UInt(2), LE, true, false, [2], [Chunk(0, 4, [0])], [2])
  }

  // They are 1 and 2: first the low bytes, then the high ones.
  const MIXED := Store([1, 2, 0, 0], (b: seq<byte>) => Some(b))

  function OneTwo(x: seq<nat>): seq<byte> {
    if x == [0] then [1, 0] else [2, 0]
  }

  lemma MixedValid(build: Build)
    ensures Datasets.Valid(Mixed(build))
  {
    var ds := Mixed(build);
    assert Prod([1]) == 1 && Prod([2]) == 2 by { assert [1][1..] == [] && [2][1..] == []; }
    assert Grid(ds.shape, ds.chunkShape) == [1] && Padded(ds.shape, ds.chunkShape) == [2];
    hide Prod;
  }

  lemma MixedCoordinates(build: Build)
    requires Datasets.Valid(Mixed(build))
    ensures Prod([2]) == 2 && ChunkCoordinates(Mixed(build), [0]) == [[0], [1]]
    ensures Concat(OneTwo, [[0], [1]]) == [1, 0, 2, 0]
  {
    var cs := ChunkCoordinates(Mixed(build), [0]);
    assert Prod([2]) == 2 by { assert [2][1..] == []; }
    UnravelRavel([0], [2]);
    UnravelRavel([1], [2]);
    assert Ravel([0], [2]) == 0 && Ravel([1], [2]) == 1 by {
      assert [2][1..] == [] && [0][1..] == [] && [1][1..] == [];
    }
    assert cs[0] == [0] && cs[1] == [1];
    assert [[0], [1]][1..] == [[1]] && [[1]][1..] == [];
    assert Concat(OneTwo, [[1]]) == [2, 0] + Concat(OneTwo, []);
  }

  lemma MixedStored(deflate: seq<byte> -> seq<byte>)
    ensures StoredAs(deflate, [1, 0, 2, 0], 2, true, false, [1, 2, 0, 0])
  {
    var s: seq<byte>, d: seq<byte> := [1, 0, 2, 0], [1, 2, 0, 0];
    forall i, j | 0 <= i < 2 && 0 <= j < 2 ensures Moved(s, d, 2, 2, i, j) {
      assert i == 0 || i == 1;
      assert j == 0 || j == 1;
    }
    assert ShuffledAs(s, 2, true, d);
  }

  // Written so, the file holds them.
  lemma MixedHolds(build: Build)
    ensures Datasets.Valid(Mixed(build)) && Gathering.Holds(MIXED, Mixed(build), OneTwo)
  {
    MixedValid(build);
    MixedCoordinates(build);
    hide Datasets.Valid, ChunkCoordinates, Concat, Gathering.Holds, Prod;
    var ds := Mixed(build);
    var deflate: seq<byte> -> seq<byte> := s => s;
    MixedStored(deflate);
    assert MIXED.file[0..4] == [1, 2, 0, 0];
    forall c | c in ds.chunks ensures WrittenChunk(MIXED, ds, OneTwo, deflate, c) {
      assert c == ds.chunks[0];
    }
    WrittenHolds(MIXED, ds, OneTwo, deflate);
  }

  // The raw stream of the whole is the two values, in order.
  lemma MixedStream(build: Build, items: seq<seq<byte>>)
    requires Datasets.Valid(Mixed(build))
    requires Streamed(MIXED, Mixed(build), RawForm(), PlanOf(Mixed(build), [0], [2]).slices, items)
    ensures Flatten(items) == [1, 0, 2, 0]
  {
    hide Streamed, PlanOf;
    var ds, q := Mixed(build), RequestOf(Mixed(build), [0], [2]);
    MixedHolds(build);
    MixedCoordinates(build);
    hide Datasets.Valid, Gathering.Holds;
    BoundsValid(ds, [0], [2]);
    QuickRegular(q, -1);
    RegularInBoth(build, q);
    StreamRegular(MIXED, ds, [0], [2], OneTwo, items);
    assert Wanted(q, 0, 2) == ChunkCoordinates(ds, [0]);
  }

  // Four chunks of 100 values of one byte.
  function Quarters(build: Build): Dataset {
    New(build, UInt(1), LE, false, false, [20, 15],
      [Chunk(0, 100, [0, 0]), Chunk(100, 100, [0, 10]), Chunk(200, 100, [10, 0]), Chunk(300, 100, [10, 10])], [10, 10])
  }

  // All of them 0.
  const ZEROS := Store(seq(400, _ => 0 as byte), (b: seq<byte>) => None)

  function Zero(x: seq<nat>): seq<byte> {
    [0]
  }

  lemma {:induction false} ConcatZero(cs: seq<seq<nat>>)
    ensures Concat(Zero, cs) == seq(|cs|, _ => 0 as byte)
  {
    if cs != [] {
      ConcatZero(cs[1..]);
    }
  }

  lemma QuartersGrid(build: Build)
    ensures var ds := Quarters(build);
            |ds.chunks| == Prod(Grid(ds.shape, ds.chunkShape)) && Prod(Padded(ds.shape, ds.chunkShape)) == 400
  {
    hide Prod, Sizes;
    Prod2(2, 2);
    Prod2(20, 20);
    assert Grid(Quarters(build).shape, Quarters(build).chunkShape) == [2, 2];
    assert Padded(Quarters(build).shape, Quarters(build).chunkShape) == [20, 20];
  }

  lemma QuartersOnGrid(build: Build)
    ensures var ds := Quarters(build);
            forall i :: 0 <= i < |ds.chunks| ==> OnGrid(ds.chunks[i], ds.shape, ds.chunkShape)
  {
    hide Sizes, Grid;
  }

  lemma Compare2(a: nat, b: nat, c: nat, d: nat)
    requires a < c || (a == c && b < d)
    ensures Compare([a, b], [c, d]) == Less
  {
    assert [a, b][1..] == [b] && [c, d][1..] == [d];
  }

  lemma QuartersSorted(build: Build)
    ensures var ds := Quarters(build);
            forall i, j :: 0 <= i < j < |ds.chunks| ==> Compare(ds.chunks[i].offset, ds.chunks[j].offset) == Less
  {
    hide Sizes, Grid, Compare;
    var cs := Quarters(build).chunks;
    forall i, j | 0 <= i < j < |cs| ensures Compare(cs[i].offset, cs[j].offset) == Less {
      var a, b := cs[i].offset, cs[j].offset;
      assert a == [a[0], a[1]] && b == [b[0], b[1]];
      Compare2(a[0], a[1], b[0], b[1]);
    }
  }

  lemma QuartersValid(build: Build)
    ensures Datasets.Valid(Quarters(build))
  {
    hide Prod, Sizes, Grid, Padded, Compare, OnGrid;
    QuartersGrid(build);
    QuartersOnGrid(build);
    QuartersSorted(build);
  }

  // So there is a file on which the parallel reader, for a request of 75 values, comes to store
  // outside a buffer that has passed its check.
  lemma QuartersOverrun(build: Build)
    ensures Overrunning(ZEROS, Quarters(build), Zero)
  {
    QuartersValid(build);
    hide Datasets.Valid;
    var ds := Quarters(build);
    Prod2(10, 10);
    forall c | c in ds.chunks ensures Decoded(ZEROS, ds, c) == Some(Concat(Zero, ChunkCoordinates(ds, c.offset))) {
      ConcatZero(ChunkCoordinates(ds, c.offset));
      assert ZEROS.file[c.addr..c.addr + c.size] == seq(100, _ => 0 as byte);
    }
  }
}
