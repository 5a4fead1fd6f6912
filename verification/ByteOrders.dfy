// The byte order of the raw stream. Its comment promises big-endian bytes; what it yields is the
// stored order.
module ByteOrders {
  import opened Radix
  import opened Slicing
  import opened Types
  import opened Delivery
  import opened Datasets
  import opened Slicers
  import opened Builds
  import opened Bytes
  import opened Storage
  import opened Gathering
  import opened ParallelReads
  import opened Xdr
  import opened Streams

  // Read as a big-endian number, a stored word has its value exactly when it is stored so, or is the
  // same both ways.
  lemma BigEndianWord(order: Order, w: seq<byte>)
    ensures FromBE(w) == InOrder(order, w) <==> order == BE || Reverse(w) == w
  {
    if FromBE(w) == FromLE(w) {
      ToFromLE(w);
      ToFromLE(Reverse(w));
    }
  }

  // All words of n bytes do exactly in big-endian order, or if they are single bytes.
  lemma BigEndianAlways(n: nat, order: Order)
    requires n > 0
    ensures (forall w: seq<byte> :: |w| == n ==> FromBE(w) == InOrder(order, w)) <==> order == BE || n == 1
  {
    forall w: seq<byte> | |w| == n ensures FromBE(w) == InOrder(order, w) <==> order == BE || Reverse(w) == w {
      BigEndianWord(order, w);
    }
    if n == 1 {
      forall w: seq<byte> | |w| == n ensures Reverse(w) == w {}
    } else {
      var w: seq<byte> := [1] + seq(n - 1, _ => 0 as byte);
      assert Reverse(w)[0] == w[n - 1] == 0;
      assert w[0] == 1;
    }
  }

  // Place j of the bytes b holds, as a big-endian number, the value of the array a at the j-th
  // requested coordinate.
  ghost predicate BigEndianAt(ds: Dataset, q: Request, a: seq<nat> -> seq<byte>, b: seq<byte>, j: nat)
    requires q.Valid()
  {
    && j * ds.dsize <= (j + 1) * ds.dsize <= |b|
    && FromBE(b[j * ds.dsize..(j + 1) * ds.dsize]) == InOrder(ds.order, a(Asked(q, j)))
  }

  lemma HoldsValues(store: Store, ds: Dataset, a: seq<nat> -> seq<byte>)
    requires Datasets.Valid(ds) && Gathering.Holds(store, ds, a)
    ensures Gathering.Sized(a, ds.dsize)
  {
  }

  lemma AskedValue(q: Request, a: seq<nat> -> seq<byte>, dsz: nat, j: nat)
    requires q.Valid() && Gathering.Sized(a, dsz) && j < q.End()
    ensures var b := Concat(a, Wanted(q, 0, q.End()));
            j * dsz <= (j + 1) * dsz <= |b| && b[j * dsz..(j + 1) * dsz] == a(Asked(q, j))
  {
    hide Gathering.Sized, Prod, Concat;
    ValueAt(q, a, dsz, j);
  }

  // For a regular request on a file that holds the array a, the raw stream, joined, is big-endian
  // exactly when the dataset is, or every value requested is the same both ways.
  lemma StreamByteOrder(store: Store, ds: Dataset, indices: seq<nat>, counts: seq<nat>, a: seq<nat> -> seq<byte>,
                        items: seq<seq<byte>>)
    requires Datasets.Valid(ds) && Gathering.Holds(store, ds, a) && RequestOf(ds, indices, counts).Valid()
    requires RegularIn(ds.build, RequestOf(ds, indices, counts))
    requires Streamed(store, ds, RawForm(), PlanOf(ds, indices, counts).slices, items)
    ensures var q := RequestOf(ds, indices, counts);
            (forall j: nat :: j < q.End() ==> BigEndianAt(ds, q, a, Flatten(items), j))
            <==> ds.order == BE || forall j: nat :: j < q.End() ==> Reverse(a(Asked(q, j))) == a(Asked(q, j))
  {
    StreamRegular(store, ds, indices, counts, a, items);
    HoldsValues(store, ds, a);
    hide Datasets.Valid, Gathering.Holds, RegularIn, Streamed, PlanOf, Prod, FromBE, InOrder, Concat, Asked;
    var q := RequestOf(ds, indices, counts);
    forall j: nat | j < q.End()
      ensures BigEndianAt(ds, q, a, Flatten(items), j) <==> ds.order == BE || Reverse(a(Asked(q, j))) == a(Asked(q, j))
    {
      AskedValue(q, a, ds.dsize, j);
      BigEndianWord(ds.order, a(Asked(q, j)));
    }
    hide BigEndianAt;
  }
}
