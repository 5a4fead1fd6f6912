// Chunks: their order, and which coordinates they hold.
module Chunks {
  import opened Radix

  // Where a chunk is stored (addr, size in bytes), and the coordinate at which it begins.
  datatype Chunk = Chunk(addr: nat, size: nat, offset: seq<nat>)

  datatype Ordering = Less | Equal | Greater

  // Lexicographic order of the offsets.
  function Compare(a: seq<nat>, b: seq<nat>): Ordering
    requires |a| == |b|
  {
    if a == [] then Equal
    else if a[0] > b[0] then Greater
    else if a[0] < b[0] then Less
    else Compare(a[1..], b[1..])
  }

  // Whether the coordinate i is before, in or after the chunk.
  function Contains(offset: seq<nat>, i: seq<nat>, chunkShape: seq<nat>): Ordering
    requires |offset| == |i| == |chunkShape|
  {
    if i == [] then Equal
    else if i[0] < offset[0] then Less
    else if i[0] >= offset[0] + chunkShape[0] then Greater
    else Contains(offset[1..], i[1..], chunkShape[1..])
  }

  lemma {:induction false} ContainsEqual(offset: seq<nat>, i: seq<nat>, chunkShape: seq<nat>)
    requires |offset| == |i| == |chunkShape|
    ensures Contains(offset, i, chunkShape) == Equal
       <==> forall k :: 0 <= k < |i| ==> offset[k] <= i[k] < offset[k] + chunkShape[k]
  {
    if i != [] {
      ContainsEqual(offset[1..], i[1..], chunkShape[1..]);
      assert forall k :: 0 < k < |i| ==>
             i[k] == i[1..][k - 1] && offset[k] == offset[1..][k - 1] && chunkShape[k] == chunkShape[1..][k - 1];
      assert forall k :: 0 <= k < |i| - 1 ==> i[1..][k] == i[k + 1];
    }
  }

  // The coordinate lies in the chunk's box along the dimensions before k.
  ghost predicate InsideBefore(offset: seq<nat>, i: seq<nat>, chunkShape: seq<nat>, k: nat)
    requires |offset| == |i| == |chunkShape| && k <= |i|
  {
    forall j :: 0 <= j < k ==> offset[j] <= i[j] < offset[j] + chunkShape[j]
  }

  // Before, in or after: the first dimension along which the coordinate lies outside the box decides.
  lemma {:induction false} ContainsAt(offset: seq<nat>, i: seq<nat>, chunkShape: seq<nat>, k: nat)
    requires |offset| == |i| == |chunkShape| && k < |i| && InsideBefore(offset, i, chunkShape, k)
    ensures i[k] < offset[k] ==> Contains(offset, i, chunkShape) == Less
    ensures i[k] >= offset[k] + chunkShape[k] ==> Contains(offset, i, chunkShape) == Greater
  {
    if k > 0 {
      assert offset[0] <= i[0] < offset[0] + chunkShape[0];
      assert forall j :: 0 <= j < k - 1 ==>
             i[1..][j] == i[j + 1] && offset[1..][j] == offset[j + 1] && chunkShape[1..][j] == chunkShape[j + 1];
      ContainsAt(offset[1..], i[1..], chunkShape[1..], k - 1);
    }
  }

  // There is such a dimension, if the coordinate is not in the box.
  lemma FirstOutside(offset: seq<nat>, i: seq<nat>, chunkShape: seq<nat>, n: nat) returns (k: nat)
    requires |offset| == |i| == |chunkShape| && n < |i| && !(offset[n] <= i[n] < offset[n] + chunkShape[n])
    ensures k <= n && InsideBefore(offset, i, chunkShape, k) && !(offset[k] <= i[k] < offset[k] + chunkShape[k])
  {
    if j :| 0 <= j < n && !(offset[j] <= i[j] < offset[j] + chunkShape[j]) {
      k := FirstOutside(offset, i, chunkShape, j);
    } else {
      k := n;
    }
  }

  lemma ContainsOrder(offset: seq<nat>, i: seq<nat>, chunkShape: seq<nat>)
    requires |offset| == |i| == |chunkShape|
    ensures Contains(offset, i, chunkShape) == Less
       <==> exists k :: 0 <= k < |i| && InsideBefore(offset, i, chunkShape, k) && i[k] < offset[k]
    ensures Contains(offset, i, chunkShape) == Greater
       <==> exists k :: 0 <= k < |i| && InsideBefore(offset, i, chunkShape, k) && i[k] >= offset[k] + chunkShape[k]
  {
    hide Contains;
    ContainsEqual(offset, i, chunkShape);
    forall k | 0 <= k < |i| && InsideBefore(offset, i, chunkShape, k)
      ensures i[k] < offset[k] ==> Contains(offset, i, chunkShape) == Less
      ensures i[k] >= offset[k] + chunkShape[k] ==> Contains(offset, i, chunkShape) == Greater
    {
      ContainsAt(offset, i, chunkShape, k);
    }
    if Contains(offset, i, chunkShape) != Equal {
      var n :| 0 <= n < |i| && !(offset[n] <= i[n] < offset[n] + chunkShape[n]);
      var k := FirstOutside(offset, i, chunkShape, n);
    }
  }

  lemma {:induction false} CompareEqual(a: seq<nat>, b: seq<nat>)
    requires |a| == |b|
    ensures Compare(a, b) == Equal <==> a == b
    ensures Compare(a, b) == Less <==> Compare(b, a) == Greater
  {
    if a != [] {
      CompareEqual(a[1..], b[1..]);
      assert a == [a[0]] + a[1..] && b == [b[0]] + b[1..];
    }
  }

  lemma {:induction false} CompareTransitive(a: seq<nat>, b: seq<nat>, c: seq<nat>)
    requires |a| == |b| == |c| && Compare(a, b) != Greater && Compare(b, c) != Greater
    ensures Compare(a, c) != Greater
  {
    if a != [] && a[0] == b[0] == c[0] {
      CompareTransitive(a[1..], b[1..], c[1..]);
    }
  }

  lemma LeadArith(a: nat, b: nat, p: nat, r: nat)
    requires a < b && r < p
    ensures a * p + r < b * p
  {
    MulOrder(a + 1, b, p);
  }

  // Within a box, lexicographic order is the order of the row-major positions.
  lemma {:induction false} CompareRavel(a: seq<nat>, b: seq<nat>, s: seq<nat>)
    requires InBox(a, s) && InBox(b, s) && Compare(a, b) == Less
    ensures Ravel(a, s) < Ravel(b, s)
  {
    if a != [] {
      hide Prod;
      if a[0] < b[0] {
        RavelBound(a[1..], s[1..]);
        LeadArith(a[0], b[0], Prod(s[1..]), Ravel(a[1..], s[1..]));
      } else {
        CompareRavel(a[1..], b[1..], s[1..]);
      }
    }
  }

  ghost function Times(x: seq<nat>, c: seq<nat>): (z: seq<nat>)
    requires |x| == |c|
    ensures |z| == |x|
  {
    seq(|x|, k requires 0 <= k < |x| => x[k] * c[k])
  }

  // Scaling by the chunk shape keeps the order.
  lemma {:induction false} CompareScaled(a: seq<nat>, b: seq<nat>, c: seq<nat>)
    requires |a| == |b| == |c| && Positive(c)
    ensures Compare(Times(a, c), Times(b, c)) == Compare(a, b)
  {
    if a != [] {
      CompareScaled(a[1..], b[1..], c[1..]);
      assert Times(a, c)[1..] == Times(a[1..], c[1..]) && Times(b, c)[1..] == Times(b[1..], c[1..]);
      MulOrder(a[0] + 1, b[0], c[0]);
      MulOrder(b[0] + 1, a[0], c[0]);
    }
  }
}
