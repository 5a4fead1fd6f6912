// Slices tagged with their place in the destination, in file order.
module Scattering {
  import opened Radix
  import opened Datasets
  import opened Slicers
  import opened Bytes
  import opened Storage
  import opened Gathering

  // A slice, and the place of its first value in the destination.
  datatype Tagged = Tagged(slice: Slice, current: nat)

  ghost predicate Forward(slices: seq<Slice>) {
    forall g :: g in slices ==> g.start <= g.end
  }

  // Each slice goes where the ones before it end.
  function Tag(slices: seq<Slice>, offset: nat): seq<Tagged> {
    if slices == [] then [] else
      var g := slices[0];
      [Tagged(g, offset)] + Tag(slices[1..], offset + if g.start <= g.end then g.end - g.start else 0)
  }

  // The bytes of t, if they can be had and fit into n bytes at their place.
  ghost predicate Fits(store: Store, ds: Dataset, t: Tagged, n: nat) {
    var b := SliceBytes(store, ds, t.slice);
    b.Some? && t.current * ds.dsize + |b.value| <= n
  }

  // The bytes of t are those of the target at its place.
  ghost predicate Agrees(store: Store, ds: Dataset, t: Tagged, target: seq<byte>) {
    Fits(store, ds, t, |target|) &&
    var b, at := SliceBytes(store, ds, t.slice).value, t.current * ds.dsize;
    target[at..at + |b|] == b
  }

  ghost predicate Covers(ds: Dataset, t: Tagged, p: nat) {
    var n := if t.slice.start <= t.slice.end then t.slice.end - t.slice.start else 0;
    t.current * ds.dsize <= p < (t.current + n) * ds.dsize
  }

  ghost predicate Pending(ds: Dataset, ts: seq<Tagged>, p: nat) {
    exists k :: 0 <= k < |ts| && Covers(ds, ts[k], p)
  }

  lemma SliceLength(store: Store, ds: Dataset, g: Slice)
    requires SliceBytes(store, ds, g).Some?
    ensures g.start * ds.dsize <= g.end * ds.dsize
    ensures g.start <= g.end ==> |SliceBytes(store, ds, g).value| == (g.end - g.start) * ds.dsize
  {
    hide ReadChunk;
    if g.start <= g.end {
      SplitLength(g.start, g.end, g.end, ds.dsize);
    }
  }

  // The places a slice covers are those of its bytes.
  lemma SliceCovers(store: Store, ds: Dataset, t: Tagged, p: nat)
    requires t.slice.start <= t.slice.end && SliceBytes(store, ds, t.slice).Some?
    ensures var at := t.current * ds.dsize;
            Covers(ds, t, p) <==> at <= p < at + |SliceBytes(store, ds, t.slice).value|
  {
    SliceLength(store, ds, t.slice);
    hide SliceBytes;
    SplitLength(t.current, t.current + t.slice.end - t.slice.start, t.current + t.slice.end - t.slice.start, ds.dsize);
  }

  // The target, seen from the slices: before is what comes in front of them.
  lemma {:induction false} TagAgrees(store: Store, ds: Dataset, slices: seq<Slice>, offset: nat, before: seq<byte>,
                                     k: nat)
    requires Forward(slices) && Gather(store, ds, slices).Some? && |before| == offset * ds.dsize
    requires k < |Tag(slices, offset)|
    ensures Agrees(store, ds, Tag(slices, offset)[k], before + Gather(store, ds, slices).value)
  {
    hide SliceBytes;
    var g := slices[0];
    var b, rest := SliceBytes(store, ds, g).value, Gather(store, ds, slices[1..]).value;
    SliceLength(store, ds, g);
    assert g in slices;
    if k == 0 {
      assert (before + (b + rest))[|before|..|before| + |b|] == b;
    } else {
      SplitLength(offset, offset + g.end - g.start, offset + g.end - g.start, ds.dsize);
      assert forall h :: h in slices[1..] ==> h in slices;
      TagAgrees(store, ds, slices[1..], offset + g.end - g.start, before + b, k - 1);
      assert before + b + rest == before + (b + rest);
    }
  }

  // Every byte of the target has a slice that writes it.
  lemma {:induction false} TagCovers(store: Store, ds: Dataset, slices: seq<Slice>, offset: nat,
                                     p: nat) returns (k: nat)
    requires Forward(slices) && Gather(store, ds, slices).Some?
    requires offset * ds.dsize <= p < offset * ds.dsize + |Gather(store, ds, slices).value|
    ensures k < |Tag(slices, offset)| && Covers(ds, Tag(slices, offset)[k], p)
  {
    hide SliceBytes;
    var g := slices[0];
    SliceLength(store, ds, g);
    assert g in slices;
    SplitLength(offset, offset + g.end - g.start, offset + g.end - g.start, ds.dsize);
    if p < (offset + g.end - g.start) * ds.dsize {
      k := 0;
    } else {
      assert forall h :: h in slices[1..] ==> h in slices;
      var j := TagCovers(store, ds, slices[1..], offset + g.end - g.start, p);
      k := j + 1;
    }
  }

  // If every slice can be had and fits, so can the whole.
  lemma {:induction false} AllFit(store: Store, ds: Dataset, slices: seq<Slice>, offset: nat, n: nat)
    requires Forward(slices) && offset * ds.dsize <= n
    requires forall t :: t in Tag(slices, offset) ==> Fits(store, ds, t, n)
    ensures Gather(store, ds, slices).Some? && offset * ds.dsize + |Gather(store, ds, slices).value| <= n
  {
    hide SliceBytes;
    if slices != [] {
      var g := slices[0];
      var next := offset + g.end - g.start;
      assert g in slices && forall h :: h in slices[1..] ==> h in slices;
      assert Tag(slices, offset) == [Tagged(g, offset)] + Tag(slices[1..], next);
      assert Tagged(g, offset) in Tag(slices, offset);
      SliceLength(store, ds, g);
      SplitLength(offset, next, next, ds.dsize);
      hide Tag;
      AllFit(store, ds, slices[1..], next, n);
    }
  }

  lemma {:induction false} TagBeyond(slices: seq<Slice>, offset: nat, k: nat)
    requires k < |Tag(slices, offset)|
    ensures Tag(slices, offset)[k].current >= offset
  {
    if k > 0 {
      var g := slices[0];
      TagBeyond(slices[1..], offset + if g.start <= g.end then g.end - g.start else 0, k - 1);
    }
  }

  // Distinct slices write to disjoint parts of the destination.
  lemma {:induction false} TagDisjoint(ds: Dataset, slices: seq<Slice>, offset: nat, i: nat, j: nat, p: nat)
    requires i < j < |Tag(slices, offset)| && Covers(ds, Tag(slices, offset)[i], p)
    ensures !Covers(ds, Tag(slices, offset)[j], p)
  {
    var g := slices[0];
    var next := offset + if g.start <= g.end then g.end - g.start else 0;
    if i == 0 {
      TagBeyond(slices[1..], next, j - 1);
      MulOrder(next, Tag(slices, offset)[j].current, ds.dsize);
    } else {
      TagDisjoint(ds, slices[1..], next, i - 1, j - 1, p);
    }
  }
}
