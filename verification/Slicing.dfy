// One call of the slicer, as a function of its state.
module Slicing {
  import opened Radix

  const U64: nat := 0x1_0000_0000_0000_0000

  // Product, remainder and quotient of naturals.
  function Mul(a: nat, b: nat): nat {
    a * b
  }

  function Rem(v: nat, n: nat): (r: nat)
    requires n > 0
    ensures r < n
  {
    v % n
  }

  function Quot(v: nat, n: nat): nat
    requires n > 0
  {
    v / n
  }

  // The shape rounded up to whole chunks.
  function Padded(shape: seq<nat>, chunkShape: seq<nat>): (p: seq<nat>)
    requires |shape| == |chunkShape| && Positive(chunkShape)
  {
    seq(|shape|, k requires 0 <= k < |shape| => DivCeil(shape[k], chunkShape[k]) * chunkShape[k])
  }

  function DivCeil(a: nat, b: nat): nat
    requires b > 0
  {
    (a + b - 1) / b
  }

  function Min(a: int, b: int): int {
    if a <= b then a else b
  }

  // A request resolved to start indices and counts, on a dataset of the given
  // shape and chunk shape.
  datatype Request = Request(shape: seq<nat>, chunkShape: seq<nat>, indices: seq<nat>, counts: seq<nat>) {
    ghost predicate Valid() {
      && |shape| == |chunkShape| == |indices| == |counts|
      && Positive(chunkShape) && Positive(counts)
      && (forall k :: 0 <= k < |shape| ==> indices[k] + counts[k] <= shape[k])
      && Prod(Padded(shape, chunkShape)) < U64
    }

    // The number of values requested.
    function End(): nat {
      Prod(counts)
    }

    // The distance between neighbours along dimension k of a stored chunk.
    function Stride(k: nat): nat
      requires k < |chunkShape|
    {
      Prod(chunkShape[k + 1..])
    }

    // The number of stored values in n neighbouring layers along dimension k.
    function Layers(k: nat, n: nat): nat
      requires k < |chunkShape|
    {
      Mul(n, Stride(k))
    }

    // The thickness along dimension k of the chunk at base, cut off at the end of the dataset.
    function Depth(base: seq<nat>, k: nat): int
      requires k < |base| == |shape| == |chunkShape|
    {
      var size: int := chunkShape[k];
      var dimEnd: int := base[k] + size;
      if dimEnd > shape[k] then size - (dimEnd - shape[k]) else size
    }

    // The first count past the chunk at base along dimension k.
    function Limit(base: seq<nat>, k: nat): int
      requires k < |base| == |shape| == |chunkShape| == |indices|
    {
      base[k] + Depth(base, k) - indices[k]
    }

    // The digit along dimension k and the carry out of it.
    function Digit(k: nat, v: nat): (d: nat)
      requires k < |counts| && counts[k] > 0
      ensures d < counts[k]
    {
      Rem(v, counts[k])
    }

    function Carry(k: nat, v: nat): nat
      requires k < |counts| && counts[k] > 0
    {
      Quot(v, counts[k])
    }

    predicate Thin(base: seq<nat>, k: nat)
      requires k < |base| == |shape| == |chunkShape|
    {
      Depth(base, k) == 1 && Stride(k) != 1
    }

    // The chunk at base holds the coordinate with slice coordinates o.
    ghost predicate Holds(base: seq<nat>, o: seq<nat>) {
      && |base| == |o| == |indices| == |chunkShape|
      && forall k :: 0 <= k < |o| ==> base[k] <= indices[k] + o[k] < base[k] + chunkShape[k]
    }
  }

  // The fields of the slicer that change.
  datatype Cursor = Cursor(offset: nat, coords: seq<nat>)

  // The local state of the dimension loop; left counts the dimensions still to visit.
  // ok turns false where a u64 operation has no result.
  datatype Sweep = Sweep(coords: seq<nat>, offset: nat, advance: nat, carry: nat, left: nat, ok: bool)

  ghost predicate Ready(q: Request, base: seq<nat>, s: Sweep) {
    && q.Valid()
    && |base| == |q.shape| == |s.coords|
    && s.left <= |base|
    && (forall k :: 0 <= k < |base| ==> base[k] < q.shape[k] && q.indices[k] < base[k] + q.Depth(base, k))
  }

  // One pass of the dimension loop, at dimension left - 1; more tells whether it continues.
  function Visit(q: Request, base: seq<nat>, s: Sweep): (r: (Sweep, bool))
    requires Ready(q, base, s) && s.left > 0
    ensures |r.0.coords| == |s.coords| && r.0.left <= s.left
    ensures r.1 ==> r.0.ok && r.0.left == s.left - 1
  {
    var k := s.left - 1;
    var v := s.coords[k] + s.carry;
    if v >= U64 then (s.(ok := false), false)
    else if q.Thin(base, k) then
      (Sweep(s.coords[k := q.Digit(k, v)], s.offset, s.advance, q.Carry(k, v), k, true), true)
    else
      var current := q.Digit(k, v);
      var to: nat := Min(q.counts[k], q.Limit(base, k));
      if to < current || s.offset + q.Layers(k, to - current) >= U64 || q.Carry(k, v) + q.Carry(k, to) >= U64 then
        (s.(ok := false), false)
      else
        var diff := q.Layers(k, to - current);
        var t := Sweep(s.coords[k := q.Digit(k, to)], s.offset + diff, s.advance + diff,
                       q.Carry(k, v) + q.Carry(k, to), k, true);
        (t, q.indices[k] == base[k] && q.counts[k] == q.Limit(base, k) && t.offset < q.End())
  }

  // The dimension loop.
  function Descend(q: Request, base: seq<nat>, s: Sweep): (r: Sweep)
    requires Ready(q, base, s)
    ensures |r.coords| == |s.coords| && r.left <= s.left
    decreases s.left
  {
    if s.left == 0 then s else
      var (t, more) := Visit(q, base, s);
      if more then Descend(q, base, t) else t
  }

  // The carry left over by the dimension loop.
  function Ripple(coords: seq<nat>, counts: seq<nat>, i: nat, carry: nat): (r: seq<nat>)
    requires |coords| == |counts| && i <= |counts| && Positive(counts)
    ensures |r| == |coords|
    decreases i
  {
    if i == 0 then coords else
      var v := coords[i - 1] + carry;
      var r := coords[i - 1 := v % counts[i - 1]];
      if v / counts[i - 1] == 0 then r else Ripple(r, counts, i - 1, v / counts[i - 1])
  }

  // No sum of a coordinate and the carry that is left over leaves 64 bits.
  predicate RippleFits(coords: seq<nat>, counts: seq<nat>, i: nat, carry: nat)
    requires |coords| == |counts| && i <= |counts| && Positive(counts)
    decreases i
  {
    i == 0 ||
    var k, v := i - 1, coords[i - 1] + carry;
    v < U64 && (v / counts[k] == 0 || RippleFits(coords[k := v % counts[k]], counts, k, v / counts[k]))
  }

  lemma {:induction false} DescendBox(q: Request, base: seq<nat>, s: Sweep)
    requires Ready(q, base, s) && InBox(s.coords, q.counts)
    ensures InBox(Descend(q, base, s).coords, q.counts)
    decreases s.left
  {
    if s.left > 0 {
      var (t, more) := Visit(q, base, s);
      assert InBox(t.coords, q.counts);
      if more {
        hide Visit;
        DescendBox(q, base, t);
      }
    }
  }

  lemma {:induction false} RippleBox(coords: seq<nat>, counts: seq<nat>, i: nat, carry: nat)
    requires InBox(coords, counts) && i <= |counts| && Positive(counts)
    ensures InBox(Ripple(coords, counts, i, carry), counts)
    decreases i
  {
    if i > 0 {
      var v := coords[i - 1] + carry;
      RippleBox(coords[i - 1 := v % counts[i - 1]], counts, i - 1, v / counts[i - 1]);
    }
  }

  // One call of next, on the chunk at base: the values start .. start + advance of it.
  datatype Step = Fault | Deliver(start: nat, advance: nat, next: Cursor)

  ghost predicate Live(q: Request, cur: Cursor) {
    q.Valid() && InBox(cur.coords, q.counts) && cur.offset < q.End()
  }

  ghost predicate Lookup(q: Request, base: seq<nat>, o: seq<nat>)
    requires q.Valid()
  {
    q.Holds(base, o) && Ready(q, base, Sweep(o, 0, 0, 0, |o|, true))
  }

  // The coordinate at slice coordinates o, relative to the chunk at base.
  function Within(q: Request, base: seq<nat>, o: seq<nat>): (l: seq<nat>)
    requires q.Holds(base, o)
    ensures |l| == |o|
  {
    seq(|o|, k requires 0 <= k < |o| => q.indices[k] + o[k] - base[k])
  }

  function Next(q: Request, base: seq<nat>, cur: Cursor): (r: Step)
    requires Live(q, cur) && Lookup(q, base, cur.coords)
    ensures r.Deliver? ==> InBox(r.next.coords, q.counts)
  {
    if q.shape == [] then Deliver(0, 1, Cursor(cur.offset + 1, cur.coords)) else
      var s := Sweep(cur.coords, cur.offset, 0, 0, |base|, true);
      DescendBox(q, base, s);
      var r := Descend(q, base, s);
      var start := Ravel(Within(q, base, cur.coords), q.chunkShape);
      if !r.ok || !RippleFits(r.coords, q.counts, r.left, r.carry) || start + r.advance >= U64 then Fault else
        RippleBox(r.coords, q.counts, r.left, r.carry);
        Deliver(start, r.advance, Cursor(r.offset, Ripple(r.coords, q.counts, r.left, r.carry)))
  }
}
