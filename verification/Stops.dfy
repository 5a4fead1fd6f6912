// The states in which the slicer pauses, and the guards under which one call from
// such a state delivers exactly the values up to the next one.
module Stops {
  import opened Radix
  import opened Slicing

  ghost predicate Array(q: Request) {
    q.Valid() && q.shape != []
  }

  // o are slice coordinates of the request.
  ghost predicate At(q: Request, o: seq<nat>) {
    Array(q) && InBox(o, q.counts)
  }

  // The request covers one chunk along dimension k, from its start to its (clipped) end.
  predicate Whole(q: Request, k: nat)
    requires q.Valid() && k < |q.shape|
  {
    q.indices[k] % q.chunkShape[k] == 0 && q.counts[k] == Min(q.chunkShape[k], q.shape[k] - q.indices[k])
  }

  predicate OnesAbove(q: Request, k: nat)
    requires k <= |q.counts|
  {
    forall j :: 0 <= j < k ==> q.counts[j] == 1
  }

  // The innermost dimension that ends a segment: every dimension below it is whole.
  function PivotFrom(q: Request, k: nat): (m: nat)
    requires q.Valid() && k < |q.shape|
    ensures m <= k && (!Whole(q, m) || OnesAbove(q, m))
    ensures forall j :: m < j <= k ==> Whole(q, j)
  {
    if !Whole(q, k) || OnesAbove(q, k) then k else PivotFrom(q, k - 1)
  }

  function Pivot(q: Request): (m: nat)
    requires Array(q)
    ensures m < |q.shape| && (!Whole(q, m) || OnesAbove(q, m))
    ensures forall j :: m < j < |q.shape| ==> Whole(q, j)
  {
    PivotFrom(q, |q.shape| - 1)
  }

  // The offset of the chunk that holds the coordinate at slice coordinates o.
  function BaseAt(q: Request, o: seq<nat>): (b: seq<nat>)
    requires q.Valid() && InBox(o, q.counts)
    ensures |b| == |o|
  {
    seq(|o|, k requires 0 <= k < |o| =>
      var x := q.indices[k] + o[k]; x / q.chunkShape[k] * q.chunkShape[k])
  }

  // The coordinate at slice coordinates o, relative to its chunk.
  ghost function Local(q: Request, o: seq<nat>): (l: seq<nat>)
    requires q.Valid() && InBox(o, q.counts)
    ensures |l| == |o|
  {
    seq(|o|, k requires 0 <= k < |o| => (q.indices[k] + o[k]) % q.chunkShape[k])
  }

  lemma BaseFacts(q: Request, o: seq<nat>)
    requires q.Valid() && InBox(o, q.counts)
    ensures q.Holds(BaseAt(q, o), o)
    ensures InBox(Local(q, o), q.chunkShape)
    ensures Plus(BaseAt(q, o), Local(q, o)) == Plus(q.indices, o)
    ensures forall k :: 0 <= k < |o| ==> BaseAt(q, o)[k] % q.chunkShape[k] == 0
    ensures forall k :: 0 <= k < |o| ==> BaseAt(q, o)[k] < q.shape[k]
    ensures forall k :: 0 <= k < |o| ==> o[k] < q.Limit(BaseAt(q, o), k)
    ensures forall k :: 0 <= k < |o| ==> 0 < q.Depth(BaseAt(q, o), k) <= q.chunkShape[k]
  {
    var b := BaseAt(q, o);
    forall k | 0 <= k < |o|
      ensures b[k] % q.chunkShape[k] == 0
      ensures b[k] + Local(q, o)[k] == q.indices[k] + o[k]
      ensures Local(q, o)[k] < q.chunkShape[k]
    {
      var x, c := q.indices[k] + o[k], q.chunkShape[k];
      assert x == x / c * c + x % c;
      DivModUnique(x / c * c, c, x / c, 0);
    }
  }

  // The values from o to the end of its chunk along the pivot.
  function Piece(q: Request, o: seq<nat>): (l: nat)
    requires At(q, o)
    ensures l > 0 && o[Pivot(q)] + l <= q.counts[Pivot(q)]
  {
    BaseFacts(q, o);
    var m := Pivot(q);
    Min(q.counts[m], q.Limit(BaseAt(q, o), m)) - o[m]
  }

  ghost predicate Stop(q: Request, o: seq<nat>) {
    At(q, o) &&
    var m := Pivot(q);
    && (forall k :: m < k < |o| ==> o[k] == 0)
    && (o[m] == 0 || (q.indices[m] + o[m]) % q.chunkShape[m] == 0)
  }

  // The box of values between a stop and the next.
  function Extent(q: Request, o: seq<nat>): (e: seq<nat>)
    requires At(q, o)
    ensures |e| == |q.shape| && Positive(e)
  {
    var m, l := Pivot(q), Piece(q, o);
    seq(|q.shape|, k requires 0 <= k < |q.shape| => if k < m then 1 else if k == m then l else q.counts[k])
  }

  function Span(q: Request, o: seq<nat>): nat
    requires At(q, o)
  {
    Piece(q, o) * Prod(q.counts[Pivot(q) + 1..])
  }

  // The carry that leaves dimension k when every dimension from k on is whole.
  function CarryOut(q: Request, k: nat): nat
    requires q.Valid() && k <= |q.shape|
    decreases |q.shape| - k
  {
    if k == |q.shape| then 0
    else if q.counts[k] == 1 && q.Stride(k) != 1 then CarryOut(q, k + 1)
    else q.Carry(k, CarryOut(q, k + 1)) + 1
  }

  // Above a chunk that is one thick, each dimension must be one thick too, or leave
  // the chunk with this very carry.
  predicate PassClear(q: Request, base: seq<nat>, coords: seq<nat>, i: nat, carry: nat)
    requires q.Valid() && |base| == |coords| == |q.shape| && i <= |coords|
    decreases i
  {
    i == 0 ||
    var k := i - 1;
    var v := coords[k] + carry;
    if q.Thin(base, k)
    then PassClear(q, base, coords[k := q.Digit(k, v)], k, q.Carry(k, v))
    else v == q.Limit(base, k) && v < q.counts[k]
  }

  // The guards at the pivot, for a stop that is not the last.
  predicate Guarded(q: Request, o: seq<nat>)
    requires At(q, o)
  {
    var m, base := Pivot(q), BaseAt(q, o);
    var carry := CarryOut(q, m + 1);
    var v := o[m] + carry;
    if q.Thin(base, m)
    then carry <= 1 && PassClear(q, base, o[m := q.Digit(m, v)], m, q.Carry(m, v))
    else carry <= Piece(q, o) && v < q.counts[m]
  }

  predicate Last(q: Request, o: seq<nat>)
    requires At(q, o)
  {
    Ravel(o, q.counts) + Span(q, o) >= q.End()
  }

  predicate Clear(q: Request, o: seq<nat>)
    requires At(q, o)
  {
    Contiguous(Extent(q, o), q.chunkShape) && (Last(q, o) || Guarded(q, o))
  }

  // The requests that the slicer reads in row-major order.
  ghost predicate Regular(q: Request)
    requires q.Valid()
  {
    q.shape == [] || forall o :: Stop(q, o) ==> Clear(q, o)
  }
}
