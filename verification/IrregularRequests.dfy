// Requests that the slicer does not read in row-major order: what it delivers first, and the
// first value that is wrong.
module IrregularRequests {
  import opened Radix
  import opened Slicing
  import opened Stops
  import opened StopProofs
  import opened Delivery
  import opened SlicerTheorem

  // A count of 1 between longer ones: the carry wraps there, and the dimension is taken twice.
  const WRAP := Request([20, 20, 10], [10, 10, 10], [0, 9, 0], [20, 1, 10])

  // A chunk one thick between thicker dimensions: its carry is dropped.
  const SHEET := Request([10, 5, 10], [10, 1, 10], [0, 0, 0], [10, 5, 10])

  // The clipped column of chunks: stored rows are longer than requested ones.
  const CLIPPED := Request([20, 15], [10, 10], [0, 10], [20, 5])

  // Fewer rows of that column: the one segment is longer than the request.
  const OVERRUN := Request([20, 15], [10, 10], [0, 10], [15, 5])

  lemma Prod2(a: nat, b: nat)
    ensures Prod([b]) == b && Prod([a, b]) == a * b
  {
    assert [a, b][1..] == [b] && [b][1..] == [];
  }

  lemma Prod3(a: nat, b: nat, c: nat)
    ensures Prod([a, b, c]) == a * (b * c)
  {
    assert [a, b, c][1..] == [b, c];
    Prod2(b, c);
  }

  lemma Ravel2(x: seq<nat>, s: seq<nat>)
    requires |x| == |s| == 2
    ensures Ravel(x, s) == x[0] * s[1] + x[1]
  {
    Prod2(s[0], s[1]);
    assert s[1..] == [s[1]] && x[1..] == [x[1]];
    assert Ravel(x[1..], s[1..]) == x[1] by { assert s[1..][1..] == [] && x[1..][1..] == []; }
  }

  lemma Ravel3(x: seq<nat>, s: seq<nat>)
    requires |x| == |s| == 3
    ensures Ravel(x, s) == x[0] * (s[1] * s[2]) + (x[1] * s[2] + x[2])
  {
    Prod2(s[1], s[2]);
    assert s[1..] == [s[1], s[2]];
    Ravel2(x[1..], s[1..]);
  }

  // The strides of a stored chunk of two and of three dimensions.
  lemma Strides2(q: Request)
    requires |q.chunkShape| == 2
    ensures q.Stride(1) == 1 && q.Stride(0) == q.chunkShape[1]
  {
    Prod2(0, q.chunkShape[1]);
    assert q.chunkShape[1..] == [q.chunkShape[1]] && q.chunkShape[2..] == [];
  }

  lemma Strides3(q: Request)
    requires |q.chunkShape| == 3
    ensures q.Stride(2) == 1 && q.Stride(1) == q.chunkShape[2] && q.Stride(0) == q.chunkShape[1] * q.chunkShape[2]
  {
    Prod2(q.chunkShape[1], q.chunkShape[2]);
    assert q.chunkShape[1..] == [q.chunkShape[1], q.chunkShape[2]];
    assert q.chunkShape[2..] == [q.chunkShape[2]] && q.chunkShape[3..] == [];
  }

  // A pass over dimension k that splits the digit, with the carry into it, into carry c and digit d,
  // and takes the layers from d to the count number to.
  ghost predicate Passes(q: Request, base: seq<nat>, s: Sweep, k: nat, c: nat, d: nat, to: nat, t: Sweep)
    requires k < |base| == |q.shape| == |q.chunkShape| == |q.indices| == |q.counts| == |s.coords|
  {
    && s.left == k + 1 && !q.Thin(base, k)
    && d < q.counts[k] && s.coords[k] + s.carry == c * q.counts[k] + d
    && d <= to == Min(q.counts[k], q.Limit(base, k))
    && t == Sweep(s.coords[k := if to < q.counts[k] then to else 0], s.offset + q.Layers(k, to - d),
                  s.advance + q.Layers(k, to - d), if to < q.counts[k] then c else c + 1, k, true)
    && t.offset < U64 && c * q.counts[k] + d < U64 && c + 1 < U64
  }

  lemma PassVisit(q: Request, base: seq<nat>, s: Sweep, k: nat, c: nat, d: nat, to: nat, t: Sweep)
    requires Ready(q, base, s) && k < |base| && Passes(q, base, s, k, c, d, to, t)
    ensures Visit(q, base, s) == (t, q.indices[k] == base[k] && q.counts[k] == q.Limit(base, k) && t.offset < q.End())
  {
    hide Prod, Mul;
    SplitDigit(q, k, s.coords[k] + s.carry, c, d);
    if to == q.counts[k] { SplitDigit(q, k, to, 1, 0); } else { SplitDigit(q, k, to, 0, to); }
    hide Rem, Quot;
  }

  lemma Pass(q: Request, base: seq<nat>, s: Sweep, k: nat, c: nat, d: nat, to: nat, t: Sweep)
    requires Ready(q, base, s) && k < |base| && Passes(q, base, s, k, c, d, to, t)
    ensures Ready(q, base, t)
    ensures Descend(q, base, s) ==
            if q.indices[k] == base[k] && q.counts[k] == q.Limit(base, k) && t.offset < q.End() && k > 0
            then Descend(q, base, t) else t
  {
    hide Prod, Visit;
    PassVisit(q, base, s, k, c, d, to, t);
  }

  // A pass that takes nothing, in a chunk one thick.
  lemma PassOver(q: Request, base: seq<nat>, s: Sweep, k: nat, c: nat, d: nat)
    requires Ready(q, base, s) && s.left == k + 1 && q.Thin(base, k)
    requires d < q.counts[k] && s.coords[k] + s.carry == c * q.counts[k] + d < U64
    ensures var t := Sweep(s.coords[k := d], s.offset, s.advance, c, k, true);
            Ready(q, base, t) && Descend(q, base, s) == Descend(q, base, t)
  {
    hide Prod;
    DivModUnique(s.coords[k] + s.carry, q.counts[k], c, d);
  }

  // The first call of a run from the origin, on the chunk at base.
  ghost predicate First(q: Request, base: seq<nat>, start: nat, end: nat) {
    q.Valid() && RunFrom(q, Origin(q)).segments != [] && RunFrom(q, Origin(q)).segments[0] == Segment(base, start, end)
  }

  // A first segment whose value i is not the one requested spoils the run, fault or not.
  lemma Wrong(q: Request, base: seq<nat>, start: nat, end: nat, i: nat)
    requires First(q, base, start, end) && |base| == |q.chunkShape| && i < end - start
    requires Stored(q, base, start + i) != Asked(q, i)
    ensures !Reads(q, RunFrom(q, Origin(q)).segments, 0, q.End()) && !Regular(q)
  {
    hide Regular, RunFrom, Stored, Asked, Prod;
    SlicerExact(q);
    var c, w := Covered(q, base, start, end - start), Wanted(q, 0, end - start);
    assert c[i] == Stored(q, base, start + i) && w[i] == Asked(q, i);
  }

  // The state before the dimension loop of the first call.
  ghost function Entry(q: Request): Sweep {
    Sweep(seq(|q.counts|, _ => 0), 0, 0, 0, |q.counts|, true)
  }

  lemma EntryReady(q: Request)
    requires Array(q)
    ensures InBox(Entry(q).coords, q.counts) && Ready(q, BaseAt(q, Entry(q).coords), Entry(q))
  {
    hide Prod;
    BaseFacts(q, Entry(q).coords);
  }

  lemma EntryWithin(q: Request, base: seq<nat>, x: seq<nat>)
    requires Array(q) && base == BaseAt(q, Entry(q).coords) && |x| == |base| && Plus(base, x) == q.indices
    ensures q.End() > 0 && Live(q, Origin(q)) && Origin(q) == Cursor(0, Entry(q).coords)
    ensures Lookup(q, base, Entry(q).coords) && Within(q, base, Entry(q).coords) == x
  {
    hide BaseAt, Prod;
    var o := Entry(q).coords;
    BaseFacts(q, o);
    ProdPositive(q.counts);
    forall k | 0 <= k < |x| ensures Within(q, base, o)[k] == x[k] {
      assert Plus(base, x)[k] == q.indices[k];
    }
  }

  // The first call, from the state the dimension loop ends in.
  lemma Opening(q: Request, base: seq<nat>, x: seq<nat>, s: Sweep)
    requires Array(q) && base == BaseAt(q, Entry(q).coords) && |x| == |base| && Plus(base, x) == q.indices
    requires Ready(q, base, Entry(q)) && Descend(q, base, Entry(q)) == s && s.ok && s.offset == s.advance > 0
    requires RippleFits(s.coords, q.counts, s.left, s.carry) && Ravel(x, q.chunkShape) + s.advance < U64
    ensures First(q, base, Ravel(x, q.chunkShape), Ravel(x, q.chunkShape) + s.advance)
    ensures s.offset >= q.End() ==>
              RunFrom(q, Origin(q)) == Run([Segment(base, Ravel(x, q.chunkShape),
                Ravel(x, q.chunkShape) + s.advance)], true)
  {
    hide Descend, Ravel, Prod, BaseAt, Ripple, Ready, RippleFits;
    EntryWithin(q, base, x);
  }

  lemma StoredIs(q: Request, base: seq<nat>, x: seq<nat>, j: nat, z: seq<nat>)
    requires q.Valid() && |base| == |x| == |z| && InBox(x, q.chunkShape) && j == Ravel(x, q.chunkShape)
    requires forall k :: 0 <= k < |z| ==> z[k] == base[k] + x[k]
    ensures Stored(q, base, j) == z
  {
    hide Prod, Ravel, Unravel;
    UnravelRavel(x, q.chunkShape);
  }

  lemma AskedIs(q: Request, x: seq<nat>, j: nat, z: seq<nat>)
    requires q.Valid() && |x| == |z| && InBox(x, q.counts) && j == Ravel(x, q.counts)
    requires forall k :: 0 <= k < |z| ==> z[k] == q.indices[k] + x[k]
    ensures Asked(q, j) == z
  {
    hide Prod, Ravel, Unravel;
    UnravelRavel(x, q.counts);
  }

  lemma WrapValid()
    ensures Array(WRAP) && WRAP.End() == 200
    ensures Entry(WRAP) == Sweep([0, 0, 0], 0, 0, 0, 3, true) && BaseAt(WRAP, [0, 0, 0]) == [0, 0, 0]
    ensures WRAP.Stride(2) == 1 && WRAP.Stride(1) == 10 && WRAP.Stride(0) == 100
  {
    hide Prod;
    Prod3(20, 20, 10);
    Prod3(20, 1, 10);
    Strides3(WRAP);
    assert Padded(WRAP.shape, WRAP.chunkShape) == [20, 20, 10];
  }

  lemma WrapStep()
    ensures First(WRAP, [0, 0, 0], 90, 110)
  {
    hide Prod, Visit, Descend, Ravel, First, RunFrom, Ready, BaseAt;
    WrapValid();
    EntryReady(WRAP);
    var q, o := WRAP, [0, 0, 0];
    assert q.counts[2] == 10 && q.Limit(o, 2) == 10 && o[2 := 0] == o;
    Pass(q, o, Entry(q), 2, 0, 0, 10, Sweep(o, 10, 10, 1, 2, true));
    assert q.counts[1] == 1 && q.Limit(o, 1) == 1 && o[1 := 0] == o;
    Pass(q, o, Sweep(o, 10, 10, 1, 2, true), 1, 1, 0, 1, Sweep(o, 20, 20, 2, 1, true));
    Ravel3([0, 9, 0], q.chunkShape);
    Opening(q, o, [0, 9, 0], Sweep(o, 20, 20, 2, 1, true));
  }

  // The segment takes 10 values of the chunk's last row and, from value 100 on, the plane below.
  lemma WrapIncorrect()
    ensures First(WRAP, [0, 0, 0], 90, 110)
    ensures Stored(WRAP, [0, 0, 0], 90 + 10) == [1, 0, 0] && Asked(WRAP, 10) == [1, 9, 0]
    ensures !Reads(WRAP, RunFrom(WRAP, Origin(WRAP)).segments, 0, WRAP.End()) && !Regular(WRAP)
  {
    hide RunFrom, Prod, Ravel, Regular, First, Stored, Asked;
    WrapValid();
    WrapStep();
    Ravel3([1, 0, 0], WRAP.chunkShape);
    Ravel3([1, 0, 0], WRAP.counts);
    StoredIs(WRAP, [0, 0, 0], [1, 0, 0], 100, [1, 0, 0]);
    AskedIs(WRAP, [1, 0, 0], 10, [1, 9, 0]);
    Wrong(WRAP, [0, 0, 0], 90, 110, 10);
  }

  lemma SheetValid()
    ensures Array(SHEET) && SHEET.End() == 500
    ensures Entry(SHEET) == Sweep([0, 0, 0], 0, 0, 0, 3, true) && BaseAt(SHEET, [0, 0, 0]) == [0, 0, 0]
    ensures SHEET.Stride(2) == 1 && SHEET.Stride(1) == 10 && SHEET.Stride(0) == 10
  {
    hide Prod;
    Prod3(10, 5, 10);
    Strides3(SHEET);
    assert Padded(SHEET.shape, SHEET.chunkShape) == [10, 5, 10];
  }

  lemma SheetStep()
    ensures First(SHEET, [0, 0, 0], 0, 110)
  {
    hide Prod, Visit, Descend, Ravel, First, RunFrom, Ready, BaseAt;
    SheetValid();
    EntryReady(SHEET);
    var q, o := SHEET, [0, 0, 0];
    assert q.counts[2] == 10 && q.Limit(o, 2) == 10 && o[2 := 0] == o;
    Pass(q, o, Entry(q), 2, 0, 0, 10, Sweep(o, 10, 10, 1, 2, true));
    assert q.counts[1] == 5 && q.Thin(o, 1) && o[1 := 1] == [0, 1, 0];
    PassOver(q, o, Sweep(o, 10, 10, 1, 2, true), 1, 0, 1);
    assert q.counts[0] == 10 && q.Limit(o, 0) == 10 && [0, 1, 0][0 := 0] == [0, 1, 0];
    Pass(q, o, Sweep([0, 1, 0], 10, 10, 0, 1, true), 0, 0, 0, 10, Sweep([0, 1, 0], 110, 110, 1, 0, true));
    Ravel3(o, q.chunkShape);
    Opening(q, o, o, Sweep([0, 1, 0], 110, 110, 1, 0, true));
  }

  // After the 10 values asked for first, the segment goes on to the next row of the same chunk,
  // and it is longer than the chunk.
  lemma SheetIncorrect()
    ensures First(SHEET, [0, 0, 0], 0, 110) && Prod(SHEET.chunkShape) == 100
    ensures Stored(SHEET, [0, 0, 0], 10) == [1, 0, 0] && Asked(SHEET, 10) == [0, 1, 0]
    ensures !Reads(SHEET, RunFrom(SHEET, Origin(SHEET)).segments, 0, SHEET.End()) && !Regular(SHEET)
  {
    hide RunFrom, Prod, Ravel, Regular, First, Stored, Asked;
    SheetValid();
    SheetStep();
    Prod3(10, 1, 10);
    Ravel3([1, 0, 0], SHEET.chunkShape);
    Ravel3([0, 1, 0], SHEET.counts);
    StoredIs(SHEET, [0, 0, 0], [1, 0, 0], 10, [1, 0, 0]);
    AskedIs(SHEET, [0, 1, 0], 10, [0, 1, 0]);
    Wrong(SHEET, [0, 0, 0], 0, 110, 10);
  }

  lemma ColumnBase(q: Request)
    requires q in {CLIPPED, OVERRUN} && q.Valid()
    ensures Entry(q) == Sweep([0, 0], 0, 0, 0, 2, true) && BaseAt(q, [0, 0]) == [0, 10]
  {
    hide Prod, Padded;
  }

  lemma ColumnValid(q: Request)
    requires q in {CLIPPED, OVERRUN}
    ensures Array(q) && q.End() == 5 * q.counts[0] && q.Stride(1) == 1 && q.Stride(0) == 10
    ensures Entry(q) == Sweep([0, 0], 0, 0, 0, 2, true) && BaseAt(q, [0, 0]) == [0, 10]
  {
    hide Prod;
    Prod2(20, 20);
    Prod2(q.counts[0], 5);
    assert q.counts == [q.counts[0], 5];
    Strides2(q);
    assert Padded(q.shape, q.chunkShape) == [20, 20];
    ColumnBase(q);
  }

  lemma ColumnLoop(q: Request)
    requires q in {CLIPPED, OVERRUN}
    ensures Entry(q).coords == [0, 0] && BaseAt(q, [0, 0]) == [0, 10] && Ready(q, [0, 10], Entry(q))
    ensures Descend(q, [0, 10], Entry(q)) == Sweep([10, 0], 95, 95, 0, 0, true)
  {
    hide Prod, Visit, Descend, Ready, BaseAt;
    var o, base := [0, 0], [0, 10];
    ColumnValid(q);
    EntryReady(q);
    assert q.Limit(base, 1) == 5 && o[1 := 0] == o;
    Pass(q, base, Entry(q), 1, 0, 0, 5, Sweep(o, 5, 5, 1, 1, true));
    assert q.Limit(base, 0) == 10 && o[0 := 10] == [10, 0];
    Pass(q, base, Sweep(o, 5, 5, 1, 1, true), 0, 0, 1, 10, Sweep([10, 0], 95, 95, 0, 0, true));
  }

  // Both requests for the clipped column begin with the same segment.
  lemma ColumnStep(q: Request)
    requires q in {CLIPPED, OVERRUN}
    ensures First(q, [0, 10], 0, 95)
    ensures q == OVERRUN ==> RunFrom(q, Origin(q)) == Run([Segment([0, 10], 0, 95)], true)
  {
    hide Prod, Ready, Descend, Ravel, First, RunFrom, BaseAt;
    ColumnValid(q);
    ColumnLoop(q);
    Ravel2([0, 0], q.chunkShape);
    assert Plus([0, 10], [0, 0]) == q.indices;
    hide Plus;
    Opening(q, [0, 10], [0, 0], Sweep([10, 0], 95, 95, 0, 0, true));
  }

  // After the 5 values of the first row, the segment goes on with the chunk's padding.
  lemma ClippedIncorrect()
    ensures First(CLIPPED, [0, 10], 0, 95)
    ensures Stored(CLIPPED, [0, 10], 5) == [0, 15] && Asked(CLIPPED, 5) == [1, 10]
    ensures !Reads(CLIPPED, RunFrom(CLIPPED, Origin(CLIPPED)).segments, 0, CLIPPED.End()) && !Regular(CLIPPED)
  {
    hide RunFrom, Prod, Ravel, Regular, First, Stored, Asked;
    ColumnValid(CLIPPED);
    ColumnStep(CLIPPED);
    Ravel2([0, 5], CLIPPED.chunkShape);
    Ravel2([1, 0], CLIPPED.counts);
    StoredIs(CLIPPED, [0, 10], [0, 5], 5, [0, 15]);
    AskedIs(CLIPPED, [1, 0], 5, [1, 10]);
    Wrong(CLIPPED, [0, 10], 0, 95, 5);
  }

  // 75 values are requested, and 95 delivered, in one segment of a chunk of 100.
  lemma OverrunDelivers()
    ensures OVERRUN.Valid() && OVERRUN.End() == 75
    ensures RunFrom(OVERRUN, Origin(OVERRUN)) == Run([Segment([0, 10], 0, 95)], true)
  {
    hide Prod, RunFrom, First;
    ColumnValid(OVERRUN);
    ColumnStep(OVERRUN);
  }
}
