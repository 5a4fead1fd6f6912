// The parallel reader: one worker per chunk, all writing into the same buffer without locks.
module ParallelReads {
  import opened Slicing
  import opened Datasets
  import opened Sorting
  import opened Slicers
  import opened Bytes
  import opened Storage
  import opened Gathering
  import opened Scattering
  import opened CacheReaders
  import opened DirectReaders

  // Neighbours with the same address form a group.
  function ChunkBy(ts: seq<Tagged>): (groups: seq<seq<Tagged>>)
    ensures ts != [] ==> groups != [] && groups[0] != [] && groups[0][0] == ts[0]
  {
    if ts == [] then [] else
      var rest := ChunkBy(ts[1..]);
      if rest != [] && rest[0] != [] && rest[0][0].slice.chunk.addr == ts[0].slice.chunk.addr
      then [[ts[0]] + rest[0]] + rest[1..]
      else [[ts[0]]] + rest
  }

  function Flatten<T>(groups: seq<seq<T>>): seq<T> {
    if groups == [] then [] else groups[0] + Flatten(groups[1..])
  }

  ghost predicate OneChunk(group: seq<Tagged>) {
    group != [] && forall t :: t in group ==> t.slice.chunk.addr == group[0].slice.chunk.addr
  }

  ghost predicate Earlier(g: seq<Tagged>, h: seq<Tagged>) {
    g != [] && h != [] && g[0].slice.chunk.addr < h[0].slice.chunk.addr
  }

  // Each group is of one chunk, and the groups' chunks lie in file order.
  ghost predicate Grouping(groups: seq<seq<Tagged>>) {
    && (forall i :: 0 <= i < |groups| ==> OneChunk(groups[i]))
    && (forall i, j :: 0 <= i < j < |groups| ==> Earlier(groups[i], groups[j]))
  }

  lemma OneMore(t: Tagged, g: seq<Tagged>)
    requires OneChunk(g) && g[0].slice.chunk.addr == t.slice.chunk.addr
    ensures OneChunk([t] + g) && ([t] + g)[0] == t
  {
  }

  lemma EarlierHead(h: seq<Tagged>, g: seq<Tagged>, k: seq<Tagged>)
    requires h != [] && g != [] && h[0].slice.chunk.addr == g[0].slice.chunk.addr && Earlier(g, k)
    ensures Earlier(h, k)
  {
  }

  lemma Joining(t: Tagged, rest: seq<seq<Tagged>>)
    requires Grouping(rest) && rest != [] && rest[0] != [] && rest[0][0].slice.chunk.addr == t.slice.chunk.addr
    ensures Grouping([[t] + rest[0]] + rest[1..])
  {
    hide Earlier, OneChunk;
    var g: seq<seq<Tagged>> := [[t] + rest[0]] + rest[1..];
    assert OneChunk(rest[0]);
    OneMore(t, rest[0]);
    forall i | 0 <= i < |g| ensures OneChunk(g[i]) {
      if i > 0 { assert OneChunk(rest[i]); }
    }
    forall i, j | 0 <= i < j < |g| ensures Earlier(g[i], g[j]) {
      assert Earlier(rest[i], rest[j]);
      if i == 0 { EarlierHead(g[0], rest[0], rest[j]); }
    }
  }

  lemma FlattenCons<T>(h: seq<T>, rest: seq<seq<T>>)
    ensures Flatten([h] + rest) == h + Flatten(rest)
  {
    assert ([h] + rest)[1..] == rest;
  }

  lemma FlattenJoined<T>(t: T, rest: seq<seq<T>>)
    requires rest != []
    ensures Flatten([[t] + rest[0]] + rest[1..]) == [t] + Flatten(rest)
  {
    hide Flatten;
    FlattenCons([t] + rest[0], rest[1..]);
    FlattenCons(rest[0], rest[1..]);
    assert rest == [rest[0]] + rest[1..];
  }

  lemma Adding(t: Tagged, rest: seq<seq<Tagged>>)
    requires Grouping(rest) && (rest != [] ==> rest[0] != [] && t.slice.chunk.addr < rest[0][0].slice.chunk.addr)
    ensures Grouping([[t]] + rest) && Flatten([[t]] + rest) == [t] + Flatten(rest)
  {
    var g: seq<seq<Tagged>> := [[t]] + rest;
    assert g[0] == [t] && g[1..] == rest;
    assert forall i :: 0 < i < |g| ==> g[i] == rest[i - 1];
    forall i, j | 0 <= i < j < |g| ensures Earlier(g[i], g[j]) {
      if i > 0 {
        assert Earlier(rest[i - 1], rest[j - 1]);
      } else if j > 1 {
        assert Earlier(rest[0], rest[j - 1]);
      }
    }
  }

  // The groups are the sorted slices, cut where the chunk changes: each chunk has one group,
  // so one worker, which decodes it once.
  lemma {:induction false} GroupsPartition(ts: seq<Tagged>)
    requires SortedBy(ts, AddrLe)
    ensures Flatten(ChunkBy(ts)) == ts && Grouping(ChunkBy(ts))
  {
    if ts != [] {
      var t: Tagged, rest: seq<seq<Tagged>> := ts[0], ChunkBy(ts[1..]);
      forall i, j | 0 <= i < j < |ts[1..]| ensures AddrLe(ts[1..][i], ts[1..][j]) {
        assert AddrLe(ts[i + 1], ts[j + 1]);
      }
      GroupsPartition(ts[1..]);
      if rest != [] && rest[0][0].slice.chunk.addr == t.slice.chunk.addr {
        Joining(t, rest);
        FlattenJoined(t, rest);
      } else {
        if rest != [] {
          assert AddrLe(ts[0], ts[1]);
        }
        Adding(t, rest);
      }
    }
  }

  // Storing one byte at a position of the buffer.
  datatype Write = Write(pos: nat, value: byte)

  // The writes of one slice, in ascending order.
  ghost function SliceWrites(store: Store, ds: Dataset, t: Tagged): seq<Write> {
    var b := SliceBytes(store, ds, t.slice);
    if b.None? then [] else seq(|b.value|, i requires 0 <= i < |b.value| => Write(t.current * ds.dsize + i, b.value[i]))
  }

  // The program of the worker of a group.
  ghost function Program(store: Store, ds: Dataset, group: seq<Tagged>): seq<Write> {
    if group == [] then [] else SliceWrites(store, ds, group[0]) + Program(store, ds, group[1..])
  }

  ghost function Programs(store: Store, ds: Dataset, groups: seq<seq<Tagged>>): (ps: seq<seq<Write>>)
    ensures |ps| == |groups|
  {
    seq(|groups|, i requires 0 <= i < |groups| => Program(store, ds, groups[i]))
  }

  // The buffer, and what each worker has still to write.
  datatype State = State(buffer: seq<byte>, todo: seq<seq<Write>>)

  // Worker w stores its next byte.
  ghost predicate CanStep(s: State, w: nat) {
    w < |s.todo| && s.todo[w] != [] && s.todo[w][0].pos < |s.buffer|
  }

  ghost function After(s: State, w: nat): State
    requires CanStep(s, w)
  {
    State(s.buffer[s.todo[w][0].pos := s.todo[w][0].value], s.todo[w := s.todo[w][1..]])
  }

  // The states a run can pass through, whatever the order of the workers' steps.
  ghost predicate Reaches(s: State, schedule: seq<nat>, end: State)
    decreases |schedule|
  {
    if schedule == [] then s == end else CanStep(s, schedule[0]) && Reaches(After(s, schedule[0]), schedule[1..], end)
  }

  ghost predicate InTodo(s: State, p: nat) {
    exists w, i :: 0 <= w < |s.todo| && 0 <= i < |s.todo[w]| && s.todo[w][i].pos == p
  }

  // Every byte of the target is written or still to be written, and all writes are of the target.
  ghost predicate Sound(target: seq<byte>, was: seq<byte>, s: State) {
    && |target| <= |was| == |s.buffer| && s.buffer[|target|..] == was[|target|..]
    && (forall w, i :: 0 <= w < |s.todo| && 0 <= i < |s.todo[w]| ==>
          s.todo[w][i].pos < |target| && s.todo[w][i].value == target[s.todo[w][i].pos])
    && (forall p :: 0 <= p < |target| ==> s.buffer[p] == target[p] || InTodo(s, p))
  }

  lemma StepSound(target: seq<byte>, was: seq<byte>, s: State, w: nat)
    requires Sound(target, was, s) && w < |s.todo| && s.todo[w] != []
    ensures CanStep(s, w) && Sound(target, was, After(s, w))
  {
    var x, t := s.todo[w][0], After(s, w);
    forall v, i | 0 <= v < |t.todo| && 0 <= i < |t.todo[v]|
      ensures t.todo[v][i].pos < |target| && t.todo[v][i].value == target[t.todo[v][i].pos]
    {
      assert t.todo[v][i] == if v == w then s.todo[v][i + 1] else s.todo[v][i];
    }
    forall p | 0 <= p < |target| ensures t.buffer[p] == target[p] || InTodo(t, p) {
      if p != x.pos && s.buffer[p] != target[p] {
        var v, i :| 0 <= v < |s.todo| && 0 <= i < |s.todo[v]| && s.todo[v][i].pos == p;
        if v == w {
          assert t.todo[v][i - 1].pos == p;
        } else {
          assert t.todo[v][i].pos == p;
        }
      }
    }
  }

  lemma {:induction false} RunSound(target: seq<byte>, was: seq<byte>, s: State, schedule: seq<nat>, end: State)
    requires Sound(target, was, s) && Reaches(s, schedule, end)
    ensures Sound(target, was, end)
    decreases |schedule|
  {
    if schedule != [] {
      StepSound(target, was, s, schedule[0]);
      hide Sound, After;
      RunSound(target, was, After(s, schedule[0]), schedule[1..], end);
    }
  }

  // A write of a program is the write of one of the group's slices.
  lemma {:induction false} ProgramSlice(store: Store, ds: Dataset, group: seq<Tagged>, i: nat) returns (t: Tagged,
                                        j: nat)
    requires i < |Program(store, ds, group)|
    ensures t in group && j < |SliceWrites(store, ds, t)|
    ensures SliceWrites(store, ds, t)[j] == Program(store, ds, group)[i]
  {
    hide SliceWrites;
    var n := |SliceWrites(store, ds, group[0])|;
    if i < n {
      t, j := group[0], i;
    } else {
      t, j := ProgramSlice(store, ds, group[1..], i - n);
    }
  }

  lemma {:induction false} SliceProgram(store: Store, ds: Dataset, group: seq<Tagged>, t: Tagged,
                                        j: nat) returns (i: nat)
    requires t in group && j < |SliceWrites(store, ds, t)|
    ensures i < |Program(store, ds, group)| && Program(store, ds, group)[i] == SliceWrites(store, ds, t)[j]
  {
    hide SliceWrites;
    if t == group[0] {
      i := j;
    } else {
      var k := SliceProgram(store, ds, group[1..], t, j);
      i := |SliceWrites(store, ds, group[0])| + k;
    }
  }

  lemma {:induction false} InFlatten(groups: seq<seq<Tagged>>, t: Tagged) returns (w: nat)
    requires t in Flatten(groups)
    ensures w < |groups| && t in groups[w]
  {
    if t in groups[0] {
      w := 0;
    } else {
      var v := InFlatten(groups[1..], t);
      w := v + 1;
    }
  }

  lemma {:induction false} FlattenIn(groups: seq<seq<Tagged>>, w: nat, t: Tagged)
    requires w < |groups| && t in groups[w]
    ensures t in Flatten(groups)
  {
    if w > 0 {
      FlattenIn(groups[1..], w - 1, t);
    }
  }

  // A write of a slice lies where the slice covers the destination, and agrees with the target.
  lemma WriteCovers(store: Store, ds: Dataset, t: Tagged, j: nat, target: seq<byte>)
    requires t.slice.start <= t.slice.end && Agrees(store, ds, t, target) && j < |SliceWrites(store, ds, t)|
    ensures var x := SliceWrites(store, ds, t)[j]; Covers(ds, t, x.pos) && x.pos < |target| && x.value == target[x.pos]
  {
    hide SliceBytes, Covers;
    var b, at := SliceBytes(store, ds, t.slice).value, t.current * ds.dsize;
    SliceCovers(store, ds, t, at + j);
    assert b[j] == target[at..at + |b|][j];
  }

  lemma CoversWrite(store: Store, ds: Dataset, t: Tagged, p: nat, target: seq<byte>) returns (j: nat)
    requires t.slice.start <= t.slice.end && Agrees(store, ds, t, target) && Covers(ds, t, p)
    ensures j < |SliceWrites(store, ds, t)| && SliceWrites(store, ds, t)[j].pos == p
  {
    hide SliceBytes, Covers;
    SliceCovers(store, ds, t, p);
    j := p - t.current * ds.dsize;
  }

  // A write of worker w, traced back to its slice.
  lemma WorkerWrite(store: Store, ds: Dataset, slices: seq<Slice>, ts: seq<Tagged>, w: nat, i: nat) returns (k: nat)
    requires Shuffling(ds, slices, ts) && SortedBy(ts, AddrLe) && Gather(store, ds, slices).Some?
    requires w < |ChunkBy(ts)| && i < |Programs(store, ds, ChunkBy(ts))[w]|
    ensures k < |ts| && ts[k] in ChunkBy(ts)[w]
    ensures var x, target := Programs(store, ds, ChunkBy(ts))[w][i], Gather(store, ds, slices).value;
            Covers(ds, ts[k], x.pos) && x.pos < |target| && x.value == target[x.pos]
  {
    hide Gather, SliceWrites, ChunkBy, Agrees, Covers, Shuffling, SortedBy;
    GroupsPartition(ts);
    var t, j := ProgramSlice(store, ds, ChunkBy(ts)[w], i);
    FlattenIn(ChunkBy(ts), w, t);
    k :| 0 <= k < |ts| && ts[k] == t;
    ShuffledProper(ds, slices, ts, k);
    ShuffledAgrees(store, ds, slices, ts, k);
    WriteCovers(store, ds, t, j, Gather(store, ds, slices).value);
  }

  // No two workers ever store to the same position.
  lemma NoRace(store: Store, ds: Dataset, slices: seq<Slice>, ts: seq<Tagged>, w: nat, i: nat, v: nat, j: nat)
    requires Shuffling(ds, slices, ts) && SortedBy(ts, AddrLe) && Gather(store, ds, slices).Some?
    requires w < |ChunkBy(ts)| && i < |Programs(store, ds, ChunkBy(ts))[w]|
    requires v < |ChunkBy(ts)| && j < |Programs(store, ds, ChunkBy(ts))[v]| && w != v
    ensures Programs(store, ds, ChunkBy(ts))[w][i].pos != Programs(store, ds, ChunkBy(ts))[v][j].pos
  {
    hide Gather, Program, ChunkBy, Covers, Tag;
    var a := WorkerWrite(store, ds, slices, ts, w, i);
    var b := WorkerWrite(store, ds, slices, ts, v, j);
    GroupsPartition(ts);
    var tags, p := Tag(slices, 0), Programs(store, ds, ChunkBy(ts))[w][i].pos;
    SameElements(ts, tags);
    assert OneChunk(ChunkBy(ts)[w]) && OneChunk(ChunkBy(ts)[v]);
    assert ts[a] in ts && ts[b] in ts;
    var m :| 0 <= m < |tags| && tags[m] == ts[a];
    var n :| 0 <= n < |tags| && tags[n] == ts[b];
    if Covers(ds, ts[a], p) && Covers(ds, ts[b], p) {
      if m < n { TagDisjoint(ds, slices, 0, m, n, p); }
      if n < m { TagDisjoint(ds, slices, 0, n, m, p); }
    }
  }

  lemma PendingWrite(store: Store, ds: Dataset, slices: seq<Slice>, ts: seq<Tagged>, k: nat,
                     p: nat) returns (w: nat, i: nat)
    requires Shuffling(ds, slices, ts) && SortedBy(ts, AddrLe) && Gather(store, ds, slices).Some?
    requires k < |ts| && Covers(ds, ts[k], p)
    ensures w < |ChunkBy(ts)| && i < |Programs(store, ds, ChunkBy(ts))[w]|
    ensures Programs(store, ds, ChunkBy(ts))[w][i].pos == p
  {
    hide Gather, SliceWrites, ChunkBy, Agrees, Covers, Shuffling, SortedBy;
    GroupsPartition(ts);
    ShuffledProper(ds, slices, ts, k);
    ShuffledAgrees(store, ds, slices, ts, k);
    var j := CoversWrite(store, ds, ts[k], p, Gather(store, ds, slices).value);
    assert ts[k] in ts;
    w := InFlatten(ChunkBy(ts), ts[k]);
    i := SliceProgram(store, ds, ChunkBy(ts)[w], ts[k], j);
  }

  lemma InitialSound(store: Store, ds: Dataset, slices: seq<Slice>, ts: seq<Tagged>, was: seq<byte>)
    requires Shuffling(ds, slices, ts) && SortedBy(ts, AddrLe)
    requires Gather(store, ds, slices).Some? && |Gather(store, ds, slices).value| <= |was|
    ensures Sound(Gather(store, ds, slices).value, was, State(was, Programs(store, ds, ChunkBy(ts))))
  {
    hide Gather, Program, ChunkBy, Agrees, Covers, Shuffling, SortedBy;
    var target, s := Gather(store, ds, slices).value, State(was, Programs(store, ds, ChunkBy(ts)));
    forall w, i | 0 <= w < |s.todo| && 0 <= i < |s.todo[w]|
      ensures s.todo[w][i].pos < |target| && s.todo[w][i].value == target[s.todo[w][i].pos]
    {
      var k := WorkerWrite(store, ds, slices, ts, w, i);
    }
    ShuffledPending(store, ds, slices, ts, was);
    forall p | 0 <= p < |target| ensures s.buffer[p] == target[p] || InTodo(s, p) {
      if Pending(ds, ts, p) {
        var k :| 0 <= k < |ts| && Covers(ds, ts[k], p);
        var w, i := PendingWrite(store, ds, slices, ts, k, p);
        assert s.todo[w][i].pos == p;
      }
    }
  }

  // Every byte of the target is written by some worker.
  lemma TargetWrite(store: Store, ds: Dataset, slices: seq<Slice>, ts: seq<Tagged>, p: nat) returns (w: nat, i: nat)
    requires Shuffling(ds, slices, ts) && SortedBy(ts, AddrLe) && Gather(store, ds, slices).Some?
    requires p < |Gather(store, ds, slices).value|
    ensures w < |ChunkBy(ts)| && i < |Programs(store, ds, ChunkBy(ts))[w]|
    ensures Programs(store, ds, ChunkBy(ts))[w][i].pos == p
  {
    hide Gather, Program, ChunkBy, Covers, Tag, SortedBy;
    SameElements(ts, Tag(slices, 0));
    var k := TagCovers(store, ds, slices, 0, p);
    assert Tag(slices, 0)[k] in ts;
    var m :| 0 <= m < |ts| && ts[m] == Tag(slices, 0)[k];
    w, i := PendingWrite(store, ds, slices, ts, m, p);
  }

  lemma {:induction false} SameWorkers(s: State, schedule: seq<nat>, end: State)
    requires Reaches(s, schedule, end)
    ensures |end.todo| == |s.todo| && |end.buffer| == |s.buffer|
    decreases |schedule|
  {
    if schedule != [] {
      SameWorkers(After(s, schedule[0]), schedule[1..], end);
    }
  }

  // A worker that has finished has stored inside the buffer only.
  lemma {:induction false} FinishedInside(s: State, schedule: seq<nat>, end: State, w: nat, i: nat)
    requires Reaches(s, schedule, end) && w < |s.todo| && i < |s.todo[w]|
    ensures |end.todo| == |s.todo|
    ensures end.todo[w] == [] ==> s.todo[w][i].pos < |s.buffer|
    decreases |schedule|
  {
    if schedule != [] {
      var v, t := schedule[0], After(s, schedule[0]);
      if v != w {
        FinishedInside(t, schedule[1..], end, w, i);
      } else if i > 0 {
        assert t.todo[w][i - 1] == s.todo[w][i];
        FinishedInside(t, schedule[1..], end, w, i - 1);
      } else {
        SameWorkers(t, schedule[1..], end);
      }
    }
  }

  // Whatever the order of the workers' steps and the length of the buffer: a run in which all
  // workers have finished has found room for the bytes that the sequential readers write, and
  // leaves just these.
  lemma ParallelRead(store: Store, ds: Dataset, indices: seq<nat>, counts: seq<nat>, ts: seq<Tagged>,
                     was: seq<byte>, schedule: seq<nat>, end: State)
    requires Datasets.Valid(ds) && Expected(store, ds, indices, counts).Some?
    requires multiset(ts) == multiset(Tag(PlanOf(ds, indices, counts).slices, 0)) && SortedBy(ts, AddrLe)
    requires Reaches(State(was, Programs(store, ds, ChunkBy(ts))), schedule, end)
    requires forall w :: 0 <= w < |end.todo| ==> end.todo[w] == []
    ensures ReadDone(Expected(store, ds, indices, counts), was, end.buffer)
  {
    hide Datasets.Valid, Gather, Reaches, ChunkBy, PlanOf, Tag, SortedBy, Program;
    var slices, s := PlanOf(ds, indices, counts).slices, State(was, Programs(store, ds, ChunkBy(ts)));
    var target := Gather(store, ds, slices).value;
    PlanOfProper(ds, indices, counts);
    if |target| > |was| {
      var w, i := TargetWrite(store, ds, slices, ts, |was|);
      FinishedInside(s, schedule, end, w, i);
    }
    InitialSound(store, ds, slices, ts, was);
    RunSound(target, was, s, schedule, end);
    assert end.buffer[..|target|] == target;
    assert end.buffer == end.buffer[..|target|] + end.buffer[|target|..];
  }
}
