// The chunk table as words and bytes: address, size and offset of each chunk in turn.
module ChunkTable {
  import opened Radix
  import opened Slicing
  import opened Chunks
  import opened Bytes
  import opened Options
  import opened Xdr

  function AsU64s(c: Chunk): seq<nat> {
    [c.addr, c.size] + c.offset
  }

  function FromU64s(ws: seq<nat>): Chunk
    requires |ws| >= 2
  {
    Chunk(ws[0], ws[1], ws[2..])
  }

  function SliceAsU64s(chunks: seq<Chunk>): seq<nat> {
    if chunks == [] then [] else AsU64s(chunks[0]) + SliceAsU64s(chunks[1..])
  }

  // Chunks of d dimensions; None if the words do not make up whole chunks.
  function SliceFromU64s(ws: seq<nat>, d: nat): Option<seq<Chunk>>
    decreases |ws|
  {
    if ws == [] then Some([])
    else if |ws| < d + 2 then None
    else
      var rest := SliceFromU64s(ws[d + 2..], d);
      if rest.None? then None else Some([FromU64s(ws[..d + 2])] + rest.value)
  }

  // Little-endian words of 8 bytes.
  function ToBytes(ws: seq<nat>): (b: seq<byte>)
    ensures |b| == 8 * |ws|
  {
    if ws == [] then [] else ToLE(ws[0], 8) + ToBytes(ws[1..])
  }

  function FromBytes(b: seq<byte>): Option<seq<nat>>
    decreases |b|
  {
    if b == [] then Some([])
    else if |b| < 8 then None
    else
      var rest := FromBytes(b[8..]);
      if rest.None? then None else Some([FromLE(b[..8])] + rest.value)
  }

  // The words from at on are the address, size and offset of the chunk c.
  ghost predicate Stands(ws: seq<nat>, at: nat, c: Chunk) {
    && at + 2 + |c.offset| <= |ws| && ws[at] == c.addr && ws[at + 1] == c.size
    && forall k :: 0 <= k < |c.offset| ==> ws[at + 2 + k] == c.offset[k]
  }

  lemma StandsAfter(x: seq<nat>, ws: seq<nat>, at: nat, c: Chunk)
    requires Stands(ws, at, c)
    ensures Stands(x + ws, |x| + at, c)
  {
    forall k | 0 <= k < |c.offset| ensures (x + ws)[|x| + at + 2 + k] == c.offset[k] {
      assert (x + ws)[|x| + (at + 2 + k)] == ws[at + 2 + k];
    }
  }

  lemma SliceCons(chunks: seq<Chunk>)
    requires chunks != []
    ensures SliceAsU64s(chunks) == AsU64s(chunks[0]) + SliceAsU64s(chunks[1..])
  {
  }

  lemma NextRow(i: nat, n: nat)
    requires i > 0
    ensures i * n == n + (i - 1) * n
  {
  }

  lemma {:induction false} TableStands(chunks: seq<Chunk>, d: nat, i: nat)
    requires i < |chunks| && forall c :: c in chunks ==> |c.offset| == d
    ensures Stands(SliceAsU64s(chunks), i * (d + 2), chunks[i])
  {
    hide SliceAsU64s;
    assert chunks[0] in chunks && forall e :: e in chunks[1..] ==> e in chunks;
    SliceCons(chunks);
    if i > 0 {
      hide Stands;
      TableStands(chunks[1..], d, i - 1);
      StandsAfter(AsU64s(chunks[0]), SliceAsU64s(chunks[1..]), (i - 1) * (d + 2), chunks[i]);
      NextRow(i, d + 2);
    }
  }

  // Where the fields of chunk i stand in the table: its address, its size, then its offset.
  lemma TableLayout(chunks: seq<Chunk>, d: nat, i: nat)
    requires i < |chunks| && forall c :: c in chunks ==> |c.offset| == d
    ensures var ws, at := SliceAsU64s(chunks), i * (d + 2);
            && at + d + 2 <= |ws|
            && ws[at] == chunks[i].addr && ws[at + 1] == chunks[i].size
            && forall k :: 0 <= k < d ==> ws[at + 2 + k] == chunks[i].offset[k]
  {
    hide SliceAsU64s;
    TableStands(chunks, d, i);
  }

  lemma {:induction false} ReadStands(ws: seq<nat>, d: nat, i: nat)
    requires SliceFromU64s(ws, d).Some? && i < |SliceFromU64s(ws, d).value|
    ensures Stands(ws, i * (d + 2), SliceFromU64s(ws, d).value[i]) && |SliceFromU64s(ws, d).value[i].offset| == d
    decreases |ws|
  {
    var n, c := d + 2, SliceFromU64s(ws, d).value[i];
    if i > 0 {
      hide Stands;
      assert c == SliceFromU64s(ws[n..], d).value[i - 1];
      ReadStands(ws[n..], d, i - 1);
      StandsAfter(ws[..n], ws[n..], (i - 1) * n, c);
      assert ws == ws[..n] + ws[n..];
      NextRow(i, n);
    }
  }

  // What is read of words: chunk i from the words at i * (d + 2), address first, then size and offset.
  lemma TableRead(ws: seq<nat>, d: nat, i: nat)
    requires SliceFromU64s(ws, d).Some? && i < |SliceFromU64s(ws, d).value|
    ensures var c, at := SliceFromU64s(ws, d).value[i], i * (d + 2);
            && at + d + 2 <= |ws| && |c.offset| == d
            && c.addr == ws[at] && c.size == ws[at + 1] && forall k :: 0 <= k < d ==> c.offset[k] == ws[at + 2 + k]
  {
    hide SliceFromU64s;
    ReadStands(ws, d, i);
  }

  lemma {:induction false} WordPlace(ws: seq<nat>, i: nat)
    requires i < |ws|
    ensures ToBytes(ws)[8 * i..8 * i + 8] == ToLE(ws[i], 8)
  {
    var rest := ToBytes(ws[1..]);
    if i > 0 {
      WordPlace(ws[1..], i - 1);
      assert ToBytes(ws)[8 * i..8 * i + 8] == rest[8 * (i - 1)..8 * (i - 1) + 8];
    } else {
      assert ToBytes(ws)[0..8] == ToLE(ws[0], 8);
    }
  }

  // Word i stands in the bytes 8 * i .. 8 * i + 8, lowest byte first.
  lemma {:induction false} WordBytes(ws: seq<nat>, i: nat)
    requires i < |ws|
    ensures ToBytes(ws)[8 * i..8 * i + 8] == ToLE(ws[i], 8)
    ensures forall j :: 0 <= j < 8 ==> ToBytes(ws)[8 * i + j] as nat == ws[i] / Power(j) % 256
  {
    WordPlace(ws, i);
    forall j | 0 <= j < 8 ensures ToBytes(ws)[8 * i + j] as nat == ws[i] / Power(j) % 256 {
      assert ToBytes(ws)[8 * i + j] == ToBytes(ws)[8 * i..8 * i + 8][j];
      ToLEDigit(ws[i], 8, j);
    }
  }

  lemma WordSize()
    ensures Power(8) == U64
  {
    assert Power(2) == 65536;
    assert Power(4) == 0x1_0000_0000;
    assert Power(6) == 0x1_0000_0000_0000;
  }

  lemma {:induction false} WordReadPlace(b: seq<byte>, i: nat)
    requires FromBytes(b).Some? && i < |FromBytes(b).value|
    ensures 8 * i + 8 <= |b| && FromBytes(b).value[i] == FromLE(b[8 * i..8 * i + 8])
    decreases |b|
  {
    hide FromLE;
    if i > 0 {
      WordReadPlace(b[8..], i - 1);
      assert b[8..][8 * (i - 1)..8 * (i - 1) + 8] == b[8 * i..8 * i + 8];
    }
  }

  // What is read of bytes: word i is the number that has the bytes 8 * i .. 8 * i + 8 as its digits.
  lemma WordRead(b: seq<byte>, i: nat)
    requires FromBytes(b).Some? && i < |FromBytes(b).value|
    ensures 8 * i + 8 <= |b| && FromBytes(b).value[i] < U64
    ensures forall j :: 0 <= j < 8 ==> FromBytes(b).value[i] / Power(j) % 256 == b[8 * i + j] as nat
  {
    hide FromBytes, FromLE, Power;
    WordReadPlace(b, i);
    var w := b[8 * i..8 * i + 8];
    WordSize();
    FromLEBound(w);
    forall j | 0 <= j < 8 ensures FromLE(w) / Power(j) % 256 == b[8 * i + j] as nat {
      LEDigit(w, j);
    }
  }

  // Every field of every chunk is recovered.
  lemma {:induction false} ChunksSurvive(chunks: seq<Chunk>, d: nat)
    requires forall c :: c in chunks ==> |c.offset| == d
    ensures SliceFromU64s(SliceAsU64s(chunks), d) == Some(chunks)
  {
    if chunks != [] {
      var c, ws := chunks[0], SliceAsU64s(chunks[1..]);
      assert c in chunks;
      assert (AsU64s(c) + ws)[..d + 2] == AsU64s(c) && (AsU64s(c) + ws)[d + 2..] == ws;
      ChunksSurvive(chunks[1..], d);
      assert AsU64s(c)[2..] == c.offset && chunks == [c] + chunks[1..];
    }
  }

  // Chunks made of words flatten to these words, for any number of words that is a multiple of d + 2.
  lemma {:induction false} WordsSurvive(ws: seq<nat>, d: nat)
    ensures SliceFromU64s(ws, d).Some? <==> |ws| % (d + 2) == 0
    ensures SliceFromU64s(ws, d).Some? ==>
              SliceAsU64s(SliceFromU64s(ws, d).value) == ws && |SliceFromU64s(ws, d).value| == |ws| / (d + 2)
    decreases |ws|
  {
    var n := d + 2;
    if ws == [] {
      DivModUnique(0, n, 0, 0);
    } else if |ws| < n {
      DivModUnique(|ws|, n, 0, |ws|);
    } else {
      WordsSurvive(ws[n..], d);
      var q, r := (|ws| - n) / n, (|ws| - n) % n;
      assert |ws| == (q + 1) * n + r;
      DivModUnique(|ws|, n, q + 1, r);
      var rest := SliceFromU64s(ws[n..], d);
      if rest.Some? {
        var cs := SliceFromU64s(ws, d).value;
        assert cs[1..] == rest.value && AsU64s(cs[0]) == ws[..n];
      }
    }
  }

  lemma {:induction false} BytesSurvive(ws: seq<nat>)
    requires forall w :: w in ws ==> w < U64
    ensures FromBytes(ToBytes(ws)) == Some(ws)
  {
    if ws != [] {
      WordSize();
      assert ws[0] in ws && ws == [ws[0]] + ws[1..];
      FromToLE(ws[0], 8);
      assert forall w :: w in ws[1..] ==> w in ws;
      BytesSurvive(ws[1..]);
      assert ToBytes(ws)[..8] == ToLE(ws[0], 8) && ToBytes(ws)[8..] == ToBytes(ws[1..]);
    }
  }

  lemma {:induction false} BytesReread(b: seq<byte>)
    ensures FromBytes(b).Some? <==> |b| % 8 == 0
    ensures FromBytes(b).Some? ==> ToBytes(FromBytes(b).value) == b
    decreases |b|
  {
    if |b| >= 8 {
      BytesReread(b[8..]);
      ToFromLE(b[..8]);
      if FromBytes(b).Some? {
        assert FromBytes(b).value[1..] == FromBytes(b[8..]).value;
      }
    }
  }

  lemma {:induction false} WordsFit(chunks: seq<Chunk>, d: nat)
    requires forall c :: c in chunks ==> |c.offset| == d && c.addr < U64 && c.size < U64 && forall k :: 0 <= k < d ==>
             c.offset[k] < U64
    ensures forall w :: w in SliceAsU64s(chunks) ==> w < U64
  {
    if chunks != [] {
      assert chunks[0] in chunks && forall c :: c in chunks[1..] ==> c in chunks;
      WordsFit(chunks[1..], d);
    }
  }

  // A table written to bytes and read back.
  lemma TableSurvives(chunks: seq<Chunk>, d: nat)
    requires forall c :: c in chunks ==> |c.offset| == d && c.addr < U64 && c.size < U64 && forall k :: 0 <= k < d ==>
             c.offset[k] < U64
    ensures var ws := FromBytes(ToBytes(SliceAsU64s(chunks)));
            ws.Some? && SliceFromU64s(ws.value, d) == Some(chunks)
  {
    WordsFit(chunks, d);
    BytesSurvive(SliceAsU64s(chunks));
    ChunksSurvive(chunks, d);
  }
}
