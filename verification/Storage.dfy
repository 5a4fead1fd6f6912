// Chunks in the file: reading and decoding them.
module Storage {
  import opened Radix
  import opened Options
  import opened Bytes
  import opened Shuffle

  // The file's bytes, and the decompressor: None where the input is not a zlib stream.
  datatype Store = Store(file: seq<byte>, inflate: seq<byte> -> Option<seq<byte>>)

  // How the chunks of a dataset are stored: decoded size in bytes, size of a value, filters.
  datatype Layout = Layout(chunkSz: nat, dsz: nat, gzip: bool, shuffle: bool)

  // Decompression into a zeroed buffer of the given size; a longer output is an error.
  function Decompress(inflate: seq<byte> -> Option<seq<byte>>, chunk: seq<byte>, size: nat): (r: Option<seq<byte>>)
    ensures r.Some? <==> inflate(chunk).Some? && |inflate(chunk).value| <= size
    ensures r.Some? ==> |r.value| == size && inflate(chunk).value <= r.value
                        && forall i :: |inflate(chunk).value| <= i < size ==> r.value[i] == 0
  {
    match inflate(chunk)
    case None => None
    case Some(out) => if |out| > size then None else Some(out + seq(size - |out|, _ => 0 as byte))
  }

  function Decode(inflate: seq<byte> -> Option<seq<byte>>, chunk: seq<byte>, l: Layout): Option<seq<byte>> {
    var cache := if l.gzip then Decompress(inflate, chunk, l.chunkSz) else Some(chunk);
    if cache.None? then None
    else if l.shuffle && l.dsz > 1 then UnshuffledSized(cache.value, l.dsz)
    else cache
  }

  method DecodeChunk(inflate: seq<byte> -> Option<seq<byte>>, chunk: seq<byte>,
                     l: Layout) returns (r: Option<seq<byte>>)
    ensures r == Decode(inflate, chunk, l)
  {
    var cache := chunk;
    if l.gzip {
      var out := Decompress(inflate, chunk, l.chunkSz);
      if out.None? {
        return None;
      }
      cache := out.value;
    }
    if l.shuffle && l.dsz > 1 {
      var src := new byte[|cache|](i requires 0 <= i < |cache| => cache[i]);
      assert src[..] == cache;
      r := UnshuffleSized(src, l.dsz);
    } else {
      r := Some(cache);
    }
  }

  // The decoded bytes of the chunk of the given stored size at addr; None if the file ends before.
  function ReadChunk(s: Store, addr: nat, size: nat, l: Layout): Option<seq<byte>> {
    if addr + size > |s.file| then None else Decode(s.inflate, s.file[addr..addr + size], l)
  }

  // The size of what is read: a compressed chunk has the size of the layout, another its size in the file.
  lemma ReadSize(s: Store, addr: nat, size: nat, l: Layout)
    ensures var r := ReadChunk(s, addr, size, l); r.Some? ==> |r.value| == if l.gzip then l.chunkSz else size
  {
    if addr + size <= |s.file| {
      assert |s.file[addr..addr + size]| == size;
    }
  }

  method ReadChunkAt(s: Store, addr: nat, size: nat, l: Layout) returns (r: Option<seq<byte>>)
    ensures r == ReadChunk(s, addr, size, l)
    ensures r.Some? ==> addr + size <= |s.file| && |r.value| == if l.gzip then l.chunkSz else size
  {
    ReadSize(s, addr, size, l);
    if addr + size > |s.file| {
      return None;
    }
    r := DecodeChunk(s.inflate, s.file[addr..addr + size], l);
  }

  // The storage pipeline: shuffle, then deflate.
  function Encode(deflate: seq<byte> -> seq<byte>, content: seq<byte>, l: Layout): seq<byte>
    requires l.shuffle && l.dsz > 1 ==> |content| % l.dsz == 0
  {
    var s := if l.shuffle && l.dsz > 1 then Shuffled(content, l.dsz) else content;
    if l.gzip then deflate(s) else s
  }

  // Decoding inverts the pipeline, for both filters on or off, if inflate inverts deflate on this chunk.
  lemma DecodeEncode(inflate: seq<byte> -> Option<seq<byte>>, deflate: seq<byte> -> seq<byte>, content: seq<byte>,
                     l: Layout)
    requires |content| == l.chunkSz
    requires l.shuffle && l.dsz > 1 ==> l.dsz in {2, 4, 8} && |content| % l.dsz == 0
    requires forall s: seq<byte> :: |s| == l.chunkSz ==> inflate(deflate(s)) == Some(s)
    ensures Decode(inflate, Encode(deflate, content, l), l) == Some(content)
  {
    var s := if l.shuffle && l.dsz > 1 then Shuffled(content, l.dsz) else content;
    if l.shuffle && l.dsz > 1 {
      UnshuffleShuffle(content, l.dsz);
    }
    assert s + seq(0, _ => 0 as byte) == s;
  }

  ghost predicate ShuffledAs(content: seq<byte>, dsz: nat, shuffle: bool, s: seq<byte>) {
    if shuffle && dsz > 1 then Transposed(content, s, |content| / dsz, dsz) else s == content
  }

  // content stored with the given filters, for values of dsz bytes: shuffled, then deflated.
  ghost predicate StoredAs(deflate: seq<byte> -> seq<byte>, content: seq<byte>, dsz: nat, shuffle: bool, gzip: bool,
                           stored: seq<byte>)
  {
    exists s :: ShuffledAs(content, dsz, shuffle, s) && stored == if gzip then deflate(s) else s
  }

  // The pipeline stores so.
  lemma EncodeStores(deflate: seq<byte> -> seq<byte>, content: seq<byte>, l: Layout)
    requires l.shuffle && l.dsz > 1 ==> |content| % l.dsz == 0
    ensures StoredAs(deflate, content, l.dsz, l.shuffle, l.gzip, Encode(deflate, content, l))
  {
    if l.shuffle && l.dsz > 1 {
      ShuffledTransposes(content, l.dsz);
      assert ShuffledAs(content, l.dsz, l.shuffle, Shuffled(content, l.dsz));
    } else {
      assert ShuffledAs(content, l.dsz, l.shuffle, content);
    }
  }

  lemma TransposedSize(s: seq<byte>, d: seq<byte>, sz: nat, wsz: nat)
    requires Transposed(s, d, sz, wsz) && wsz > 0
    ensures |d| == |s| == sz * wsz && |d| % wsz == 0 && |d| / wsz == sz
  {
    DivModUnique(sz * wsz, wsz, sz, 0);
  }

  // What is stored with the filters of the layout decodes to the content.
  lemma DecodeStored(inflate: seq<byte> -> Option<seq<byte>>, deflate: seq<byte> -> seq<byte>, content: seq<byte>,
                     l: Layout, stored: seq<byte>)
    requires StoredAs(deflate, content, l.dsz, l.shuffle, l.gzip, stored) && |content| == l.chunkSz
    requires l.shuffle && l.dsz > 1 ==> l.dsz in {2, 4, 8}
    requires forall s: seq<byte> :: |s| == l.chunkSz ==> inflate(deflate(s)) == Some(s)
    ensures Decode(inflate, stored, l) == Some(content)
  {
    var s :| ShuffledAs(content, l.dsz, l.shuffle, s) && stored == if l.gzip then deflate(s) else s;
    if l.shuffle && l.dsz > 1 {
      hide Unshuffled, Transposed;
      TransposedSize(content, s, |content| / l.dsz, l.dsz);
      UnshuffledTransposes(s, l.dsz);
      OriginalUnique(content, Unshuffled(s, l.dsz), s, |content| / l.dsz, l.dsz);
    }
    assert s + seq(0, _ => 0 as byte) == s;
  }

  // The pipeline inverts decoding too, where there is no compression.
  lemma EncodeDecode(inflate: seq<byte> -> Option<seq<byte>>, deflate: seq<byte> -> seq<byte>, chunk: seq<byte>,
                     l: Layout)
    requires !l.gzip && Decode(inflate, chunk, l).Some?
    ensures var content := Decode(inflate, chunk, l).value;
            (l.shuffle && l.dsz > 1 ==> |content| % l.dsz == 0) && Encode(deflate, content, l) == chunk
  {
    if l.shuffle && l.dsz > 1 {
      UnshuffleShuffle(chunk, l.dsz);
    }
  }

  // The file after bytes have been stored at addr.
  function Patched(file: seq<byte>, addr: nat, bytes: seq<byte>): (r: seq<byte>)
    requires addr + |bytes| <= |file|
    ensures |r| == |file| && r[addr..addr + |bytes|] == bytes
  {
    file[..addr] + bytes + file[addr + |bytes|..]
  }

  lemma Untouched(file: seq<byte>, addr: nat, bytes: seq<byte>, i: nat, n: nat)
    requires addr + |bytes| <= |file| && i + n <= |file| && (i + n <= addr || addr + |bytes| <= i)
    ensures Patched(file, addr, bytes)[i..i + n] == file[i..i + n]
  {
    var r := Patched(file, addr, bytes);
    var x, y := r[i..i + n], file[i..i + n];
    forall k | 0 <= k < n ensures x[k] == y[k] {
      assert r[i + k] == file[i + k];
    }
  }

  // A chunk stored by the pipeline is read back as it was, and every chunk that does not overlap
  // it in the file is read as before.
  lemma ReadBack(s: Store, deflate: seq<byte> -> seq<byte>, content: seq<byte>, addr: nat, l: Layout, addr': nat,
                 size': nat, l': Layout)
    requires |content| == l.chunkSz
    requires l.shuffle && l.dsz > 1 ==> l.dsz in {2, 4, 8} && |content| % l.dsz == 0
    requires forall x: seq<byte> :: |x| == l.chunkSz ==> s.inflate(deflate(x)) == Some(x)
    requires addr + |Encode(deflate, content, l)| <= |s.file|
    requires addr' + size' <= addr || addr + |Encode(deflate, content, l)| <= addr'
    ensures var x := Encode(deflate, content, l);
            var t := Store(Patched(s.file, addr, x), s.inflate);
            && ReadChunk(t, addr, |x|, l) == Some(content)
            && ReadChunk(t, addr', size', l') == ReadChunk(s, addr', size', l')
  {
    hide Encode, Decode;
    var x := Encode(deflate, content, l);
    var file := Patched(s.file, addr, x);
    DecodeEncode(s.inflate, deflate, content, l);
    if addr' + size' <= |file| {
      Untouched(s.file, addr, x, addr', size');
    }
  }
}
