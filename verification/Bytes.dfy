// Bytes and byte buffers.
module Bytes {
  type byte = b: nat | b < 256

  // src written over dst from pos on.
  method CopyTo(dst: array<byte>, pos: nat, src: seq<byte>)
    requires pos + |src| <= dst.Length
    modifies dst
    ensures dst[..] == old(dst[..])[..pos] + src + old(dst[..])[pos + |src|..]
  {
    forall i | 0 <= i < |src| {
      dst[pos + i] := src[i];
    }
  }

  lemma Middle(x: seq<byte>, y: seq<byte>, z: seq<byte>)
    ensures (x + y + z)[|x|..|x| + |y|] == y
  {
  }
}
