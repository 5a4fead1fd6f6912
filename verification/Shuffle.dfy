// The shuffle filter: byte i of word j is kept at i * sz + j, for sz words of wsz bytes.
module Shuffle {
  import opened Radix
  import opened Options
  import opened Bytes

  function At(hi: nat, n: nat, lo: nat): nat {
    hi * n + lo
  }

  lemma AtBound(hi: nat, m: nat, n: nat, lo: nat)
    requires hi < m && lo < n
    ensures At(hi, n, lo) < m * n
  {
    assert (hi + 1) * n <= m * n by { MulOrder(hi + 1, m, n); }
    assert (hi + 1) * n == hi * n + n;
  }

  lemma AtInjective(a: nat, i: nat, b: nat, j: nat, n: nat)
    requires i < n && j < n && At(a, n, i) == At(b, n, j)
    ensures a == b && i == j
  {
    if a < b { MulOrder(a + 1, b, n); }
    if b < a { MulOrder(b + 1, a, n); }
  }

  lemma AtOnto(p: nat, m: nat, n: nat) returns (hi: nat, lo: nat)
    requires p < m * n
    ensures hi < m && lo < n && p == At(hi, n, lo) && hi == p / n && lo == p % n
  {
    assert n > 0;
    hi, lo := p / n, p % n;
    if hi >= m { MulOrder(m, hi, n); }
  }

  ghost predicate Moved(s: seq<byte>, d: seq<byte>, sz: nat, wsz: nat, i: nat, j: nat) {
    && At(j, wsz, i) < |s| && At(i, sz, j) < |d| && d[At(i, sz, j)] == s[At(j, wsz, i)]
  }

  // d is s with byte i of word j moved from j * wsz + i to i * sz + j.
  ghost predicate Transposed(s: seq<byte>, d: seq<byte>, sz: nat, wsz: nat) {
    && |s| == |d| == sz * wsz
    && forall i, j :: 0 <= i < wsz && 0 <= j < sz ==> Moved(s, d, sz, wsz, i, j)
  }

  // The shuffled bytes are determined: every byte is placed exactly once.
  lemma TransposedUnique(s: seq<byte>, d: seq<byte>, e: seq<byte>, sz: nat, wsz: nat)
    requires Transposed(s, d, sz, wsz) && Transposed(s, e, sz, wsz)
    ensures d == e
  {
    forall p | 0 <= p < |d| ensures d[p] == e[p] {
      assert p < wsz * sz;
      var i, j := AtOnto(p, wsz, sz);
      assert Moved(s, d, sz, wsz, i, j) && Moved(s, e, sz, wsz, i, j);
    }
  }

  // The original bytes are determined by the shuffled ones.
  lemma OriginalUnique(s: seq<byte>, t: seq<byte>, d: seq<byte>, sz: nat, wsz: nat)
    requires Transposed(s, d, sz, wsz) && Transposed(t, d, sz, wsz)
    ensures s == t
  {
    forall p | 0 <= p < |s| ensures s[p] == t[p] {
      var j, i := AtOnto(p, sz, wsz);
      assert Moved(s, d, sz, wsz, i, j) && Moved(t, d, sz, wsz, i, j);
    }
  }

  method Shuffle(src: array<byte>, wsz: nat, dest: array<byte>)
    requires wsz > 0 && src.Length % wsz == 0 && dest.Length == src.Length && src != dest
    modifies dest
    ensures Transposed(src[..], dest[..], src.Length / wsz, wsz)
  {
    var sz := src.Length / wsz;
    assert src.Length == sz * wsz;
    for i := 0 to wsz
      invariant forall a, b :: 0 <= a < i && 0 <= b < sz ==> Moved(src[..], dest[..], sz, wsz, a, b)
    {
      for j := 0 to sz
        invariant forall a, b :: 0 <= a < i && 0 <= b < sz ==> Moved(src[..], dest[..], sz, wsz, a, b)
        invariant forall b :: 0 <= b < j ==> Moved(src[..], dest[..], sz, wsz, i, b)
      {
        AtBound(i, wsz, sz, j);
        AtBound(j, sz, wsz, i);
        ghost var was := dest[..];
        dest[At(i, sz, j)] := src[At(j, wsz, i)];
        forall a: nat, b: nat | a < wsz && b < sz && (a != i || b != j) && Moved(src[..], was, sz, wsz, a, b)
          ensures Moved(src[..], dest[..], sz, wsz, a, b)
        {
          if At(a, sz, b) == At(i, sz, j) { AtInjective(a, b, i, j, sz); }
        }
      }
    }
  }

  method Unshuffle(src: array<byte>, wsz: nat, dest: array<byte>)
    requires wsz > 0 && dest.Length % wsz == 0 && dest.Length == src.Length && src != dest
    modifies dest
    ensures Transposed(dest[..], src[..], dest.Length / wsz, wsz)
  {
    var sz := dest.Length / wsz;
    assert src.Length == sz * wsz;
    for i := 0 to wsz
      invariant forall a, b :: 0 <= a < i && 0 <= b < sz ==> Moved(dest[..], src[..], sz, wsz, a, b)
    {
      for j := 0 to sz
        invariant forall a, b :: 0 <= a < i && 0 <= b < sz ==> Moved(dest[..], src[..], sz, wsz, a, b)
        invariant forall b :: 0 <= b < j ==> Moved(dest[..], src[..], sz, wsz, i, b)
      {
        AtBound(i, wsz, sz, j);
        AtBound(j, sz, wsz, i);
        ghost var was := dest[..];
        dest[At(j, wsz, i)] := src[At(i, sz, j)];
        forall a: nat, b: nat | a < wsz && b < sz && (a != i || b != j) && Moved(was, src[..], sz, wsz, a, b)
          ensures Moved(dest[..], src[..], sz, wsz, a, b)
        {
          if At(b, wsz, a) == At(j, wsz, i) { AtInjective(b, a, j, i, wsz); }
        }
      }
    }
  }

  // Unshuffling one whole word after the other.
  method UnshuffleStructured(src: array<byte>, n: nat, dest: array<byte>)
    requires n > 0 && src.Length % n == 0 && dest.Length == src.Length && src != dest
    modifies dest
    ensures Transposed(dest[..], src[..], src.Length / n, n)
  {
    var sz := src.Length / n;
    assert src.Length == sz * n;
    for j := 0 to sz
      invariant forall a, b :: 0 <= a < n && 0 <= b < j ==> Moved(dest[..], src[..], sz, n, a, b)
    {
      for i := 0 to n
        invariant forall a, b :: 0 <= a < n && 0 <= b < j ==> Moved(dest[..], src[..], sz, n, a, b)
        invariant forall a :: 0 <= a < i ==> Moved(dest[..], src[..], sz, n, a, j)
      {
        AtBound(i, n, sz, j);
        AtBound(j, sz, n, i);
        ghost var was := dest[..];
        dest[At(j, n, i)] := src[At(i, sz, j)];
        forall a: nat, b: nat | a < n && b < sz && (a != i || b != j) && Moved(was, src[..], sz, n, a, b)
          ensures Moved(dest[..], src[..], sz, n, a, b)
        {
          if At(b, n, a) == At(j, n, i) { AtInjective(b, a, j, i, n); }
        }
      }
    }
  }

  lemma MulComm(m: nat, n: nat)
    ensures m * n == n * m
  {
  }

  lemma PlaceBound(p: nat, m: nat, n: nat)
    requires p < m * n
    ensures n > 0 && At(p % n, m, p / n) < m * n
  {
    var hi, lo := AtOnto(p, m, n);
    AtBound(lo, n, m, hi);
    MulComm(m, n);
  }

  function Shuffled(s: seq<byte>, wsz: nat): (d: seq<byte>)
    requires wsz > 0 && |s| % wsz == 0
  {
    var sz := |s| / wsz;
    seq(|s|, p requires 0 <= p < |s| => PlaceBound(p, wsz, sz); s[At(p % sz, wsz, p / sz)])
  }

  function Unshuffled(d: seq<byte>, wsz: nat): (s: seq<byte>)
    requires wsz > 0 && |d| % wsz == 0
  {
    var sz := |d| / wsz;
    seq(|d|, p requires 0 <= p < |d| => PlaceBound(p, sz, wsz); d[At(p % wsz, sz, p / wsz)])
  }

  lemma AtSplit(hi: nat, n: nat, lo: nat)
    requires lo < n
    ensures At(hi, n, lo) / n == hi && At(hi, n, lo) % n == lo
  {
    var p := At(hi, n, lo);
    assert p == At(p / n, n, p % n);
    AtInjective(hi, lo, p / n, p % n, n);
  }

  lemma ShuffledTransposes(s: seq<byte>, wsz: nat)
    requires wsz > 0 && |s| % wsz == 0
    ensures Transposed(s, Shuffled(s, wsz), |s| / wsz, wsz)
  {
    var sz := |s| / wsz;
    assert |s| == sz * wsz;
    forall i, j | 0 <= i < wsz && 0 <= j < sz ensures Moved(s, Shuffled(s, wsz), sz, wsz, i, j) {
      AtBound(i, wsz, sz, j);
      AtBound(j, sz, wsz, i);
      AtSplit(i, sz, j);
    }
  }

  lemma UnshuffledTransposes(d: seq<byte>, wsz: nat)
    requires wsz > 0 && |d| % wsz == 0
    ensures Transposed(Unshuffled(d, wsz), d, |d| / wsz, wsz)
  {
    var sz := |d| / wsz;
    assert |d| == sz * wsz;
    forall i, j | 0 <= i < wsz && 0 <= j < sz ensures Moved(Unshuffled(d, wsz), d, sz, wsz, i, j) {
      AtBound(i, wsz, sz, j);
      AtBound(j, sz, wsz, i);
      AtSplit(j, wsz, i);
    }
  }

  // Unshuffling undoes shuffling, and the other way around.
  lemma UnshuffleShuffle(s: seq<byte>, wsz: nat)
    requires wsz > 0 && |s| % wsz == 0
    ensures Unshuffled(Shuffled(s, wsz), wsz) == s
    ensures Shuffled(Unshuffled(s, wsz), wsz) == s
  {
    ShuffledTransposes(s, wsz);
    UnshuffledTransposes(Shuffled(s, wsz), wsz);
    OriginalUnique(s, Unshuffled(Shuffled(s, wsz), wsz), Shuffled(s, wsz), |s| / wsz, wsz);
    UnshuffledTransposes(s, wsz);
    ShuffledTransposes(Unshuffled(s, wsz), wsz);
    TransposedUnique(Unshuffled(s, wsz), s, Shuffled(Unshuffled(s, wsz), wsz), |s| / wsz, wsz);
  }

  // The word sizes for which unshuffling is implemented.
  function UnshuffledSized(src: seq<byte>, sz: nat): Option<seq<byte>> {
    if sz in {1, 2, 4, 8} && |src| % sz == 0 then Some(Unshuffled(src, sz)) else None
  }

  lemma WordOne(s: seq<byte>)
    ensures Unshuffled(s, 1) == s
  {
    forall p | 0 <= p < |s| ensures Unshuffled(s, 1)[p] == s[p] {
      AtSplit(p, 1, 0);
    }
  }

  method UnshuffleSized(src: array<byte>, sz: nat) returns (r: Option<seq<byte>>)
    ensures r == UnshuffledSized(src[..], sz)
  {
    if sz !in {1, 2, 4, 8} || src.Length % sz != 0 {
      return None;
    }
    var dest := new byte[src.Length](_ => 0);
    if sz == 1 {
      for i := 0 to src.Length
        invariant dest[..i] == src[..i]
      {
        dest[i] := src[i];
      }
      assert dest[..] == dest[..src.Length] == src[..src.Length] == src[..];
      WordOne(src[..]);
    } else {
      UnshuffleStructured(src, sz, dest);
      UnshuffledTransposes(src[..], sz);
      OriginalUnique(dest[..], Unshuffled(src[..], sz), src[..], src.Length / sz, sz);
    }
    return Some(dest[..]);
  }
}
