// XDR output: 1- and 2-byte integers widened to 4 bytes, everything big-endian.
module Xdr {
  import opened Options
  import opened Types
  import opened Radix
  import opened Bytes

  function Power(n: nat): (p: nat)
    ensures p > 0
  {
    if n == 0 then 1 else 256 * Power(n - 1)
  }

  function Reverse(w: seq<byte>): (r: seq<byte>)
    ensures |r| == |w|
  {
    seq(|w|, i requires 0 <= i < |w| => w[|w| - 1 - i])
  }

  // The number that the bytes stand for, least significant byte first.
  function FromLE(w: seq<byte>): nat {
    if w == [] then 0 else w[0] + 256 * FromLE(w[1..])
  }

  function ToLE(v: nat, n: nat): (w: seq<byte>)
    ensures |w| == n
  {
    if n == 0 then [] else [v % 256] + ToLE(v / 256, n - 1)
  }

  function FromBE(w: seq<byte>): nat {
    FromLE(Reverse(w))
  }

  function ToBE(v: nat, n: nat): (w: seq<byte>)
    ensures |w| == n
  {
    Reverse(ToLE(v, n))
  }

  lemma ReverseReverse(w: seq<byte>)
    ensures Reverse(Reverse(w)) == w
  {
  }

  lemma {:induction false} FromLEBound(w: seq<byte>)
    ensures FromLE(w) < Power(|w|)
  {
    if w != [] {
      FromLEBound(w[1..]);
    }
  }

  lemma {:induction false} ToFromLE(w: seq<byte>)
    ensures ToLE(FromLE(w), |w|) == w
  {
    if w != [] {
      var v := FromLE(w[1..]);
      ToFromLE(w[1..]);
      DivModUnique(w[0] as nat + 256 * v, 256, v, w[0] as nat);
      assert w == [w[0]] + w[1..];
    }
  }

  lemma {:induction false} FromToLE(v: nat, n: nat)
    requires v < Power(n)
    ensures FromLE(ToLE(v, n)) == v
  {
    if n > 0 {
      FromToLE(v / 256, n - 1);
      assert ToLE(v, n)[1..] == ToLE(v / 256, n - 1);
    }
  }

  lemma DivideTwice(v: nat, p: nat)
    requires p > 0
    ensures v / (256 * p) == v / 256 / p
  {
    var a, r := v / 256, v % 256;
    var b, t := a / p, a % p;
    assert v == a * 256 + r && a == b * p + t;
    assert v == b * (256 * p) + (t * 256 + r);
    DivModUnique(v, 256 * p, b, t * 256 + r);
  }

  // The bytes of a little-endian word are its digits to the base 256, the lowest first.
  lemma {:induction false} LEDigit(w: seq<byte>, i: nat)
    requires i < |w|
    ensures FromLE(w) / Power(i) % 256 == w[i] as nat
  {
    var v := FromLE(w[1..]);
    DivModUnique(w[0] as nat + 256 * v, 256, v, w[0] as nat);
    if i > 0 {
      LEDigit(w[1..], i - 1);
      DivideTwice(FromLE(w), Power(i - 1));
    }
  }

  lemma {:induction false} ToLEDigit(v: nat, n: nat, i: nat)
    requires i < n
    ensures ToLE(v, n)[i] as nat == v / Power(i) % 256
  {
    if i > 0 {
      ToLEDigit(v / 256, n - 1, i - 1);
      DivideTwice(v, Power(i - 1));
    }
  }

  // Reversing the bytes of an n-byte word.
  function SwapBytes(v: nat, n: nat): nat {
    FromLE(Reverse(ToLE(v, n)))
  }

  lemma SwapIsBE(w: seq<byte>)
    ensures SwapBytes(FromLE(w), |w|) == FromBE(w)
  {
    ToFromLE(w);
  }

  lemma SwapStored(v: nat, n: nat)
    ensures ToLE(SwapBytes(v, n), n) == ToBE(v, n)
  {
    ToFromLE(Reverse(ToLE(v, n)));
  }

  // The value of an n-byte two's complement word.
  function Signed(v: nat, n: nat): int
    requires n > 0
  {
    if v < Power(n) / 2 then v else v - Power(n)
  }

  // Two's complement: the value in the range of n-byte integers that the word is congruent to.
  lemma SignedRange(v: nat, n: nat)
    requires 0 < n && v < Power(n)
    ensures 0 - Power(n) <= 2 * Signed(v, n) < Power(n)
    ensures Signed(v, n) == v || Signed(v, n) == v - Power(n)
  {
    assert Power(n) % 2 == 0;
  }

  // The 4-byte word that holds the value of a shorter one: zero- or sign-extended.
  function Extend(signed: bool, v: nat, n: nat): nat
    requires 0 < n <= 2 && v < Power(n)
  {
    assert Power(1) == 256 && Power(2) == 65536 && Power(4) == 0x1_0000_0000;
    if signed && Signed(v, n) < 0 then 0x1_0000_0000 + Signed(v, n) else v
  }

  function InOrder(order: Order, w: seq<byte>): nat {
    if order == BE then FromBE(w) else FromLE(w)
  }

  // How many times longer the output is.
  function XdrFactor(dtype: Datatype): nat
    requires dtype.Custom? || dtype.size > 0
  {
    if dtype.Custom? then 1 else if dtype.size < 4 then 4 / dtype.size else 1
  }

  predicate Widened(dtype: Datatype) {
    (dtype.UInt? || dtype.Int?) && (dtype.size == 1 || dtype.size == 2)
  }

  // One value, from stored to XDR form.
  function XdrWord(dtype: Datatype, order: Order, w: seq<byte>): (r: seq<byte>)
    requires |w| == dtype.size
  {
    if Widened(dtype) then
      FromLEBound(w);
      FromLEBound(Reverse(w));
      ToBE(Extend(dtype.Int?, InOrder(order, w), dtype.size), 4)
    else if order == LE && !dtype.Custom? then Reverse(w)
    else w
  }

  // The data types and byte orders that are converted.
  predicate Supported(dtype: Datatype, order: Order) {
    && order != Unknown
    && match dtype
       case UInt(n) => n in {1, 2, 4, 8}
       case Int(n) => n in {1, 2, 4, 8}
       case Float(n) => n in {4, 8}
       case Custom(n) => n > 0
  }

  lemma SupportedTypes(n: nat, order: Order)
    requires order == BE || order == LE
    ensures n in {1, 2, 4, 8} ==> Supported(UInt(n), order) && Supported(Int(n), order)
    ensures n in {4, 8} ==> Supported(Float(n), order)
    ensures n > 0 ==> Supported(Custom(n), order)
  {
  }

  lemma XdrWordLength(dtype: Datatype, order: Order, w: seq<byte>)
    requires |w| == dtype.size && Supported(dtype, order)
    ensures |XdrWord(dtype, order, w)| == dtype.size * XdrFactor(dtype)
  {
  }

  // XDR integers, sections 4.1, 4.2 and 4.5 of RFC 4506: reading the output word as a
  // big-endian number of its length gives the value of the input word; for floats, of sections 4.6
  // and 4.7, its bit pattern.
  lemma FromToBE(v: nat, n: nat)
    requires v < Power(n)
    ensures FromBE(ToBE(v, n)) == v
  {
    FromToLE(v, n);
    ReverseReverse(ToLE(v, n));
  }

  lemma WordBound(order: Order, w: seq<byte>)
    ensures InOrder(order, w) < Power(|w|)
  {
    FromLEBound(w);
    FromLEBound(Reverse(w));
  }

  lemma Powers()
    ensures Power(1) == 256 && Power(2) == 65536 && Power(4) == 0x1_0000_0000
  {
  }

  // The value of a word that is not widened.
  lemma KeptWord(dtype: Datatype, order: Order, w: seq<byte>)
    requires |w| == dtype.size && order != Unknown && !Widened(dtype) && !dtype.Custom?
    ensures |XdrWord(dtype, order, w)| == |w| && FromBE(XdrWord(dtype, order, w)) == InOrder(order, w)
  {
    hide FromLE;
    ReverseReverse(w);
  }

  lemma XdrUnsigned(dtype: Datatype, order: Order, w: seq<byte>)
    requires |w| == dtype.size && Supported(dtype, order) && (dtype.UInt? || dtype.Float?)
    ensures FromBE(XdrWord(dtype, order, w)) == InOrder(order, w)
  {
    hide FromLE, ToLE, FromBE, ToBE, Reverse, InOrder, Power;
    Powers();
    WordBound(order, w);
    if Widened(dtype) {
      FromToBE(InOrder(order, w), 4);
    } else {
      hide XdrWord;
      KeptWord(dtype, order, w);
    }
  }

  lemma ExtendSigned(v: nat, n: nat)
    requires 0 < n <= 2 && v < Power(n)
    ensures Extend(true, v, n) < Power(4) && Signed(Extend(true, v, n), 4) == Signed(v, n)
  {
    Powers();
    hide Power;
  }

  lemma XdrSigned(dtype: Datatype, order: Order, w: seq<byte>)
    requires |w| == dtype.size && Supported(dtype, order) && dtype.Int?
    ensures Signed(FromBE(XdrWord(dtype, order, w)), dtype.size * XdrFactor(dtype)) ==
            Signed(InOrder(order, w), dtype.size)
  {
    hide FromLE, ToLE, FromBE, ToBE, Reverse, InOrder, Power, Extend, Signed;
    WordBound(order, w);
    if Widened(dtype) {
      ExtendSigned(InOrder(order, w), dtype.size);
      FromToBE(Extend(true, InOrder(order, w), dtype.size), 4);
    } else {
      hide XdrWord;
      KeptWord(dtype, order, w);
    }
  }

  // n bytes make up whole words of w bytes.
  predicate Aligned(n: nat, w: nat) {
    w > 0 && n % w == 0
  }

  lemma MultipleRem(q: nat, w: nat)
    requires w > 0
    ensures Aligned(q * w, w)
  {
    DivModUnique(q * w, w, q, 0);
  }

  lemma FirstWord(n: nat, w: nat)
    requires Aligned(n, w) && n > 0
    ensures n >= w && Aligned(n - w, w)
  {
    var q := n / w;
    assert n == q * w;
    if q > 0 {
      assert n - w == (q - 1) * w;
      MultipleRem(q - 1, w);
    }
  }

  // Every value of a buffer, one after the other.
  function XdrWords(dtype: Datatype, order: Order, src: seq<byte>): seq<byte>
    requires Aligned(|src|, dtype.size)
  {
    if src == [] then [] else
      FirstWord(|src|, dtype.size);
      XdrWord(dtype, order, src[..dtype.size]) + XdrWords(dtype, order, src[dtype.size..])
  }

  function XdrBytes(dtype: Datatype, order: Order, src: seq<byte>): Option<seq<byte>>
    requires dtype.size > 0
  {
    if dtype.Custom? then Some(src)
    else if Widened(dtype) then
      if |src| % dtype.size != 0 || (order == Unknown && src != []) then None else Some(XdrWords(dtype, order, src))
    else if order != LE || dtype.size == 1 then Some(src)
    else if dtype.size in {2, 4, 8} && |src| % dtype.size == 0 then Some(XdrWords(dtype, order, src))
    else None
  }

  lemma WordEnd(k: nat, w: nat, n: nat)
    requires Aligned(n, w) && k < n / w
    ensures k * w + w == (k + 1) * w <= n && n == n / w * w
  {
    MulOrder(k + 1, n / w, w);
  }

  lemma AlignedSum(i: nat, j: nat, n: nat)
    requires Aligned(i, n) && Aligned(j, n)
    ensures Aligned(i + j, n)
  {
    var a, b := i / n, j / n;
    assert i == a * n && j == b * n;
    assert i + j == (a + b) * n;
    MultipleRem(a + b, n);
  }

  lemma {:induction false} XdrPlus(dtype: Datatype, order: Order, a: seq<byte>, b: seq<byte>)
    requires Aligned(|a|, dtype.size) && Aligned(|b|, dtype.size)
    ensures Aligned(|a + b|, dtype.size)
    ensures XdrWords(dtype, order, a + b) == XdrWords(dtype, order, a) + XdrWords(dtype, order, b)
  {
    hide XdrWord;
    var n := dtype.size;
    AlignedSum(|a|, |b|, n);
    if a == [] {
      assert a + b == b;
    } else {
      FirstWord(|a|, n);
      assert (a + b)[..n] == a[..n] && (a + b)[n..] == a[n..] + b;
      XdrPlus(dtype, order, a[n..], b);
    }
  }

  lemma XdrWordsSnoc(dtype: Datatype, order: Order, src: seq<byte>, w: seq<byte>)
    requires Aligned(|src|, dtype.size) && |w| == dtype.size
    ensures Aligned(|src + w|, dtype.size)
    ensures XdrWords(dtype, order, src + w) == XdrWords(dtype, order, src) + XdrWord(dtype, order, w)
  {
    hide XdrWord;
    assert Aligned(|w|, dtype.size) by { MultipleRem(1, dtype.size); }
    XdrPlus(dtype, order, src, w);
    assert w[..dtype.size] == w && w[dtype.size..] == [];
  }

  // The word as the widening loop makes it: load, swap to native order, extend, swap, store.
  lemma CastWord(dtype: Datatype, order: Order, w: seq<byte>)
    requires Widened(dtype) && |w| == dtype.size && order != Unknown
    ensures var u := if order == BE then SwapBytes(FromLE(w), dtype.size) else FromLE(w);
            u < Power(dtype.size) && ToLE(SwapBytes(Extend(dtype.Int?, u, dtype.size), 4), 4) ==
              XdrWord(dtype, order, w)
  {
    FromLEBound(w);
    FromLEBound(Reverse(w));
    SwapIsBE(w);
    SwapStored(Extend(dtype.Int?, InOrder(order, w), dtype.size), 4);
  }

  lemma NoWords(dtype: Datatype, order: Order)
    requires dtype.size > 0
    ensures XdrWords(dtype, order, []) == []
  {
  }

  method XdrCastSlice(src: seq<byte>, dtype: Datatype, order: Order) returns (r: Option<seq<byte>>)
    requires Widened(dtype)
    ensures r == XdrBytes(dtype, order, src)
  {
    hide XdrWords, XdrWord, Extend, SwapBytes, ToLE, FromLE;
    var w := dtype.size;
    if |src| % w != 0 {
      return None;
    }
    var n := |src| / w;
    var out := new byte[n * 4](_ => 0);
    NoWords(dtype, order);
    assert src[..0] == [] && out[..0] == [];
    for k := 0 to n
      invariant k > 0 ==> order != Unknown
      invariant k * w <= |src| && (k * w) % w == 0
      invariant out[..k * 4] == XdrWords(dtype, order, src[..k * w])
    {
      if order == Unknown {
        return None;
      }
      WordEnd(k, w, |src|);
      MultipleRem(k + 1, w);
      var word := src[k * w..k * w + w];
      CastWord(dtype, order, word);
      var u := FromLE(word);
      if order == BE {
        u := SwapBytes(u, w);
      }
      var d := SwapBytes(Extend(dtype.Int?, u, w), 4);
      ghost var was := out[..];
      CopyTo(out, k * 4, ToLE(d, 4));
      XdrWordsSnoc(dtype, order, src[..k * w], word);
      assert src[..(k + 1) * w] == src[..k * w] + word;
      assert out[..(k + 1) * 4] == was[..k * 4] + ToLE(d, 4);
    }
    assert |src| == n * w && src[..n * w] == src && out[..n * 4] == out[..];
    return Some(out[..]);
  }

  lemma AlignedDifference(i: nat, j: nat, n: nat)
    requires Aligned(i, n) && Aligned(j, n) && i <= j
    ensures Aligned(j - i, n)
  {
    var a, b := i / n, j / n;
    assert i == a * n && j == b * n;
    MulOrder(b + 1, a, n);
    assert j - i == (b - a) * n;
    MultipleRem(b - a, n);
  }

  lemma WordFits(i: nat, n: nat, w: nat)
    requires Aligned(i, w) && Aligned(n, w) && i < n
    ensures i + w <= n
  {
    AlignedDifference(i, n, w);
    FirstWord(n - i, w);
  }

  lemma SwapWord(dtype: Datatype, w: seq<byte>)
    requires |w| == dtype.size && !dtype.Custom? && !Widened(dtype)
    ensures ToLE(SwapBytes(FromLE(w), dtype.size), dtype.size) == XdrWord(dtype, LE, w)
  {
    SwapStored(FromLE(w), dtype.size);
    ToFromLE(w);
  }

  method SwapAt(buf: array<byte>, at: nat, dtype: Datatype)
    requires dtype.size > 0 && at + dtype.size <= buf.Length && !dtype.Custom? && !Widened(dtype)
    modifies buf
    ensures buf[..at + dtype.size] == old(buf[..at]) + XdrWord(dtype, LE, old(buf[at..])[..dtype.size])
    ensures buf[at + dtype.size..] == old(buf[at..])[dtype.size..]
  {
    hide XdrWord, SwapBytes, ToLE, FromLE, Widened;
    var w := dtype.size;
    var word := buf[at..][..w];
    SwapWord(dtype, word);
    CopyTo(buf, at, ToLE(SwapBytes(FromLE(word), w), w));
  }

  // The bytes up to the word after the one at i.
  lemma NextWord(dtype: Datatype, src: seq<byte>, i: nat)
    requires Aligned(i, dtype.size) && i + dtype.size <= |src|
    ensures Aligned(i + dtype.size, dtype.size)
    ensures XdrWords(dtype, LE, src[..i + dtype.size]) ==
            XdrWords(dtype, LE, src[..i]) + XdrWord(dtype, LE, src[i..][..dtype.size])
    ensures src[i + dtype.size..] == src[i..][dtype.size..]
  {
    hide XdrWords, XdrWord;
    XdrWordsSnoc(dtype, LE, src[..i], src[i..][..dtype.size]);
    assert src[..i + dtype.size] == src[..i] + src[i..][..dtype.size];
  }

  // Swapping the bytes of every word of a buffer in place.
  method SwapWords(buf: array<byte>, dtype: Datatype)
    requires dtype.size > 0 && buf.Length % dtype.size == 0 && !dtype.Custom? && !Widened(dtype)
    modifies buf
    ensures buf[..] == XdrWords(dtype, LE, old(buf[..]))
  {
    hide XdrWords, XdrWord, SwapBytes, ToLE, FromLE, Widened;
    ghost var src := buf[..];
    var at := 0;
    NoWords(dtype, LE);
    assert src[..0] == [] && buf[..0] == [];
    while at < buf.Length
      invariant at <= buf.Length && Aligned(at, dtype.size)
      invariant buf[..at] == XdrWords(dtype, LE, src[..at]) && buf[at..] == src[at..]
    {
      WordFits(at, buf.Length, dtype.size);
      SwapAt(buf, at, dtype);
      NextWord(dtype, src, at);
      at := at + dtype.size;
    }
    assert src[..at] == src && buf[..at] == buf[..];
  }

  // False if the length is not a multiple of the word size, or there is no swap for the size.
  method ToBigESized(buf: array<byte>, order: Order, dtype: Datatype) returns (ok: bool)
    requires dtype.size > 0 && !dtype.Custom? && !Widened(dtype)
    modifies buf
    ensures ok <==> XdrBytes(dtype, order, old(buf[..])).Some?
    ensures buf[..] == if ok then XdrBytes(dtype, order, old(buf[..])).value else old(buf[..])
  {
    hide XdrWords;
    var w := dtype.size;
    if order != LE || w == 1 {
      return true;
    }
    if w !in {2, 4, 8} || buf.Length % w != 0 {
      return false;
    }
    SwapWords(buf, dtype);
    return true;
  }

  method Xdr(src: array<byte>, dtype: Datatype, order: Order) returns (r: Option<seq<byte>>)
    requires dtype.size > 0
    modifies src
    ensures r == XdrBytes(dtype, order, old(src[..]))
  {
    hide XdrWords;
    if dtype.Custom? {
      return Some(src[..]);
    }
    if Widened(dtype) {
      r := XdrCastSlice(src[..], dtype, order);
    } else {
      var ok := ToBigESized(src, order, dtype);
      r := if ok then Some(src[..]) else None;
    }
  }

  lemma SplitProduct(a: nat, b: nat, x: nat)
    ensures (a + b) * x == a * x + b * x
  {
  }

  lemma {:induction false} XdrLength(dtype: Datatype, order: Order, src: seq<byte>)
    requires Supported(dtype, order) && Aligned(|src|, dtype.size)
    ensures |XdrWords(dtype, order, src)| == |src| * XdrFactor(dtype)
  {
    hide XdrWord, XdrFactor, Supported;
    if src != [] {
      var n, x := dtype.size, XdrFactor(dtype);
      FirstWord(|src|, n);
      XdrWordLength(dtype, order, src[..n]);
      XdrLength(dtype, order, src[n..]);
      SplitProduct(n, |src| - n, x);
    }
  }

  lemma {:induction false} WordsKept(dtype: Datatype, order: Order, src: seq<byte>)
    requires Aligned(|src|, dtype.size) && !Widened(dtype) && (dtype.Custom? || order == BE || dtype.size == 1)
    ensures XdrWords(dtype, order, src) == src
  {
    if src != [] {
      FirstWord(|src|, dtype.size);
      WordsKept(dtype, order, src[dtype.size..]);
      assert XdrWord(dtype, order, src[..dtype.size]) == src[..dtype.size];
    }
  }

  // On supported types the conversion is word by word; bytes that need no change stay.
  lemma {:induction false} XdrIsWords(dtype: Datatype, order: Order, src: seq<byte>)
    requires Supported(dtype, order) && Aligned(|src|, dtype.size)
    ensures XdrBytes(dtype, order, src) == Some(XdrWords(dtype, order, src))
  {
    if !Widened(dtype) && (dtype.Custom? || order == BE || dtype.size == 1) {
      WordsKept(dtype, order, src);
    }
  }

  // Converting commutes with cutting at word boundaries.
  lemma XdrMiddle(dtype: Datatype, order: Order, a: seq<byte>, b: seq<byte>, c: seq<byte>)
    requires Supported(dtype, order)
    requires Aligned(|a|, dtype.size) && Aligned(|b|, dtype.size) && Aligned(|c|, dtype.size)
    ensures Aligned(|a + b + c|, dtype.size)
    ensures var x, w := XdrFactor(dtype), XdrWords(dtype, order, a + b + c);
            |a| * x <= (|a| + |b|) * x <= |w| && w[|a| * x..(|a| + |b|) * x] == XdrWords(dtype, order, b)
  {
    hide XdrWords, XdrFactor;
    XdrPlus(dtype, order, a, b);
    XdrPlus(dtype, order, a + b, c);
    XdrLength(dtype, order, a);
    XdrLength(dtype, order, b);
    SplitProduct(|a|, |b|, XdrFactor(dtype));
    Middle(XdrWords(dtype, order, a), XdrWords(dtype, order, b), XdrWords(dtype, order, c));
  }
}
