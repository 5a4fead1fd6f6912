// A least-recently-used cache of decoded chunks, most recent first.
module Caches {
  import opened Radix
  import opened Slicing
  import opened Options
  import opened Bytes

  const CACHE_SZ: nat := 32 * 1024 * 1024

  datatype Entry = Entry(addr: nat, bytes: seq<byte>)

  function CapacityFor(chunkSz: nat): (n: nat)
    requires chunkSz > 0
    ensures n > 0
  {
    var n := Quot(CACHE_SZ, chunkSz);
    if n > 1 then n else 1
  }

  function Find(cache: seq<Entry>, addr: nat): (r: Option<seq<byte>>)
    ensures r.Some? ==> Entry(addr, r.value) in cache
  {
    if cache == [] then None
    else if cache[0].addr == addr then Some(cache[0].bytes)
    else Find(cache[1..], addr)
  }

  function Without(cache: seq<Entry>, addr: nat): (r: seq<Entry>)
    ensures |r| <= |cache| && forall e :: e in r ==> e in cache && e.addr != addr
  {
    if cache == [] then []
    else if cache[0].addr == addr then Without(cache[1..], addr)
    else [cache[0]] + Without(cache[1..], addr)
  }

  // A hit moves the entry to the front.
  function Touch(cache: seq<Entry>, addr: nat, bytes: seq<byte>): (r: seq<Entry>)
    ensures forall e :: e in r ==> e in cache || e == Entry(addr, bytes)
  {
    [Entry(addr, bytes)] + Without(cache, addr)
  }

  // A new entry goes to the front; the least recently used one makes room.
  function Put(cache: seq<Entry>, capacity: nat, addr: nat, bytes: seq<byte>): (r: seq<Entry>)
    requires capacity > 0
    ensures |r| <= capacity && forall e :: e in r ==> e in cache || e == Entry(addr, bytes)
  {
    var rest := Without(cache, addr);
    [Entry(addr, bytes)] + if |rest| < capacity then rest else rest[..capacity - 1]
  }

  // Reading the chunk at addr, whose bytes are the given ones.
  function Accessed(cache: seq<Entry>, capacity: nat, addr: nat, bytes: seq<byte>): (r: seq<Entry>)
    requires capacity > 0
  {
    if Find(cache, addr).Some? then Touch(cache, addr, Find(cache, addr).value) else Put(cache, capacity, addr, bytes)
  }

  // As many chunks as fit into 32 MiB, but at least one.
  lemma CapacityExact(chunkSz: nat)
    requires chunkSz > 0
    ensures var n := CapacityFor(chunkSz);
            if chunkSz <= 33554432 then n * chunkSz <= 33554432 < (n + 1) * chunkSz else n == 1
  {
    var m := CACHE_SZ;
    assert m == m / chunkSz * chunkSz + m % chunkSz;
    if chunkSz <= m {
    } else {
      DivModUnique(m, chunkSz, 0, m);
    }
  }

  // The place of the last use of a in the history h; -1 if there is none.
  ghost function LastUse(h: seq<nat>, a: nat): (p: int)
    ensures -1 <= p < |h|
  {
    if h == [] then -1 else if h[|h| - 1] == a then |h| - 1 else LastUse(h[..|h| - 1], a)
  }

  lemma LastUseNext(h: seq<nat>, addr: nat, a: nat)
    ensures LastUse(h + [addr], a) == if a == addr then |h| else LastUse(h, a)
  {
    assert (h + [addr])[..|h|] == h;
  }

  ghost predicate Held(cache: seq<Entry>, capacity: nat, h: seq<nat>, a: nat) {
    || (exists i :: 0 <= i < |cache| && cache[i].addr == a)
    || (|cache| == capacity && forall i :: 0 <= i < |cache| ==> LastUse(h, cache[i].addr) > LastUse(h, a))
  }

  // The cache holds the chunks used last in the history h, the latest first; what it does not hold
  // was used before all of them, and it is full.
  ghost predicate Lru(cache: seq<Entry>, capacity: nat, h: seq<nat>) {
    && |cache| <= capacity
    && (forall i :: 0 <= i < |cache| ==> LastUse(h, cache[i].addr) >= 0)
    && (forall i, j :: 0 <= i < j < |cache| ==> LastUse(h, cache[i].addr) > LastUse(h, cache[j].addr))
    && (forall a :: LastUse(h, a) >= 0 ==> Held(cache, capacity, h, a))
  }

  // A new first entry, before entries with other addresses.
  lemma LruCons(rest: seq<Entry>, capacity: nat, h: seq<nat>, e: Entry)
    requires |rest| < capacity
    requires forall i :: 0 <= i < |rest| ==> LastUse(h, rest[i].addr) >= 0 && rest[i].addr != e.addr
    requires forall i, j :: 0 <= i < j < |rest| ==> LastUse(h, rest[i].addr) > LastUse(h, rest[j].addr)
    requires forall a :: LastUse(h, a) >= 0 && a != e.addr ==> Held(rest, capacity - 1, h, a)
    ensures Lru([e] + rest, capacity, h + [e.addr])
  {
    var next, g := [e] + rest, h + [e.addr];
    forall i | 0 <= i < |next|
      ensures LastUse(g, next[i].addr) == if i == 0 then |h| else LastUse(h, rest[i - 1].addr)
    {
      LastUseNext(h, e.addr, next[i].addr);
    }
    forall a | LastUse(g, a) >= 0 ensures Held(next, capacity, g, a) {
      LastUseNext(h, e.addr, a);
      if a == e.addr {
        assert next[0].addr == a;
      } else if i :| 0 <= i < |rest| && rest[i].addr == a {
        assert next[i + 1].addr == a;
      }
    }
  }

  lemma {:induction false} FindAt(cache: seq<Entry>, addr: nat) returns (p: nat)
    requires Find(cache, addr).Some?
    ensures p < |cache| && cache[p] == Entry(addr, Find(cache, addr).value)
  {
    if cache[0].addr == addr {
      p := 0;
    } else {
      var k := FindAt(cache[1..], addr);
      p := k + 1;
    }
  }

  lemma {:induction false} NotFound(cache: seq<Entry>, addr: nat)
    requires forall i :: 0 <= i < |cache| ==> cache[i].addr != addr
    ensures Find(cache, addr).None?
  {
    if cache != [] {
      NotFound(cache[1..], addr);
    }
  }

  lemma {:induction false} WithoutAbsent(cache: seq<Entry>, addr: nat)
    requires Find(cache, addr).None?
    ensures Without(cache, addr) == cache
  {
    if cache != [] {
      WithoutAbsent(cache[1..], addr);
      assert cache == [cache[0]] + cache[1..];
    }
  }

  lemma {:induction false} WithoutAt(cache: seq<Entry>, p: nat)
    requires p < |cache| && forall i :: 0 <= i < |cache| && i != p ==> cache[i].addr != cache[p].addr
    ensures Without(cache, cache[p].addr) == cache[..p] + cache[p + 1..]
  {
    if p > 0 {
      WithoutAt(cache[1..], p - 1);
      assert cache[..p] + cache[p + 1..] == [cache[0]] + (cache[1..][..p - 1] + cache[1..][p..]);
    } else {
      NotFound(cache[1..], cache[0].addr);
      WithoutAbsent(cache[1..], cache[0].addr);
    }
  }

  // The other entries, when the one at p has gone.
  ghost function Rest(cache: seq<Entry>, p: nat): (rest: seq<Entry>)
    requires p < |cache|
    ensures |rest| == |cache| - 1
    ensures forall i :: 0 <= i < |rest| ==> rest[i] == cache[if i < p then i else i + 1]
  {
    cache[..p] + cache[p + 1..]
  }

  lemma WithoutRest(cache: seq<Entry>, p: nat)
    requires p < |cache|
    ensures Rest(cache, p) == cache[..p] + cache[p + 1..]
  {
  }

  lemma RestHeld(cache: seq<Entry>, capacity: nat, h: seq<nat>, p: nat, a: nat)
    requires p < |cache| && capacity > 0 && Held(cache, capacity, h, a) && a != cache[p].addr
    ensures Held(Rest(cache, p), capacity - 1, h, a)
  {
    var rest := Rest(cache, p);
    if i :| 0 <= i < |cache| && cache[i].addr == a {
      assert rest[if i < p then i else i - 1].addr == a;
    }
  }

  lemma LruHit(cache: seq<Entry>, capacity: nat, h: seq<nat>, addr: nat)
    requires capacity > 0 && Lru(cache, capacity, h) && Find(cache, addr).Some?
    ensures Lru(Touch(cache, addr, Find(cache, addr).value), capacity, h + [addr])
  {
    var p := FindAt(cache, addr);
    hide Find, Without, Rest, Held, LastUse;
    forall i | 0 <= i < |cache| && i != p ensures cache[i].addr != addr {
      assert LastUse(h, cache[i].addr) != LastUse(h, cache[p].addr);
    }
    WithoutAt(cache, p);
    WithoutRest(cache, p);
    forall a | LastUse(h, a) >= 0 && a != addr ensures Held(Rest(cache, p), capacity - 1, h, a) {
      RestHeld(cache, capacity, h, p, a);
    }
    LruCons(Rest(cache, p), capacity, h, cache[p]);
  }

  lemma {:induction false} FoundAt(cache: seq<Entry>, i: nat)
    requires i < |cache|
    ensures Find(cache, cache[i].addr).Some?
  {
    if i > 0 && cache[0].addr != cache[i].addr {
      FoundAt(cache[1..], i - 1);
    }
  }

  // The entries that stay when another comes first.
  ghost function Kept(cache: seq<Entry>, capacity: nat): (rest: seq<Entry>)
    requires capacity > 0
    ensures |rest| < capacity && |rest| <= |cache| && forall i :: 0 <= i < |rest| ==> rest[i] == cache[i]
  {
    if |cache| < capacity then cache else cache[..capacity - 1]
  }

  lemma KeptHeld(cache: seq<Entry>, capacity: nat, h: seq<nat>, a: nat)
    requires capacity > 0 && Lru(cache, capacity, h) && LastUse(h, a) >= 0
    ensures Held(Kept(cache, capacity), capacity - 1, h, a)
  {
    hide LastUse;
    assert Held(cache, capacity, h, a);
    var rest := Kept(cache, capacity);
    if i :| 0 <= i < |cache| && cache[i].addr == a {
      if i < |rest| { assert rest[i].addr == a; }
    }
  }

  lemma PutKept(cache: seq<Entry>, capacity: nat, addr: nat, bytes: seq<byte>)
    requires capacity > 0 && Find(cache, addr).None?
    ensures Put(cache, capacity, addr, bytes) == [Entry(addr, bytes)] + Kept(cache, capacity)
  {
    WithoutAbsent(cache, addr);
  }

  lemma LruMiss(cache: seq<Entry>, capacity: nat, h: seq<nat>, addr: nat, bytes: seq<byte>)
    requires capacity > 0 && Lru(cache, capacity, h) && Find(cache, addr).None?
    ensures Lru(Put(cache, capacity, addr, bytes), capacity, h + [addr])
  {
    forall i | 0 <= i < |cache| ensures cache[i].addr != addr {
      FoundAt(cache, i);
    }
    hide Find, Without, Put, Held, LastUse, Kept;
    PutKept(cache, capacity, addr, bytes);
    forall a | LastUse(h, a) >= 0 && a != addr ensures Held(Kept(cache, capacity), capacity - 1, h, a) {
      KeptHeld(cache, capacity, h, a);
    }
    LruCons(Kept(cache, capacity), capacity, h, Entry(addr, bytes));
  }

  // Every access keeps the cache least-recently-used.
  lemma LruStep(cache: seq<Entry>, capacity: nat, h: seq<nat>, addr: nat, bytes: seq<byte>)
    requires capacity > 0 && Lru(cache, capacity, h)
    ensures Lru(Accessed(cache, capacity, addr, bytes), capacity, h + [addr])
  {
    hide Find, Without;
    if Find(cache, addr).Some? {
      LruHit(cache, capacity, h, addr);
    } else {
      LruMiss(cache, capacity, h, addr, bytes);
    }
  }

  lemma {:induction false} WithoutShorter(cache: seq<Entry>, addr: nat)
    requires Find(cache, addr).Some?
    ensures |Without(cache, addr)| < |cache|
  {
    if cache[0].addr != addr {
      WithoutShorter(cache[1..], addr);
    }
  }

  lemma TouchLength(cache: seq<Entry>, addr: nat, bytes: seq<byte>)
    requires Find(cache, addr).Some?
    ensures |Touch(cache, addr, bytes)| <= |cache|
  {
    WithoutShorter(cache, addr);
  }

  ghost function TotalBytes(cache: seq<Entry>): nat {
    if cache == [] then 0 else |cache[0].bytes| + TotalBytes(cache[1..])
  }

  lemma {:induction false} TotalBound(cache: seq<Entry>, sz: nat)
    requires forall e :: e in cache ==> |e.bytes| <= sz
    ensures TotalBytes(cache) <= |cache| * sz
  {
    if cache != [] {
      TotalBound(cache[1..], sz);
      assert cache[0] in cache;
      assert |cache| * sz == sz + (|cache| - 1) * sz;
    }
  }

  lemma QuotTimes(m: nat, c: nat)
    requires c > 0
    ensures Quot(m, c) * c <= m
  {
    assert m == m / c * c + m % c;
  }

  lemma BoundArith(k: nat, n: nat, c: nat, x: nat, m: nat)
    requires n * c <= m && (k <= n || k <= 1)
    ensures k * (x * c) <= x * m || k * (x * c) <= x * c
  {
    if k <= n {
      MulOrder(k, n, x * c);
      MulAssoc(n, x, c);
      MulAssoc(x, n, c);
      MulOrder(n * c, m, x);
    } else {
      MulOrder(k, 1, x * c);
    }
  }

  // A full cache holds no more than 32 MiB, or one chunk if that is larger.
  lemma CapacityBound(cache: seq<Entry>, chunkSz: nat, sz: nat, x: nat)
    requires chunkSz > 0 && sz == x * chunkSz && |cache| <= CapacityFor(chunkSz)
    requires forall e :: e in cache ==> |e.bytes| <= sz
    ensures TotalBytes(cache) <= x * CACHE_SZ || TotalBytes(cache) <= sz
  {
    hide Quot, TotalBytes;
    TotalBound(cache, sz);
    QuotTimes(CACHE_SZ, chunkSz);
    BoundArith(|cache|, Quot(CACHE_SZ, chunkSz), chunkSz, x, CACHE_SZ);
  }
}
