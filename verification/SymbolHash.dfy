/** musl/ldso/dynlink.c: gnu_hash, gnu_lookup and gnu_lookup_filtered, over the words of a GNU hash section. */
module SymbolHash {

  import opened Basics

  // ---------- the hash of a name ----------

  type Char = x: int | 0 < x < 256 witness 1

  function Pow33(n: nat): nat { if n == 0 then 1 else 33 * Pow33(n - 1) }

  // The characters as the digits of a number in base 33.
  function Weigh(s: seq<Char>): nat {
    if s == [] then 0 else Weigh(s[..|s| - 1]) * 33 + s[|s| - 1]
  }

  // The number the hash stands for, before it is cut to 32 bits.
  function FullHash(s: seq<Char>): nat { 5381 * Pow33(|s|) + Weigh(s) }

  function Hash(s: seq<Char>): (h: nat)
    ensures h < U32
  {
    FullHash(s) % U32
  }

  lemma {:induction false} CutLast(x: nat, c: nat)
    ensures (33 * (x % U32) + c) % U32 == (33 * x + c) % U32
  {
    var q, r := x / U32, x % U32;
    assert 33 * x + c == (33 * r + c) + U32 * (33 * q);
    ModOff(33 * r + c, 33 * q);
  }

  lemma {:induction false} ModOff(a: nat, k: nat)
    ensures (a + U32 * k) % U32 == a % U32
  {
  }

  // gnu_hash: every step wraps around at 32 bits, and the result is still the full number cut once at the end.
  method GnuHash(s: seq<Char>) returns (h: nat)
    ensures h == Hash(s)
  {
    hide Pow33, Weigh;
    h := 5381;
    assert FullHash(s[..0]) == 5381 by { EmptyHash(); assert s[..0] == []; }
    var i := 0;
    while i < |s|
      invariant 0 <= i <= |s| && h == Hash(s[..i])
    {
      CutLast(FullHash(s[..i]), s[i]);
      HashSnoc(s[..i], s[i]);
      assert s[..i] + [s[i]] == s[..i + 1];
      h := (h + h * 32 + s[i]) % U32;
      i := i + 1;
    }
    assert s[..i] == s;
  }

  lemma {:induction false} EmptyHash()
    ensures FullHash([]) == 5381
  {
  }

  lemma {:induction false} HashSnoc(s: seq<Char>, c: Char)
    ensures FullHash(s + [c]) == 33 * FullHash(s) + c
  {
    assert (s + [c])[..|s|] == s;
    assert 5381 * (33 * Pow33(|s|)) == 33 * (5381 * Pow33(|s|));
  }

  // The hash of "printf".
  lemma {:induction false} HashOfPrintf()
    ensures Hash([112, 114, 105, 110, 116, 102]) == 0x156b2bb8
  {
    hide FullHash;
    EmptyHash();
    var s: seq<Char> := [112, 114, 105, 110, 116, 102];
    assert s[..0] == [] && s[..6] == s;
    forall i | 0 <= i < 6 ensures FullHash(s[..i + 1]) == 33 * FullHash(s[..i]) + s[i] {
      HashSnoc(s[..i], s[i]);
      assert s[..i] + [s[i]] == s[..i + 1];
    }
    assert FullHash(s[..1]) == 177685 && FullHash(s[..2]) == 5863719 && FullHash(s[..3]) == 193502832;
    assert FullHash(s[..4]) == 6385593566 && FullHash(s[..5]) == 210724587794;
  }

  // ---------- bits ----------

  predicate Bit(x: nat, k: nat) { x / Pow2(k) % 2 == 1 }

  // The operator &.
  function And(a: nat, b: nat): nat
    decreases a
  {
    if a == 0 then 0 else a % 2 * (b % 2) + 2 * And(a / 2, b / 2)
  }

  lemma {:induction false} AndZero(a: nat)
    ensures And(a, 0) == 0
    decreases a
  {
    if a > 0 { AndZero(a / 2); }
  }

  // A mask below a power of two takes the remainder.
  lemma {:induction false} AndMask(a: nat, k: nat)
    ensures And(a, Pow2(k) - 1) == a % Pow2(k)
    decreases k
  {
    if k == 0 {
      AndZero(a);
    } else {
      var p := Pow2(k - 1);
      assert (2 * p - 1) / 2 == p - 1 && (2 * p - 1) % 2 == 1;
      AndMask(a / 2, k - 1);
      ModTwice(a, p);
    }
  }

  lemma {:induction false} ModTwice(a: nat, p: nat)
    requires p > 0
    ensures a % (2 * p) == a % 2 + 2 * (a / 2 % p)
  {
    var q, r := a / 2 / p, a / 2 % p;
    assert a / 2 == p * q + r;
    assert a == (2 * p) * q + (2 * r + a % 2);
    DivUnique(a, 2 * p, q, 2 * r + a % 2);
  }

  // A mask with one bit tests that bit.
  lemma {:induction false} AndBit(a: nat, k: nat)
    ensures And(a, Pow2(k)) != 0 <==> Bit(a, k)
    decreases k
  {
    if a == 0 {
      assert 0 / Pow2(k) == 0;
    } else if k == 0 {
      AndZero(a / 2);
    } else {
      AndBit(a / 2, k - 1);
      AndDouble(a, Pow2(k - 1));
      DivTwice(a, Pow2(k - 1));
    }
  }

  lemma {:induction false} AndDouble(a: nat, p: nat)
    ensures And(a, 2 * p) == 2 * And(a / 2, p)
  {
    assert (2 * p) / 2 == p && (2 * p) % 2 == 0;
  }

  // ---------- the table ----------

  // The part of an object that a lookup reads: the hash section, the names of its symbols and, if there are versions,
  // which symbols are hidden.
  datatype Dso = Dso(table: seq<nat>, names: seq<seq<Char>>, hidden: seq<bool>)

  function NumBuckets(o: Dso): nat requires |o.table| >= 4 { o.table[0] }
  function FirstHashed(o: Dso): nat requires |o.table| >= 4 { o.table[1] }
  function BloomSize(o: Dso): nat requires |o.table| >= 4 { o.table[2] }
  function BloomShift(o: Dso): nat requires |o.table| >= 4 { o.table[3] }

  // The section is 4 words, the filter (of 64-bit words), the buckets and one word for each hashed symbol.
  predicate Laid(o: Dso) {
    && |o.table| >= 4 && NumBuckets(o) > 0 && 0 < FirstHashed(o) <= |o.names| == |o.hidden|
    && |o.table| == 4 + 2 * BloomSize(o) + NumBuckets(o) + (|o.names| - FirstHashed(o))
  }

  function Bloom(o: Dso, k: nat): nat
    requires Laid(o) && k < BloomSize(o)
  {
    o.table[4 + 2 * k] + U32 * o.table[4 + 2 * k + 1]
  }

  function Bucket(o: Dso, b: nat): nat
    requires Laid(o) && b < NumBuckets(o)
  {
    o.table[4 + 2 * BloomSize(o) + b]
  }

  function Chain(o: Dso, i: nat): nat
    requires Laid(o) && FirstHashed(o) <= i < |o.names|
  {
    o.table[4 + 2 * BloomSize(o) + NumBuckets(o) + (i - FirstHashed(o))]
  }

  predicate Hashed(o: Dso, i: nat)
    requires Laid(o)
  {
    FirstHashed(o) <= i < |o.names|
  }

  function HashOf(o: Dso, i: nat): nat
    requires i < |o.names|
  {
    Hash(o.names[i])
  }

  function BucketOf(o: Dso, i: nat): nat
    requires Laid(o) && i < |o.names|
  {
    HashOf(o, i) % NumBuckets(o)
  }

  // Both filter bits of a hash are set.
  predicate InBloom(o: Dso, h: nat)
    requires Laid(o) && BloomSize(o) > 0
  {
    var f := Bloom(o, h / 64 % BloomSize(o));
    Bit(f, h % 64) && Bit(f, h / Pow2(BloomShift(o)) % 64)
  }

  // The symbols of a bucket are neighbours.
  ghost predicate Neighbours(o: Dso)
    requires Laid(o)
  {
    forall i, j, k :: FirstHashed(o) <= i < k < j < |o.names| && BucketOf(o, i) == BucketOf(o, j)
                      ==> BucketOf(o, k) == BucketOf(o, i)
  }

  // The word of a symbol is its hash, but for the lowest bit, which is set exactly at the end of the bucket.
  predicate WfWord(o: Dso, i: nat)
    requires Laid(o) && Hashed(o, i)
  {
    && Chain(o, i) / 2 == HashOf(o, i) / 2
    && (Chain(o, i) % 2 == 1 <==> i == |o.names| - 1 || BucketOf(o, i + 1) != BucketOf(o, i))
  }

  // What the link editor promises of the section: besides the above, a bucket names its first symbol (0 if it has
  // none), the filter has the bits of every symbol, its size is a power of two, and the shift to its second bit is less
  // than the width of a hash.
  ghost predicate WfTable(o: Dso) {
    && Laid(o) && BloomShift(o) < 32 && (exists k: nat :: BloomSize(o) == Pow2(k)) && Neighbours(o)
    && (forall i :: FirstHashed(o) <= i < |o.names| ==> WfWord(o, i) && InBloom(o, HashOf(o, i)))
    && (forall b :: 0 <= b < NumBuckets(o) ==> FirstOf(o, b, Bucket(o, b)))
  }

  // i is the first symbol of bucket b, or 0 if there is none.
  ghost predicate FirstOf(o: Dso, b: nat, i: nat)
    requires Laid(o)
  {
    if i == 0 then forall j :: FirstHashed(o) <= j < |o.names| ==> BucketOf(o, j) != b
    else Hashed(o, i) && BucketOf(o, i) == b && forall j :: FirstHashed(o) <= j < i ==> BucketOf(o, j) != b
  }

  // The section of an object that defines "a" and "b", in two buckets: sizes and shift, the filter, the buckets, the
  // words.
  function TwoSymbols(): Dso {
    Dso([2, 1, 1, 6] + [16777408, 0] + [1, 2] + [177671, 177671], [[], [97], [98]], [false, false, false])
  }

  lemma {:induction false} OneLetter(c: Char)
    ensures FullHash([c]) == 177573 + c
  {
    EmptyHash();
    HashSnoc([], c);
    assert [] + [c] == [c];
  }

  lemma {:induction false} TwoSymbolsFilter()
    ensures Pow2(6) == 64 && Bit(16777408, 6) && Bit(16777408, 7) && Bit(16777408, 24)
  {
    assert Pow2(4) == 16 && Pow2(6) == 64 && Pow2(7) == 128;
    assert Pow2(24) == 16 * Pow2(20) && Pow2(20) == 16 * Pow2(16) && Pow2(16) == 16 * Pow2(12);
    assert Pow2(12) == 16 * Pow2(8) && Pow2(8) == 256;
  }

  lemma {:induction false} TwoSymbolsWords()
    ensures var o := TwoSymbols();
            && Laid(o) && NumBuckets(o) == 2 && FirstHashed(o) == 1 && |o.names| == 3 && BloomShift(o) == 6
            && BloomSize(o) == 1 && Bloom(o, 0) == 16777408 && Bucket(o, 0) == 1 && Bucket(o, 1) == 2
            && Chain(o, 1) == 177671 && Chain(o, 2) == 177671
  {
  }

  lemma {:induction false} TwoSymbolsHashes()
    ensures var o := TwoSymbols(); |o.names| == 3 && HashOf(o, 1) == 177670 && HashOf(o, 2) == 177671
  {
    hide FullHash;
    OneLetter(97);
    OneLetter(98);
  }

  // It is what a lookup takes it for.
  lemma {:induction false} TwoSymbolsAreLaidOut()
    ensures WfTable(TwoSymbols())
  {
    hide Bit, TwoSymbols, HashOf, Bloom, Chain, Bucket, NumBuckets, FirstHashed, BloomShift, BloomSize, Laid;
    var o := TwoSymbols();
    TwoSymbolsWords();
    TwoSymbolsHashes();
    TwoSymbolsFilter();
    assert Pow2(0) == 1;
    assert BucketOf(o, 1) == 0 && BucketOf(o, 2) == 1;
    assert InBloom(o, 177670) && InBloom(o, 177671);
    assert WfWord(o, 1) && WfWord(o, 2);
    assert FirstOf(o, 0, 1) && FirstOf(o, 1, 2);
  }

  // A linear scan for a visible symbol with this name, from i on; 0 if there is none.
  function Scan(o: Dso, s: seq<Char>, i: nat): nat
    requires |o.hidden| == |o.names|
    decreases |o.names| - i
  {
    if i >= |o.names| then 0 else if o.names[i] == s && !o.hidden[i] then i else Scan(o, s, i + 1)
  }

  // The scan finds the first visible symbol of that name, if there is one.
  lemma {:induction false} ScanFinds(o: Dso, s: seq<Char>, i: nat)
    requires |o.hidden| == |o.names| && i > 0
    ensures var r := Scan(o, s, i);
            && (r == 0 <==> forall k :: i <= k < |o.names| ==> o.names[k] != s || o.hidden[k])
            && (r != 0 ==> i <= r < |o.names| && o.names[r] == s && !o.hidden[r]
                           && forall k :: i <= k < r ==> o.names[k] != s || o.hidden[k])
    decreases |o.names| - i
  {
    if i < |o.names| { ScanFinds(o, s, i + 1); }
  }

  // Symbols of other buckets can be skipped.
  lemma {:induction false} ScanSkips(o: Dso, s: seq<Char>, i: nat, j: nat)
    requires |o.hidden| == |o.names| && i <= j <= |o.names|
    requires forall k :: i <= k < j ==> o.names[k] != s || o.hidden[k]
    ensures Scan(o, s, i) == Scan(o, s, j)
    decreases j - i
  {
    if i < j { ScanSkips(o, s, i + 1, j); }
  }

  lemma {:induction false} ScanNone(o: Dso, s: seq<Char>, i: nat)
    requires |o.hidden| == |o.names|
    requires forall k :: i <= k < |o.names| ==> o.names[k] != s || o.hidden[k]
    ensures Scan(o, s, i) == 0
    decreases |o.names| - i
  {
    if i < |o.names| { ScanNone(o, s, i + 1); }
  }

  lemma {:induction false} NeighbourStep(o: Dso, i: nat, k: nat, j: nat)
    requires Laid(o) && Neighbours(o) && FirstHashed(o) <= i < k < j < |o.names| && BucketOf(o, k) != BucketOf(o, i)
    ensures BucketOf(o, j) != BucketOf(o, i)
  {
    hide BucketOf;
  }

  // Behind the end of a bucket there is nothing of it.
  lemma {:induction false} BucketEnds(o: Dso, i: nat, j: nat)
    requires Laid(o) && Neighbours(o) && FirstHashed(o) <= i < j < |o.names| && WfWord(o, i) && Chain(o, i) % 2 == 1
    ensures BucketOf(o, j) != BucketOf(o, i)
  {
    hide BucketOf, HashOf, Neighbours;
    if i + 1 < j { NeighbourStep(o, i, i + 1, j); }
  }

  lemma {:induction false} SameName(o: Dso, s: seq<Char>)
    requires Laid(o)
    ensures forall k :: FirstHashed(o) <= k < |o.names| && o.names[k] == s ==>
              BucketOf(o, k) == Hash(s) % NumBuckets(o) && HashOf(o, k) == Hash(s)
  {
    hide Hash;
  }

  // gnu_lookup: the walk along the chain of one bucket finds what a scan of all hashed symbols finds, and stays inside
  // the table.
  method GnuLookup(o: Dso, h1: nat, s: seq<Char>) returns (i: nat)
    requires WfTable(o) && h1 == Hash(s)
    ensures i == Scan(o, s, FirstHashed(o))
  {
    hide Hash, InBloom, Pow2, BucketOf, HashOf, Neighbours, Chain, Bucket;
    var b := h1 % NumBuckets(o);
    i := Bucket(o, b);
    assert FirstOf(o, b, i);
    SameName(o, s);
    if i == 0 {
      ScanNone(o, s, FirstHashed(o));
      return;
    }
    ScanSkips(o, s, FirstHashed(o), i);
    while true
      invariant FirstHashed(o) <= i < |o.names| && BucketOf(o, i) == b
      invariant Scan(o, s, i) == Scan(o, s, FirstHashed(o))
      decreases |o.names| - i
    {
      var h2 := Chain(o, i);
      assert WfWord(o, i);
      if h1 / 2 == h2 / 2 && !o.hidden[i] && o.names[i] == s {
        return;
      }
      assert o.names[i] != s || o.hidden[i];
      if h2 % 2 == 1 {
        forall j | i < j < |o.names| ensures o.names[j] != s {
          BucketEnds(o, i, j);
        }
        ScanNone(o, s, i + 1);
        return 0;
      }
      i := i + 1;
    }
  }

  // gnu_lookup_filtered, called as find_sym2 calls it: fofs and fbit place the first filter bit. The filter never turns
  // away a name that is there.
  method GnuLookupFiltered(o: Dso, h1: nat, s: seq<Char>, fofs: nat, fbit: nat) returns (i: nat)
    requires WfTable(o) && h1 == Hash(s) && fofs == h1 / 64 && fbit == h1 % 64
    ensures i == Scan(o, s, FirstHashed(o))
  {
    hide Hash;
    ghost var k: nat :| BloomSize(o) == Pow2(k);
    AndMask(fofs, k);
    var f := Bloom(o, And(fofs, BloomSize(o) - 1));
    AndBit(f, fbit);
    if And(f, Pow2(fbit)) == 0 || f / Pow2(h1 / Pow2(BloomShift(o)) % 64) % 2 == 0 {
      forall j | FirstHashed(o) <= j < |o.names| ensures o.names[j] != s {
        assert InBloom(o, HashOf(o, j));
      }
      ScanNone(o, s, FirstHashed(o));
      return 0;
    }
    i := GnuLookup(o, h1, s);
  }
}
