/** Room on the disk: which places of an inode a write fills, and how many blocks it has to find for them. */
module FsRoom {

  import opened Basics
  import opened LogFormat
  import opened FsLayout
  import opened FsFile

  // What cache_alloc can hand out.
  ghost function FreeBlocks(l: Layout, d: Disk): set<nat> { set b: nat | b < l.numBlocks && !Used(l, d, b) }

  // The places that lead to the k-th block of a file.
  function SlotsOf(k: nat): set<nat> { if k < NUM_DIRECT then {k} else {NUM_DIRECT, k + 1} }

  predicate Touches(offset: nat, count: nat, k: nat) {
    k * BLOCK_SIZE < offset + count && offset < (k + 1) * BLOCK_SIZE
  }

  // The places of all the blocks that the bytes from offset on touch.
  ghost function Need(offset: nat, count: nat): set<nat> {
    set s: nat | s < NUM_REFS && LeadsTo(offset, count, s)
  }

  ghost predicate LeadsTo(offset: nat, count: nat, s: nat) {
    exists k: nat :: Touches(offset, count, k) && s in SlotsOf(k)
  }

  // Those of them that are empty.
  ghost function Missing(r: seq<nat>, need: set<nat>): set<nat> { set s | s in need && s < |r| && r[s] == 0 }

  // Places that were filled stay as they are, and others than the needed ones stay empty.
  ghost predicate SlotsGrew(r: seq<nat>, r2: seq<nat>, need: set<nat>) {
    && |r2| == |r|
    && forall s :: 0 <= s < |r| && (r[s] != 0 || s !in need) ==> r2[s] == r[s]
  }

  // A needed place is empty, and there is no block to fill it with.
  ghost predicate Stuck(l: Layout, d: Disk, r: seq<nat>, need: set<nat>) {
    (forall b: nat :: b < l.numBlocks ==> Used(l, d, b)) && exists s :: s in need && s < |r| && r[s] == 0
  }

  lemma {:induction false} SlotsTrans(r: seq<nat>, r2: seq<nat>, r3: seq<nat>, need: set<nat>, more: set<nat>)
    requires SlotsGrew(r, r2, need) && SlotsGrew(r2, r3, more) && more <= need
    ensures SlotsGrew(r, r3, need)
  {
  }

  lemma {:induction false} StuckMore(l: Layout, d: Disk, r: seq<nat>, need: set<nat>, more: set<nat>)
    requires Stuck(l, d, r, need) && need <= more
    ensures Stuck(l, d, r, more)
  {
    hide Used;
  }

  lemma {:induction false} Needed(offset: nat, count: nat, o: nat)
    requires offset <= o < offset + count <= MAX_BYTES
    ensures SlotsOf(o / BLOCK_SIZE) <= Need(offset, count)
  {
    assert Touches(offset, count, o / BLOCK_SIZE);
  }

  // A write leaves nothing of what it needs empty.
  lemma {:induction false} AllFilled(r: seq<nat>, offset: nat, count: nat)
    requires |r| == NUM_REFS && offset + count <= MAX_BYTES && Dense(r, offset + count)
    requires r[NUM_DIRECT] == 0 ==> forall s :: NUM_DIRECT <= s < NUM_REFS ==> r[s] == 0
    ensures Missing(r, Need(offset, count)) == {}
  {
    forall s | s in Need(offset, count) ensures r[s] != 0 {
      var k: nat :| Touches(offset, count, k) && s in SlotsOf(k);
      assert k < MAX_BLOCKS;
      assert r[RefOf(k)] != 0;
    }
  }

  // The disk has a free block for every one the bytes from offset on need.
  ghost predicate HasRoom(l: Layout, d: Disk, e: Entry, offset: nat, count: nat) {
    |e.addrs| == NUM_DIRECT && |Missing(Refs(d, e), Need(offset, count))| <= |FreeBlocks(l, d)|
  }

  // ---- counting

  ghost function Image(a: set<nat>, r: seq<nat>): set<nat>
    requires forall s :: s in a ==> s < |r|
  {
    set s | s in a :: r[s]
  }

  lemma {:induction false} ImageStep(a: set<nat>, r: seq<nat>, s: nat)
    requires (forall t :: t in a ==> t < |r|) && s in a
    ensures Image(a, r) == Image(a - {s}, r) + {r[s]}
  {
  }

  lemma {:induction false} ImageCard(a: set<nat>, r: seq<nat>)
    requires forall s :: s in a ==> s < |r|
    ensures |Image(a, r)| <= |a|
    decreases |a|
  {
    if a != {} {
      var s :| s in a;
      ImageCard(a - {s}, r);
      ImageStep(a, r, s);
    }
  }

  lemma {:induction false} DistinctImage(a: set<nat>, r: seq<nat>)
    requires (forall s :: s in a ==> s < |r| && r[s] != 0) && DistinctRefs(r)
    ensures |Image(a, r)| == |a|
    decreases |a|
  {
    if a != {} {
      var s :| s in a;
      DistinctImage(a - {s}, r);
      ImageStep(a, r, s);
      assert r[s] !in Image(a - {s}, r);
    }
  }

  // Where a write gets stuck, there were fewer free blocks than it needs.
  lemma {:induction false} RoomLacking(l: Layout, d: Disk, r: seq<nat>, d2: Disk, r2: seq<nat>, need: set<nat>)
    requires WfDisk(l, d) && UsedRefs(l, d, r) && Accounts(l, d, r, d2, r2)
    requires SlotsGrew(r, r2, need) && Stuck(l, d2, r2, need)
    ensures |FreeBlocks(l, d)| < |Missing(r, need)|
  {
    hide Used;
    var t :| t in need && t < |r2| && r2[t] == 0;
    var rest := Missing(r, need) - {t};
    forall b | b in FreeBlocks(l, d) ensures b in Image(rest, r2) {
      assert b in r2;
      var s :| 0 <= s < |r2| && r2[s] == b;
      assert r[s] == 0 && s in need;
      assert s in rest;
    }
    SubsetCard(FreeBlocks(l, d), Image(rest, r2));
    ImageCard(rest, r2);
  }

  // ---- and where it does not

  lemma {:induction false} NeedSplit(offset: nat, n: nat, m: nat)
    ensures Need(offset, n + m) == Need(offset, n) + Need(offset + n, m)
  {
    var all, first, second := Need(offset, n + m), Need(offset, n), Need(offset + n, m);
    forall s | s in all ensures s in first + second {
      var k: nat :| Touches(offset, n + m, k) && s in SlotsOf(k);
      assert Touches(offset, n, k) || Touches(offset + n, m, k);
    }
    forall s | s in first + second ensures s in all {
      var k: nat :| (Touches(offset, n, k) || Touches(offset + n, m, k)) && s in SlotsOf(k);
      assert Touches(offset, n + m, k);
    }
  }

  // What was missing has been filled with free blocks; the rest of both is as it was.
  lemma {:induction false} FreeLeft(l: Layout, d: Disk, r: seq<nat>, d2: Disk, r2: seq<nat>, need: set<nat>)
    requires WfDisk(l, d) && UsedRefs(l, d, r) && UsedRefs(l, d2, r2) && DistinctRefs(r2) && Accounts(l, d, r, d2, r2)
    requires SlotsGrew(r, r2, need) && Missing(r2, need) == {}
    ensures |FreeBlocks(l, d)| == |FreeBlocks(l, d2)| + |Missing(r, need)|
  {
    hide Used;
    var gap := Missing(r, need);
    forall s | s in gap ensures r2[s] != 0 && r2[s] in FreeBlocks(l, d) {
      assert s !in Missing(r2, need);
      assert r2[s] !in r;
    }
    DistinctImage(gap, r2);
    forall b | b in FreeBlocks(l, d) && b !in FreeBlocks(l, d2) ensures b in Image(gap, r2) {
      assert b in r2;
      var s :| 0 <= s < |r2| && r2[s] == b;
      assert s in gap;
    }
    assert FreeBlocks(l, d) == FreeBlocks(l, d2) + Image(gap, r2);
  }

  lemma {:induction false} MissingLeft(r: seq<nat>, r2: seq<nat>, need: set<nat>, more: set<nat>)
    requires SlotsGrew(r, r2, need) && Missing(r2, need) == {}
    ensures |Missing(r, need + more)| == |Missing(r, need)| + |Missing(r2, more)|
  {
    forall s | s in Missing(r, need) ensures s !in Missing(r2, more) {
      assert s !in Missing(r2, need);
    }
    assert Missing(r, need + more) == Missing(r, need) + Missing(r2, more);
  }

  // A write takes as much from what is needed in all as from what is free.
  lemma {:induction false} RoomNext(l: Layout, d: Disk, e: Entry, d2: Disk, e2: Entry, offset: nat, n: nat, m: nat)
    requires WfDisk(l, d) && WfInode(l, d, e) && WfInode(l, d2, e2) && offset + n <= e2.size
    requires Accounts(l, d, Refs(d, e), d2, Refs(d2, e2))
    requires SlotsGrew(Refs(d, e), Refs(d2, e2), Need(offset, n))
    ensures HasRoom(l, d, e, offset, n + m) <==> HasRoom(l, d2, e2, offset + n, m)
  {
    hide Used, FreeBlocks, Missing, SlotsGrew, Need, Accounts, Dense;
    var r2 := Refs(d2, e2);
    DenseBelow(r2, offset + n, e2.size);
    assert r2[NUM_DIRECT] == e2.indirect;
    AllFilled(r2, offset, n);
    FreeLeft(l, d, Refs(d, e), d2, r2, Need(offset, n));
    NeedSplit(offset, n, m);
    MissingLeft(Refs(d, e), r2, Need(offset, n), Need(offset + n, m));
  }

  lemma {:induction false} DenseBelow(r: seq<nat>, n: nat, m: nat)
    requires |r| == NUM_REFS && Dense(r, m) && n <= m
    ensures Dense(r, n)
  {
  }

  // Nothing is needed for no bytes, inside the file.
  lemma {:induction false} NoBytes(l: Layout, d: Disk, e: Entry, offset: nat)
    requires WfInode(l, d, e) && offset <= e.size
    ensures HasRoom(l, d, e, offset, 0)
  {
    hide Used, FreeBlocks, Missing, Need, Dense;
    DenseBelow(Refs(d, e), offset, e.size);
    assert Refs(d, e)[NUM_DIRECT] == e.indirect;
    AllFilled(Refs(d, e), offset, 0);
  }

  // More bytes need no less.
  lemma {:induction false} MoreBytes(l: Layout, d: Disk, e: Entry, offset: nat, n: nat, m: nat)
    requires HasRoom(l, d, e, offset, n + m)
    ensures HasRoom(l, d, e, offset, n)
  {
    hide FreeBlocks, Need, Refs;
    NeedSplit(offset, n, m);
    SubsetCard(Missing(Refs(d, e), Need(offset, n)), Missing(Refs(d, e), Need(offset, n + m)));
  }
}
