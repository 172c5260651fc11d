/** Files on the disk: which blocks belong to an inode, what its content is, and what an operation on one inode may
    change. */
module FsFile {

  import opened Basics
  import opened LogFormat
  import opened FsLayout

  predicate InData(l: Layout, b: nat) { l.dataStart <= b < l.numBlocks }

  // The blocks in front of the data region are marked used, so cache_alloc never hands one out.
  ghost predicate WfDisk(l: Layout, d: Disk) {
    ValidLayout(l) && |d| == l.numBlocks && forall b: nat :: b < l.dataStart ==> Used(l, d, b)
  }

  ghost predicate UsedRefs(l: Layout, d: Disk, r: seq<nat>) {
    forall i :: 0 <= i < |r| && r[i] != 0 ==> InData(l, r[i]) && Used(l, d, r[i])
  }

  ghost predicate DistinctRefs(r: seq<nat>) {
    forall i, j :: 0 <= i < j < |r| && r[i] != 0 ==> r[i] != r[j]
  }

  // Every block that holds one of the first n bytes is there.
  ghost predicate Dense(r: seq<nat>, n: nat)
    requires |r| == NUM_REFS
  {
    forall k: nat :: k < MAX_BLOCKS && k * BLOCK_SIZE < n ==> r[RefOf(k)] != 0
  }

  ghost predicate WfRefs(l: Layout, d: Disk, r: seq<nat>) { UsedRefs(l, d, r) && DistinctRefs(r) }

  ghost predicate WfInode(l: Layout, d: Disk, e: Entry) {
    Fits(e) && e.size <= MAX_BYTES && WfRefs(l, d, Refs(d, e)) && Dense(Refs(d, e), e.size)
  }

  function ByteAt(d: Disk, r: seq<nat>, i: nat): Byte
    requires |r| == NUM_REFS && i < MAX_BYTES
  {
    At(d, r[RefOf(i / BLOCK_SIZE)])[i % BLOCK_SIZE]
  }

  function Content(d: Disk, e: Entry): (c: seq<Byte>)
    requires |e.addrs| == NUM_DIRECT && e.size <= MAX_BYTES
    ensures |c| == e.size
  {
    seq(e.size, i requires 0 <= i < e.size => ByteAt(d, Refs(d, e), i))
  }

  // ---- what an operation on inode `ino` may change, with r its blocks before and r2 after

  // Blocks of other files keep what they hold.
  ghost predicate OthersKept(l: Layout, d: Disk, r: seq<nat>, d2: Disk) {
    && |d2| == |d|
    && (forall b: nat :: b < l.inodeStart ==> At(d2, b) == At(d, b))
    && (forall b: nat :: InData(l, b) && Used(l, d, b) && b !in r ==> At(d2, b) == At(d, b))
  }

  ghost predicate EntriesKept(l: Layout, d: Disk, d2: Disk, ino: nat) {
    forall j: nat :: j < l.numInodes && j != ino ==> EntryAt(l, d2, j) == EntryAt(l, d, j)
  }

  // Blocks are conserved: the used blocks lose the file's old blocks and gain its new ones, and a block new to the
  // file was free.
  ghost predicate Accounts(l: Layout, d: Disk, r: seq<nat>, d2: Disk, r2: seq<nat>) {
    && (forall b: nat :: b in r2 && b != 0 && b !in r ==> !Used(l, d, b))
    && (forall b: nat :: 0 < b < l.numBlocks ==> Used(l, d2, b) == (b in r2 || (Used(l, d, b) && b !in r)))
    && Used(l, d2, 0) == Used(l, d, 0)
  }

  // Data already in the file stays where and what it is.
  ghost predicate DataKept(d: Disk, r: seq<nat>, d2: Disk, r2: seq<nat>)
    requires |r| == NUM_REFS == |r2|
  {
    forall k: nat :: k < MAX_BLOCKS && r[RefOf(k)] != 0 ==>
      r2[RefOf(k)] == r[RefOf(k)] && At(d2, r[RefOf(k)]) == At(d, r[RefOf(k)])
  }

  ghost predicate Evolves(l: Layout, d: Disk, r: seq<nat>, d2: Disk, r2: seq<nat>, ino: nat) {
    OthersKept(l, d, r, d2) && EntriesKept(l, d, d2, ino) && Accounts(l, d, r, d2, r2)
  }

  // Block by block: what two operations in a row do to a block of another file, and to the accounts.
  lemma {:induction false} KeptTrans(l: Layout, d: Disk, r: seq<nat>, d2: Disk, r2: seq<nat>, d3: Disk, b: nat)
    requires OthersKept(l, d, r, d2) && Accounts(l, d, r, d2, r2) && OthersKept(l, d2, r2, d3)
    requires 0 < l.dataStart && InData(l, b) && Used(l, d, b) && b !in r
    ensures At(d3, b) == At(d, b)
  {
    hide BlockWords, EntryAt, Used;
    assert b !in r2 && Used(l, d2, b);
  }

  lemma {:induction false} AccountsTrans(l: Layout, d: Disk, r: seq<nat>, d2: Disk, r2: seq<nat>, d3: Disk,
                                         r3: seq<nat>)
    requires UsedRefs(l, d3, r3) && Accounts(l, d, r, d2, r2) && Accounts(l, d2, r2, d3, r3)
    ensures Accounts(l, d, r, d3, r3)
  {
    hide BlockWords, EntryAt, Used;
    forall b: nat | 0 < b < l.numBlocks ensures Used(l, d3, b) == (b in r3 || (Used(l, d, b) && b !in r)) {
      assert Used(l, d2, b) == (b in r2 || (Used(l, d, b) && b !in r));
    }
    forall b: nat | b in r3 && b != 0 && b !in r ensures !Used(l, d, b) {
      assert b < l.numBlocks;
      assert Used(l, d2, b) == (b in r2 || (Used(l, d, b) && b !in r));
    }
  }

  lemma {:induction false} EvolvesTrans(l: Layout, d: Disk, r: seq<nat>, d2: Disk, r2: seq<nat>, d3: Disk, r3: seq<nat>,
                                        ino: nat)
    requires ValidLayout(l) && UsedRefs(l, d3, r3) && Evolves(l, d, r, d2, r2, ino) && Evolves(l, d2, r2, d3, r3, ino)
    ensures Evolves(l, d, r, d3, r3, ino)
  {
    hide BlockWords, EntryAt, Used;
    AccountsTrans(l, d, r, d2, r2, d3, r3);
    forall b: nat | InData(l, b) && Used(l, d, b) && b !in r ensures At(d3, b) == At(d, b) {
      KeptTrans(l, d, r, d2, r2, d3, b);
    }
  }

  lemma {:induction false} EvolvesRefl(l: Layout, d: Disk, r: seq<nat>, ino: nat)
    requires ValidLayout(l) && UsedRefs(l, d, r)
    ensures Evolves(l, d, r, d, r, ino)
  {
    hide BlockWords, EntryAt, Used;
  }

  // ---- single steps

  // cache_alloc: mark the block and clear it.
  function Take(l: Layout, d: Disk, b: nat): Disk
    requires ValidLayout(l) && |d| == l.numBlocks && b < l.numBlocks
  {
    PutBit(l, d, b, true)[b := ZeroBlock()]
  }

  lemma {:induction false} TakeFacts(l: Layout, d: Disk, b: nat)
    requires WfDisk(l, d) && b < l.numBlocks && !Used(l, d, b)
    ensures InData(l, b) && |Take(l, d, b)| == |d|
    ensures forall x: nat :: x < l.bitmapStart ==> At(Take(l, d, b), x) == At(d, x)
    ensures forall x: nat :: InData(l, x) && x != b ==> At(Take(l, d, b), x) == At(d, x)
    ensures forall x: nat :: x < l.numBlocks ==> Used(l, Take(l, d, b), x) == (Used(l, d, x) || x == b)
    ensures forall j: nat :: j < l.numInodes ==> EntryAt(l, Take(l, d, b), j) == EntryAt(l, d, j)
  {
    var m := PutBit(l, d, b, true);
    forall x: nat | x < l.numBlocks ensures Used(l, Take(l, d, b), x) == (Used(l, d, x) || x == b) {
      PutBitFacts(l, d, b, true, x);
      assert At(Take(l, d, b), BitmapBlock(l, x)) == At(m, BitmapBlock(l, x));
    }
  }

  // cache_free only clears the bit.
  lemma {:induction false} FreeFacts(l: Layout, d: Disk, b: nat)
    requires ValidLayout(l) && |d| == l.numBlocks && b < l.numBlocks
    ensures forall x: nat :: x < l.bitmapStart || InData(l, x) ==> At(PutBit(l, d, b, false), x) == At(d, x)
    ensures forall x: nat :: x < l.numBlocks ==> Used(l, PutBit(l, d, b, false), x) == (Used(l, d, x) && x != b)
    ensures forall j: nat :: j < l.numInodes ==> EntryAt(l, PutBit(l, d, b, false), j) == EntryAt(l, d, j)
  {
    hide BlockWords, Bits, BitIn;
    forall x: nat | x < l.numBlocks ensures Used(l, PutBit(l, d, b, false), x) == (Used(l, d, x) && x != b) {
      PutBitFacts(l, d, b, false, x);
    }
  }

  // Writing a data block changes neither the bitmap nor any inode.
  lemma {:induction false} DataWriteFacts(l: Layout, d: Disk, b: nat, x: Block)
    requires ValidLayout(l) && |d| == l.numBlocks && InData(l, b)
    ensures forall y: nat :: y != b ==> At(d[b := x], y) == At(d, y)
    ensures forall y: nat :: y < l.numBlocks ==> Used(l, d[b := x], y) == Used(l, d, y)
    ensures forall j: nat :: j < l.numInodes ==> EntryAt(l, d[b := x], j) == EntryAt(l, d, j)
  {
  }

  lemma {:induction false} EntryWriteFacts(l: Layout, d: Disk, ino: nat, e: Entry)
    requires ValidLayout(l) && |d| == l.numBlocks && Fits(e) && ino < l.numInodes
    ensures var d2 := PutEntry(l, d, ino, e);
            && |d2| == |d| && EntryAt(l, d2, ino) == e
            && (forall y: nat :: y < l.inodeStart || l.bitmapStart <= y ==> At(d2, y) == At(d, y))
            && (forall y: nat :: y < l.numBlocks ==> Used(l, d2, y) == Used(l, d, y))
            && EntriesKept(l, d, d2, ino)
  {
    PutEntryFacts(l, d, ino, e, ino);
    forall j: nat | j < l.numInodes && j != ino
      ensures EntryAt(l, PutEntry(l, d, ino, e), j) == EntryAt(l, d, j)
    {
      PutEntryFacts(l, d, ino, e, j);
    }
  }

  // A free block listed at an empty place, as inode_map does.
  lemma {:induction false} ListedRefs(l: Layout, d: Disk, r: seq<nat>, d2: Disk, i: nat, b: nat)
    requires WfDisk(l, d) && i < |r| && r[i] == 0 && WfRefs(l, d, r) && InData(l, b) && !Used(l, d, b)
    requires forall x: nat :: x < l.numBlocks ==> Used(l, d2, x) == (Used(l, d, x) || x == b)
    ensures WfRefs(l, d2, r[i := b]) && Accounts(l, d, r, d2, r[i := b])
  {
    hide BlockWords, EntryAt, Used;
    var r2 := r[i := b];
    assert b !in r && r2[i] == b;
    forall x: nat | 0 < x < l.numBlocks ensures Used(l, d2, x) == (x in r2 || (Used(l, d, x) && x !in r)) {
      if x in r {
        var j :| 0 <= j < |r| && r[j] == x;
        assert r2[j] == x;
      } else if x in r2 {
        assert x == b;
      }
    }
  }

  lemma {:induction false} PutMembers(r: seq<nat>, i: nat, v: nat, x: nat)
    requires i < |r| && x != r[i] && x != v
    ensures x in r[i := v] <==> x in r
  {
    var r2 := r[i := v];
    if x in r {
      var j :| 0 <= j < |r| && r[j] == x;
      assert r2[j] == x;
    }
    if x in r2 {
      var j :| 0 <= j < |r2| && r2[j] == x;
      assert r[j] == x;
    }
  }

  // A block taken off the file, as inode_clear does.
  lemma {:induction false} UnlistedRefs(l: Layout, d: Disk, r: seq<nat>, d2: Disk, i: nat)
    requires WfDisk(l, d) && i < |r| && r[i] != 0 && WfRefs(l, d, r)
    requires forall x: nat :: x < l.numBlocks ==> Used(l, d2, x) == (Used(l, d, x) && x != r[i])
    ensures WfRefs(l, d2, r[i := 0]) && Accounts(l, d, r, d2, r[i := 0])
  {
    hide BlockWords, EntryAt, Used;
    var r2 := r[i := 0];
    forall x: nat | 0 < x < l.numBlocks ensures Used(l, d2, x) == (x in r2 || (Used(l, d, x) && x !in r)) {
      if x == r[i] {
        assert x !in r2;
      } else {
        PutMembers(r, i, 0, x);
      }
    }
  }

  // ---- the file system as a whole

  function RefsAt(l: Layout, d: Disk, j: nat): seq<nat> { Refs(d, EntryAt(l, d, j)) }

  ghost predicate Apart(r: seq<nat>, s: seq<nat>) { forall b: nat :: b in r && b in s ==> b == 0 }

  ghost predicate Owned(l: Layout, d: Disk, b: nat) { exists j: nat :: j < l.numInodes && b in RefsAt(l, d, j) }

  // Every inode is well formed and no block has two owners.
  ghost predicate FsWf(l: Layout, d: Disk) {
    && WfDisk(l, d)
    && (forall j: nat :: j < l.numInodes ==> WfInode(l, d, EntryAt(l, d, j)))
    && (forall i: nat, j: nat :: i < l.numInodes && j < l.numInodes && i != j ==>
          Apart(RefsAt(l, d, i), RefsAt(l, d, j)))
  }

  // A data block marked used has an owner.
  ghost predicate NoLeak(l: Layout, d: Disk) {
    forall b: nat :: InData(l, b) && Used(l, d, b) ==> Owned(l, d, b)
  }

  // With the above, a data block is marked used exactly when it has an owner, and then only one.
  ghost predicate FsInv(l: Layout, d: Disk) { FsWf(l, d) && NoLeak(l, d) }

  lemma {:induction false} OtherBlocks(l: Layout, d: Disk, r: seq<nat>, d2: Disk, s: seq<nat>, b: nat)
    requires OthersKept(l, d, r, d2) && Apart(s, r) && UsedRefs(l, d, s) && b in s && b != 0
    ensures At(d2, b) == At(d, b) && InData(l, b) && Used(l, d, b) && b !in r
  {
    hide BlockWords, EntryAt, Used;
    var i :| 0 <= i < |s| && s[i] == b;
  }

  lemma {:induction false} OtherInode(l: Layout, d: Disk, d2: Disk, r2: seq<nat>, ino: nat, j: nat)
    requires j < l.numInodes && j != ino && WfInode(l, d, EntryAt(l, d, j))
    requires Apart(RefsAt(l, d, j), RefsAt(l, d, ino)) && Evolves(l, d, RefsAt(l, d, ino), d2, r2, ino)
    ensures EntryAt(l, d2, j) == EntryAt(l, d, j) && RefsAt(l, d2, j) == RefsAt(l, d, j)
    ensures forall b: nat :: b in RefsAt(l, d, j) && b != 0 ==> At(d2, b) == At(d, b)
  {
    hide BlockWords, EntryAt, Used;
    var e := EntryAt(l, d, j);
    var r := RefsAt(l, d, j);
    forall b: nat | b in r && b != 0 ensures At(d2, b) == At(d, b) {
      OtherBlocks(l, d, RefsAt(l, d, ino), d2, r, b);
    }
    assert r[NUM_DIRECT] == e.indirect;
    RefsSame(d, d2, e);
  }

  // An operation on one inode leaves the content of every other inode alone.
  lemma {:induction false} OtherContent(l: Layout, d: Disk, d2: Disk, r2: seq<nat>, ino: nat, j: nat)
    requires FsWf(l, d) && ino < l.numInodes && j < l.numInodes && j != ino
    requires Evolves(l, d, RefsAt(l, d, ino), d2, r2, ino)
    ensures EntryAt(l, d2, j) == EntryAt(l, d, j)
    ensures WfInode(l, d, EntryAt(l, d, j)) && Content(d2, EntryAt(l, d2, j)) == Content(d, EntryAt(l, d, j))
  {
    hide BlockWords, EntryAt, Used;
    assert Apart(RefsAt(l, d, j), RefsAt(l, d, ino)) && WfInode(l, d, EntryAt(l, d, j));
    OtherInode(l, d, d2, r2, ino, j);
    var e, r := EntryAt(l, d, j), RefsAt(l, d, j);
    forall i: nat | i < e.size ensures ByteAt(d2, r, i) == ByteAt(d, r, i) {
      var k := i / BLOCK_SIZE;
      assert k < MAX_BLOCKS && k * BLOCK_SIZE < e.size;
      assert r[RefOf(k)] in r;
    }
  }

  lemma {:induction false} OtherWf(l: Layout, d: Disk, d2: Disk, r2: seq<nat>, ino: nat, j: nat)
    requires ValidLayout(l) && j < l.numInodes && j != ino && WfInode(l, d, EntryAt(l, d, j))
    requires Apart(RefsAt(l, d, j), RefsAt(l, d, ino)) && Evolves(l, d, RefsAt(l, d, ino), d2, r2, ino)
    ensures WfInode(l, d2, EntryAt(l, d2, j)) && Apart(RefsAt(l, d2, j), r2)
  {
    hide BlockWords, EntryAt, Used;
    OtherInode(l, d, d2, r2, ino, j);
    var r := RefsAt(l, d, j);
    forall i | 0 <= i < |r| && r[i] != 0 ensures Used(l, d2, r[i]) {
      assert r[i] in r;
    }
    forall b: nat | b in r && b in r2 ensures b == 0 {
      var i :| 0 <= i < |r| && r[i] == b;
    }
  }

  lemma {:induction false} StillOwned(l: Layout, d: Disk, d2: Disk, ino: nat, b: nat)
    requires FsInv(l, d) && ino < l.numInodes
    requires Evolves(l, d, RefsAt(l, d, ino), d2, RefsAt(l, d2, ino), ino)
    requires InData(l, b) && Used(l, d2, b)
    ensures Owned(l, d2, b)
  {
    hide BlockWords, EntryAt, Used;
    var r, r2 := RefsAt(l, d, ino), RefsAt(l, d2, ino);
    if b !in r2 {
      assert Used(l, d, b) && b !in r;
      assert Owned(l, d, b);
      var j: nat :| j < l.numInodes && b in RefsAt(l, d, j);
      assert Apart(RefsAt(l, d, j), r) && WfInode(l, d, EntryAt(l, d, j));
      OtherInode(l, d, d2, r2, ino, j);
      assert b in RefsAt(l, d2, j);
    }
  }

  lemma {:induction false} FsWfKept(l: Layout, d: Disk, d2: Disk, ino: nat)
    requires FsWf(l, d) && ino < l.numInodes
    requires Evolves(l, d, RefsAt(l, d, ino), d2, RefsAt(l, d2, ino), ino)
    requires WfDisk(l, d2) && WfInode(l, d2, EntryAt(l, d2, ino))
    ensures FsWf(l, d2)
  {
    hide BlockWords, EntryAt, Used;
    var r2 := RefsAt(l, d2, ino);
    forall j: nat | j < l.numInodes && j != ino
      ensures WfInode(l, d2, EntryAt(l, d2, j)) && Apart(RefsAt(l, d2, j), r2) && RefsAt(l, d2, j) == RefsAt(l, d, j)
    {
      assert Apart(RefsAt(l, d, j), RefsAt(l, d, ino)) && WfInode(l, d, EntryAt(l, d, j));
      OtherWf(l, d, d2, r2, ino, j);
      OtherInode(l, d, d2, r2, ino, j);
    }
  }

  // What an operation on one inode does keeps the whole file system well formed.
  lemma {:induction false} FsInvKept(l: Layout, d: Disk, d2: Disk, ino: nat)
    requires FsInv(l, d) && ino < l.numInodes
    requires Evolves(l, d, RefsAt(l, d, ino), d2, RefsAt(l, d2, ino), ino)
    requires WfDisk(l, d2) && WfInode(l, d2, EntryAt(l, d2, ino))
    ensures FsInv(l, d2)
  {
    hide BlockWords, EntryAt, Used;
    FsWfKept(l, d, d2, ino);
    forall b: nat | InData(l, b) && Used(l, d2, b) ensures Owned(l, d2, b) {
      StillOwned(l, d, d2, ino, b);
    }
  }

  // Inode j and its content are the same on both disks.
  ghost predicate SameFile(l: Layout, d: Disk, d2: Disk, j: nat) {
    var e := EntryAt(l, d, j);
    EntryAt(l, d2, j) == e && e.size <= MAX_BYTES && |e.addrs| == NUM_DIRECT && Content(d2, e) == Content(d, e)
  }

  // All of it in one: an operation on inode ino, from well-formed to well-formed, keeps the invariant of the file
  // system and the content of every other file.
  lemma {:induction false} OperationKeeps(l: Layout, d: Disk, e: Entry, d2: Disk, e2: Entry, ino: nat)
    requires FsInv(l, d) && ino < l.numInodes && e == EntryAt(l, d, ino) && e2 == EntryAt(l, d2, ino)
    requires Evolves(l, d, Refs(d, e), d2, Refs(d2, e2), ino) && WfDisk(l, d2) && WfInode(l, d2, e2)
    ensures FsInv(l, d2) && forall j: nat :: j < l.numInodes && j != ino ==> SameFile(l, d, d2, j)
  {
    hide BlockWords, EntryAt, Used, Refs, Content, Evolves, FsWf, NoLeak, Dense, WfRefs;
    FsInvKept(l, d, d2, ino);
    forall j: nat | j < l.numInodes && j != ino ensures SameFile(l, d, d2, j) {
      OtherSame(l, d, d2, e2, ino, j);
    }
  }

  lemma {:induction false} OtherSame(l: Layout, d: Disk, d2: Disk, e2: Entry, ino: nat, j: nat)
    requires FsWf(l, d) && ino < l.numInodes && j < l.numInodes && j != ino && |e2.addrs| == NUM_DIRECT
    requires Evolves(l, d, RefsAt(l, d, ino), d2, Refs(d2, e2), ino)
    ensures SameFile(l, d, d2, j)
  {
    hide BlockWords, EntryAt, Used, Refs, Content, Evolves, FsWf;
    OtherContent(l, d, d2, Refs(d2, e2), ino, j);
  }

  // Whatever a free block holds, the file system is the same.
  lemma {:induction false} FreeContents(l: Layout, d: Disk, b: nat, x: Block)
    requires FsInv(l, d) && b < l.numBlocks && !Used(l, d, b)
    ensures var d2 := d[b := x]; FsInv(l, d2) && forall j: nat :: j < l.numInodes ==> SameFile(l, d, d2, j)
  {
    hide BlockWords, EntryAt, Used, Content;
    var d2 := d[b := x];
    assert InData(l, b);
    DataWriteFacts(l, d, b, x);
    forall j: nat | j < l.numInodes
      ensures RefsAt(l, d2, j) == RefsAt(l, d, j) && WfInode(l, d2, EntryAt(l, d2, j)) && SameFile(l, d, d2, j)
    {
      FreeElsewhere(l, d, b, x, j);
    }
    forall y: nat | y < l.dataStart ensures Used(l, d2, y) {
      assert y < l.numBlocks && Used(l, d, y);
    }
    forall y: nat | InData(l, y) && Used(l, d2, y) ensures Owned(l, d2, y) {
      assert Owned(l, d, y);
      var j: nat :| j < l.numInodes && y in RefsAt(l, d, j);
      assert y in RefsAt(l, d2, j);
    }
  }

  lemma {:induction false} FreeElsewhere(l: Layout, d: Disk, b: nat, x: Block, j: nat)
    requires FsWf(l, d) && InData(l, b) && !Used(l, d, b) && j < l.numInodes
    requires EntryAt(l, d[b := x], j) == EntryAt(l, d, j)
    requires forall y: nat :: y < l.numBlocks ==> Used(l, d[b := x], y) == Used(l, d, y)
    ensures RefsAt(l, d[b := x], j) == RefsAt(l, d, j) && WfInode(l, d[b := x], EntryAt(l, d[b := x], j))
    ensures SameFile(l, d, d[b := x], j)
  {
    hide BlockWords, EntryAt, Used;
    var d2, e := d[b := x], EntryAt(l, d, j);
    var r := Refs(d, e);
    assert WfInode(l, d, e) && r[NUM_DIRECT] == e.indirect;
    RefsSame(d, d2, e);
    forall i | 0 <= i < e.size ensures ByteAt(d2, r, i) == ByteAt(d, r, i) {
      assert (i / BLOCK_SIZE) * BLOCK_SIZE <= i && r[RefOf(i / BLOCK_SIZE)] != 0;
    }
  }
}
