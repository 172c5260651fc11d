/** Which blocks an operation on an inode logs, exactly. */
module FsLog {

  import opened Basics
  import opened LogFormat
  import opened FsLayout
  import opened FsFile
  import opened FsRoom

  // ---- the lowest free blocks

  ghost function Below(l: Layout, d: Disk, b: nat): set<nat> { set c | c in FreeBlocks(l, d) && c < b }

  // The n lowest free blocks.
  ghost function Lowest(l: Layout, d: Disk, n: nat): set<nat> { set b | b in FreeBlocks(l, d) && |Below(l, d, b)| < n }

  // From d to d2 blocks have only been taken, and always the lowest free one.
  ghost predicate TookLowest(l: Layout, d: Disk, d2: Disk) {
    && (forall b: nat :: b < l.numBlocks && Used(l, d, b) ==> Used(l, d2, b))
    && (forall b: nat, c: nat :: c < b < l.numBlocks && !Used(l, d, b) && Used(l, d2, b) ==> Used(l, d2, c))
  }

  lemma {:induction false} TookTrans(l: Layout, d: Disk, d2: Disk, d3: Disk)
    requires TookLowest(l, d, d2) && TookLowest(l, d2, d3)
    ensures TookLowest(l, d, d3)
  {
    hide Used;
    forall b: nat, c: nat | c < b < l.numBlocks && !Used(l, d, b) && Used(l, d3, b) ensures Used(l, d3, c) {
      if Used(l, d2, b) { assert Used(l, d2, c); }
    }
  }

  // The lowest free block is taken.
  lemma {:induction false} TookOne(l: Layout, d: Disk, r: seq<nat>, d2: Disk, s: nat, b: nat)
    requires UsedRefs(l, d, r) && s < |r| && r[s] == 0 && Accounts(l, d, r, d2, r[s := b])
    requires forall x: nat :: x < b ==> Used(l, d, x)
    ensures TookLowest(l, d, d2)
  {
    hide Used;
    forall x: nat | 0 < x < l.numBlocks ensures Used(l, d2, x) <==> x == b || Used(l, d, x) {
      assert r[s := b][s] == b;
      if x in r {
        var i :| 0 <= i < |r| && r[i] == x;
        assert r[s := b][i] == x;
      }
    }
  }

  lemma {:induction false} TookNone(l: Layout, d: Disk, r: seq<nat>, d2: Disk)
    requires UsedRefs(l, d, r) && Accounts(l, d, r, d2, r)
    ensures TookLowest(l, d, d2)
  {
    hide Used;
    forall x: nat | 0 < x < l.numBlocks ensures Used(l, d2, x) <==> Used(l, d, x) {
      if x in r { var i :| 0 <= i < |r| && r[i] == x; }
    }
  }

  // The blocks taken are then the lowest ones.
  lemma {:induction false} TakenAreLowest(l: Layout, d: Disk, d2: Disk, b: nat)
    requires TookLowest(l, d, d2)
    ensures var taken := FreeBlocks(l, d) - FreeBlocks(l, d2); b in taken <==> b in Lowest(l, d, |taken|)
  {
    hide Used;
    var taken := FreeBlocks(l, d) - FreeBlocks(l, d2);
    if b in taken {
      assert Below(l, d, b) <= taken - {b};
      SubsetCard(Below(l, d, b), taken - {b});
    } else if b in FreeBlocks(l, d) {
      forall t | t in taken ensures t in Below(l, d, b) {
        assert b < t ==> Used(l, d2, b);
      }
      SubsetCard(taken, Below(l, d, b));
    }
  }

  // ---- inode_map

  // Filling place s logs the block, its bitmap block, and what names it: the inode or the indirect block.
  predicate SlotLogs(l: Layout, ino: nat, r: seq<nat>, s: nat, x: nat)
    requires |r| == NUM_REFS && s < NUM_REFS
  {
    || x == r[s] || x == BitmapBlock(l, r[s])
    || (s < NUM_DIRECT && x == InodeBlock(l, ino)) || (s > NUM_DIRECT && x == r[NUM_DIRECT])
  }

  predicate Fills(r0: seq<nat>, r: seq<nat>, s: nat)
    requires |r0| == |r| == NUM_REFS
  {
    s < NUM_REFS && r0[s] == 0 && r[s] != 0
  }

  // Logged on the way from the blocks r0 to the blocks r of the file.
  ghost predicate MapLogs(l: Layout, ino: nat, r0: seq<nat>, r: seq<nat>, x: nat)
    requires |r0| == |r| == NUM_REFS
  {
    exists s: nat :: Fills(r0, r, s) && SlotLogs(l, ino, r, s, x)
  }

  ghost predicate MapLog(l: Layout, ino: nat, log0: set<nat>, r0: seq<nat>, log: set<nat>, r: seq<nat>)
    requires |r0| == |r| == NUM_REFS
  {
    forall x: nat :: x in log <==> x in log0 || MapLogs(l, ino, r0, r, x)
  }

  // No block is listed without an indirect block.
  predicate IndirectFirst(r: seq<nat>)
    requires |r| == NUM_REFS
  {
    r[NUM_DIRECT] == 0 ==> forall s :: NUM_DIRECT <= s < NUM_REFS ==> r[s] == 0
  }

  lemma {:induction false} MapLogsTrans(l: Layout, ino: nat, r0: seq<nat>, r: seq<nat>, r2: seq<nat>, x: nat)
    requires |r0| == |r| == |r2| == NUM_REFS && IndirectFirst(r)
    requires forall s :: 0 <= s < NUM_REFS && r0[s] != 0 ==> r[s] == r0[s]
    requires forall s :: 0 <= s < NUM_REFS && r[s] != 0 ==> r2[s] == r[s]
    ensures MapLogs(l, ino, r0, r2, x) <==> MapLogs(l, ino, r0, r, x) || MapLogs(l, ino, r, r2, x)
  {
    hide BitmapBlock, InodeBlock;
    if MapLogs(l, ino, r0, r, x) {
      var s: nat :| Fills(r0, r, s) && SlotLogs(l, ino, r, s, x);
      assert Fills(r0, r2, s) && SlotLogs(l, ino, r2, s, x);
    }
    if MapLogs(l, ino, r, r2, x) {
      var s: nat :| Fills(r, r2, s) && SlotLogs(l, ino, r2, s, x);
      assert Fills(r0, r2, s);
    }
    if MapLogs(l, ino, r0, r2, x) {
      var s: nat :| Fills(r0, r2, s) && SlotLogs(l, ino, r2, s, x);
      assert if r[s] == 0 then Fills(r, r2, s) else Fills(r0, r, s) && SlotLogs(l, ino, r, s, x);
    }
  }

  lemma {:induction false} MapLogTrans(l: Layout, ino: nat, log0: set<nat>, r0: seq<nat>, log: set<nat>, r: seq<nat>,
                                       log2: set<nat>, r2: seq<nat>)
    requires |r0| == |r| == |r2| == NUM_REFS && IndirectFirst(r)
    requires forall s :: 0 <= s < NUM_REFS && r0[s] != 0 ==> r[s] == r0[s]
    requires forall s :: 0 <= s < NUM_REFS && r[s] != 0 ==> r2[s] == r[s]
    requires MapLog(l, ino, log0, r0, log, r) && MapLog(l, ino, log, r, log2, r2)
    ensures MapLog(l, ino, log0, r0, log2, r2)
  {
    hide MapLogs, IndirectFirst;
    forall x: nat ensures x in log2 <==> x in log0 || MapLogs(l, ino, r0, r2, x) {
      MapLogsTrans(l, ino, r0, r, r2, x);
    }
  }

  lemma {:induction false} MapLogRefl(l: Layout, ino: nat, log: set<nat>, r: seq<nat>)
    requires |r| == NUM_REFS
    ensures MapLog(l, ino, log, r, log, r)
  {
  }

  // One place is filled.
  lemma {:induction false} MapLogOne(l: Layout, ino: nat, log: set<nat>, r: seq<nat>, s: nat, b: nat, log2: set<nat>)
    requires |r| == NUM_REFS && s < NUM_REFS && r[s] == 0 && b != 0
    requires forall x: nat :: x in log2 <==> x in log || SlotLogs(l, ino, r[s := b], s, x)
    ensures MapLog(l, ino, log, r, log2, r[s := b])
  {
    hide BitmapBlock, InodeBlock, SlotLogs;
    assert Fills(r, r[s := b], s);
  }

  // ---- inode_write

  // The blocks of the bytes themselves.
  ghost predicate DataLogs(r: seq<nat>, offset: nat, count: nat, x: nat)
    requires |r| == NUM_REFS
  {
    count > 0 && exists k: nat :: k < MAX_BLOCKS && Touches(offset, count, k) && x == r[RefOf(k)]
  }

  // After count bytes.
  ghost predicate WriteLog(l: Layout, ino: nat, log0: set<nat>, r0: seq<nat>, log: set<nat>, r: seq<nat>, offset: nat,
                           count: nat)
    requires |r0| == |r| == NUM_REFS
  {
    forall x: nat :: x in log <==> x in log0 || MapLogs(l, ino, r0, r, x) || DataLogs(r, offset, count, x)
  }

  lemma {:induction false} WriteLogStart(l: Layout, ino: nat, log: set<nat>, r: seq<nat>, offset: nat)
    requires |r| == NUM_REFS
    ensures WriteLog(l, ino, log, r, log, r, offset, 0)
  {
  }

  lemma {:induction false} TouchesMore(offset: nat, n: nat, m: nat, k: nat)
    requires m > 0 && (offset + n) % BLOCK_SIZE + m <= BLOCK_SIZE
    ensures Touches(offset, n + m, k) <==> (n > 0 && Touches(offset, n, k)) || k == (offset + n) / BLOCK_SIZE
  {
    var o := offset + n;
    assert o == BLOCK_SIZE * (o / BLOCK_SIZE) + o % BLOCK_SIZE;
  }

  lemma {:induction false} DataLogsMore(r: seq<nat>, r2: seq<nat>, offset: nat, n: nat, m: nat, x: nat)
    requires |r| == |r2| == NUM_REFS && m > 0 && (offset + n) % BLOCK_SIZE + m <= BLOCK_SIZE
    requires offset + n + m <= MAX_BYTES && Dense(r, offset + n)
    requires forall s :: 0 <= s < NUM_REFS && r[s] != 0 ==> r2[s] == r[s]
    ensures DataLogs(r2, offset, n + m, x)
       <==> DataLogs(r, offset, n, x) || x == r2[RefOf((offset + n) / BLOCK_SIZE)]
  {
    var k0 := (offset + n) / BLOCK_SIZE;
    forall k: nat ensures Touches(offset, n + m, k) <==> (n > 0 && Touches(offset, n, k)) || k == k0 {
      TouchesMore(offset, n, m, k);
    }
    assert k0 < MAX_BLOCKS && Touches(offset, n + m, k0);
    forall k: nat | k < MAX_BLOCKS && n > 0 && Touches(offset, n, k) ensures r2[RefOf(k)] == r[RefOf(k)] {
      assert r[RefOf(k)] != 0;
    }
  }

  // A round of the loop: the block at the place of the next bytes is found or allocated, and synced.
  lemma {:induction false} WriteLogMore(l: Layout, ino: nat, log0: set<nat>, r0: seq<nat>, log: set<nat>, r: seq<nat>,
                                        log1: set<nat>, r2: seq<nat>, offset: nat, n: nat, m: nat)
    requires |r0| == |r| == |r2| == NUM_REFS && IndirectFirst(r)
    requires forall s :: 0 <= s < NUM_REFS && r0[s] != 0 ==> r[s] == r0[s]
    requires forall s :: 0 <= s < NUM_REFS && r[s] != 0 ==> r2[s] == r[s]
    requires m > 0 && (offset + n) % BLOCK_SIZE + m <= BLOCK_SIZE && offset + n + m <= MAX_BYTES
    requires Dense(r, offset + n) && WriteLog(l, ino, log0, r0, log, r, offset, n) && MapLog(l, ino, log, r, log1, r2)
    ensures WriteLog(l, ino, log0, r0, log1 + {r2[RefOf((offset + n) / BLOCK_SIZE)]}, r2, offset, n + m)
  {
    hide MapLogs, DataLogs, IndirectFirst, Dense;
    var b := r2[RefOf((offset + n) / BLOCK_SIZE)];
    forall x: nat
      ensures x in log1 + {b} <==> x in log0 || MapLogs(l, ino, r0, r2, x) || DataLogs(r2, offset, n + m, x)
    {
      MapLogsTrans(l, ino, r0, r, r2, x);
      DataLogsMore(r, r2, offset, n, m, x);
    }
  }

  // ---- seen from before the write

  // What inode_write has to log: the blocks there are, as many of the lowest free blocks as places are empty, the
  // bitmap blocks of these, the inode if the file grows, and the indirect block if it is there and gets new entries.
  ghost predicate Planned(l: Layout, d: Disk, e: Entry, ino: nat, offset: nat, count: nat, x: nat) {
    && |e.addrs| == NUM_DIRECT && count > 0
    && var r := Refs(d, e);
       var gap := Missing(r, Need(offset, count));
       || (x != 0 && DataLogs(r, offset, count, x))
       || x in Lowest(l, d, |gap|) || BitmapOf(l, Lowest(l, d, |gap|), x)
       || (x == InodeBlock(l, ino) && e.size < offset + count)
       || (x == e.indirect && x != 0 && exists s :: s in gap && NUM_DIRECT < s)
  }

  ghost predicate BitmapOf(l: Layout, bs: set<nat>, x: nat) { exists b :: b in bs && x == BitmapBlock(l, b) }

  ghost function Plan(l: Layout, d: Disk, e: Entry, ino: nat, offset: nat, count: nat): set<nat> {
    set x: nat | x < l.numBlocks && Planned(l, d, e, ino, offset, count, x)
  }

  // The places filled are the empty ones of those needed, and the blocks in them the lowest free ones.
  lemma {:induction false} FilledLowest(l: Layout, d: Disk, r: seq<nat>, d2: Disk, r2: seq<nat>, need: set<nat>)
    requires WfDisk(l, d) && |r| == NUM_REFS && UsedRefs(l, d, r) && UsedRefs(l, d2, r2) && DistinctRefs(r2)
    requires Accounts(l, d, r, d2, r2) && TookLowest(l, d, d2) && SlotsGrew(r, r2, need) && Missing(r2, need) == {}
    ensures forall s: nat :: Fills(r, r2, s) <==> s in Missing(r, need) && s < NUM_REFS
    ensures forall b: nat :: b in Lowest(l, d, |Missing(r, need)|) <==> exists s: nat :: Fills(r, r2, s) && r2[s] == b
  {
    hide Used, Lowest, FreeBlocks;
    var gap := Missing(r, need);
    forall s: nat ensures Fills(r, r2, s) <==> s in gap && s < NUM_REFS {
      if s in gap { assert s !in Missing(r2, need); }
    }
    FreeLeft(l, d, r, d2, r2, need);
    TakenAre(l, d, r, d2, r2);
    var taken := FreeBlocks(l, d) - FreeBlocks(l, d2);
    assert |taken| == |gap| by {
      FreeShrinks(l, d, d2);
      assert FreeBlocks(l, d) == FreeBlocks(l, d2) + taken;
    }
    forall b: nat ensures b in Lowest(l, d, |gap|) <==> exists s: nat :: Fills(r, r2, s) && r2[s] == b {
      TakenAreLowest(l, d, d2, b);
    }
  }

  lemma {:induction false} FreeShrinks(l: Layout, d: Disk, d2: Disk)
    requires TookLowest(l, d, d2)
    ensures FreeBlocks(l, d2) <= FreeBlocks(l, d)
  {
    hide Used;
  }

  lemma {:induction false} TakenAre(l: Layout, d: Disk, r: seq<nat>, d2: Disk, r2: seq<nat>)
    requires WfDisk(l, d) && |r| == |r2| == NUM_REFS && UsedRefs(l, d, r) && UsedRefs(l, d2, r2) && DistinctRefs(r2)
    requires Accounts(l, d, r, d2, r2) && forall s :: 0 <= s < NUM_REFS && r[s] != 0 ==> r2[s] == r[s]
    ensures forall b: nat :: b in FreeBlocks(l, d) - FreeBlocks(l, d2)
                             <==> exists s: nat :: Fills(r, r2, s) && r2[s] == b
  {
    hide Used;
    forall b: nat
      ensures b in FreeBlocks(l, d) - FreeBlocks(l, d2) <==> exists s: nat :: Fills(r, r2, s) && r2[s] == b
    {
      if b in FreeBlocks(l, d) - FreeBlocks(l, d2) {
        assert b in r2;
        var s :| 0 <= s < |r2| && r2[s] == b;
        assert Fills(r, r2, s);
      }
      if s: nat :| Fills(r, r2, s) && r2[s] == b {
        assert b !in r;
      }
    }
  }

  // Every block logged lies on the disk.
  lemma {:induction false} LoggedOnDisk(l: Layout, d2: Disk, ino: nat, r: seq<nat>, s: nat, x: nat)
    requires WfDisk(l, d2) && ino < l.numInodes && |r| == NUM_REFS && UsedRefs(l, d2, r) && IndirectFirst(r)
    requires s < NUM_REFS && r[s] != 0 && SlotLogs(l, ino, r, s, x)
    ensures x < l.numBlocks
  {
    hide Used;
  }

  // A direct place is filled only where the file grows.
  lemma {:induction false} DirectGrows(r: seq<nat>, size: nat, offset: nat, count: nat, s: nat)
    requires |r| == NUM_REFS && Dense(r, size) && s < NUM_DIRECT && s in Missing(r, Need(offset, count))
    ensures size < offset + count
  {
    var k: nat :| Touches(offset, count, k) && s in SlotsOf(k);
    assert k == s && r[RefOf(s)] == 0;
  }

  // What has been logged, from what was filled, ...
  lemma {:induction false} LoggedIsPlanned(l: Layout, d: Disk, e: Entry, ino: nat, r2: seq<nat>, offset: nat,
                                           count: nat, x: nat)
    requires WfInode(l, d, e) && |r2| == NUM_REFS && count > 0 && IndirectFirst(r2)
    requires var r := Refs(d, e);
             var gap := Missing(r, Need(offset, count));
             && (forall s :: 0 <= s < NUM_REFS && r[s] != 0 ==> r2[s] == r[s])
             && (forall s: nat :: Fills(r, r2, s) <==> s in gap && s < NUM_REFS)
             && (forall b: nat :: b in Lowest(l, d, |gap|) <==> exists s: nat :: Fills(r, r2, s) && r2[s] == b)
             && Missing(r2, Need(offset, count)) == {}
    requires MapLogs(l, ino, Refs(d, e), r2, x) || DataLogs(r2, offset, count, x)
    ensures Planned(l, d, e, ino, offset, count, x)
  {
    hide Used, Lowest, BitmapBlock, InodeBlock, Need, Listed;
    var r := Refs(d, e);
    assert r[NUM_DIRECT] == e.indirect;
    if DataLogs(r2, offset, count, x) {
      var k: nat :| k < MAX_BLOCKS && Touches(offset, count, k) && x == r2[RefOf(k)];
      Filled(r2, offset, count, k);
      if r[RefOf(k)] == 0 { assert Fills(r, r2, RefOf(k)); }
    } else {
      var s: nat :| Fills(r, r2, s) && SlotLogs(l, ino, r2, s, x);
      if s < NUM_DIRECT { DirectGrows(r, e.size, offset, count, s); }
      if NUM_DIRECT < s && e.indirect == 0 { assert Fills(r, r2, NUM_DIRECT); }
    }
  }

  lemma {:induction false} Filled(r: seq<nat>, offset: nat, count: nat, k: nat)
    requires |r| == NUM_REFS && k < MAX_BLOCKS && Touches(offset, count, k) && Missing(r, Need(offset, count)) == {}
    ensures r[RefOf(k)] != 0
  {
    assert LeadsTo(offset, count, RefOf(k));
    assert RefOf(k) !in Missing(r, Need(offset, count));
  }

  // ... and the other way round.
  lemma {:induction false} PlannedIsLogged(l: Layout, d: Disk, e: Entry, ino: nat, r2: seq<nat>, offset: nat,
                                           count: nat, x: nat)
    requires |e.addrs| == NUM_DIRECT && |r2| == NUM_REFS
    requires var r := Refs(d, e);
             var gap := Missing(r, Need(offset, count));
             && (forall s :: 0 <= s < NUM_REFS && r[s] != 0 ==> r2[s] == r[s])
             && (forall s: nat :: Fills(r, r2, s) <==> s in gap && s < NUM_REFS)
             && (forall b: nat :: b in Lowest(l, d, |gap|) <==> exists s: nat :: Fills(r, r2, s) && r2[s] == b)
    requires Planned(l, d, e, ino, offset, count, x)
    ensures || MapLogs(l, ino, Refs(d, e), r2, x) || DataLogs(r2, offset, count, x)
            || (x == InodeBlock(l, ino) && e.size < offset + count)
  {
    hide Used, Lowest, BitmapBlock, InodeBlock, Need, Listed;
    var r := Refs(d, e);
    var gap := Missing(r, Need(offset, count));
    assert r[NUM_DIRECT] == e.indirect;
    if x != 0 && DataLogs(r, offset, count, x) {
      var k: nat :| k < MAX_BLOCKS && Touches(offset, count, k) && x == r[RefOf(k)];
      assert r2[RefOf(k)] == x;
    } else if x in Lowest(l, d, |gap|) {
      var s: nat :| Fills(r, r2, s) && r2[s] == x;
      assert SlotLogs(l, ino, r2, s, x);
    } else if BitmapOf(l, Lowest(l, d, |gap|), x) {
      var b :| b in Lowest(l, d, |gap|) && x == BitmapBlock(l, b);
      var s: nat :| Fills(r, r2, s) && r2[s] == b;
      assert SlotLogs(l, ino, r2, s, x);
    } else if x == e.indirect && x != 0 && exists s :: s in gap && NUM_DIRECT < s {
      var s :| s in gap && NUM_DIRECT < s;
      assert Fills(r, r2, s) && SlotLogs(l, ino, r2, s, x);
    }
  }

  lemma {:induction false} RefsIndirectFirst(d: Disk, e: Entry)
    requires |e.addrs| == NUM_DIRECT
    ensures IndirectFirst(Refs(d, e))
  {
    assert Refs(d, e)[NUM_DIRECT] == e.indirect;
  }

  lemma {:induction false} FilledAll(l: Layout, d: Disk, e: Entry, offset: nat, count: nat)
    requires WfInode(l, d, e) && offset + count <= e.size
    ensures Missing(Refs(d, e), Need(offset, count)) == {}
  {
    hide Used, Need, Missing, Refs;
    DenseBelow(Refs(d, e), offset + count, e.size);
    RefsIndirectFirst(d, e);
    AllFilled(Refs(d, e), offset, count);
  }

  lemma {:induction false} GrewKeeps(r: seq<nat>, r2: seq<nat>, need: set<nat>)
    requires |r| == NUM_REFS && SlotsGrew(r, r2, need)
    ensures |r2| == NUM_REFS && forall s :: 0 <= s < NUM_REFS && r[s] != 0 ==> r2[s] == r[s]
  {
  }

  lemma {:induction false} LoggedRange(l: Layout, d: Disk, r0: seq<nat>, r: seq<nat>, ino: nat, offset: nat, count: nat,
                                       x: nat)
    requires WfDisk(l, d) && ino < l.numInodes && |r0| == |r| == NUM_REFS && UsedRefs(l, d, r) && IndirectFirst(r)
    requires Missing(r, Need(offset, count)) == {}
    requires MapLogs(l, ino, r0, r, x) || DataLogs(r, offset, count, x)
    ensures x < l.numBlocks
  {
    hide Used, BitmapBlock, InodeBlock, Need;
    if MapLogs(l, ino, r0, r, x) {
      var s: nat :| Fills(r0, r, s) && SlotLogs(l, ino, r, s, x);
      LoggedOnDisk(l, d, ino, r, s, x);
    } else {
      var k: nat :| k < MAX_BLOCKS && Touches(offset, count, k) && x == r[RefOf(k)];
      Filled(r, offset, count, k);
    }
  }

  // The blocks a whole inode_write has logged are the planned ones.
  lemma {:induction false} PlanIs(l: Layout, d: Disk, e: Entry, d2: Disk, e2: Entry, ino: nat, log0: set<nat>,
                                  log: set<nat>, offset: nat, count: nat)
    requires WfDisk(l, d) && WfInode(l, d, e) && WfDisk(l, d2) && WfInode(l, d2, e2) && ino < l.numInodes
    requires offset <= e.size && offset + count <= e2.size && (e.size < offset + count ==> InodeBlock(l, ino) in log)
    requires Accounts(l, d, Refs(d, e), d2, Refs(d2, e2)) && TookLowest(l, d, d2)
    requires SlotsGrew(Refs(d, e), Refs(d2, e2), Need(offset, count))
    requires forall x: nat :: x in log <==>
               || x in log0 || MapLogs(l, ino, Refs(d, e), Refs(d2, e2), x) || DataLogs(Refs(d2, e2), offset, count, x)
               || (x == InodeBlock(l, ino) && e.size < offset + count)
    ensures log == log0 + Plan(l, d, e, ino, offset, count)
  {
    hide Used, Lowest, BitmapBlock, Need, Missing, SlotsGrew, Accounts, TookLowest, Dense, Planned, Refs, MapLogs,
         FreeBlocks, DataLogs, UsedRefs;
    var r, r2 := Refs(d, e), Refs(d2, e2);
    RefsIndirectFirst(d2, e2);
    FilledAll(l, d2, e2, offset, count);
    FilledLowest(l, d, r, d2, r2, Need(offset, count));
    GrewKeeps(r, r2, Need(offset, count));
    forall x: nat ensures x in log <==> x in log0 || x in Plan(l, d, e, ino, offset, count) {
      if MapLogs(l, ino, r, r2, x) || DataLogs(r2, offset, count, x) {
        LoggedRange(l, d2, r, r2, ino, offset, count, x);
      }
      if count == 0 {
        NothingLogged(l, d, e, ino, r2, offset, x);
      } else if MapLogs(l, ino, r, r2, x) || DataLogs(r2, offset, count, x) {
        LoggedIsPlanned(l, d, e, ino, r2, offset, count, x);
      } else if Planned(l, d, e, ino, offset, count, x) {
        PlannedIsLogged(l, d, e, ino, r2, offset, count, x);
      } else {
        NotPlanned(l, d, e, ino, offset, count, x);
      }
    }
  }

  lemma {:induction false} NotPlanned(l: Layout, d: Disk, e: Entry, ino: nat, offset: nat, count: nat, x: nat)
    requires |e.addrs| == NUM_DIRECT && count > 0 && !Planned(l, d, e, ino, offset, count, x)
    ensures !(x == InodeBlock(l, ino) && e.size < offset + count)
  {
  }

  lemma {:induction false} NothingLogged(l: Layout, d: Disk, e: Entry, ino: nat, r2: seq<nat>, offset: nat, x: nat)
    requires WfInode(l, d, e) && offset <= e.size && |r2| == NUM_REFS
    requires forall s: nat :: Fills(Refs(d, e), r2, s) <==> s in Missing(Refs(d, e), Need(offset, 0)) && s < NUM_REFS
    ensures !MapLogs(l, ino, Refs(d, e), r2, x) && !DataLogs(r2, offset, 0, x)
    ensures !Planned(l, d, e, ino, offset, 0, x)
  {
    hide Used, Need;
    FilledAll(l, d, e, offset, 0);
  }

  // ---- inode_clear

  // Between the blocks r0 and the blocks r of the file some have been freed.
  ghost predicate ClearLog(l: Layout, log0: set<nat>, r0: seq<nat>, log: set<nat>, r: seq<nat>) {
    && |r| == |r0| && (forall s :: 0 <= s < |r| ==> r[s] == r0[s] || r[s] == 0)
    && forall x: nat :: x in log <==> x in log0 || exists s: nat :: Freed(r0, r, s) && x == BitmapBlock(l, r0[s])
  }

  predicate Freed(r0: seq<nat>, r: seq<nat>, s: nat) { s < |r0| == |r| && r0[s] != 0 && r[s] == 0 }

  lemma {:induction false} ClearLogStart(l: Layout, log: set<nat>, r: seq<nat>)
    ensures ClearLog(l, log, r, log, r)
  {
  }

  lemma {:induction false} ClearLogMore(l: Layout, log0: set<nat>, r0: seq<nat>, log: set<nat>, r: seq<nat>, s: nat)
    requires ClearLog(l, log0, r0, log, r) && s < |r|
    ensures r[s] == 0 ==> ClearLog(l, log0, r0, log, r[s := 0])
    ensures r[s] != 0 ==> ClearLog(l, log0, r0, log + {BitmapBlock(l, r[s])}, r[s := 0])
  {
    hide BitmapBlock;
    var r2 := r[s := 0];
    if r[s] == 0 {
      assert r2 == r;
    } else {
      var b := BitmapBlock(l, r[s]);
      assert Freed(r0, r2, s);
      forall t: nat ensures Freed(r0, r2, t) <==> Freed(r0, r, t) || t == s { }
    }
  }

  // What inode_clear has to log: the inode, and the bitmap blocks of all the blocks of the file.
  ghost function ClearPlan(l: Layout, ino: nat, r: seq<nat>): set<nat> {
    {InodeBlock(l, ino)} + set b | b in r && b != 0 :: BitmapBlock(l, b)
  }

  lemma {:induction false} ClearPlanIs(l: Layout, ino: nat, log0: set<nat>, r0: seq<nat>, log: set<nat>, r: seq<nat>)
    requires ClearLog(l, log0, r0, log, r) && forall s :: 0 <= s < |r| ==> r[s] == 0
    ensures log + {InodeBlock(l, ino)} == log0 + ClearPlan(l, ino, r0)
  {
    hide BitmapBlock, InodeBlock;
    forall b | b in r0 && b != 0 ensures BitmapBlock(l, b) in log {
      var s :| 0 <= s < |r0| && r0[s] == b;
      assert Freed(r0, r, s);
    }
  }

  // All blocks from a to b.
  ghost function Range(a: nat, b: nat): (s: set<nat>)
    requires a <= b
    ensures |s| == b - a && forall x: nat :: x in s <==> a <= x < b
  {
    if a == b then {} else Range(a, b - 1) + {b - 1}
  }

  // However many blocks there are, that is at most the bitmap and the inode.
  lemma {:induction false} ClearPlanBound(l: Layout, d: Disk, ino: nat, r: seq<nat>)
    requires ValidLayout(l) && UsedRefs(l, d, r)
    ensures |ClearPlan(l, ino, r)| <= 1 + l.dataStart - l.bitmapStart
  {
    hide Used;
    var all := Range(l.bitmapStart, l.dataStart) + {InodeBlock(l, ino)};
    forall b | b in r && b != 0 ensures BitmapBlock(l, b) in all {
      var s :| 0 <= s < |r| && r[s] == b;
    }
    SubsetCard(ClearPlan(l, ino, r), all);
  }

  // ---- where the logged blocks lie

  lemma {:induction false} PlanArea(l: Layout, d: Disk, e: Entry, ino: nat, offset: nat, count: nat, x: nat)
    requires WfDisk(l, d) && WfInode(l, d, e) && x in Plan(l, d, e, ino, offset, count)
    ensures l.inodeStart <= x < l.numBlocks
  {
    hide Used, Need, Missing, Listed;
    var r := Refs(d, e);
    assert r[NUM_DIRECT] == e.indirect;
    if x != 0 && DataLogs(r, offset, count, x) {
      var k: nat :| k < MAX_BLOCKS && Touches(offset, count, k) && x == r[RefOf(k)];
    }
  }

  lemma {:induction false} ClearPlanArea(l: Layout, d: Disk, ino: nat, r: seq<nat>, x: nat)
    requires ValidLayout(l) && UsedRefs(l, d, r) && ino < l.numInodes && x in ClearPlan(l, ino, r)
    ensures l.inodeStart <= x < l.numBlocks
  {
    hide Used;
    if x != InodeBlock(l, ino) {
      var b :| b in r && b != 0 && x == BitmapBlock(l, b);
      var s :| 0 <= s < |r| && r[s] == b;
    }
  }
}
