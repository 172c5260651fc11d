/** The budget of an operation is no larger than file_write needs: on a disk whose free blocks lie far apart, a piece
    that starts inside a block and runs over the last direct block logs OP_MAX_NUM_BLOCKS blocks. */
module InodeBudget {

  import opened Basics
  import opened LogFormat
  import opened FsLayout
  import opened FsFile
  import opened FsRoom
  import opened FsLog
  import opened InodeSteps
  import opened InodeLayer

  // Room for four bitmap blocks, for data behind the first, and for an inode for each block.
  predicate Spread(l: Layout) {
    && ValidLayout(l) && l.dataStart + NUM_DIRECT < BIT_PER_BLOCK && 3 * BIT_PER_BLOCK < l.numBlocks
    && l.numBlocks <= l.numInodes
  }

  // The only free blocks, each in the range of another bitmap block.
  function Hole(l: Layout, i: nat): nat { if i == 0 then l.dataStart + NUM_DIRECT else BIT_PER_BLOCK * i }

  function Holes(l: Layout): set<nat> { {Hole(l, 0), Hole(l, 1), Hole(l, 2), Hole(l, 3)} }

  // One byte into the last direct block.
  const SIZE: nat := (NUM_DIRECT - 1) * BLOCK_SIZE + 1

  ghost predicate Tight(l: Layout, d: Disk, e: Entry, ino: nat) {
    && Spread(l) && ino < l.numInodes && WfDisk(l, d) && WfInode(l, d, e) && EntryAt(l, d, ino) == e
    && e.size == SIZE && e.indirect == 0
    && (forall b: nat :: b < l.numBlocks ==> (Used(l, d, b) <==> b !in Holes(l)))
  }

  // ---- what such a piece needs

  lemma {:induction false} Needs(s: nat)
    ensures s in Need(SIZE, CHUNK) <==> 11 <= s <= 15
  {
    assert Touches(SIZE, CHUNK, 11) && Touches(SIZE, CHUNK, 12) && Touches(SIZE, CHUNK, 13) && Touches(SIZE, CHUNK, 14);
    assert 11 in SlotsOf(11) && 12 in SlotsOf(12) && 13 in SlotsOf(12) && 14 in SlotsOf(13) && 15 in SlotsOf(14);
    if LeadsTo(SIZE, CHUNK, s) {
      var k: nat :| Touches(SIZE, CHUNK, k) && s in SlotsOf(k);
      assert 11 <= k <= 14;
    }
  }

  lemma {:induction false} FourFree(l: Layout, d: Disk, e: Entry, ino: nat)
    requires Tight(l, d, e, ino)
    ensures FreeBlocks(l, d) == Holes(l) && |Holes(l)| == 4
  {
    hide Used, EntryAt, WfInode;
  }

  lemma {:induction false} FourMissing(l: Layout, d: Disk, e: Entry, ino: nat)
    requires Tight(l, d, e, ino)
    ensures |e.addrs| == NUM_DIRECT && Missing(Refs(d, e), Need(SIZE, CHUNK)) == {12, 13, 14, 15}
  {
    hide Used, EntryAt, Need;
    var r := Refs(d, e);
    forall s: nat ensures s in Need(SIZE, CHUNK) <==> 11 <= s <= 15 { Needs(s); }
    assert 11 * BLOCK_SIZE < e.size && r[RefOf(11)] != 0;
  }

  // Four blocks that are far apart are the four lowest.
  lemma {:induction false} LowestFour(l: Layout, d: Disk, e: Entry, ino: nat)
    requires Tight(l, d, e, ino)
    ensures Lowest(l, d, 4) == Holes(l)
  {
    hide Used, EntryAt, WfInode, FreeBlocks;
    FourFree(l, d, e, ino);
    forall b | b in Holes(l) ensures |Below(l, d, b)| < 4 {
      assert Below(l, d, b) <= Holes(l) - {b};
      SubsetCard(Below(l, d, b), Holes(l) - {b});
    }
  }

  // The inode, the last direct block, the four free blocks and their four bitmap blocks.
  function Ten(l: Layout, ino: nat): set<nat> {
    {InodeBlock(l, ino), l.dataStart + 11, Hole(l, 0), Hole(l, 1), Hole(l, 2), Hole(l, 3)}
    + {l.bitmapStart, l.bitmapStart + 1, l.bitmapStart + 2, l.bitmapStart + 3}
  }

  lemma {:induction false} TenCard(l: Layout, ino: nat)
    requires Spread(l) && ino < l.numInodes
    ensures |Ten(l, ino)| == 10
  {
    assert l.bitmapStart + 3 < l.dataStart && InodeBlock(l, ino) < l.bitmapStart;
  }

  lemma {:induction false} BitmapOfHole(l: Layout, i: nat)
    requires Spread(l) && i < 4
    ensures BitmapBlock(l, Hole(l, i)) == l.bitmapStart + i
  {
  }

  lemma {:induction false} PlanIsTen(l: Layout, d: Disk, e: Entry, ino: nat, x: nat)
    requires Tight(l, d, e, ino) && e.addrs[11] == l.dataStart + 11
    ensures x in Plan(l, d, e, ino, SIZE, CHUNK) <==> x in Ten(l, ino)
  {
    hide Used, EntryAt, Need, Missing, Lowest, Hole, BitmapBlock, InodeBlock, WfDisk;
    FourMissing(l, d, e, ino);
    LowestFour(l, d, e, ino);
    LastDirect(d, e, x);
    BitmapsOfHoles(l, x);
    if x in Ten(l, ino) { InRange(l, ino, x); }
  }

  lemma {:induction false} BitmapsOfHoles(l: Layout, x: nat)
    requires Spread(l)
    ensures BitmapOf(l, Holes(l), x) <==> l.bitmapStart <= x <= l.bitmapStart + 3
  {
    hide Hole, BitmapBlock;
    BitmapOfHole(l, 0);
    BitmapOfHole(l, 1);
    BitmapOfHole(l, 2);
    BitmapOfHole(l, 3);
    assert Hole(l, 0) in Holes(l) && Hole(l, 1) in Holes(l) && Hole(l, 2) in Holes(l) && Hole(l, 3) in Holes(l);
  }

  // Of the blocks the piece touches only the last direct one is there.
  lemma {:induction false} LastDirect(d: Disk, e: Entry, x: nat)
    requires |e.addrs| == NUM_DIRECT && e.indirect == 0
    ensures x != 0 && DataLogs(Refs(d, e), SIZE, CHUNK, x) <==> x != 0 && x == e.addrs[11]
  {
    assert Touches(SIZE, CHUNK, 11) && Refs(d, e)[RefOf(11)] == e.addrs[11];
    forall k: nat | Touches(SIZE, CHUNK, k) ensures 11 <= k <= 14 { }
    assert forall k :: 12 <= k <= 14 ==> Refs(d, e)[RefOf(k)] == 0;
  }

  lemma {:induction false} InRange(l: Layout, ino: nat, x: nat)
    requires Spread(l) && ino < l.numInodes && x in Ten(l, ino)
    ensures x < l.numBlocks
  {
  }

  // ---- such a disk

  function OnesBlock(): (b: Block)
    ensures forall i :: 0 <= i < |b| ==> b[i] == 255
  {
    seq(BLOCK_SIZE, _ => 255)
  }

  lemma {:induction false} AllSet(i: nat)
    requires i < BIT_PER_BLOCK
    ensures BitIn(OnesBlock(), i)
  {
    assert Pow2(8) == 16 * Pow2(4) && Pow2(4) == 16 * Pow2(0);
    F.LowOnes(8, 8, i % 8);
  }

  function FullBlock(l: Layout, b: nat): Block {
    if l.bitmapStart <= b < l.dataStart then OnesBlock() else ZeroBlock()
  }

  function FullDisk(l: Layout): (d: Disk)
    ensures |d| == l.numBlocks && forall b: nat :: b < |d| ==> d[b] == FullBlock(l, b)
  {
    seq(l.numBlocks, b requires 0 <= b => FullBlock(l, b))
  }

  // All blocks used but the holes.
  function HoledDisk(l: Layout): (d: Disk)
    requires Spread(l)
    ensures |d| == l.numBlocks
  {
    var d1 := PutBit(l, FullDisk(l), Hole(l, 0), false);
    var d2 := PutBit(l, d1, Hole(l, 1), false);
    var d3 := PutBit(l, d2, Hole(l, 2), false);
    PutBit(l, d3, Hole(l, 3), false)
  }

  function FileEntry(l: Layout): (e: Entry)
    requires Spread(l)
    ensures Fits(e) && e.size == SIZE && e.indirect == 0
    ensures forall k :: 0 <= k < NUM_DIRECT ==> e.addrs[k] == l.dataStart + k
  {
    Entry(0, 0, 0, 0, SIZE, seq(NUM_DIRECT, k requires 0 <= k < NUM_DIRECT => l.dataStart + k), 0)
  }

  lemma {:induction false} FullIsUsed(l: Layout, b: nat)
    requires Spread(l) && b < l.numBlocks
    ensures Used(l, FullDisk(l), b)
  {
    hide BitIn;
    AllSet(b % BIT_PER_BLOCK);
  }

  lemma {:induction false} HoledFacts(l: Layout)
    requires Spread(l)
    ensures forall b: nat :: b < l.numBlocks ==> (Used(l, HoledDisk(l), b) <==> b !in Holes(l))
  {
    hide Used, BitIn, PutBitIn;
    var d0 := FullDisk(l);
    var d1 := PutBit(l, d0, Hole(l, 0), false);
    var d2 := PutBit(l, d1, Hole(l, 1), false);
    var d3 := PutBit(l, d2, Hole(l, 2), false);
    FreeFacts(l, d0, Hole(l, 0));
    FreeFacts(l, d1, Hole(l, 1));
    FreeFacts(l, d2, Hole(l, 2));
    FreeFacts(l, d3, Hole(l, 3));
    forall b: nat | b < l.numBlocks ensures Used(l, d0, b) { FullIsUsed(l, b); }
  }

  // Each block in use but those of the file belongs to the inode of its number.
  function Owner(l: Layout, ino: nat, j: nat): (e: Entry)
    requires Spread(l) && j < l.numInodes
    ensures Fits(e)
  {
    if j == ino then FileEntry(l)
    else
      var b := if l.dataStart + NUM_DIRECT <= j < l.numBlocks && j !in Holes(l) then j else 0;
      Entry(0, 0, 0, 0, 0, NoAddrs()[0 := b], 0)
  }

  function OwnedDisk(l: Layout, ino: nat, n: nat): (d: Disk)
    requires Spread(l) && n <= l.numInodes
    ensures |d| == l.numBlocks
  {
    if n == 0 then HoledDisk(l) else PutEntry(l, OwnedDisk(l, ino, n - 1), n - 1, Owner(l, ino, n - 1))
  }

  lemma {:induction false} OwnedFacts(l: Layout, ino: nat, n: nat)
    requires Spread(l) && n <= l.numInodes
    ensures forall b: nat :: b < l.numBlocks ==> (Used(l, OwnedDisk(l, ino, n), b) <==> b !in Holes(l))
    ensures forall j: nat :: j < n ==> EntryAt(l, OwnedDisk(l, ino, n), j) == Owner(l, ino, j)
  {
    hide Used, EntryAt, HoledDisk, PutEntry, Owner, Holes;
    if n == 0 {
      HoledFacts(l);
    } else {
      OwnedFacts(l, ino, n - 1);
      EntryWriteFacts(l, OwnedDisk(l, ino, n - 1), n - 1, Owner(l, ino, n - 1));
    }
  }

  // The only block of such an inode.
  lemma {:induction false} OwnerRefs(l: Layout, ino: nat, d: Disk, j: nat)
    requires Spread(l) && j < l.numInodes
    ensures var r := Refs(d, Owner(l, ino, j));
            if j == ino then forall s :: 0 <= s < NUM_REFS ==> r[s] == if s < NUM_DIRECT then l.dataStart + s else 0
            else && (forall s :: 0 < s < NUM_REFS ==> r[s] == 0)
                 && r[0] == if l.dataStart + NUM_DIRECT <= j < l.numBlocks && j !in Holes(l) then j else 0
  {
  }

  lemma {:induction false} OwnerWf(l: Layout, ino: nat, d: Disk, j: nat)
    requires Spread(l) && j < l.numInodes && forall b: nat :: b < l.numBlocks ==> (Used(l, d, b) <==> b !in Holes(l))
    ensures WfInode(l, d, Owner(l, ino, j))
  {
    hide Used, Refs;
    OwnerRefs(l, ino, d, j);
    if j == ino { assert forall k: nat :: k * BLOCK_SIZE < SIZE ==> k < NUM_DIRECT; }
  }

  lemma {:induction false} OwnersApart(l: Layout, ino: nat, d: Disk, i: nat, j: nat)
    requires Spread(l) && i < l.numInodes && j < l.numInodes && i != j
    ensures Apart(Refs(d, Owner(l, ino, i)), Refs(d, Owner(l, ino, j)))
  {
    hide Owner, Refs, Holes;
    OwnerRefs(l, ino, d, i);
    OwnerRefs(l, ino, d, j);
  }

  // A file system in which all the blocks but the four have their owner.
  lemma {:induction false} OwnedInv(l: Layout, ino: nat)
    requires Spread(l) && ino < l.dataStart
    ensures FsInv(l, OwnedDisk(l, ino, l.numInodes))
  {
    hide Used, EntryAt, OwnedDisk, Owner, Refs, Apart, WfInode;
    var d := OwnedDisk(l, ino, l.numInodes);
    OwnedFacts(l, ino, l.numInodes);
    forall j: nat | j < l.numInodes ensures WfInode(l, d, EntryAt(l, d, j)) { OwnerWf(l, ino, d, j); }
    forall i: nat, j: nat | i < l.numInodes && j < l.numInodes && i != j
      ensures Apart(RefsAt(l, d, i), RefsAt(l, d, j))
    {
      OwnersApart(l, ino, d, i, j);
    }
    forall b: nat | InData(l, b) && Used(l, d, b) ensures Owned(l, d, b) {
      OwnerRefs(l, ino, d, ino);
      OwnerRefs(l, ino, d, b);
      if b < l.dataStart + NUM_DIRECT {
        assert RefsAt(l, d, ino)[b - l.dataStart] == b;
      } else {
        assert RefsAt(l, d, b)[0] == b;
      }
    }
  }

  // A consistent file system with a file and a piece as file_write makes them, for which the budget of an operation is
  // just what inode_write has to log.
  lemma {:induction false} BudgetIsTight(l: Layout, ino: nat) returns (d: Disk, e: Entry)
    requires Spread(l) && ino < l.dataStart
    ensures FsInv(l, d) && WfInode(l, d, e) && EntryAt(l, d, ino) == e
    ensures e.size + CHUNK <= MAX_BYTES && HasRoom(l, d, e, e.size, CHUNK)
    ensures |Plan(l, d, e, ino, e.size, CHUNK)| == OP_MAX_NUM_BLOCKS
  {
    hide Used, EntryAt, OwnedDisk, Refs, Need, Missing, Lowest, WfInode, Plan, Ten;
    d, e := OwnedDisk(l, ino, l.numInodes), FileEntry(l);
    OwnedFacts(l, ino, l.numInodes);
    OwnedInv(l, ino);
    OwnerWf(l, ino, d, ino);
    FourFree(l, d, e, ino);
    FourMissing(l, d, e, ino);
    forall x: nat ensures x in Plan(l, d, e, ino, SIZE, CHUNK) <==> x in Ten(l, ino) { PlanIsTen(l, d, e, ino, x); }
    assert Plan(l, d, e, ino, SIZE, CHUNK) == Ten(l, ino);
    TenCard(l, ino);
  }
}
