/** The steps of inode_map, inode_write and inode_clear on the disk, and what each does to the content of the file. */
module InodeSteps {

  import opened Basics
  import opened LogFormat
  import opened FsLayout
  import opened FsFile

  // ---- an operation on the inode so far

  // The file has at least the blocks it had, its data is where and what it was, and nothing else has changed.
  ghost predicate Grew(l: Layout, d: Disk, e: Entry, d2: Disk, e2: Entry, ino: nat)
    requires |e.addrs| == NUM_DIRECT == |e2.addrs|
  {
    && e2 == e.(addrs := e2.addrs, indirect := e2.indirect) && (e.indirect != 0 ==> e2.indirect == e.indirect)
    && Evolves(l, d, Refs(d, e), d2, Refs(d2, e2), ino) && DataKept(d, Refs(d, e), d2, Refs(d2, e2))
  }

  ghost predicate WfFile(l: Layout, d: Disk, e: Entry) { WfDisk(l, d) && Fits(e) && WfRefs(l, d, Refs(d, e)) }

  lemma {:induction false} GrewTrans(l: Layout, d: Disk, e: Entry, d2: Disk, e2: Entry, d3: Disk, e3: Entry, ino: nat)
    requires WfFile(l, d, e) && WfFile(l, d2, e2) && WfFile(l, d3, e3)
    requires Grew(l, d, e, d2, e2, ino) && Grew(l, d2, e2, d3, e3, ino)
    ensures Grew(l, d, e, d3, e3, ino)
  {
    hide BlockWords, EntryAt, Used;
    EvolvesTrans(l, d, Refs(d, e), d2, Refs(d2, e2), d3, Refs(d3, e3), ino);
  }

  lemma {:induction false} WfDiskKept(l: Layout, d: Disk, r: seq<nat>, d2: Disk, r2: seq<nat>)
    requires WfDisk(l, d) && UsedRefs(l, d, r) && |d2| == |d| && Accounts(l, d, r, d2, r2)
    ensures WfDisk(l, d2)
  {
    hide BlockWords, EntryAt, Used;
    forall b: nat | b < l.dataStart ensures Used(l, d2, b) {
      assert 0 < b ==> b !in r;
    }
  }

  lemma {:induction false} IndirectIsRef(l: Layout, d: Disk, e: Entry)
    requires WfFile(l, d, e) && e.indirect != 0
    ensures InData(l, e.indirect) && Used(l, d, e.indirect)
    ensures forall k: nat :: k < MAX_BLOCKS ==> Refs(d, e)[RefOf(k)] != e.indirect
  {
    hide BlockWords, EntryAt, Used;
    var r := Refs(d, e);
    assert r[NUM_DIRECT] == e.indirect;
  }

  // ---- inode_map, one allocation at a time

  // The free block b is taken, and the block w of the file (if not 0) and the inode may be written.
  ghost predicate Taken(l: Layout, d: Disk, d2: Disk, b: nat, w: nat, ino: nat) {
    && |d2| == |d|
    && (forall x: nat :: x < l.inodeStart ==> At(d2, x) == At(d, x))
    && (forall x: nat :: InData(l, x) && x != b && (w == 0 || x != w) ==> At(d2, x) == At(d, x))
    && (forall x: nat :: x < l.numBlocks ==> Used(l, d2, x) == (Used(l, d, x) || x == b))
    && EntriesKept(l, d, d2, ino)
  }

  lemma {:induction false} TakenKeeps(l: Layout, d: Disk, r: seq<nat>, d2: Disk, i: nat, b: nat, w: nat, ino: nat)
    requires WfDisk(l, d) && |r| == NUM_REFS && WfRefs(l, d, r) && i < NUM_REFS && r[i] == 0
    requires InData(l, b) && !Used(l, d, b) && Taken(l, d, d2, b, w, ino) && (w != 0 ==> r[NUM_DIRECT] == w)
    ensures OthersKept(l, d, r, d2) && DataKept(d, r, d2, r[i := b])
  {
    hide BlockWords, EntryAt, Used;
    forall x: nat | InData(l, x) && Used(l, d, x) && x !in r ensures At(d2, x) == At(d, x) {
      if w != 0 { assert w in r; }
    }
    forall k: nat | k < MAX_BLOCKS && r[RefOf(k)] != 0
      ensures r[i := b][RefOf(k)] == r[RefOf(k)] && At(d2, r[RefOf(k)]) == At(d, r[RefOf(k)])
    {
      assert w != 0 ==> r[RefOf(k)] != w;
    }
  }

  lemma {:induction false} TakenStep(l: Layout, d: Disk, e: Entry, d2: Disk, e2: Entry, i: nat, b: nat, w: nat,
                                     ino: nat)
    requires WfFile(l, d, e) && Fits(e2) && e2 == e.(addrs := e2.addrs, indirect := e2.indirect)
    requires e.indirect != 0 ==> e2.indirect == e.indirect
    requires i < NUM_REFS && Refs(d, e)[i] == 0 && InData(l, b) && !Used(l, d, b)
    requires Taken(l, d, d2, b, w, ino) && (w != 0 ==> e.indirect == w) && Refs(d2, e2) == Refs(d, e)[i := b]
    ensures WfFile(l, d2, e2) && Grew(l, d, e, d2, e2, ino)
  {
    hide BlockWords, EntryAt, Used;
    var r := Refs(d, e);
    assert r[NUM_DIRECT] == e.indirect;
    TakenKeeps(l, d, r, d2, i, b, w, ino);
    ListedRefs(l, d, r, d2, i, b);
    WfDiskKept(l, d, r, d2, r[i := b]);
  }

  // A new direct block; the inode is written back at once.
  lemma {:induction false} DirectStep(l: Layout, d: Disk, e: Entry, k: nat, b: nat, ino: nat)
    requires WfFile(l, d, e) && ino < l.numInodes && k < NUM_DIRECT && e.addrs[k] == 0
    requires b < l.numBlocks && !Used(l, d, b)
    ensures var e2 := e.(addrs := e.addrs[k := b]);
            && Fits(e2)
            && var d2 := PutEntry(l, Take(l, d, b), ino, e2);
               && WfFile(l, d2, e2) && Grew(l, d, e, d2, e2, ino) && EntryAt(l, d2, ino) == e2
               && Refs(d2, e2) == Refs(d, e)[k := b]
  {
    hide BlockWords, EntryAt, Used;
    TakeFacts(l, d, b);
    var d1 := Take(l, d, b);
    var e2 := e.(addrs := e.addrs[k := b]);
    EntryWriteFacts(l, d1, ino, e2);
    var d2 := PutEntry(l, d1, ino, e2);
    if e.indirect != 0 { IndirectIsRef(l, d, e); }
    RefsSame(d, d2, e);
    RefsPutDirect(d2, e, k, b);
    assert Refs(d, e)[k] == 0;
    TakenStep(l, d, e, d2, e2, k, b, 0, ino);
  }

  // The indirect block itself; the inode is not written back yet.
  lemma {:induction false} IndirectStep(l: Layout, d: Disk, e: Entry, b: nat, ino: nat)
    requires WfFile(l, d, e) && ino < l.numInodes && e.indirect == 0 && b < l.numBlocks && !Used(l, d, b)
    ensures var e2 := e.(indirect := b);
            var d2 := Take(l, d, b);
            && WfFile(l, d2, e2) && Grew(l, d, e, d2, e2, ino) && 0 < b < |d2| && d2[b] == ZeroBlock()
            && Refs(d2, e2) == Refs(d, e)[NUM_DIRECT := b]
  {
    hide BlockWords, EntryAt, Used;
    TakeFacts(l, d, b);
    var d2 := Take(l, d, b);
    RefsSame(d, d2, e);
    RefsPutIndirect(d2, e, b);
    assert Refs(d, e)[NUM_DIRECT] == 0;
    assert Taken(l, d, d2, b, 0, ino);
    TakenStep(l, d, e, d2, e.(indirect := b), NUM_DIRECT, b, 0, ino);
  }

  // A new block listed in the indirect block.
  lemma {:induction false} ListedStep(l: Layout, d: Disk, e: Entry, i: nat, b: nat, ino: nat)
    requires WfFile(l, d, e) && ino < l.numInodes && e.indirect != 0 && i < NUM_INDIRECT
    requires Refs(d, e)[NUM_DIRECT + 1 + i] == 0 && b < l.numBlocks && !Used(l, d, b)
    ensures e.indirect < |d| && b < U32
    ensures var d1 := Take(l, d, b);
            && |d1| == |d| && d1[e.indirect] == d[e.indirect]
            && var d2 := d1[e.indirect := PutWord(d1[e.indirect], i, b)];
               && WfFile(l, d2, e) && Grew(l, d, e, d2, e, ino)
               && Refs(d2, e) == Refs(d, e)[NUM_DIRECT + 1 + i := b]
  {
    hide BlockWords, EntryAt, Used;
    IndirectIsRef(l, d, e);
    TakeFacts(l, d, b);
    var d1 := Take(l, d, b);
    assert At(d1, e.indirect) == At(d, e.indirect);
    RefsSame(d, d1, e);
    var x := PutWord(d1[e.indirect], i, b);
    DataWriteFacts(l, d1, e.indirect, x);
    RefsPutWord(d1, e, i, b);
    TakenStep(l, d, e, d1[e.indirect := x], e, NUM_DIRECT + 1 + i, b, e.indirect, ino);
  }

  // ---- the bytes of a file

  // The first |c| bytes are there, and they are c.
  ghost predicate Holds(d: Disk, r: seq<nat>, c: seq<Byte>)
    requires |r| == NUM_REFS
  {
    && |c| <= MAX_BYTES && Dense(r, |c|)
    && forall i :: 0 <= i < |c| ==> ByteAt(d, r, i) == c[i]
  }

  lemma {:induction false} HoldsContent(d: Disk, e: Entry)
    requires |e.addrs| == NUM_DIRECT && e.size <= MAX_BYTES && Dense(Refs(d, e), e.size)
    ensures Holds(d, Refs(d, e), Content(d, e))
  {
    hide BlockWords, EntryAt, Used;
  }

  lemma {:induction false} ContentHeld(d: Disk, e: Entry, c: seq<Byte>)
    requires |e.addrs| == NUM_DIRECT && Holds(d, Refs(d, e), c) && e.size == |c|
    ensures Dense(Refs(d, e), e.size) && Content(d, e) == c
  {
    hide BlockWords, EntryAt, Used;
  }

  // Byte by byte, t has s from place o on and is otherwise as c; it ends where the longer of the two does.
  predicate Overwritten(c: seq<Byte>, o: nat, s: seq<Byte>, t: seq<Byte>)
    requires o <= |c|
  {
    && |t| == (if o + |s| <= |c| then |c| else o + |s|)
    && forall i :: 0 <= i < |t| ==> t[i] == if o <= i < o + |s| then s[i - o] else c[i]
  }

  // s in place of the bytes of c from o on.
  function Overlay(c: seq<Byte>, o: nat, s: seq<Byte>): (t: seq<Byte>)
    requires o <= |c|
    ensures Overwritten(c, o, s, t)
  {
    c[..o] + s + if o + |s| <= |c| then c[o + |s|..] else []
  }

  lemma {:induction false} OverlayMore(c: seq<Byte>, o: nat, s: seq<Byte>, t: seq<Byte>)
    requires o <= |c|
    ensures Overlay(Overlay(c, o, s), o + |s|, t) == Overlay(c, o, s + t)
  {
  }

  lemma {:induction false} DataKeptHolds(d: Disk, r: seq<nat>, d2: Disk, r2: seq<nat>, c: seq<Byte>)
    requires |r| == NUM_REFS == |r2| && DataKept(d, r, d2, r2) && Holds(d, r, c)
    ensures Holds(d2, r2, c)
  {
    hide BlockWords, EntryAt, Used;
    forall i | 0 <= i < |c| ensures ByteAt(d2, r2, i) == c[i] {
      var k := i / BLOCK_SIZE;
      assert k < MAX_BLOCKS && r[RefOf(k)] != 0;
    }
  }

  // A block of the file is written: neither the list of blocks nor the bitmap nor any other file changes.
  lemma {:induction false} DataStep(l: Layout, d: Disk, e: Entry, k: nat, x: Block, ino: nat)
    requires WfFile(l, d, e) && k < MAX_BLOCKS && Refs(d, e)[RefOf(k)] != 0
    ensures var b := Refs(d, e)[RefOf(k)];
            && b < |d|
            && var d2 := d[b := x];
               && WfFile(l, d2, e) && Refs(d2, e) == Refs(d, e) && Evolves(l, d, Refs(d, e), d2, Refs(d, e), ino)
               && (forall j: nat :: j < l.numInodes ==> EntryAt(l, d2, j) == EntryAt(l, d, j))
  {
    hide BlockWords, EntryAt, Used;
    var r := Refs(d, e);
    var b := r[RefOf(k)];
    DataWriteFacts(l, d, b, x);
    var d2 := d[b := x];
    if e.indirect != 0 { IndirectIsRef(l, d, e); }
    RefsSame(d, d2, e);
    assert b in r;
    WfDiskKept(l, d, r, d2, r);
  }

  // One round of the loop of inode_write: s goes to place bo of block k of the file.
  lemma {:induction false} PutHolds(d: Disk, r: seq<nat>, c: seq<Byte>, k: nat, bo: nat, s: seq<Byte>)
    requires |r| == NUM_REFS && DistinctRefs(r) && Holds(d, r, c) && k < MAX_BLOCKS && 0 < r[RefOf(k)] < |d|
    requires bo + |s| <= BLOCK_SIZE && k * BLOCK_SIZE + bo <= |c|
    ensures var x := Overlay(d[r[RefOf(k)]], bo, s);
            |x| == BLOCK_SIZE && Holds(d[r[RefOf(k)] := x], r, Overlay(c, k * BLOCK_SIZE + bo, s))
  {
    hide BlockWords, EntryAt, Used;
    var b := r[RefOf(k)];
    var x := Overlay(d[b], bo, s);
    var o := k * BLOCK_SIZE + bo;
    var c2 := Overlay(c, o, s);
    var d2 := d[b := x];
    forall j: nat | j < MAX_BLOCKS && j * BLOCK_SIZE < |c2| ensures r[RefOf(j)] != 0 {
      assert j * BLOCK_SIZE < |c| || j == k;
    }
    forall i | 0 <= i < |c2| ensures ByteAt(d2, r, i) == c2[i] {
      var j := i / BLOCK_SIZE;
      PutByte(d, r, c, k, bo, s, i);
    }
  }

  lemma {:induction false} PutByte(d: Disk, r: seq<nat>, c: seq<Byte>, k: nat, bo: nat, s: seq<Byte>, i: nat)
    requires |r| == NUM_REFS && DistinctRefs(r) && Holds(d, r, c) && k < MAX_BLOCKS && 0 < r[RefOf(k)] < |d|
    requires bo + |s| <= BLOCK_SIZE && k * BLOCK_SIZE + bo <= |c|
    requires i < |Overlay(c, k * BLOCK_SIZE + bo, s)| && i < MAX_BYTES
    ensures var x := Overlay(d[r[RefOf(k)]], bo, s);
            && |x| == BLOCK_SIZE
            && ByteAt(d[r[RefOf(k)] := x], r, i) == Overlay(c, k * BLOCK_SIZE + bo, s)[i]
  {
    hide BlockWords, EntryAt, Used;
    var b := r[RefOf(k)];
    var x := Overlay(d[b], bo, s);
    var o := k * BLOCK_SIZE + bo;
    var j := i / BLOCK_SIZE;
    if j == k {
      assert i % BLOCK_SIZE == i - k * BLOCK_SIZE;
      if i < |c| { assert d[b][i % BLOCK_SIZE] == c[i]; }
    } else {
      assert i < |c|;
      assert RefOf(j) != RefOf(k) && r[RefOf(j)] != b;
    }
  }

  // A whole round: the block has been found or allocated (d1, e1), and then s is put into it.
  lemma {:induction false} WriteStep(l: Layout, d: Disk, e: Entry, d1: Disk, e1: Entry, ino: nat, c: seq<Byte>, o: nat,
                                     s: seq<Byte>)
    requires WfFile(l, d, e) && WfFile(l, d1, e1) && Grew(l, d, e, d1, e1, ino) && Holds(d, Refs(d, e), c)
    requires o <= |c| && o < MAX_BYTES && o % BLOCK_SIZE + |s| <= BLOCK_SIZE && Refs(d1, e1)[RefOf(o / BLOCK_SIZE)] != 0
    ensures var b := Refs(d1, e1)[RefOf(o / BLOCK_SIZE)];
            && InData(l, b) && b < |d1|
            && var x := Overlay(d1[b], o % BLOCK_SIZE, s);
               && |x| == BLOCK_SIZE
               && var d2 := d1[b := x];
                  && WfFile(l, d2, e1) && Refs(d2, e1) == Refs(d1, e1)
                  && Evolves(l, d, Refs(d, e), d2, Refs(d2, e1), ino)
                  && Evolves(l, d1, Refs(d1, e1), d2, Refs(d2, e1), ino)
                  && Holds(d2, Refs(d2, e1), Overlay(c, o, s))
                  && (forall j: nat :: j < l.numInodes ==> EntryAt(l, d2, j) == EntryAt(l, d1, j))
  {
    hide BlockWords, EntryAt, Used, Refs, Overlay;
    var k, bo := o / BLOCK_SIZE, o % BLOCK_SIZE;
    var r1 := Refs(d1, e1);
    var b := r1[RefOf(k)];
    DataKeptHolds(d, Refs(d, e), d1, r1, c);
    PutHolds(d1, r1, c, k, bo, s);
    var x := Overlay(d1[b], bo, s);
    DataStep(l, d1, e1, k, x, ino);
    EvolvesTrans(l, d, Refs(d, e), d1, r1, d1[b := x], r1, ino);
  }

  // Only a block behind the end of the data so far is missing.
  lemma {:induction false} MissingBlock(r: seq<nat>, n: nat, o: nat)
    requires |r| == NUM_REFS && Dense(r, n) && o <= n && o < MAX_BYTES && r[RefOf(o / BLOCK_SIZE)] == 0
    ensures o == n && o % BLOCK_SIZE == 0
  {
  }

  // The inode is written back with a new size.
  lemma {:induction false} ResizeStep(l: Layout, d: Disk, e: Entry, ino: nat, c: seq<Byte>)
    requires WfFile(l, d, e) && ino < l.numInodes && Holds(d, Refs(d, e), c)
    ensures var e2 := e.(size := |c|);
            && Fits(e2)
            && var d2 := PutEntry(l, d, ino, e2);
               && WfFile(l, d2, e2) && Refs(d2, e2) == Refs(d, e) && EntryAt(l, d2, ino) == e2
               && Evolves(l, d, Refs(d, e), d2, Refs(d2, e2), ino) && Holds(d2, Refs(d2, e2), c)
  {
    hide BlockWords, EntryAt, Used, BitIn;
    var e2 := e.(size := |c|);
    EntryWriteFacts(l, d, ino, e2);
    var d2 := PutEntry(l, d, ino, e2);
    if e.indirect != 0 { IndirectIsRef(l, d, e); }
    RefsSame(d, d2, e);
    assert Refs(d2, e2) == Refs(d2, e);
    KeptHolds(l, d, Refs(d, e), d2, c);
    WfDiskKept(l, d, Refs(d, e), d2, Refs(d, e));
  }

  lemma {:induction false} KeptHolds(l: Layout, d: Disk, r: seq<nat>, d2: Disk, c: seq<Byte>)
    requires |r| == NUM_REFS && UsedRefs(l, d, r) && Holds(d, r, c)
    requires forall x: nat :: InData(l, x) ==> At(d2, x) == At(d, x)
    ensures Holds(d2, r, c)
  {
    hide Used, At;
    assert DataKept(d, r, d2, r);
    DataKeptHolds(d, r, d2, r, c);
  }

  // ---- inode_clear, one block at a time

  // The block at place i of the file is marked free: it is gone from the file, and no block of data has changed.
  lemma {:induction false} FreeRef(l: Layout, d: Disk, r: seq<nat>, i: nat, ino: nat)
    requires WfDisk(l, d) && WfRefs(l, d, r) && i < |r| && r[i] != 0
    ensures r[i] < l.numBlocks
    ensures var d2 := PutBit(l, d, r[i], false);
            && WfDisk(l, d2) && WfRefs(l, d2, r[i := 0]) && Evolves(l, d, r, d2, r[i := 0], ino)
            && (forall x: nat :: InData(l, x) ==> At(d2, x) == At(d, x))
            && forall j: nat :: j < l.numInodes ==> EntryAt(l, d2, j) == EntryAt(l, d, j)
  {
    hide BlockWords, EntryAt, Used;
    FreeFacts(l, d, r[i]);
    var d2 := PutBit(l, d, r[i], false);
    UnlistedRefs(l, d, r, d2, i);
    WfDiskKept(l, d, r, d2, r[i := 0]);
  }
}
