/** src/fs/inode.c and the block allocator of src/fs/cache.c, as operations on what the block cache shows of the disk:
    inode_map, inode_read, inode_write, inode_clear, cache_alloc, cache_free; and the loop of file_write. */
module InodeLayer {

  import opened Basics
  import opened LogFormat
  import opened FsLayout
  import opened FsFile
  import opened FsRoom
  import opened FsTrace
  import opened FsLog
  import opened InodeSteps
  import F = FsFormat

  // Sums and differences of 64-bit words.
  function Add64(a: nat, b: nat): nat { if a + b >= U64 then a + b - U64 else a + b }

  function Sub64(a: nat, b: nat): nat
    requires b < U64
  {
    if a >= b then a - b else a + U64 - b
  }

  // A place has been filled, and with it has been logged what it takes.
  lemma {:induction false} SlotMapped(l: Layout, d: Disk, e: Entry, d2: Disk, e2: Entry, ino: nat, log: set<nat>,
                                      log2: set<nat>, s: nat, b: nat)
    requires WfFile(l, d, e) && |e2.addrs| == NUM_DIRECT && s < NUM_REFS && Refs(d, e)[s] == 0 && b != 0
    requires Refs(d2, e2) == Refs(d, e)[s := b] && Accounts(l, d, Refs(d, e), d2, Refs(d2, e2))
    requires forall x: nat :: x < b ==> Used(l, d, x)
    requires log2 == log + {BitmapBlock(l, b), b} + (if s < NUM_DIRECT then {InodeBlock(l, ino)}
                                                     else if s == NUM_DIRECT then {} else {e.indirect})
    ensures MapLog(l, ino, log, Refs(d, e), log2, Refs(d2, e2)) && TookLowest(l, d, d2)
  {
    hide Used, BitmapBlock, InodeBlock, TookLowest, MapLog, Accounts, BlockWords;
    var r := Refs(d, e);
    assert r[NUM_DIRECT] == e.indirect;
    MapLogOne(l, ino, log, r, s, b, log2);
    TookOne(l, d, r, d2, s, b);
  }

  lemma {:induction false} Unmapped(l: Layout, d: Disk, e: Entry, ino: nat, log: set<nat>, tr: seq<Put>)
    requires WfFile(l, d, e)
    ensures Evolves(l, d, Refs(d, e), d, Refs(d, e), ino) && AllLogged(d, log, tr, d, log, tr)
    ensures MapLog(l, ino, log, Refs(d, e), log, Refs(d, e)) && TookLowest(l, d, d)
  {
    hide Used, BlockWords, EntryAt;
    EvolvesRefl(l, d, Refs(d, e), ino);
    AllLoggedRefl(d, log, tr);
    MapLogRefl(l, ino, log, Refs(d, e));
  }

  // How many blocks of a file the bytes from offset on touch.
  function Spanned(offset: nat, count: nat): nat { (offset + count + 511) / 512 - offset / 512 }

  lemma {:induction false} SameBitmapBlock(q: nat, blk: nat)
    requires BIT_PER_BLOCK * q <= blk < BIT_PER_BLOCK * q + BIT_PER_BLOCK
    ensures blk / BIT_PER_BLOCK == q == (BIT_PER_BLOCK * q) / BIT_PER_BLOCK
    ensures blk % BIT_PER_BLOCK == blk - BIT_PER_BLOCK * q
  {
  }

  lemma {:induction false} UsedBit(l: Layout, d: Disk, q: nat, blk: nat)
    requires BIT_PER_BLOCK * q <= blk < BIT_PER_BLOCK * q + BIT_PER_BLOCK && blk < l.numBlocks == |d| && ValidLayout(l)
    ensures (BIT_PER_BLOCK * q) / BIT_PER_BLOCK == q && l.bitmapStart + q < |d|
    ensures Used(l, d, blk) == BitIn(d[l.bitmapStart + q], blk - BIT_PER_BLOCK * q)
  {
    SameBitmapBlock(q, blk);
  }

  // What an operation started from: the disk, the inode, the log, the syncs so far and the content of the file.
  datatype Start = Start(d: Disk, e: Entry, log: set<nat>, tr: seq<Put>, c: seq<Byte>)

  // An operation on one locked inode.
  // How many of n bytes from place o of a file on are in its first block.
  function Piece(o: nat, n: nat): (m: nat)
    ensures m <= n && o % BLOCK_SIZE + m <= BLOCK_SIZE && (n > 0 ==> m > 0)
  {
    if BLOCK_SIZE - o % BLOCK_SIZE > n then n else BLOCK_SIZE - o % BLOCK_SIZE
  }

  class InodeOp {
    const l: Layout
    const ino: nat
    var disk: Disk
    var entry: Entry
    var logged: set<nat>  // the blocks in the header of the log
    var syncs: seq<Put>   // what this operation has handed to cache_sync, in order

    constructor (l: Layout, ino: nat, disk: Disk, entry: Entry)
      ensures this.l == l && this.ino == ino && this.disk == disk && this.entry == entry && logged == {} && syncs == []
    {
      this.l, this.ino, this.disk, this.entry, logged, syncs := l, ino, disk, entry, {}, [];
    }

    ghost predicate Valid()
      reads this
    {
      ino < l.numInodes && WfFile(l, disk, entry)
    }

    // Since d, log and tr the disk has changed by syncs alone.
    ghost predicate Since(d: Disk, log: set<nat>, tr: seq<Put>)
      reads this`disk, this`logged, this`syncs
    {
      AllLogged(d, log, tr, disk, logged, syncs)
    }

    // ... and exactly what inode_map logs has been logged.
    ghost predicate Mapped(d: Disk, e: Entry, log: set<nat>, tr: seq<Put>)
      requires |e.addrs| == NUM_DIRECT == |entry.addrs|
      reads this
    {
      Since(d, log, tr) && MapLog(l, ino, log, Refs(d, e), logged, Refs(disk, entry)) && TookLowest(l, d, disk)
    }

    // A block is changed and handed to cache_sync.
    method Put(b: nat, data: Block)
      requires b < |disk|
      modifies this`disk, this`logged, this`syncs
      ensures disk == old(disk)[b := data] && logged == old(logged) + {b} && Since(old(disk), old(logged), old(syncs))
    {
      AllLoggedOne(disk, logged, syncs, b, data);
      disk, logged, syncs := disk[b := data], logged + {b}, syncs + [FsTrace.Put(b, data)];
    }

    // The inner loop of cache_alloc, over the bits of one bitmap block; limit if all are set.
    method FindFree(start: nat, limit: nat, ghost q: nat) returns (blk: nat)
      requires ValidLayout(l) && |disk| == l.numBlocks && start == BIT_PER_BLOCK * q
      requires start <= limit <= start + BIT_PER_BLOCK && limit <= l.numBlocks
      ensures start <= blk <= limit && (forall x: nat :: start <= x < blk ==> Used(l, disk, x))
      ensures blk < limit ==> !Used(l, disk, blk)
    {
      hide Used;
      blk := start;
      while blk < limit
        invariant start <= blk <= limit && forall x: nat :: start <= x < blk ==> Used(l, disk, x)
      {
        UsedBit(l, disk, q, blk);
        if !BitIn(disk[l.bitmapStart + start / BIT_PER_BLOCK], blk - start) {
          return;
        }
        blk := blk + 1;
      }
    }

    // cache_alloc: the lowest free block, marked and cleared; no result where the code panics.
    method Alloc() returns (ok: bool, b: nat)
      requires WfDisk(l, disk)
      modifies this`disk, this`logged, this`syncs
      ensures ok ==> && b < l.numBlocks && !Used(l, old(disk), b) && (forall x: nat :: x < b ==> Used(l, old(disk), x))
                     && disk == Take(l, old(disk), b) && logged == old(logged) + {BitmapBlock(l, b), b}
                     && disk[b] == ZeroBlock()
                     && forall x: nat :: x < |disk| && x != b && x != BitmapBlock(l, b) ==> disk[x] == old(disk)[x]
      ensures !ok ==> && disk == old(disk) && logged == old(logged)
                      && forall x: nat :: x < l.numBlocks ==> Used(l, disk, x)
      ensures Since(old(disk), old(logged), old(syncs))
      // On a disk as mkfs leaves it, with the first n blocks used, that is block n.
      ensures forall n: nat :: n < l.numBlocks && F.FreshBitmap(l, old(disk), n) ==> ok && b == n
    {
      hide Used, F.FreshBitmap, PutBitIn, AllLogged;
      var start := 0;
      ghost var q := 0;
      while start < l.numBlocks
        invariant start == BIT_PER_BLOCK * q && disk == old(disk) && logged == old(logged) && syncs == old(syncs)
        invariant forall x: nat :: x < start && x < l.numBlocks ==> Used(l, disk, x)
      {
        var limit := if start + BIT_PER_BLOCK < l.numBlocks then start + BIT_PER_BLOCK else l.numBlocks;
        var blk := FindFree(start, limit, q);
        if blk < limit {
          SameBitmapBlock(q, blk);
          F.FirstFree(l, disk, blk);
          var index := l.bitmapStart + start / BIT_PER_BLOCK;
          Put(index, PutBitIn(disk[index], blk - start, true));
          ghost var d, log, tr := disk, logged, syncs;
          Put(blk, ZeroBlock());
          AllLoggedTrans(old(disk), old(logged), old(syncs), d, log, tr, disk, logged, syncs);
          return true, blk;
        }
        start := start + BIT_PER_BLOCK;
        q := q + 1;
      }
      F.FirstFree(l, disk, l.numBlocks);
      AllLoggedRefl(disk, logged, syncs);
      return false, 0;
    }

    // cache_free
    method Free(b: nat)
      requires ValidLayout(l) && |disk| == l.numBlocks && b < l.numBlocks
      modifies this`disk, this`logged, this`syncs
      ensures disk == PutBit(l, old(disk), b, false) && logged == old(logged) + {BitmapBlock(l, b)}
      ensures Since(old(disk), old(logged), old(syncs))
    {
      var index := l.bitmapStart + b / BIT_PER_BLOCK;
      Put(index, PutBitIn(disk[index], b % BIT_PER_BLOCK, false));
    }

    // inode_sync
    method Sync(doWrite: bool)
      requires ValidLayout(l) && |disk| == l.numBlocks && ino < l.numInodes && Fits(entry)
      modifies this`disk, this`entry, this`logged, this`syncs
      ensures if doWrite then entry == old(entry) && disk == PutEntry(l, old(disk), ino, old(entry))
              else disk == old(disk) && entry == EntryAt(l, disk, ino)
      ensures logged == old(logged) + {InodeBlock(l, ino)} && Since(old(disk), old(logged), old(syncs))
    {
      var b := l.inodeStart + ino / INODE_PER_BLOCK;
      if doWrite {
        Put(b, PutIn(disk[b], ino % INODE_PER_BLOCK, entry));
      } else {
        entry := EntryIn(disk[b], ino % INODE_PER_BLOCK);
        Put(b, disk[b]);
      }
    }

    // The blocks an allocation may hand to cache_sync besides those in before.
    ghost function MapBlocks(before: set<nat>, b: nat): set<nat>
      reads this
    {
      before + {b, BitmapBlock(l, b)} + Fixed(l, ino, entry)
    }

    // The direct half of inode_map, with an operation to allocate in.
    method MapDirect(k: nat) returns (ok: bool, b: nat, modified: bool)
      requires Valid() && k < NUM_DIRECT
      modifies this`disk, this`entry, this`logged, this`syncs
      ensures Valid() && SlotsGrew(old(Refs(disk, entry)), Refs(disk, entry), {k})
      ensures ok ==> && Grew(l, old(disk), old(entry), disk, entry, ino) && b == Refs(disk, entry)[k] != 0
                     && (modified <==> old(Refs(disk, entry))[k] == 0)
      ensures ok && !modified ==> disk == old(disk) && entry == old(entry) && logged == old(logged)
      ensures ok ==> logged <= MapBlocks(old(logged), b)
      ensures ok ==> Mapped(old(disk), old(entry), old(logged), old(syncs))
      ensures !ok ==> disk == old(disk) && entry == old(entry) && Stuck(l, disk, Refs(disk, entry), {k})
    {
      hide BlockWords, EntryAt, Used, MapLog, TookLowest, AllLogged;
      ok, b, modified := true, entry.addrs[k], false;
      if b == 0 {
        ghost var d, e := disk, entry;
        ok, b := Alloc();
        if ok {
          DirectStep(l, d, e, k, b, ino);
          entry := entry.(addrs := entry.addrs[k := b]);
          modified := true;
          ghost var d1, log1, tr1 := disk, logged, syncs;
          Sync(true);
          AllLoggedTrans(d, old(logged), old(syncs), d1, log1, tr1, disk, logged, syncs);
          SlotMapped(l, d, e, disk, entry, ino, old(logged), logged, k, b);
        }
      } else {
        Unmapped(l, disk, entry, ino, logged, syncs);
      }
    }

    // The first part of the indirect half of inode_map: there is an indirect block, if need be a new, cleared one.
    method NeedIndirect() returns (ok: bool, modified: bool)
      requires Valid()
      modifies this`disk, this`entry, this`logged, this`syncs
      ensures Valid() && SlotsGrew(old(Refs(disk, entry)), Refs(disk, entry), {NUM_DIRECT})
      ensures ok ==> && Grew(l, old(disk), old(entry), disk, entry, ino) && entry.indirect != 0
                     && Refs(disk, entry) == old(Refs(disk, entry))[NUM_DIRECT := entry.indirect]
                     && (modified <==> old(entry.indirect) == 0)
      ensures ok && !modified ==> disk == old(disk) && entry == old(entry) && logged == old(logged)
      ensures ok ==> logged <= old(logged) + IndirectBlocks(l, entry)
      ensures ok ==> Mapped(old(disk), old(entry), old(logged), old(syncs))
      ensures !ok ==> disk == old(disk) && entry == old(entry) && Stuck(l, disk, Refs(disk, entry), {NUM_DIRECT})
    {
      hide BlockWords, EntryAt, Used, MapLog, TookLowest, AllLogged;
      ok, modified := true, false;
      if entry.indirect == 0 {
        ghost var d, e := disk, entry;
        var b;
        ok, b := Alloc();
        if ok {
          IndirectStep(l, d, e, b, ino);
          entry := entry.(indirect := b);
          modified := true;
          assert disk[b := ZeroBlock()] == disk; // cache_alloc has cleared it already
          ghost var d1, log1, tr1 := disk, logged, syncs;
          Put(b, ZeroBlock());
          AllLoggedTrans(d, old(logged), old(syncs), d1, log1, tr1, disk, logged, syncs);
          SlotMapped(l, d, e, disk, entry, ino, old(logged), logged, NUM_DIRECT, b);
        }
      } else {
        assert Refs(disk, entry)[NUM_DIRECT] == entry.indirect;
        Unmapped(l, disk, entry, ino, logged, syncs);
      }
    }

    // The second part: the entry of the indirect block.
    method MapListed(i: nat) returns (ok: bool, b: nat, modified: bool)
      requires Valid() && i < NUM_INDIRECT && entry.indirect != 0
      modifies this`disk, this`logged, this`syncs
      ensures Valid() && SlotsGrew(old(Refs(disk, entry)), Refs(disk, entry), {NUM_DIRECT + 1 + i})
      ensures ok ==> && Grew(l, old(disk), entry, disk, entry, ino)
                     && b == Refs(disk, entry)[NUM_DIRECT + 1 + i] != 0
                     && (modified <==> old(Refs(disk, entry))[NUM_DIRECT + 1 + i] == 0)
      ensures ok && !modified ==> disk == old(disk) && logged == old(logged)
      ensures ok ==> logged <= MapBlocks(old(logged), b)
      ensures ok ==> Mapped(old(disk), old(entry), old(logged), old(syncs))
      ensures !ok ==> disk == old(disk) && Stuck(l, disk, Refs(disk, entry), {NUM_DIRECT + 1 + i})
    {
      hide EntryAt, Used, MapLog, TookLowest, AllLogged;
      IndirectIsRef(l, disk, entry);
      ok, b, modified := true, BlockWords(disk[entry.indirect])[i], false;
      if b == 0 {
        ghost var d := disk;
        ok, b := Alloc();
        if ok {
          ListedStep(l, d, entry, i, b, ino);
          ghost var d1, log1, tr1 := disk, logged, syncs;
          Put(entry.indirect, PutWord(disk[entry.indirect], i, b));
          modified := true;
          AllLoggedTrans(d, old(logged), old(syncs), d1, log1, tr1, disk, logged, syncs);
          SlotMapped(l, d, entry, disk, entry, ino, old(logged), logged, NUM_DIRECT + 1 + i, b);
        }
      } else {
        Unmapped(l, disk, entry, ino, logged, syncs);
      }
    }

    // The indirect half of inode_map, with an operation to allocate in.
    method MapIndirect(i: nat) returns (ok: bool, b: nat, modified: bool)
      requires Valid() && i < NUM_INDIRECT
      modifies this`disk, this`entry, this`logged, this`syncs
      ensures Valid() && SlotsGrew(old(Refs(disk, entry)), Refs(disk, entry), SlotsOf(NUM_DIRECT + i))
      ensures ok ==> && Grew(l, old(disk), old(entry), disk, entry, ino)
                     && b == Refs(disk, entry)[NUM_DIRECT + 1 + i] != 0
                     && (modified <==> old(Refs(disk, entry))[NUM_DIRECT + 1 + i] == 0)
      ensures ok && !modified ==> disk == old(disk) && entry == old(entry) && logged == old(logged)
      ensures ok ==> logged <= MapBlocks(old(logged), b)
      ensures ok ==> Mapped(old(disk), old(entry), old(logged), old(syncs))
      ensures !ok ==> && Evolves(l, old(disk), old(Refs(disk, entry)), disk, Refs(disk, entry), ino)
                      && Stuck(l, disk, Refs(disk, entry), SlotsOf(NUM_DIRECT + i))
    {
      hide BlockWords, EntryAt, Used, MapLog, TookLowest, AllLogged, Accounts, OthersKept, EntriesKept;
      b := 0;
      ok, modified := NeedIndirect();
      if !ok {
        EvolvesRefl(l, disk, Refs(disk, entry), ino);
      } else {
        ghost var d, e, log, tr := disk, entry, logged, syncs;
        var listed;
        ok, b, listed := MapListed(i);
        SlotsTrans(old(Refs(disk, entry)), Refs(d, e), Refs(disk, entry), SlotsOf(NUM_DIRECT + i),
                   {NUM_DIRECT + 1 + i});
        if ok {
          AllLoggedTrans(old(disk), old(logged), old(syncs), d, log, tr, disk, logged, syncs);
          RefsIndirectFirst(d, e);
          MapLogTrans(l, ino, old(logged), old(Refs(disk, entry)), log, Refs(d, e), logged, Refs(disk, entry));
          TookTrans(l, old(disk), d, disk);
          GrewTrans(l, old(disk), old(entry), d, e, disk, entry, ino);
          modified := modified || listed;
        }
      }
    }

    // inode_map for an operation: the block of a byte of the file, allocated if need be. The result is not ok where the
    // code panics because the disk is full.
    method Map(offset: nat) returns (ok: bool, b: nat, modified: bool)
      requires Valid() && offset < MAX_BYTES
      modifies this`disk, this`entry, this`logged, this`syncs
      ensures Valid() && SlotsGrew(old(Refs(disk, entry)), Refs(disk, entry), SlotsOf(offset / BLOCK_SIZE))
      ensures ok ==> && Grew(l, old(disk), old(entry), disk, entry, ino)
                     && b == Refs(disk, entry)[RefOf(offset / BLOCK_SIZE)] != 0
                     && (modified <==> old(Refs(disk, entry))[RefOf(offset / BLOCK_SIZE)] == 0)
      ensures ok && !modified ==> disk == old(disk) && entry == old(entry) && logged == old(logged)
      ensures ok ==> logged <= MapBlocks(old(logged), b)
      ensures ok ==> Mapped(old(disk), old(entry), old(logged), old(syncs))
      ensures !ok ==> && Evolves(l, old(disk), old(Refs(disk, entry)), disk, Refs(disk, entry), ino)
                      && Stuck(l, disk, Refs(disk, entry), SlotsOf(offset / BLOCK_SIZE))
    {
      hide BlockWords, EntryAt, Used, MapLog, TookLowest, AllLogged;
      var k := offset / BLOCK_SIZE;
      if k < NUM_DIRECT {
        ok, b, modified := MapDirect(k);
      } else {
        ok, b, modified := MapIndirect(k - NUM_DIRECT);
      }
    }

    // inode_map without an operation: 0 if there is no such block.
    method Find(offset: nat) returns (b: nat)
      requires Valid() && offset < MAX_BYTES
      ensures b == Refs(disk, entry)[RefOf(offset / BLOCK_SIZE)]
    {
      hide BlockWords, EntryAt, Used;
      var k := offset / BLOCK_SIZE;
      if k < NUM_DIRECT {
        return entry.addrs[k];
      }
      if entry.indirect == 0 {
        return 0;
      }
      IndirectIsRef(l, disk, entry);
      b := BlockWords(disk[entry.indirect])[k - NUM_DIRECT];
    }

    // One round of the loop of inode_read: what is left of the block at o, but no more than n bytes.
    method ReadBlock(o: nat, n: nat) returns (piece: seq<Byte>)
      requires ino < l.numInodes && WfDisk(l, disk) && WfInode(l, disk, entry) && 0 < n && o + n <= entry.size
      ensures 0 < |piece| <= n && piece == Content(disk, entry)[o..o + |piece|]
    {
      hide Refs, Content, WfDisk, WfRefs, Dense, Fits;
      BlockThere(l, disk, entry, o);
      var b := Find(o);
      var bo := o % BLOCK_SIZE;
      var m := Piece(o, n);
      InBlock(disk, entry, o, m);
      piece := disk[b][bo..bo + m];
    }

    // inode_read; no result where an assertion of the code fails. Arithmetic on offsets wraps around at 64 bits.
    method Read(offset: nat, count: nat) returns (ok: bool, data: seq<Byte>)
      requires ino < l.numInodes && WfDisk(l, disk) && WfInode(l, disk, entry) && offset < U64 && count < U64
      ensures ok <==> offset <= entry.size && offset + count < U64
      ensures ok ==> var end := if offset + count <= entry.size then offset + count else entry.size;
                     data == Content(disk, entry)[offset..end]
    {
      hide Content, Refs, WfInode, WfDisk;
      SizeBound(l, disk, entry);
      var n := if Add64(count, offset) > entry.size then Sub64(entry.size, offset) else count;
      var end := Add64(offset, n);
      data := [];
      if !(offset <= entry.size && end <= entry.size && offset <= end) {
        return false, data;
      }
      ghost var c := Content(disk, entry);
      while |data| < n
        invariant |data| <= n && data == c[offset..offset + |data|]
      {
        var piece := ReadBlock(offset + |data|, n - |data|);
        data := data + piece;
      }
      ok := true;
    }

    // One round of the loop of inode_write: s goes to place o of the file, inside one block.
    method WriteBlock(o: nat, s: seq<Byte>, ghost c: seq<Byte>)
      returns (ok: bool, modified: bool, ghost b: nat, ghost log1: set<nat>)
      requires Valid() && Holds(disk, Refs(disk, entry), c) && o <= |c| && o < MAX_BYTES
               && o % BLOCK_SIZE + |s| <= BLOCK_SIZE
      modifies this`disk, this`entry, this`logged, this`syncs
      ensures Valid() && SlotsGrew(old(Refs(disk, entry)), Refs(disk, entry), SlotsOf(o / BLOCK_SIZE))
      ensures ok ==> && Evolves(l, old(disk), old(Refs(disk, entry)), disk, Refs(disk, entry), ino)
                     && Holds(disk, Refs(disk, entry), Overlay(c, o, s))
                     && entry == old(entry).(addrs := entry.addrs, indirect := entry.indirect)
                     && (old(entry.indirect) != 0 ==> entry.indirect == old(entry.indirect))
      ensures ok && !modified ==> && entry == old(entry) && EntryAt(l, disk, ino) == old(EntryAt(l, disk, ino))
                                  && logged <= old(logged) + {b}
      ensures ok && modified ==> o == |c| && o % BLOCK_SIZE == 0
      ensures ok ==> logged <= MapBlocks(old(logged), b)
      ensures ok ==> && Since(old(disk), old(logged), old(syncs)) && TookLowest(l, old(disk), disk)
                     && b == Refs(disk, entry)[RefOf(o / BLOCK_SIZE)] && logged == log1 + {b}
                     && MapLog(l, ino, old(logged), old(Refs(disk, entry)), log1, Refs(disk, entry))
      ensures !ok ==> && Evolves(l, old(disk), old(Refs(disk, entry)), disk, Refs(disk, entry), ino)
                      && Stuck(l, disk, Refs(disk, entry), SlotsOf(o / BLOCK_SIZE))
    {
      hide BlockWords, EntryAt, Used, Refs, Overlay, MapLog, TookLowest, AllLogged;
      ghost var d, e := disk, entry;
      var blk;
      ok, blk, modified := Map(o);
      b, log1 := blk, logged;
      if ok {
        if modified { MissingBlock(Refs(d, e), |c|, o); }
        ghost var mid, log, tr := disk, logged, syncs;
        WriteStep(l, d, e, disk, entry, ino, c, o, s);
        Put(blk, Overlay(disk[blk], o % BLOCK_SIZE, s));
        AllLoggedTrans(old(disk), old(logged), old(syncs), mid, log, tr, disk, logged, syncs);
        TookNone(l, mid, Refs(disk, entry), disk);
        TookTrans(l, old(disk), mid, disk);
      }
    }

    // The end of inode_write: the size, if the file has grown.
    method Grow(end: nat, ghost c: seq<Byte>)
      requires Valid() && Holds(disk, Refs(disk, entry), c) && |c| == if end > entry.size then end else entry.size
      requires end > entry.size || EntryAt(l, disk, ino) == entry
      modifies this`disk, this`entry, this`logged, this`syncs
      ensures Valid() && WfInode(l, disk, entry) && EntryAt(l, disk, ino) == entry && Content(disk, entry) == c
      ensures Evolves(l, old(disk), old(Refs(disk, entry)), disk, Refs(disk, entry), ino)
      ensures Refs(disk, entry) == old(Refs(disk, entry))
      ensures logged == old(logged) + (if end > old(entry.size) then {InodeBlock(l, ino)} else {})
      ensures entry.indirect == old(entry.indirect) && entry.size == |c| && TookLowest(l, old(disk), disk)
      ensures Since(old(disk), old(logged), old(syncs))
    {
      hide BlockWords, EntryAt, Used, Refs, Content, Holds, TookLowest, AllLogged, MapLog;
      if end > entry.size {
        ResizeStep(l, disk, entry, ino, c);
        entry := entry.(size := end);
        Sync(true);
      } else {
        Unmapped(l, disk, entry, ino, logged, syncs);
      }
      TookNone(l, old(disk), Refs(disk, entry), disk);
      HoldsSize(disk, Refs(disk, entry), c);
      ContentHeld(disk, entry, c);
    }

    // What has been logged since st, for the first written bytes.
    ghost predicate Tracked(st: Start, offset: nat, written: nat)
      requires |st.e.addrs| == NUM_DIRECT == |entry.addrs|
      reads this
    {
      && Since(st.d, st.log, st.tr) && TookLowest(l, st.d, disk)
      && WriteLog(l, ino, st.log, Refs(st.d, st.e), logged, Refs(disk, entry), offset, written)
    }

    // The loop of inode_write after n rounds.
    ghost predicate Writing(st: Start, offset: nat, src: seq<Byte>, written: nat, n: nat)
      requires offset <= |st.c| && written <= |src| && |st.e.addrs| == NUM_DIRECT
      reads this
    {
      && Valid() && entry.size == |st.c| && Evolves(l, st.d, Refs(st.d, st.e), disk, Refs(disk, entry), ino)
      && Holds(disk, Refs(disk, entry), Overlay(st.c, offset, src[..written]))
      && (offset + written > entry.size || EntryAt(l, disk, ino) == entry)
      && Within(l, ino, st.log, logged, entry, n, offset % BLOCK_SIZE != 0) && AtRound(offset, |src|, written, n)
      && SlotsGrew(Refs(st.d, st.e), Refs(disk, entry), Need(offset, |src|)) && Tracked(st, offset, written)
    }

    // The loop cannot go on.
    ghost predicate Halted(st: Start, need: set<nat>)
      requires |st.e.addrs| == NUM_DIRECT
      reads this
    {
      && Valid() && Evolves(l, st.d, Refs(st.d, st.e), disk, Refs(disk, entry), ino)
      && SlotsGrew(Refs(st.d, st.e), Refs(disk, entry), need) && Stuck(l, disk, Refs(disk, entry), need)
    }

    // One round.
    method WriteRound(offset: nat, src: seq<Byte>, written: nat, ghost n: nat, ghost st: Start)
      returns (ok: bool, written': nat)
      requires offset <= |st.c| && written < |src| && offset + |src| <= MAX_BYTES && |st.e.addrs| == NUM_DIRECT
      requires Writing(st, offset, src, written, n)
      modifies this`disk, this`entry, this`logged, this`syncs
      ensures written < written' <= |src|
      ensures ok ==> Writing(st, offset, src, written', n + 1)
      ensures !ok ==> Halted(st, Need(offset, |src|))
    {
      hide BlockWords, EntryAt, Used, Refs, Holds, Overlay, WfDisk, WfRefs, Small, Evolves, Within, Fixed, BitmapBlock,
           AtRound, AllLogged, SlotsGrew, SlotsOf, Need, Stuck, TookLowest, WriteLog, MapLog, Piece;
      var o := offset + written;
      var m := Piece(o, |src| - written);
      written' := written + m;
      ghost var c := Overlay(st.c, offset, src[..written]);
      OverlaySize(st.c, offset, src[..written]);
      ghost var was := Start(disk, entry, logged, syncs, c);
      var modified;
      ghost var b, log1;
      ok, modified, b, log1 := WriteBlock(o, src[written..written'], c);
      Needed(offset, |src|, o);
      EvolvesOn(l, st.d, Refs(st.d, st.e), was.d, was.e, disk, entry, ino);
      SlotsTrans(Refs(st.d, st.e), Refs(was.d, was.e), Refs(disk, entry), Need(offset, |src|), SlotsOf(o / BLOCK_SIZE));
      if !ok {
        StuckMore(l, disk, Refs(disk, entry), SlotsOf(o / BLOCK_SIZE), Need(offset, |src|));
      } else {
        Track(l, ino, st, was, disk, entry, logged, syncs, log1, offset, |src|, written, m);
        OverlayMore(st.c, offset, src[..written], src[written..written']);
        assert src[..written] + src[written..written'] == src[..written'];
        assert n == 0 ==> o == offset by { FirstRound(offset, |src|, written, n); }
        WithinStep(l, ino, st.log, was.log, logged, was.e, entry, n, offset % BLOCK_SIZE != 0, b, modified);
        RoundStep(offset, |src|, written, n, m);
      }
    }

    // The loop of inode_write.
    method WriteAll(offset: nat, src: seq<Byte>, ghost st: Start) returns (ok: bool)
      requires Valid() && Holds(disk, Refs(disk, entry), st.c) && offset <= |st.c| == entry.size
               && offset + |src| <= MAX_BYTES
      requires EntryAt(l, disk, ino) == entry && st == Start(disk, entry, logged, syncs, st.c)
      modifies this`disk, this`entry, this`logged, this`syncs
      ensures ok ==> && Valid() && Evolves(l, st.d, Refs(st.d, st.e), disk, Refs(disk, entry), ino)
                     && Holds(disk, Refs(disk, entry), Overlay(st.c, offset, src)) && entry.size == st.e.size
                     && (offset + |src| > entry.size || EntryAt(l, disk, ino) == entry)
                     && Within(l, ino, st.log, logged, entry, Spanned(offset, |src|), offset % BLOCK_SIZE != 0)
                     && SlotsGrew(Refs(st.d, st.e), Refs(disk, entry), Need(offset, |src|))
                     && Tracked(st, offset, |src|)
      ensures !ok ==> Halted(st, Need(offset, |src|))
    {
      hide BlockWords, EntryAt, Used, Refs, Holds, Overlay, WfDisk, WfRefs, Small, Evolves, Within, Need, Stuck,
           TookLowest, WriteLog, AllLogged, MapLog;
      var written := 0;
      ghost var n := 0;
      OverlayNone(st.c, offset);
      Unmapped(l, disk, entry, ino, logged, syncs);
      WriteLogStart(l, ino, logged, Refs(disk, entry), offset);
      WithinStart(l, ino, logged, entry, offset % BLOCK_SIZE != 0);
      assert src[..0] == [];
      while written < |src|
        invariant written <= |src| && Writing(st, offset, src, written, n)
      {
        ok, written := WriteRound(offset, src, written, n, st);
        if !ok {
          return;
        }
        n := n + 1;
      }
      assert src[..written] == src;
      WithinSpan(l, ino, st.log, logged, entry, n, offset, |src|, written);
      ok := true;
    }

    // The loop and the size.
    method WriteOut(offset: nat, src: seq<Byte>, ghost st: Start) returns (ok: bool)
      requires ino < l.numInodes && WfDisk(l, disk) && WfInode(l, disk, entry) && EntryAt(l, disk, ino) == entry
      requires offset <= entry.size && offset + |src| <= MAX_BYTES
      requires st == Start(disk, entry, logged, syncs, Content(disk, entry))
      modifies this`disk, this`entry, this`logged, this`syncs
      ensures ok ==> && WfDisk(l, disk) && WfInode(l, disk, entry) && EntryAt(l, disk, ino) == entry
                     && Evolves(l, st.d, Refs(st.d, st.e), disk, Refs(disk, entry), ino)
                     && Content(disk, entry) == Overlay(st.c, offset, src)
                     && Since(st.d, st.log, st.tr) && logged == st.log + Plan(l, st.d, st.e, ino, offset, |src|)
                     && SlotsGrew(Refs(st.d, st.e), Refs(disk, entry), Need(offset, |src|))
      ensures ok ==> |logged| <= |st.log| + 2 * Spanned(offset, |src|) + 3
                                 - if offset % BLOCK_SIZE != 0 && Spanned(offset, |src|) > 0 then 1 else 0
      ensures ok <==> HasRoom(l, st.d, st.e, offset, |src|)
    {
      hide BlockWords, EntryAt, Used, Refs, Holds, Overlay, Content, Evolves, Within, AllLogged, SlotsGrew, Need, Stuck,
           FreeBlocks, Missing, TookLowest, WriteLog, Plan;
      HoldsContent(disk, entry);
      ok := WriteAll(offset, src, st);
      if !ok {
        Lacking(l, st.d, st.e, disk, entry, ino, Need(offset, |src|));
      } else {
        ghost var mid := Start(disk, entry, logged, syncs, Overlay(st.c, offset, src));
        OverlaySize(st.c, offset, src);
        Grow(offset + |src|, mid.c);
        EvolvesOn(l, st.d, Refs(st.d, st.e), mid.d, mid.e, disk, entry, ino);
        AllLoggedTrans(st.d, st.log, st.tr, mid.d, mid.log, mid.tr, disk, logged, syncs);
        TookTrans(l, st.d, mid.d, disk);
        WithinInode(l, ino, st.log, mid.log, logged, mid.e, entry, Spanned(offset, |src|), offset % BLOCK_SIZE != 0);
        WithinBound(l, ino, st.log, logged, entry, Spanned(offset, |src|), offset % BLOCK_SIZE != 0);
        RoomFor(l, st.d, st.e, disk, entry, ino, offset, |src|, 0);
        AsPlanned(l, st, disk, entry, ino, mid.log, logged, offset, |src|);
      }
    }

    // inode_write, with rm left of the budget of the operation, on an inode whose copy in memory is the one on disk.
    // The result is false where the code panics: an assertion fails, the disk is full, or cache_sync meets a block that
    // is new to the log and nothing is left of the budget. The log only grows, so the budget can be checked last.
    method Write(offset: nat, src: seq<Byte>, rm: nat) returns (ok: bool, rm': nat)
      requires ino < l.numInodes && WfDisk(l, disk) && WfInode(l, disk, entry) && EntryAt(l, disk, ino) == entry
      requires offset < U64 && |src| < U64
      modifies this`disk, this`entry, this`logged, this`syncs
      // It succeeds exactly if it neither starts behind the end of the file nor ends behind the largest possible one,
      // the disk has a free block for every one it needs, and the budget covers the blocks it has to log.
      ensures ok <==> && offset <= old(entry.size) && offset + |src| <= MAX_BYTES
                      && old(HasRoom(l, disk, entry, offset, |src|))
                      && old(|Plan(l, disk, entry, ino, offset, |src|) - logged|) <= rm
      ensures ok ==> && WfDisk(l, disk) && WfInode(l, disk, entry) && EntryAt(l, disk, ino) == entry
                     && Evolves(l, old(disk), old(Refs(disk, entry)), disk, Refs(disk, entry), ino)
                     && Overwritten(old(Content(disk, entry)), offset, src, Content(disk, entry))
      // Whatever it changes, it has synced, and it has logged nothing but what it has to.
      ensures ok ==> && Since(old(disk), old(logged), old(syncs))
                     && logged == old(logged) + old(Plan(l, disk, entry, ino, offset, |src|))
                     && rm' == rm - |logged - old(logged)|
      ensures ok && old(FsInv(l, disk)) ==>
                FsInv(l, disk) && forall j: nat :: j < l.numInodes && j != ino ==> SameFile(l, old(disk), disk, j)
      ensures ok ==> SlotsGrew(old(Refs(disk, entry)), Refs(disk, entry), Need(offset, |src|))
      // A budget that always suffices.
      ensures offset <= old(entry.size) && offset + |src| <= MAX_BYTES
              && old(HasRoom(l, disk, entry, offset, |src|)) ==>
                var inside := if offset % BLOCK_SIZE != 0 && Spanned(offset, |src|) > 0 then 1 else 0;
                old(|Plan(l, disk, entry, ino, offset, |src|) - logged|) <= 2 * Spanned(offset, |src|) + 3 - inside
    {
      hide BlockWords, EntryAt, Used, Refs, Overlay, Content, Evolves, SameFile, FsInv, AllLogged, SlotsGrew, Need,
           HasRoom, Plan, Spanned;
      SizeBound(l, disk, entry);
      rm' := 0;
      var end := Add64(offset, |src|);
      if !(offset <= entry.size && end <= MAX_BYTES && offset <= end) {
        return false, rm';
      }
      ghost var st := Start(disk, entry, logged, syncs, Content(disk, entry));
      var before := logged;
      ok := WriteOut(offset, src, st);
      if ok {
        NewlyLogged(before, logged, Plan(l, st.d, st.e, ino, offset, |src|));
        ok := |logged - before| <= rm;
        if ok {
          rm' := rm - |logged - before|;
          if FsInv(l, st.d) { OperationKeeps(l, st.d, st.e, disk, entry, ino); }
        }
      }
    }

    // The inode as an operation finds and leaves it, and with it the file system; c is its content.
    ghost predicate AtRest(c: seq<Byte>)
      reads this
    {
      && ino < l.numInodes && FsInv(l, disk) && WfInode(l, disk, entry) && EntryAt(l, disk, ino) == entry
      && Content(disk, entry) == c
    }

    // What a round of the loop of file_write does: an operation of its own for at most CHUNK bytes.
    method WriteChunk(off: nat, piece: seq<Byte>, ghost c: seq<Byte>, ghost more: nat) returns (ok: bool)
      requires AtRest(c) && |piece| <= CHUNK && off < U64
      modifies this`disk, this`entry, this`logged, this`syncs
      ensures ok ==> && off <= |c| && off + |piece| <= MAX_BYTES && AtRest(Overlay(c, off, piece))
                     && |logged| <= OP_MAX_NUM_BLOCKS && Since(old(disk), {}, [])
                     && (forall b :: b in logged ==> l.inodeStart <= b < l.numBlocks)
                     && forall j: nat :: j < l.numInodes && j != ino ==> SameFile(l, old(disk), disk, j)
      ensures ok <==> off <= |c| && off + |piece| <= MAX_BYTES && old(HasRoom(l, disk, entry, off, |piece|))
      ensures ok ==> old(HasRoom(l, disk, entry, off, |piece| + more)) == HasRoom(l, disk, entry, off + |piece|, more)
    {
      hide BlockWords, EntryAt, Used, Refs, Overlay, Content, Evolves, SameFile, FsWf, NoLeak, AllLogged, HasRoom,
           SlotsGrew, Need, Plan, Spanned;
      logged, syncs := {}, []; // begin_op
      assert WfDisk(l, disk) by { RestIsWf(l, disk); }
      ghost var d, e := disk, entry;
      ChunkBudget(off, |piece|);
      var rm;
      ok, rm := Write(off, piece, OP_MAX_NUM_BLOCKS);
      if ok {
        assert logged - {} == logged;
        forall b | b in logged ensures l.inodeStart <= b < l.numBlocks { PlanArea(l, d, e, ino, off, |piece|, b); }
        RoomFor(l, d, e, disk, entry, ino, off, |piece|, more);
      }
    }

    // The loop of file_write after the first idx bytes, which have made c into now.
    ghost predicate Filing(d0: Disk, e0: Entry, c: seq<Byte>, off: nat, src: seq<Byte>, idx: nat, now: seq<Byte>)
      reads this
    {
      && idx <= |src| && AtRest(now) && (idx > 0 ==> off <= |c| && off + idx <= MAX_BYTES)
      && (if idx == 0 then now == c else off <= |c| && now == Overlay(c, off, src[..idx]))
      && (forall j: nat :: j < l.numInodes && j != ino ==> SameFile(l, d0, disk, j))
      && (HasRoom(l, d0, e0, off, |src|) <==> HasRoom(l, disk, entry, off + idx, |src| - idx))
    }

    // A round.
    method FileRound(off: nat, src: seq<Byte>, idx: nat, ghost d0: Disk, ghost e0: Entry, ghost c: seq<Byte>,
                     ghost now: seq<Byte>)
      returns (ok: bool, len: nat, ghost now': seq<Byte>)
      requires off < U64 && |src| < U64 && idx < |src| && Filing(d0, e0, c, off, src, idx, now)
      modifies this`disk, this`entry, this`logged, this`syncs
      ensures len == if |src| - idx < CHUNK then |src| - idx else CHUNK
      ensures ok ==> Filing(d0, e0, c, off, src, idx + len, now') && |logged| <= OP_MAX_NUM_BLOCKS
      ensures !ok ==> !(off <= |c| && off + |src| <= MAX_BYTES && HasRoom(l, d0, e0, off, |src|))
    {
      hide Overlay, SameFile, AllLogged, HasRoom, AtRest;
      len := if |src| - idx < CHUNK then |src| - idx else CHUNK;
      ghost var d, e, more := disk, entry, |src| - idx - len;
      var piece := src[idx..idx + len];
      ok := WriteChunk(off + idx, piece, now, more);
      now' := now;
      if off <= |c| { NextPiece(c, off, src, idx, len, now); }
      if ok {
        SameFilesTrans(l, ino, d0, d, disk);
        now' := Overlay(now, off + idx, piece);
      } else if HasRoom(l, d, e, off + idx, len + more) {
        MoreBytes(l, d, e, off + idx, len, more);
      }
    }

    // file_write on a regular file, with off the offset of the open file and c its content, which becomes c'. The
    // result is -1 on a file not open for writing and None where the code panics; ops are the blocks each operation
    // logged.
    method FileWrite(writable: bool, off: nat, src: seq<Byte>, ghost c: seq<Byte>)
      returns (r: Option<int>, off': nat, ghost ops: seq<set<nat>>, ghost c': seq<Byte>)
      requires AtRest(c) && off < U64 && |src| < U64
      modifies this`disk, this`entry, this`logged, this`syncs
      ensures r == Some(-1) <==> !writable
      ensures r == Some(-1) ==> disk == old(disk) && entry == old(entry) && off' == off
      ensures r.Some? && writable ==> && r.value == |src| && off' == off + |src| && (src != [] ==> off <= |c|)
                                      && AtRest(c')
                                      && (if src == [] then c' == c else Overwritten(c, off, src, c'))
                                      && forall j: nat ::
                                           j < l.numInodes && j != ino ==> SameFile(l, old(disk), disk, j)
      // As many operations as there are pieces, and none logs more blocks than it may: cache_sync does not panic.
      ensures r.Some? && writable ==> |src| <= CHUNK * |ops| < |src| + CHUNK
      ensures forall k :: 0 <= k < |ops| ==> |ops[k]| <= OP_MAX_NUM_BLOCKS
      // It panics exactly if it starts behind the end of the file, or the file or the disk has no room for all of it.
      ensures r.None? <==> && writable && src != []
                           && !(off <= |c| && off + |src| <= MAX_BYTES && old(HasRoom(l, disk, entry, off, |src|)))
    {
      hide BlockWords, EntryAt, Used, Refs, Overlay, Content, Evolves, SameFile, HasRoom, FsInv;
      off', ops, c' := off, [], c;
      if !writable {
        return Some(-1), off', ops, c';
      }
      var idx := 0;
      SameFiles(l, ino, disk);
      while idx < |src|
        invariant Filing(old(disk), old(entry), c, off, src, idx, c') && off' == off + idx
        invariant forall k :: 0 <= k < |ops| ==> |ops[k]| <= OP_MAX_NUM_BLOCKS
        invariant idx <= CHUNK * |ops| < idx + CHUNK && (idx < |src| ==> idx == CHUNK * |ops|)
      {
        var ok, len;
        ok, len, c' := FileRound(off, src, idx, old(disk), old(entry), c, c');
        if !ok {
          return None, off', ops, c';
        }
        ops := ops + [logged];
        off' := off' + len;
        idx := idx + len;
      }
      assert src[..idx] == src;
      if src != [] {
        OverlaySize(c, off, src);
        NoBytes(l, disk, entry, off');
      }
      r := Some(|src|);
    }

    // ---- inode_clear

    // Part way through inode_clear: r are the blocks the file still has. None of its data has changed.
    ghost predicate Clearing(st: Start, r: seq<nat>)
      requires |st.e.addrs| == NUM_DIRECT
      reads this`disk, this`logged, this`syncs
    {
      && WfDisk(l, disk) && WfRefs(l, disk, r) && Evolves(l, st.d, Refs(st.d, st.e), disk, r, ino)
      && (forall b: nat :: InData(l, b) ==> At(disk, b) == At(st.d, b))
      && Since(st.d, st.log, st.tr) && ClearLog(l, st.log, Refs(st.d, st.e), logged, r)
    }

    // The block at one place of the file is freed, if there is one.
    method Drop(b: nat, ghost st: Start, ghost r: seq<nat>, ghost s: nat)
      requires |st.e.addrs| == NUM_DIRECT && Clearing(st, r) && s < |r| && r[s] == b
      modifies this`disk, this`logged, this`syncs
      ensures Clearing(st, r[s := 0])
    {
      hide BlockWords, EntryAt, Used, Refs, WfRefs, Accounts, OthersKept, EntriesKept, AllLogged, ClearLog,
           DistinctRefs;
      ClearLogMore(l, st.log, Refs(st.d, st.e), logged, r, s);
      if b != 0 {
        FreeRef(l, disk, r, s, ino);
        ghost var d, log, tr := disk, logged, syncs;
        Free(b);
        AllLoggedTrans(st.d, st.log, st.tr, d, log, tr, disk, logged, syncs);
        WfRefsUsed(l, disk, r[s := 0]);
        EvolvesTrans(l, st.d, Refs(st.d, st.e), d, r, disk, r[s := 0], ino);
      } else {
        assert r[s := 0] == r;
      }
    }

    // The direct half of inode_clear.
    method ClearDirect(ghost st: Start, ghost r0: seq<nat>) returns (ghost r: seq<nat>)
      requires |st.e.addrs| == NUM_DIRECT == |entry.addrs| && |r0| == NUM_REFS && Clearing(st, r0)
      requires r0[..NUM_DIRECT] == entry.addrs
      modifies this`disk, this`entry, this`logged, this`syncs
      ensures |r| == NUM_REFS && Clearing(st, r) && r == NoAddrs() + r0[NUM_DIRECT..]
      ensures entry == old(entry).(addrs := NoAddrs())
    {
      hide Clearing;
      r := r0;
      var i := 0;
      while i < NUM_DIRECT
        invariant i <= NUM_DIRECT && |r| == NUM_REFS && Clearing(st, r) && |entry.addrs| == NUM_DIRECT
        invariant entry == old(entry).(addrs := entry.addrs) && r[..NUM_DIRECT] == entry.addrs
        invariant r[NUM_DIRECT..] == r0[NUM_DIRECT..] && forall k :: 0 <= k < i ==> entry.addrs[k] == 0
      {
        assert r[i] == r[..NUM_DIRECT][i];
        Drop(entry.addrs[i], st, r, i);
        entry := entry.(addrs := entry.addrs[i := 0]);
        r := r[i := 0];
        i := i + 1;
      }
      assert entry.addrs == NoAddrs();
      assert r == r[..NUM_DIRECT] + r[NUM_DIRECT..];
    }

    // The indirect half. The block with the list is held meanwhile: its entries are cleared in the cached copy, which
    // is not synced.
    method ClearIndirect(ghost st: Start, ghost r0: seq<nat>) returns (ghost r: seq<nat>)
      requires |st.e.addrs| == NUM_DIRECT && |r0| == NUM_REFS && Clearing(st, r0) && r0[NUM_DIRECT] == entry.indirect
      requires r0[NUM_DIRECT + 1..] == Listed(disk, entry.indirect) && entry.indirect < |disk|
      modifies this`disk, this`entry, this`logged, this`syncs
      ensures |r| == NUM_REFS && Clearing(st, r) && entry == old(entry).(indirect := 0)
      ensures r[..NUM_DIRECT] == r0[..NUM_DIRECT] && forall k :: NUM_DIRECT <= k < NUM_REFS ==> r[k] == 0
    {
      hide Clearing, BlockWords;
      r := r0;
      var indirect := entry.indirect;
      if indirect != 0 {
        var table := BlockWords(disk[indirect]);
        var i := 0;
        while i < NUM_INDIRECT
          invariant i <= NUM_INDIRECT && |r| == NUM_REFS && Clearing(st, r) && |table| == NUM_INDIRECT
          invariant entry == old(entry) && r[..NUM_DIRECT + 1] == r0[..NUM_DIRECT + 1] && r[NUM_DIRECT + 1..] == table
          invariant forall k :: 0 <= k < i ==> table[k] == 0
        {
          assert r[NUM_DIRECT + 1 + i] == r[NUM_DIRECT + 1..][i];
          Drop(table[i], st, r, NUM_DIRECT + 1 + i);
          table := table[i := 0];
          r := r[NUM_DIRECT + 1 + i := 0];
          i := i + 1;
        }
        assert forall k :: NUM_DIRECT < k < NUM_REFS ==> r[k] == table[k - NUM_DIRECT - 1];
        assert r[NUM_DIRECT] == r[..NUM_DIRECT + 1][NUM_DIRECT];
        Drop(indirect, st, r, NUM_DIRECT);
        entry := entry.(indirect := 0);
        r := r[NUM_DIRECT := 0];
        assert r[..NUM_DIRECT] == r0[..NUM_DIRECT + 1][..NUM_DIRECT];
      } else {
        assert forall k :: NUM_DIRECT < k < NUM_REFS ==> r[k] == r0[NUM_DIRECT + 1..][k - NUM_DIRECT - 1];
      }
    }

    // Both halves.
    method ClearBlocks(ghost st: Start)
      requires Valid() && st == Start(disk, entry, logged, syncs, st.c)
      modifies this`disk, this`entry, this`logged, this`syncs
      ensures Valid() && entry == st.e.(addrs := NoAddrs(), indirect := 0)
      ensures Evolves(l, st.d, Refs(st.d, st.e), disk, Refs(disk, entry), ino) && Since(st.d, st.log, st.tr)
      ensures logged + {InodeBlock(l, ino)} == st.log + ClearPlan(l, ino, Refs(st.d, st.e))
    {
      hide BlockWords, EntryAt, Used, Evolves, AllLogged, ClearLog, ClearPlan, InodeBlock, DistinctRefs;
      ghost var r := Refs(disk, entry);
      Unmapped(l, disk, entry, ino, logged, syncs);
      ClearLogStart(l, logged, r);
      if entry.indirect != 0 { IndirectIsRef(l, disk, entry); }
      r := ClearDirect(st, r);
      SameListed(st.d, disk, entry.indirect);
      r := ClearIndirect(st, r);
      assert Refs(disk, entry) == r;
      ClearPlanIs(l, ino, st.log, Refs(st.d, st.e), logged, r);
    }

    // inode_clear, with rm left of the budget of the operation: the file has no blocks and no bytes any more, and
    // exactly its blocks have become free. The result is false where cache_sync panics.
    method Clear(rm: nat) returns (ok: bool, rm': nat)
      requires ino < l.numInodes && FsInv(l, disk) && WfInode(l, disk, entry)
               && Refs(disk, entry) == RefsAt(l, disk, ino)
      modifies this`disk, this`entry, this`logged, this`syncs
      ensures ok <==> old(|ClearPlan(l, ino, Refs(disk, entry)) - logged|) <= rm
      ensures ok ==> && entry == old(entry).(addrs := NoAddrs(), indirect := 0, size := 0)
                     && EntryAt(l, disk, ino) == entry
                     && FsInv(l, disk) && WfInode(l, disk, entry) && Content(disk, entry) == []
      ensures ok ==> forall j: nat :: j < l.numInodes && j != ino ==> SameFile(l, old(disk), disk, j)
      ensures ok ==> forall b: nat :: 0 < b < l.numBlocks ==>
                (Used(l, disk, b) <==> Used(l, old(disk), b) && b !in old(Refs(disk, entry)))
      ensures ok ==> && Since(old(disk), old(logged), old(syncs))
                     && logged == old(logged) + old(ClearPlan(l, ino, Refs(disk, entry)))
                     && rm' == rm - |logged - old(logged)|
      ensures ok ==> forall b :: b in logged ==> b in old(logged) || l.inodeStart <= b < l.numBlocks
      // However many blocks there were, the budget suffices if it covers the bitmap and the inode.
      ensures rm >= 1 + l.dataStart - l.bitmapStart ==> ok
    {
      hide BlockWords, EntryAt, Used, Evolves, WfRefs, Content, SameFile, NoLeak, Dense, Refs, AllLogged, ClearPlan,
           InodeBlock;
      ghost var st := Start(disk, entry, logged, syncs, []);
      var before := logged;
      RestIsWf(l, disk);
      WfRefsUsed(l, disk, Refs(disk, entry));
      ClearPlanFits(l, disk, ino, Refs(disk, entry), logged);
      ClearBlocks(st);
      ghost var mid := Start(disk, entry, logged, syncs, []);
      Cleared(l, disk, entry, ino);
      entry := entry.(size := 0);
      Sync(true);
      AllLoggedTrans(st.d, st.log, st.tr, mid.d, mid.log, mid.tr, disk, logged, syncs);
      EvolvesOn(l, st.d, Refs(st.d, st.e), mid.d, mid.e, disk, entry, ino);
      ClearedAll(l, st.d, Refs(st.d, st.e), st.e, disk, entry, ino);
      NewlyLogged(before, logged, ClearPlan(l, ino, Refs(st.d, st.e)));
      forall b | b in logged && b !in st.log ensures l.inodeStart <= b < l.numBlocks {
        ClearPlanArea(l, st.d, ino, Refs(st.d, st.e), b);
      }
      ok := |logged - before| <= rm;
      rm' := if ok then rm - |logged - before| else 0;
    }
  }

  lemma {:induction false} WfRefsUsed(l: Layout, d: Disk, r: seq<nat>)
    requires WfRefs(l, d, r)
    ensures UsedRefs(l, d, r)
  {
  }

  lemma {:induction false} SameListed(d: Disk, d2: Disk, indirect: nat)
    requires indirect != 0 ==> At(d2, indirect) == At(d, indirect)
    ensures Listed(d2, indirect) == Listed(d, indirect)
  {
  }

  lemma {:induction false} ClearPlanFits(l: Layout, d: Disk, ino: nat, r: seq<nat>, log: set<nat>)
    requires WfDisk(l, d) && WfRefs(l, d, r)
    ensures |ClearPlan(l, ino, r) - log| <= 1 + l.dataStart - l.bitmapStart
  {
    hide Used, ClearPlan;
    ClearPlanBound(l, d, ino, r);
    SubsetCard(ClearPlan(l, ino, r) - log, ClearPlan(l, ino, r));
  }

  function NoAddrs(): (a: seq<nat>)
    ensures |a| == NUM_DIRECT && forall i :: 0 <= i < |a| ==> a[i] == 0
  {
    seq(NUM_DIRECT, _ => 0)
  }

  lemma {:induction false} Cleared(l: Layout, d: Disk, e: Entry, ino: nat)
    requires WfFile(l, d, e) && ino < l.numInodes && e.addrs == NoAddrs() && e.indirect == 0
    ensures var e2 := e.(size := 0);
            && Fits(e2)
            && var d2 := PutEntry(l, d, ino, e2);
               && WfFile(l, d2, e2) && EntryAt(l, d2, ino) == e2 && Evolves(l, d, Refs(d, e), d2, Refs(d2, e2), ino)
  {
    hide BlockWords, EntryAt, Used, Evolves, WfRefs, WfDisk;
    ResizeStep(l, d, e, ino, []);
  }

  lemma {:induction false} ClearedAll(l: Layout, d: Disk, r: seq<nat>, e: Entry, d2: Disk, e2: Entry, ino: nat)
    requires FsInv(l, d) && ino < l.numInodes && |e.addrs| == NUM_DIRECT && r == Refs(d, e) == RefsAt(l, d, ino)
    requires WfFile(l, d2, e2) && e2.addrs == NoAddrs() && e2.indirect == 0 && e2.size == 0 && EntryAt(l, d2, ino) == e2
    requires Evolves(l, d, r, d2, Refs(d2, e2), ino)
    ensures FsInv(l, d2) && WfInode(l, d2, e2) && Content(d2, e2) == []
    ensures forall j: nat :: j < l.numInodes && j != ino ==> SameFile(l, d, d2, j)
    ensures forall b: nat :: 0 < b < l.numBlocks ==> (Used(l, d2, b) <==> Used(l, d, b) && b !in r)
  {
    hide BlockWords, EntryAt, Used, WfRefs, WfDisk, SameFile, FsWf, NoLeak;
    assert forall b :: b in Refs(d2, e2) ==> b == 0;
    OperationKeeps(l, d, EntryAt(l, d, ino), d2, e2, ino);
  }

  // maxbytes of file_write
  const CHUNK: nat := ((OP_MAX_NUM_BLOCKS - 4) / 2) * BLOCK_SIZE

  lemma {:induction false} RestIsWf(l: Layout, d: Disk)
    requires FsInv(l, d)
    ensures WfDisk(l, d)
  {
  }

  // Why a chunk of file_write fits the budget of an operation: three blocks if it starts at a block, four if not, but
  // then the first of them is there already.
  lemma {:induction false} ChunkBudget(off: nat, n: nat)
    requires n <= CHUNK
    ensures var inside := if off % BLOCK_SIZE != 0 && Spanned(off, n) > 0 then 1 else 0;
            2 * Spanned(off, n) + 3 - inside <= OP_MAX_NUM_BLOCKS
  {
    var q, r := off / BLOCK_SIZE, off % BLOCK_SIZE;
    assert off == BLOCK_SIZE * q + r;
  }

  lemma {:induction false} SameFiles(l: Layout, ino: nat, d: Disk)
    requires FsInv(l, d)
    ensures forall j: nat :: j < l.numInodes && j != ino ==> SameFile(l, d, d, j)
  {
    hide BlockWords, EntryAt, Used, Refs, Content;
    forall j: nat | j < l.numInodes && j != ino ensures SameFile(l, d, d, j) {
      assert WfInode(l, d, EntryAt(l, d, j));
    }
  }

  lemma {:induction false} SameFilesTrans(l: Layout, ino: nat, d: Disk, d2: Disk, d3: Disk)
    requires forall j: nat :: j < l.numInodes && j != ino ==> SameFile(l, d, d2, j)
    requires forall j: nat :: j < l.numInodes && j != ino ==> SameFile(l, d2, d3, j)
    ensures forall j: nat :: j < l.numInodes && j != ino ==> SameFile(l, d, d3, j)
  {
    hide EntryAt, Content;
    forall j: nat | j < l.numInodes && j != ino ensures SameFile(l, d, d3, j) {
      assert SameFile(l, d, d2, j) && SameFile(l, d2, d3, j);
    }
  }

  lemma {:induction false} NextPiece(c: seq<Byte>, off: nat, src: seq<Byte>, idx: nat, len: nat, now: seq<Byte>)
    requires off <= |c| && idx + len <= |src| && now == if idx == 0 then c else Overlay(c, off, src[..idx])
    ensures off + idx <= |now|
    ensures Overlay(now, off + idx, src[idx..idx + len]) == Overlay(c, off, src[..idx + len])
  {
    hide Overlay;
    OverlayNone(c, off);
    assert src[..0] == [];
    OverlayMore(c, off, src[..idx], src[idx..idx + len]);
    assert src[..idx] + src[idx..idx + len] == src[..idx + len];
  }

  lemma {:induction false} SizeBound(l: Layout, d: Disk, e: Entry)
    requires WfInode(l, d, e)
    ensures |e.addrs| == NUM_DIRECT && e.size <= MAX_BYTES
  {
  }

  function IndirectBlocks(l: Layout, e: Entry): set<nat> {
    if e.indirect == 0 then {} else {e.indirect, BitmapBlock(l, e.indirect)}
  }

  lemma {:induction false} SameBlock(o: nat, i: nat)
    requires o % BLOCK_SIZE + i < BLOCK_SIZE
    ensures (o + i) / BLOCK_SIZE == o / BLOCK_SIZE && (o + i) % BLOCK_SIZE == o % BLOCK_SIZE + i
  {
  }

  // At a hole inode_read would stop short.
  lemma {:induction false} BlockThere(l: Layout, d: Disk, e: Entry, o: nat)
    requires WfDisk(l, d) && WfInode(l, d, e) && o < e.size
    ensures |e.addrs| == NUM_DIRECT && o < MAX_BYTES && 0 < Refs(d, e)[RefOf(o / BLOCK_SIZE)] < |d|
  {
    hide Refs, Used;
    assert (o / BLOCK_SIZE) * BLOCK_SIZE <= o;
  }

  // Bytes of the file that lie in one block.
  lemma {:induction false} InBlock(d: Disk, e: Entry, o: nat, m: nat)
    requires |e.addrs| == NUM_DIRECT && e.size <= MAX_BYTES && o + m <= e.size && o % BLOCK_SIZE + m <= BLOCK_SIZE
             && m > 0
    ensures At(d, Refs(d, e)[RefOf(o / BLOCK_SIZE)])[o % BLOCK_SIZE..o % BLOCK_SIZE + m] == Content(d, e)[o..o + m]
  {
    hide Refs, At;
    var bo := o % BLOCK_SIZE;
    var x := At(d, Refs(d, e)[RefOf(o / BLOCK_SIZE)])[bo..bo + m];
    var y := Content(d, e)[o..o + m];
    forall i | 0 <= i < m ensures x[i] == y[i] {
      SameBlock(o, i);
    }
  }

  lemma {:induction false} HoldsSize(d: Disk, r: seq<nat>, c: seq<Byte>)
    requires |r| == NUM_REFS && Holds(d, r, c)
    ensures |c| <= MAX_BYTES && Dense(r, |c|)
  {
  }

  lemma {:induction false} OverlayNone(c: seq<Byte>, o: nat)
    requires o <= |c|
    ensures Overlay(c, o, []) == c
  {
  }

  lemma {:induction false} OverlaySize(c: seq<Byte>, o: nat, s: seq<Byte>)
    requires o <= |c|
    ensures |Overlay(c, o, s)| == if o + |s| <= |c| then |c| else o + |s|
  {
  }

  // A round logs what inode_map logs, and the block of the bytes.
  lemma {:induction false} Track(l: Layout, ino: nat, st: Start, was: Start, d: Disk, e: Entry, log: set<nat>,
                                 tr: seq<Put>, log1: set<nat>, offset: nat, count: nat, n: nat, m: nat)
    requires WfFile(l, was.d, was.e) && |st.e.addrs| == NUM_DIRECT == |e.addrs|
    requires AllLogged(st.d, st.log, st.tr, was.d, was.log, was.tr) && AllLogged(was.d, was.log, was.tr, d, log, tr)
    requires TookLowest(l, st.d, was.d) && TookLowest(l, was.d, d)
    requires Holds(was.d, Refs(was.d, was.e), was.c) && offset + n <= |was.c|
    requires SlotsGrew(Refs(st.d, st.e), Refs(was.d, was.e), Need(offset, count))
    requires SlotsGrew(Refs(was.d, was.e), Refs(d, e), SlotsOf((offset + n) / BLOCK_SIZE))
    requires WriteLog(l, ino, st.log, Refs(st.d, st.e), was.log, Refs(was.d, was.e), offset, n)
    requires MapLog(l, ino, was.log, Refs(was.d, was.e), log1, Refs(d, e))
    requires m > 0 && (offset + n) % BLOCK_SIZE + m <= BLOCK_SIZE && offset + n + m <= MAX_BYTES
    requires log == log1 + {Refs(d, e)[RefOf((offset + n) / BLOCK_SIZE)]}
    ensures AllLogged(st.d, st.log, st.tr, d, log, tr) && TookLowest(l, st.d, d)
    ensures WriteLog(l, ino, st.log, Refs(st.d, st.e), log, Refs(d, e), offset, n + m)
  {
    hide AllLogged, TookLowest, Holds, SlotsGrew, Need, SlotsOf, WriteLog, MapLog, Refs, IndirectFirst, Dense;
    AllLoggedTrans(st.d, st.log, st.tr, was.d, was.log, was.tr, d, log, tr);
    TookTrans(l, st.d, was.d, d);
    HoldsSize(was.d, Refs(was.d, was.e), was.c);
    DenseBelow(Refs(was.d, was.e), offset + n, |was.c|);
    RefsIndirectFirst(was.d, was.e);
    GrewKeeps(Refs(st.d, st.e), Refs(was.d, was.e), Need(offset, count));
    GrewKeeps(Refs(was.d, was.e), Refs(d, e), SlotsOf((offset + n) / BLOCK_SIZE));
    WriteLogMore(l, ino, st.log, Refs(st.d, st.e), was.log, Refs(was.d, was.e), log1, Refs(d, e), offset, n, m);
  }

  // All that inode_write has logged.
  lemma {:induction false} AsPlanned(l: Layout, st: Start, d: Disk, e: Entry, ino: nat, log1: set<nat>, log: set<nat>,
                                     offset: nat, count: nat)
    requires WfDisk(l, st.d) && WfInode(l, st.d, st.e) && WfDisk(l, d) && WfInode(l, d, e) && ino < l.numInodes
    requires offset <= st.e.size && offset + count <= e.size && TookLowest(l, st.d, d)
    requires Evolves(l, st.d, Refs(st.d, st.e), d, Refs(d, e), ino)
    requires SlotsGrew(Refs(st.d, st.e), Refs(d, e), Need(offset, count))
    requires WriteLog(l, ino, st.log, Refs(st.d, st.e), log1, Refs(d, e), offset, count)
    requires log == log1 + (if offset + count > st.e.size then {InodeBlock(l, ino)} else {})
    ensures log == st.log + Plan(l, st.d, st.e, ino, offset, count)
  {
    hide Used, TookLowest, SlotsGrew, Need, Refs, Plan, MapLogs, DataLogs, InodeBlock, WfDisk, WfInode;
    PlanIs(l, st.d, st.e, d, e, ino, st.log, log, offset, count);
  }

  lemma {:induction false} NewlyLogged(before: set<nat>, log: set<nat>, plan: set<nat>)
    requires log == before + plan
    ensures log - before == plan - before && |log| == |before| + |plan - before|
  {
    assert log == before + (plan - before);
  }

  lemma {:induction false} Lacking(l: Layout, d: Disk, e: Entry, d2: Disk, e2: Entry, ino: nat, need: set<nat>)
    requires WfFile(l, d, e) && WfFile(l, d2, e2) && Evolves(l, d, Refs(d, e), d2, Refs(d2, e2), ino)
    requires SlotsGrew(Refs(d, e), Refs(d2, e2), need) && Stuck(l, d2, Refs(d2, e2), need)
    ensures |FreeBlocks(l, d)| < |Missing(Refs(d, e), need)|
  {
    hide Refs, Used, EntryAt, FreeBlocks, Missing, SlotsGrew, Stuck;
    RoomLacking(l, d, Refs(d, e), d2, Refs(d2, e2), need);
  }

  lemma {:induction false} RoomFor(l: Layout, d: Disk, e: Entry, d2: Disk, e2: Entry, ino: nat, offset: nat, n: nat,
                                   m: nat)
    requires WfDisk(l, d) && WfInode(l, d, e) && WfInode(l, d2, e2) && offset + n <= e2.size
    requires Evolves(l, d, Refs(d, e), d2, Refs(d2, e2), ino) && SlotsGrew(Refs(d, e), Refs(d2, e2), Need(offset, n))
    ensures HasRoom(l, d, e, offset, n)
    ensures HasRoom(l, d, e, offset, n + m) <==> HasRoom(l, d2, e2, offset + n, m)
  {
    hide HasRoom, SlotsGrew, Need, Refs, WfDisk, Dense, WfRefs, Used, Fits;
    RoomNext(l, d, e, d2, e2, offset, n, m);
    RoomNext(l, d, e, d2, e2, offset, n, 0);
    NoBytes(l, d2, e2, offset + n);
  }

  lemma {:induction false} EvolvesOn(l: Layout, d: Disk, r: seq<nat>, d2: Disk, e2: Entry, d3: Disk, e3: Entry,
                                     ino: nat)
    requires WfFile(l, d2, e2) && WfFile(l, d3, e3)
    requires Evolves(l, d, r, d2, Refs(d2, e2), ino) && Evolves(l, d2, Refs(d2, e2), d3, Refs(d3, e3), ino)
    ensures Evolves(l, d, r, d3, Refs(d3, e3), ino)
  {
    hide Refs, Used, EntryAt;
    EvolvesTrans(l, d, r, d2, Refs(d2, e2), d3, Refs(d3, e3), ino);
  }

  // ---- how many blocks an operation logs

  // Logged however many blocks are written: the inode, the indirect block and its bitmap block.
  function Fixed(l: Layout, ino: nat, e: Entry): set<nat> { {InodeBlock(l, ino)} + IndirectBlocks(l, e) }

  // After n rounds of the loop of inode_write: a data block and a bitmap block a round, but no bitmap block in the
  // first round if that starts inside a block.
  predicate Within(l: Layout, ino: nat, before: set<nat>, logged: set<nat>, e: Entry, n: nat, inside: bool) {
    |logged - before - Fixed(l, ino, e)| + (if inside && n > 0 then 1 else 0) <= 2 * n
  }

  lemma {:induction false} WithinStart(l: Layout, ino: nat, logged: set<nat>, e: Entry, inside: bool)
    ensures Within(l, ino, logged, logged, e, 0, inside)
  {
    assert logged - logged - Fixed(l, ino, e) == {};
  }

  lemma {:induction false} CardUnion(a: set<nat>, b: set<nat>)
    ensures |a + b| <= |a| + |b|
  {
    assert a + b == a + (b - a);
    SubsetCard(b - a, b);
  }

  lemma {:induction false} WithinStep(l: Layout, ino: nat, base: set<nat>, before: set<nat>, logged: set<nat>, e: Entry,
                                      e2: Entry, n: nat, inside: bool, b: nat, modified: bool)
    requires Within(l, ino, base, before, e, n, inside) && (e.indirect != 0 ==> e2.indirect == e.indirect)
    requires logged <= before + {b, BitmapBlock(l, b)} + Fixed(l, ino, e2) && (!modified ==> logged <= before + {b})
    requires inside && n == 0 ==> !modified
    ensures Within(l, ino, base, logged, e2, n + 1, inside)
  {
    hide BitmapBlock, InodeBlock;
    var was := before - base - Fixed(l, ino, e);
    var more := if modified then {b, BitmapBlock(l, b)} else {b};
    SubsetCard(logged - base - Fixed(l, ino, e2), was + more);
    CardUnion(was, more);
    if modified { CardUnion({b}, {BitmapBlock(l, b)}); }
  }

  // Where the loop of inode_write stands after n rounds.
  predicate AtRound(offset: nat, count: nat, written: nat, n: nat) {
    && (n == 0 ==> written == 0)
    && (n > 0 ==> BLOCK_SIZE * (offset / BLOCK_SIZE + n - 1) < offset + count)
    && (n > 0 && written < count ==> offset + written == BLOCK_SIZE * (offset / BLOCK_SIZE + n))
  }

  lemma {:induction false} FirstRound(offset: nat, count: nat, written: nat, n: nat)
    requires AtRound(offset, count, written, n)
    ensures n == 0 ==> written == 0
  {
  }

  lemma {:induction false} RoundStep(offset: nat, count: nat, written: nat, n: nat, m: nat)
    requires AtRound(offset, count, written, n) && written < count
    requires m == Piece(offset + written, count - written)
    ensures AtRound(offset, count, written + m, n + 1)
  {
    var q, r := offset / BLOCK_SIZE, offset % BLOCK_SIZE;
    assert offset == BLOCK_SIZE * q + r;
    if n > 0 { assert (BLOCK_SIZE * (q + n)) % BLOCK_SIZE == 0; }
  }

  lemma {:induction false} WithinSpan(l: Layout, ino: nat, before: set<nat>, logged: set<nat>, e: Entry, n: nat,
                                      offset: nat, count: nat, written: nat)
    requires Within(l, ino, before, logged, e, n, offset % BLOCK_SIZE != 0) && AtRound(offset, count, written, n)
    ensures Within(l, ino, before, logged, e, Spanned(offset, count), offset % BLOCK_SIZE != 0)
  {
    assert n <= Spanned(offset, count);
  }

  // The number of blocks a whole inode_write logs.
  lemma {:induction false} WithinBound(l: Layout, ino: nat, before: set<nat>, logged: set<nat>, e: Entry, n: nat,
                                       inside: bool)
    requires Within(l, ino, before, logged, e, n, inside)
    ensures |logged| <= |before| + 2 * n + 3 - (if inside && n > 0 then 1 else 0)
  {
    hide BitmapBlock, InodeBlock;
    var rest := logged - before - Fixed(l, ino, e);
    SubsetCard(logged, before + (rest + Fixed(l, ino, e)));
    CardUnion(before, rest + Fixed(l, ino, e));
    CardUnion(rest, Fixed(l, ino, e));
    CardUnion({InodeBlock(l, ino)}, IndirectBlocks(l, e));
    if e.indirect != 0 { CardUnion({e.indirect}, {BitmapBlock(l, e.indirect)}); }
  }

  lemma {:induction false} WithinInode(l: Layout, ino: nat, base: set<nat>, before: set<nat>, logged: set<nat>,
                                       e: Entry, e2: Entry, n: nat, inside: bool)
    requires Within(l, ino, base, before, e, n, inside) && e2.indirect == e.indirect
    requires logged <= before + {InodeBlock(l, ino)}
    ensures Within(l, ino, base, logged, e2, n, inside)
  {
    hide BitmapBlock, InodeBlock;
    SubsetCard(logged - base - Fixed(l, ino, e2), before - base - Fixed(l, ino, e));
  }
}
