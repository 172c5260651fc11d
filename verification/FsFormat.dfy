/** The format of the disk byte by byte, as src/user/mkfs/main.c writes it and src/fs/defines.h declares it: where
    the fields of the log header and of an inode stand, which bit stands for a block, and which bytes are those of a
    file. */
module FsFormat {

  import opened Basics
  import opened LogFormat
  import opened FsLayout
  import opened FsFile
  import J = Journal

  // ---- little-endian numbers in a block

  function Le2(b: Block, o: nat): nat
    requires o + 2 <= BLOCK_SIZE
  {
    var x, y: nat := b[o], b[o + 1];
    x + 0x100 * y
  }

  function Le4(b: Block, o: nat): nat
    requires o + 4 <= BLOCK_SIZE
  {
    Le2(b, o) + 0x1_0000 * Le2(b, o + 2)
  }

  function Le8(b: Block, o: nat): nat
    requires o + 8 <= BLOCK_SIZE
  {
    Le4(b, o) + 0x1_0000_0000 * Le4(b, o + 4)
  }

  lemma {:induction false} WordAt(s: seq<Byte>, k: nat, i: nat)
    requires k > 0 && i < |DecodeWords(s, k)|
    ensures k * i + k <= |s| && DecodeWords(s, k)[i] == FromLe(s[k * i..k * i + k])
    decreases i
  {
    if i == 0 {
      assert s[k * i..k * i + k] == s[..k];
    } else {
      WordAt(s[k..], k, i - 1);
      assert k * i == k + k * (i - 1);
      assert s[k..][k * (i - 1)..k * (i - 1) + k] == s[k * i..k * i + k];
    }
  }

  lemma {:induction false} FromFour(s: seq<Byte>)
    requires |s| == 4
    ensures var x, y, z, w: nat := s[0], s[1], s[2], s[3];
            FromLe(s) == x + 0x100 * y + 0x1_0000 * (z + 0x100 * w)
  {
    assert FromLe(s[1..]) == s[1] + 0x100 * FromLe(s[1..][1..]);
    assert s[1..][1..] == s[2..] && s[2..][1..] == s[3..] && s[3..][1..] == [];
    assert FromLe(s[2..]) == s[2] + 0x100 * FromLe(s[3..]);
    assert FromLe(s[3..]) == s[3] + 0x100 * FromLe([]);
  }

  lemma {:induction false} FromSplit(s: seq<Byte>, k: nat)
    requires k <= |s|
    ensures FromLe(s) == FromLe(s[..k]) + Pow256(k) * FromLe(s[k..])
  {
    if k == 0 {
      assert s[0..] == s;
    } else {
      FromSplit(s[1..], k - 1);
      assert s[..k][1..] == s[1..][..k - 1] && s[1..][k - 1..] == s[k..];
    }
  }

  lemma {:induction false} WordIs(b: Block, i: nat)
    requires i < NUM_INDIRECT
    ensures BlockWords(b)[i] == Le4(b, 4 * i)
  {
    WordAt(b, 4, i);
    FromFour(b[4 * i..4 * i + 4]);
  }

  // ---- the log header

  // The number of entries is in the first 8 bytes, the home block of entry i in the 8 bytes from 8 * (i + 1) on.
  lemma {:induction false} HeaderIs(b: Block, i: nat)
    requires i < LOG_MAX_SIZE
    ensures DecodeHeader(b).num == Le8(b, 0) && DecodeHeader(b).nos[i] == Le8(b, 8 + 8 * i)
  {
    LongIs(b, 0);
    LongIs(b, i + 1);
  }

  lemma {:induction false} LongIs(b: Block, i: nat)
    requires i < 64
    ensures |DecodeWords(b, 8)| == 64 && DecodeWords(b, 8)[i] == Le8(b, 8 * i)
  {
    WordAt(b, 8, i);
    var s := b[8 * i..8 * i + 8];
    FromSplit(s, 4);
    FromFour(s[..4]);
    FromFour(s[4..]);
    PowersOf256();
  }

  function EntryNo(h: Block, i: nat): nat
    requires i < LOG_MAX_SIZE
  {
    Le8(h, 8 + 8 * i)
  }

  // What a recovery gives a block: for the block that entry i names, the i-th block behind the header; for a block that
  // no entry names, itself.
  lemma {:induction false} ReplayIs(cfg: J.Config, d: Disk, b: nat)
    requires J.ValidConfig(cfg) && |d| == cfg.numBlocks && b < cfg.numBlocks
    requires J.WfHeader(cfg, J.OnDisk(cfg, d)) && J.FitsLog(cfg, J.OnDisk(cfg, d))
    ensures var h := d[cfg.logStart];
            && Le8(h, 0) <= LOG_MAX_SIZE && Le8(h, 0) < cfg.logLen
            && (forall i: nat :: i < Le8(h, 0) && EntryNo(h, i) == b ==> J.Replay(cfg, d, b) == d[cfg.logStart + 1 + i])
            && ((forall i: nat :: i < Le8(h, 0) ==> EntryNo(h, i) != b) ==> J.Replay(cfg, d, b) == d[b])
  {
    hide DecodeHeader, Le8;
    var h, now := d[cfg.logStart], J.OnDisk(cfg, d);
    HeaderIs(h, 0);
    forall i: nat | i < LOG_MAX_SIZE ensures now.nos[i] == EntryNo(h, i) { HeaderIs(h, i); }
    forall i: nat | i < Le8(h, 0) && EntryNo(h, i) == b ensures J.Replay(cfg, d, b) == d[cfg.logStart + 1 + i] {
      assert now.nos[i] == b && J.Logged(now, b) && J.IndexOf(now, b) == i;
    }
  }

  // ---- an inode

  function InodeOffset(ino: nat): nat { 64 * (ino % 8) }

  // Each field stands where the C struct has it, in the 64 bytes of the inode.
  lemma {:induction false} EntryIs(l: Layout, d: Disk, ino: nat)
    requires l.inodeStart + ino / 8 < |d|
    ensures var b, o, e := d[l.inodeStart + ino / 8], InodeOffset(ino), EntryAt(l, d, ino);
            && e.kind == Le2(b, o) && e.major == Le2(b, o + 2) && e.minor == Le2(b, o + 4) && e.links == Le2(b, o + 6)
            && e.size == Le4(b, o + 8) && e.indirect == Le4(b, o + 60)
            && forall k :: 0 <= k < NUM_DIRECT ==> e.addrs[k] == Le4(b, o + 12 + 4 * k)
  {
    hide BlockWords;
    var b, t := d[l.inodeStart + ino / 8], 16 * (ino % 8);
    WordIs(b, t);
    WordIs(b, t + 1);
    WordIs(b, t + 2);
    WordIs(b, t + 15);
    Halves(Le2(b, 4 * t), Le2(b, 4 * t + 2));
    Halves(Le2(b, 4 * t + 4), Le2(b, 4 * t + 6));
    var ws := BlockWords(b)[t..t + 16];
    forall k | 0 <= k < NUM_DIRECT ensures EntryAt(l, d, ino).addrs[k] == Le4(b, 4 * t + 12 + 4 * k) {
      WordIs(b, t + 3 + k);
      assert ws[3..15][k] == ws[3 + k];
    }
  }

  lemma {:induction false} Halves(a: nat, b: nat)
    requires a < U16
    ensures (a + U16 * b) % U16 == a && (a + U16 * b) / U16 == b
  {
  }

  // ---- the bitmap

  // Bit b % 8 of byte b / 8 of the bitmap stands for block b, the lowest bit of a byte first.
  lemma {:induction false} UsedIs(l: Layout, d: Disk, b: nat)
    requires l.bitmapStart + b / 4096 < |d|
    ensures Used(l, d, b) <==> d[l.bitmapStart + b / 4096][b % 4096 / 8] / Pow2(b % 8) % 2 == 1
  {
    BitIs(d[l.bitmapStart + b / 4096][b % 4096 / 8], 8, b % 8);
    SamePlace(b);
  }

  lemma {:induction false} BitIs(v: nat, n: nat, i: nat)
    requires i < n
    ensures Bits(v, n)[i] <==> v / Pow2(i) % 2 == 1
  {
    if i > 0 {
      BitIs(v / 2, n - 1, i - 1);
      DivTwice(v, Pow2(i - 1));
    }
  }

  // Setting or clearing a bit adds or takes its value, unless the bit is so already.
  lemma {:induction false} WithBitIs(x: Byte, i: nat, v: bool)
    requires i < 8
    ensures var was := x / Pow2(i) % 2;
            WithBit(x, i, v) == x + Pow2(i) * ((if v then 1 else 0) - was)
  {
    var bs := Bits(x, 8);
    EightBits(bs[i := v]);
    FromChanged(bs, i, v);
    assert Pow2(8) == 16 * Pow2(4) && Pow2(4) == 16 * Pow2(0);
    FromToBits(x, 8);
    BitIs(x, 8, i);
  }

  lemma {:induction false} FromChanged(bs: seq<bool>, i: nat, v: bool)
    requires i < |bs|
    ensures FromBits(bs[i := v]) == FromBits(bs) + Pow2(i) * ((if v then 1 else 0) - (if bs[i] then 1 else 0))
  {
    if i == 0 {
      assert bs[i := v][1..] == bs[1..];
    } else {
      FromChanged(bs[1..], i - 1, v);
      assert bs[i := v][1..] == bs[1..][i - 1 := v];
    }
  }

  lemma {:induction false} FromToBits(x: nat, n: nat)
    requires x < Pow2(n)
    ensures FromBits(Bits(x, n)) == x
  {
    if n > 0 {
      FromToBits(x / 2, n - 1);
      assert Bits(x, n)[1..] == Bits(x / 2, n - 1);
    }
  }

  // Byte j of a bitmap in which just the first n bits are set, as mkfs makes it.
  function FreshByte(n: nat, j: nat): nat {
    if 8 * j + 8 <= n then 255 else if n <= 8 * j then 0 else Pow2(n - 8 * j) - 1
  }

  predicate FreshBitmap(l: Layout, d: Disk, n: nat)
    requires ValidLayout(l) && |d| == l.numBlocks
  {
    forall m, i :: l.bitmapStart <= m < l.dataStart && 0 <= i < BLOCK_SIZE ==>
      d[m][i] == FreshByte(n, BLOCK_SIZE * (m - l.bitmapStart) + i)
  }

  lemma {:induction false} SamePlace(b: nat)
    ensures BLOCK_SIZE * (b / 4096) + b % 4096 / 8 == b / 8 && b % 4096 % 8 == b % 8
  {
    assert b == 8 * (512 * (b / 4096)) + b % 4096;
  }

  // Then just the first n blocks are used.
  lemma {:induction false} FreshUsed(l: Layout, d: Disk, n: nat, b: nat)
    requires ValidLayout(l) && |d| == l.numBlocks && FreshBitmap(l, d, n) && b < l.numBlocks
    ensures Used(l, d, b) <==> b < n
  {
    hide Bits, FreshByte;
    var q, i := b / 4096, b % 4096 / 8;
    SamePlace(b);
    assert d[l.bitmapStart + q][i] == FreshByte(n, b / 8);
    FreshBit(n, b / 8, b % 8);
  }

  // The lowest free block is then block n.
  lemma {:induction false} FirstFree(l: Layout, d: Disk, b: nat)
    requires ValidLayout(l) && |d| == l.numBlocks && b <= l.numBlocks
    requires (forall x: nat :: x < b ==> Used(l, d, x)) && (b < l.numBlocks ==> !Used(l, d, b))
    ensures forall n: nat :: n < l.numBlocks && FreshBitmap(l, d, n) ==> b == n
  {
    hide Used, FreshBitmap;
    forall n: nat | n < l.numBlocks && FreshBitmap(l, d, n) ensures b == n {
      FreshUsed(l, d, n, n);
      if b < l.numBlocks { FreshUsed(l, d, n, b); }
    }
  }

  lemma {:induction false} FreshBit(n: nat, j: nat, i: nat)
    requires i < 8
    ensures Bits(FreshByte(n, j), 8)[i] <==> 8 * j + i < n
  {
    if 8 * j + 8 <= n {
      assert Pow2(8) == 16 * Pow2(4) && Pow2(4) == 16 * Pow2(0);
      LowOnes(8, 8, i);
    } else if n <= 8 * j {
      LowOnes(0, 8, i);
    } else {
      LowOnes(n - 8 * j, 8, i);
    }
  }

  lemma {:induction false} LowOnes(m: nat, n: nat, i: nat)
    requires i < n && m <= n
    ensures Bits(Pow2(m) - 1, n)[i] <==> i < m
    decreases n
  {
    if m == 0 {
      if i > 0 { LowOnes(0, n - 1, i - 1); }
    } else {
      var v := Pow2(m - 1) - 1;
      assert Pow2(m) - 1 == 2 * v + 1 && (2 * v + 1) / 2 == v && (2 * v + 1) % 2 == 1;
      if i > 0 { LowOnes(m - 1, n - 1, i - 1); }
    }
  }

  // ---- the bytes of a file

  // The block with byte i of the file, as the inode and its indirect block list it.
  function FileBlock(d: Disk, e: Entry, i: nat): nat
    requires |e.addrs| == 12 && i < 512 * 140
  {
    var k := i / 512;
    if k < 12 then e.addrs[k] else if e.indirect < |d| then Le4(d[e.indirect], 4 * (k - 12)) else 0
  }

  lemma {:induction false} ByteIs(l: Layout, d: Disk, e: Entry, i: nat)
    requires |d| == l.numBlocks && WfInode(l, d, e) && i < e.size
    ensures FileBlock(d, e, i) < |d| && Content(d, e)[i] == d[FileBlock(d, e, i)][i % 512]
  {
    hide BlockWords;
    var k, r := i / 512, Refs(d, e);
    assert k * BLOCK_SIZE < e.size && r[RefOf(k)] != 0;
    if k >= 12 {
      assert r[NUM_DIRECT] == e.indirect;
      assert r[NUM_DIRECT + 1..] == Listed(d, e.indirect);
      assert r[k + 1] == Listed(d, e.indirect)[k - 12];
      if e.indirect != 0 { WordIs(d[e.indirect], k - 12); }
    }
  }
}
