/** How src/fs lays inodes, the free-block bitmap and the block numbers of a file out on the blocks of the disk
    (src/fs/defines.h), with the get/put laws of each. */
module FsLayout {

  import opened Basics
  import opened LogFormat

  const NUM_DIRECT: nat := 12
  const NUM_INDIRECT: nat := 128
  const MAX_BLOCKS: nat := NUM_DIRECT + NUM_INDIRECT
  const MAX_BYTES: nat := MAX_BLOCKS * BLOCK_SIZE
  const INODE_PER_BLOCK: nat := 8
  const BIT_PER_BLOCK: nat := 4096

  // ---- a block as 128 words of 4 bytes

  predicate Small(ws: seq<nat>) { forall i :: 0 <= i < |ws| ==> ws[i] < U32 }

  function BlockWords(b: Block): (ws: seq<nat>)
    ensures |ws| == NUM_INDIRECT && Small(ws)
  {
    PowersOf256();
    DecodeWords(b, 4)
  }

  function WordsBlock(ws: seq<nat>): Block
    requires |ws| == NUM_INDIRECT
  {
    EncodeWords(ws, 4)
  }

  lemma {:induction false} WordsRoundTrip(ws: seq<nat>)
    requires |ws| == NUM_INDIRECT && Small(ws)
    ensures BlockWords(WordsBlock(ws)) == ws
  {
    PowersOf256();
    DecodeEncodeWords(ws, 4);
  }

  function ZeroBlock(): (b: Block)
    ensures forall i :: 0 <= i < |b| ==> b[i] == 0
  {
    seq(BLOCK_SIZE, _ => 0)
  }

  lemma {:induction false} DecodeZeros(s: seq<Byte>)
    requires forall i :: 0 <= i < |s| ==> s[i] == 0
    ensures forall i :: 0 <= i < |DecodeWords(s, 4)| ==> DecodeWords(s, 4)[i] == 0
    decreases |s|
  {
    if |s| >= 4 {
      DecodeZeros(s[4..]);
      FromZeros(s[..4]);
    }
  }

  lemma {:induction false} FromZeros(s: seq<Byte>)
    requires forall i :: 0 <= i < |s| ==> s[i] == 0
    ensures FromLe(s) == 0
  {
    if s != [] { FromZeros(s[1..]); }
  }

  lemma {:induction false} ZeroWords()
    ensures BlockWords(ZeroBlock()) == NoRefs()
  {
    DecodeZeros(ZeroBlock());
  }

  // ---- an inode as 16 words; the first two hold two 16-bit fields each

  datatype Entry = Entry(kind: nat, major: nat, minor: nat, links: nat, size: nat, addrs: seq<nat>, indirect: nat)

  predicate Fits(e: Entry) {
    e.kind < U16 && e.major < U16 && e.minor < U16 && e.links < U16 && e.size < U32 && |e.addrs| == NUM_DIRECT
    && Small(e.addrs) && e.indirect < U32
  }

  function EntryWords(e: Entry): (ws: seq<nat>)
    requires Fits(e)
    ensures |ws| == 16 && Small(ws)
  {
    [e.kind + U16 * e.major, e.minor + U16 * e.links, e.size] + e.addrs + [e.indirect]
  }

  function WordsEntry(ws: seq<nat>): (e: Entry)
    requires |ws| == 16 && Small(ws)
    ensures Fits(e)
  {
    Entry(ws[0] % U16, ws[0] / U16, ws[1] % U16, ws[1] / U16, ws[2], ws[3..15], ws[15])
  }

  lemma {:induction false} EntryRoundTrip(e: Entry)
    requires Fits(e)
    ensures WordsEntry(EntryWords(e)) == e
  {
    assert EntryWords(e)[3..15] == e.addrs;
  }

  // ---- the disk

  datatype Layout = Layout(numBlocks: nat, numInodes: nat, inodeStart: nat, bitmapStart: nat, dataStart: nat)

  // The regions in the order of the disk layout, each large enough for what it holds.
  predicate ValidLayout(l: Layout) {
    && 0 < l.inodeStart <= l.bitmapStart <= l.dataStart <= l.numBlocks < U32
    && l.numInodes <= INODE_PER_BLOCK * (l.bitmapStart - l.inodeStart)
    && l.numBlocks <= BIT_PER_BLOCK * (l.dataStart - l.bitmapStart)
  }

  function At(d: Disk, b: nat): Block { if b < |d| then d[b] else ZeroBlock() }

  function InodeBlock(l: Layout, ino: nat): nat { l.inodeStart + ino / INODE_PER_BLOCK }

  function EntryIn(b: Block, s: nat): Entry
    requires s < INODE_PER_BLOCK
  {
    WordsEntry(BlockWords(b)[16 * s..16 * s + 16])
  }

  function EntryAt(l: Layout, d: Disk, ino: nat): Entry { EntryIn(At(d, InodeBlock(l, ino)), ino % INODE_PER_BLOCK) }

  function PutIn(b: Block, s: nat, e: Entry): Block
    requires s < INODE_PER_BLOCK && Fits(e)
  {
    var ws := BlockWords(b);
    var ws' := ws[..16 * s] + EntryWords(e) + ws[16 * s + 16..];
    WordsBlock(ws')
  }

  lemma {:induction false} PutInFacts(b: Block, s: nat, e: Entry, t: nat)
    requires s < INODE_PER_BLOCK && t < INODE_PER_BLOCK && Fits(e)
    ensures EntryIn(PutIn(b, s, e), t) == if t == s then e else EntryIn(b, t)
  {
    var ws := BlockWords(b);
    var ws' := ws[..16 * s] + EntryWords(e) + ws[16 * s + 16..];
    WordsRoundTrip(ws');
    EntryRoundTrip(e);
    if t == s {
      assert ws'[16 * t..16 * t + 16] == EntryWords(e);
    } else {
      assert ws'[16 * t..16 * t + 16] == ws[16 * t..16 * t + 16];
    }
  }

  function PutEntry(l: Layout, d: Disk, ino: nat, e: Entry): Disk
    requires Fits(e) && InodeBlock(l, ino) < |d|
  {
    var b := InodeBlock(l, ino);
    d[b := PutIn(d[b], ino % INODE_PER_BLOCK, e)]
  }

  lemma {:induction false} PutEntryFacts(l: Layout, d: Disk, ino: nat, e: Entry, j: nat)
    requires Fits(e) && InodeBlock(l, ino) < |d|
    ensures EntryAt(l, PutEntry(l, d, ino, e), j) == if j == ino then e else EntryAt(l, d, j)
  {
    PutInFacts(At(d, InodeBlock(l, ino)), ino % INODE_PER_BLOCK, e, j % INODE_PER_BLOCK);
  }

  // ---- the bitmap

  function Bits(v: nat, n: nat): (bs: seq<bool>)
    ensures |bs| == n
  {
    if n == 0 then [] else [v % 2 == 1] + Bits(v / 2, n - 1)
  }

  function FromBits(bs: seq<bool>): (v: nat)
    ensures v < Pow2(|bs|)
  {
    if bs == [] then 0 else (if bs[0] then 1 else 0) + 2 * FromBits(bs[1..])
  }

  lemma {:induction false} BitsRoundTrip(bs: seq<bool>)
    ensures Bits(FromBits(bs), |bs|) == bs
  {
    if bs != [] {
      BitsRoundTrip(bs[1..]);
      assert bs == [bs[0]] + bs[1..];
    }
  }

  lemma {:induction false} EightBits(bs: seq<bool>)
    requires |bs| == 8
    ensures FromBits(bs) < 256 && Bits(FromBits(bs), 8) == bs
  {
    assert Pow2(8) == 16 * Pow2(4) && Pow2(4) == 16 * Pow2(0);
    BitsRoundTrip(bs);
  }

  function BitIn(b: Block, i: nat): bool
    requires i < BIT_PER_BLOCK
  {
    Bits(b[i / 8], 8)[i % 8]
  }

  // The byte with one bit set (`|=` in cache_alloc) or cleared (`&= ~` in cache_free).
  function WithBit(x: Byte, i: nat, v: bool): Byte
    requires i < 8
  {
    EightBits(Bits(x, 8)[i := v]);
    FromBits(Bits(x, 8)[i := v])
  }

  function PutBitIn(b: Block, i: nat, v: bool): Block
    requires i < BIT_PER_BLOCK
  {
    b[i / 8 := WithBit(b[i / 8], i % 8, v)]
  }

  lemma {:induction false} PutBitInFacts(b: Block, i: nat, v: bool, j: nat)
    requires i < BIT_PER_BLOCK && j < BIT_PER_BLOCK
    ensures BitIn(PutBitIn(b, i, v), j) == if j == i then v else BitIn(b, j)
  {
    EightBits(Bits(b[i / 8], 8)[i % 8 := v]);
  }

  function BitmapBlock(l: Layout, b: nat): nat { l.bitmapStart + b / BIT_PER_BLOCK }

  predicate Used(l: Layout, d: Disk, b: nat) { BitIn(At(d, BitmapBlock(l, b)), b % BIT_PER_BLOCK) }

  function PutBit(l: Layout, d: Disk, b: nat, v: bool): Disk
    requires BitmapBlock(l, b) < |d|
  {
    var m := BitmapBlock(l, b);
    d[m := PutBitIn(d[m], b % BIT_PER_BLOCK, v)]
  }

  lemma {:induction false} PutBitFacts(l: Layout, d: Disk, b: nat, v: bool, x: nat)
    requires BitmapBlock(l, b) < |d|
    ensures Used(l, PutBit(l, d, b, v), x) == if x == b then v else Used(l, d, x)
  {
    PutBitInFacts(At(d, BitmapBlock(l, b)), b % BIT_PER_BLOCK, v, x % BIT_PER_BLOCK);
  }

  // ---- the blocks of a file: 12 direct ones, the indirect block, the 128 it lists; 0 is "none"

  function NoRefs(): (r: seq<nat>)
    ensures |r| == NUM_INDIRECT && forall i :: 0 <= i < |r| ==> r[i] == 0
  {
    seq(NUM_INDIRECT, _ => 0)
  }

  const NUM_REFS: nat := NUM_DIRECT + 1 + NUM_INDIRECT

  function Refs(d: Disk, e: Entry): (r: seq<nat>)
    requires |e.addrs| == NUM_DIRECT
    ensures |r| == NUM_REFS
  {
    e.addrs + [e.indirect] + Listed(d, e.indirect)
  }

  // What the indirect block lists.
  function Listed(d: Disk, indirect: nat): (r: seq<nat>)
    ensures |r| == NUM_INDIRECT
  {
    if indirect == 0 then NoRefs() else BlockWords(At(d, indirect))
  }

  // The indirect block, and so the list of blocks, is untouched by writes elsewhere.
  lemma {:induction false} RefsSame(d: Disk, d2: Disk, e: Entry)
    requires |e.addrs| == NUM_DIRECT && (e.indirect != 0 ==> At(d2, e.indirect) == At(d, e.indirect))
    ensures Refs(d2, e) == Refs(d, e)
  {
  }

  // Where the k-th block of a file's data is listed.
  function RefOf(k: nat): nat { if k < NUM_DIRECT then k else k + 1 }

  function PutWord(b: Block, i: nat, v: nat): Block
    requires i < NUM_INDIRECT && v < U32
  {
    WordsBlock(BlockWords(b)[i := v])
  }

  lemma {:induction false} RefsPutDirect(d: Disk, e: Entry, k: nat, b: nat)
    requires |e.addrs| == NUM_DIRECT && k < NUM_DIRECT
    ensures Refs(d, e.(addrs := e.addrs[k := b])) == Refs(d, e)[k := b]
  {
  }

  lemma {:induction false} RefsPutWord(d: Disk, e: Entry, i: nat, b: nat)
    requires |e.addrs| == NUM_DIRECT && i < NUM_INDIRECT && b < U32 && 0 < e.indirect < |d|
    ensures Refs(d[e.indirect := PutWord(d[e.indirect], i, b)], e) == Refs(d, e)[NUM_DIRECT + 1 + i := b]
  {
    WordsRoundTrip(BlockWords(d[e.indirect])[i := b]);
  }

  lemma {:induction false} RefsPutIndirect(d: Disk, e: Entry, b: nat)
    requires |e.addrs| == NUM_DIRECT && e.indirect == 0 && 0 < b < |d| && d[b] == ZeroBlock()
    ensures Refs(d, e.(indirect := b)) == Refs(d, e)[NUM_DIRECT := b]
  {
    ZeroWords();
  }
}
