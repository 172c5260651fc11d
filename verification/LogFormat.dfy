/** Blocks as sequences of little-endian words, and the log header as src/fs/defines.h lays it out in one block: 64
    words of 8 bytes, the number of entries and then the home block number of each entry. */
module LogFormat {

  import opened Basics

  const BLOCK_SIZE: nat := 512
  const LOG_MAX_SIZE: nat := 63
  const OP_MAX_NUM_BLOCKS: nat := 10
  const WORD_MAX: nat := 0x1_0000_0000_0000_0000

  type Block = b: seq<Byte> | |b| == BLOCK_SIZE witness seq(BLOCK_SIZE, _ => 0)

  type Disk = seq<Block>

  function Pow256(k: nat): nat { if k == 0 then 1 else 256 * Pow256(k - 1) }

  function ToLe(n: nat, k: nat): (s: seq<Byte>)
    ensures |s| == k
  {
    if k == 0 then [] else [n % 256] + ToLe(n / 256, k - 1)
  }

  function FromLe(s: seq<Byte>): nat {
    if s == [] then 0 else s[0] + 256 * FromLe(s[1..])
  }

  lemma {:induction false} FromToLe(n: nat, k: nat)
    requires n < Pow256(k)
    ensures FromLe(ToLe(n, k)) == n
  {
    if k > 0 {
      FromToLe(n / 256, k - 1);
      assert ToLe(n, k)[1..] == ToLe(n / 256, k - 1);
    }
  }

  lemma {:induction false} FromLeBound(s: seq<Byte>)
    ensures FromLe(s) < Pow256(|s|)
  {
    if s != [] { FromLeBound(s[1..]); }
  }

  // n words of k bytes each.
  function EncodeWords(ws: seq<nat>, k: nat): (s: seq<Byte>)
    ensures |s| == |ws| * k
  {
    if ws == [] then [] else ToLe(ws[0], k) + EncodeWords(ws[1..], k)
  }

  function DecodeWords(s: seq<Byte>, k: nat): (ws: seq<nat>)
    requires k > 0
    ensures |ws| * k <= |s| < (|ws| + 1) * k && forall i :: 0 <= i < |ws| ==> ws[i] < Pow256(k)
    decreases |s|
  {
    if |s| < k then []
    else
      FromLeBound(s[..k]);
      var rest := DecodeWords(s[k..], k);
      assert (1 + |rest|) * k == k + |rest| * k;
      [FromLe(s[..k])] + rest
  }

  lemma {:induction false} DecodeEncodeWords(ws: seq<nat>, k: nat)
    requires k > 0 && forall i :: 0 <= i < |ws| ==> ws[i] < Pow256(k)
    ensures DecodeWords(EncodeWords(ws, k), k) == ws
  {
    if ws != [] {
      var s := EncodeWords(ws, k);
      assert |ws| * k == k + |ws[1..]| * k;
      assert s[..k] == ToLe(ws[0], k) && s[k..] == EncodeWords(ws[1..], k);
      FromToLe(ws[0], k);
      DecodeEncodeWords(ws[1..], k);
    }
  }

  lemma PowersOf256()
    ensures Pow256(8) == WORD_MAX && Pow256(4) == 0x1_0000_0000 && Pow256(2) == 0x1_0000
  {
    assert Pow256(2) == 256 * Pow256(1) && Pow256(4) == 65536 * Pow256(2);
    assert Pow256(8) == 65536 * Pow256(6) && Pow256(6) == 65536 * Pow256(4);
  }

  // header.num_blocks and header.block_no
  datatype Header = Header(num: nat, nos: seq<nat>)

  // What fits the C struct.
  predicate Storable(h: Header) {
    |h.nos| == LOG_MAX_SIZE && h.num < WORD_MAX && forall i :: 0 <= i < |h.nos| ==> h.nos[i] < WORD_MAX
  }

  function EncodeHeader(h: Header): Block
    requires Storable(h)
  {
    EncodeWords([h.num] + h.nos, 8)
  }

  function DecodeHeader(b: Block): (h: Header)
    ensures Storable(h)
  {
    PowersOf256();
    var ws := DecodeWords(b, 8);
    Header(ws[0], ws[1..])
  }

  // write_header and then read_header give the header back.
  lemma HeaderRoundTrip(h: Header)
    requires Storable(h)
    ensures DecodeHeader(EncodeHeader(h)) == h
  {
    PowersOf256();
    var ws := [h.num] + h.nos;
    DecodeEncodeWords(ws, 8);
    assert ws[1..] == h.nos;
  }
}
