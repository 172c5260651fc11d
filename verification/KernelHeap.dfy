/** src/kernel/mem.c: kalloc, kfree and merge_adjacent on the list of blocks of one CPU. */
module KernelHeap {

  import opened Basics

  const PAGE_SIZE: nat := 4096
  const HEADER: nat := 16 // sizeof(Block)
  const MAX_SIZE: nat := PAGE_SIZE - HEADER

  // A block: its header stands at addr, its payload of size bytes behind it. The list is in the order of the next
  // pointers.
  datatype Block = Block(addr: nat, size: nat, used: nat, free: bool)

  function End(b: Block): nat { b.addr + HEADER + b.size }

  function PageOf(a: nat): nat { a / PAGE_SIZE }

  // ---------- the blocks of a page tile it ----------

  // Where the next block of the list must start: at a given address inside a page, or with a new page.
  datatype Place = Inside(at: nat) | Between | Nowhere

  function Next(b: Block, p: Place): Place {
    if && (if p.Inside? then b.addr == p.at else p.Between? && b.addr % PAGE_SIZE == 0)
       && b.size % 4 == 0 && End(b) <= (PageOf(b.addr) + 1) * PAGE_SIZE && (!b.free ==> b.used <= b.size)
    then if End(b) == (PageOf(b.addr) + 1) * PAGE_SIZE then Between else Inside(End(b))
    else Nowhere
  }

  function After(bs: seq<Block>, p: Place): Place
    decreases bs
  {
    if bs == [] then p else After(bs[1..], Next(bs[0], p))
  }

  // Page by page, the blocks follow each other from the start of the page to its end.
  predicate Tiled(bs: seq<Block>) { After(bs, Between) == Between }

  // The pages of the blocks, in the order of the list.
  function Pages(bs: seq<Block>, p: Place): seq<nat>
    decreases bs
  {
    if bs == [] then [] else (if p.Inside? then [] else [PageOf(bs[0].addr)]) + Pages(bs[1..], Next(bs[0], p))
  }

  predicate WfHeap(bs: seq<Block>) { Tiled(bs) && NoDup(Pages(bs, Between)) }

  lemma {:induction false} AfterConcat(a: seq<Block>, b: seq<Block>, p: Place)
    ensures After(a + b, p) == After(b, After(a, p))
    ensures Pages(a + b, p) == Pages(a, p) + Pages(b, After(a, p))
    decreases a
  {
    hide Next, PageOf;
    if a == [] {
      assert a + b == b;
    } else {
      var n := Next(a[0], p);
      AfterConcat(a[1..], b, n);
      assert (a + b)[1..] == a[1..] + b;
      var first := if p.Inside? then [] else [PageOf(a[0].addr)];
      Assoc(first, Pages(a[1..], n), Pages(b, After(a, p)));
    }
  }

  lemma {:induction false} Assoc(a: seq<nat>, b: seq<nat>, c: seq<nat>)
    ensures (a + b) + c == a + (b + c)
  {
  }

  // Blocks may be replaced by others that fill the same place.
  lemma {:induction false} Retile(a: seq<Block>, was: seq<Block>, now: seq<Block>, b: seq<Block>)
    requires WfHeap(a + was + b)
    requires var p := After(a, Between); After(now, p) == After(was, p) && Pages(now, p) == Pages(was, p)
    ensures WfHeap(a + now + b) && Pages(a + now + b, Between) == Pages(a + was + b, Between)
  {
    hide After, Pages;
    AfterConcat(a + was, b, Between);
    AfterConcat(a, was, Between);
    AfterConcat(a + now, b, Between);
    AfterConcat(a, now, Between);
  }

  lemma {:induction false} StaysNowhere(bs: seq<Block>)
    ensures After(bs, Nowhere) == Nowhere
    decreases bs
  {
    if bs != [] { StaysNowhere(bs[1..]); }
  }

  // Every block of a well-formed heap is where it must be.
  lemma {:induction false} InPlace(bs: seq<Block>, k: nat)
    requires Tiled(bs) && k < |bs|
    ensures var p := After(bs[..k], Between); Next(bs[k], p) != Nowhere && p != Nowhere
    ensures bs == bs[..k] + [bs[k]] + bs[k + 1..]
  {
    var a, c := bs[..k], bs[k + 1..];
    assert bs == a + [bs[k]] + c && a + [bs[k]] == bs[..k + 1];
    AfterConcat(a + [bs[k]], c, Between);
    AfterConcat(a, [bs[k]], Between);
    StaysNowhere(c);
    StaysNowhere([bs[k]]);
    assert After([bs[k]], After(a, Between)) == Next(bs[k], After(a, Between));
  }

  // ---------- no two blocks overlap ----------

  predicate Apart(b: Block, c: Block) { End(b) <= c.addr || End(c) <= b.addr }

  // From a place in page pg on, blocks lie behind it or in other pages.
  lemma {:induction false} Onwards(bs: seq<Block>, p: Place, pg: nat, floor: nat)
    requires After(bs, p) != Nowhere && p != Nowhere && pg !in Pages(bs, p)
    requires p.Inside? ==> PageOf(p.at) == pg && floor <= p.at
    ensures forall c :: c in bs ==> (PageOf(c.addr) == pg && floor <= c.addr) || PageOf(c.addr) != pg
    decreases bs
  {
    if bs != [] {
      var n := Next(bs[0], p);
      StaysNowhere(bs[1..]);
      assert n != Nowhere;
      if p.Inside? {
        if n.Inside? { InsidePage(bs[0], p); }
        Onwards(bs[1..], n, pg, floor);
      } else {
        assert Pages(bs, p)[0] == PageOf(bs[0].addr) && PageOf(bs[0].addr) != pg;
        Elsewhere(bs[1..], n, pg);
      }
    }
  }

  lemma {:induction false} InsidePage(b: Block, p: Place)
    requires Next(b, p).Inside?
    ensures PageOf(End(b)) == PageOf(b.addr)
  {
  }

  // Blocks of the other pages.
  lemma {:induction false} Elsewhere(bs: seq<Block>, p: Place, pg: nat)
    requires After(bs, p) != Nowhere && p != Nowhere && pg !in Pages(bs, p) && (p.Inside? ==> PageOf(p.at) != pg)
    ensures forall c :: c in bs ==> PageOf(c.addr) != pg
    decreases bs
  {
    if bs != [] {
      var n := Next(bs[0], p);
      StaysNowhere(bs[1..]);
      if p.Between? { assert Pages(bs, p)[0] == PageOf(bs[0].addr); }
      if n.Inside? { InsidePage(bs[0], p); }
      Elsewhere(bs[1..], n, pg);
    }
  }

  // The page a place lies in has been listed.
  lemma {:induction false} CurrentPage(bs: seq<Block>, p: Place)
    requires After(bs, p).Inside?
    ensures || (p.Inside? && PageOf(After(bs, p).at) == PageOf(p.at))
            || PageOf(After(bs, p).at) in Pages(bs, p)
    decreases bs
  {
    if bs != [] {
      var n := Next(bs[0], p);
      CurrentPage(bs[1..], n);
      StaysNowhere(bs[1..]);
      if n.Inside? {
        InsidePage(bs[0], p);
        if p.Between? { assert Pages(bs, p)[0] == PageOf(bs[0].addr); }
      }
    }
  }

  // The page of a block is not listed again behind it.
  lemma {:induction false} PageOnce(a: seq<Block>, b: Block, c: seq<Block>)
    requires WfHeap(a + [b] + c) && Next(b, After(a, Between)) != Nowhere
    ensures PageOf(b.addr) !in Pages(c, Next(b, After(a, Between)))
  {
    var p := After(a, Between);
    AfterConcat(a + [b], c, Between);
    AfterConcat(a, [b], Between);
    assert After([b], p) == Next(b, p);
    var front := Pages(a, Between) + Pages([b], p);
    if p.Inside? {
      CurrentPage(a, Between);
    } else {
      assert Pages([b], p)[0] == PageOf(b.addr);
    }
    assert PageOf(b.addr) in front;
    NoDupParts(front, Pages(c, Next(b, p)), PageOf(b.addr));
  }

  lemma {:induction false} NoDupParts(a: seq<nat>, b: seq<nat>, x: nat)
    requires NoDup(a + b) && x in a
    ensures x !in b
  {
    var i :| 0 <= i < |a| && a[i] == x;
    assert (a + b)[i] == x;
    assert forall j :: 0 <= j < |b| ==> b[j] == (a + b)[|a| + j];
  }

  // No two blocks of the heap overlap, headers included.
  lemma {:induction false} AllApart(bs: seq<Block>, i: nat, j: nat)
    requires WfHeap(bs) && i < j < |bs|
    ensures Apart(bs[i], bs[j])
  {
    InPlace(bs, i);
    InPlace(bs, j);
    var a, b, c := bs[..i], bs[i], bs[i + 1..];
    var p := After(a, Between);
    var n := Next(b, p);
    AfterConcat(a + [b], c, Between);
    AfterConcat(a, [b], Between);
    assert After([b], p) == n;
    PageOnce(a, b, c);
    if n.Inside? { InsidePage(b, p); }
    Onwards(c, n, PageOf(b.addr), End(b));
    assert bs[j] == c[j - i - 1];
    OtherPages(b, bs[j]);
  }

  lemma {:induction false} OtherPages(b: Block, c: Block)
    requires End(b) <= (PageOf(b.addr) + 1) * PAGE_SIZE && End(c) <= (PageOf(c.addr) + 1) * PAGE_SIZE
    requires PageOf(b.addr) != PageOf(c.addr)|| End(b) <= c.addr
    ensures Apart(b, c)
  {
  }

  // ---------- live allocations ----------

  // Address and length of the payloads handed out.
  function Live(bs: seq<Block>): set<(nat, nat)>
    decreases bs
  {
    if bs == [] then {} else (if bs[0].free then {} else {(bs[0].addr + HEADER, bs[0].used)}) + Live(bs[1..])
  }

  lemma {:induction false} LiveConcat(a: seq<Block>, b: seq<Block>)
    ensures Live(a + b) == Live(a) + Live(b)
    decreases a
  {
    if a == [] {
      assert a + b == b;
    } else {
      LiveConcat(a[1..], b);
      assert (a + b)[1..] == a[1..] + b;
    }
  }

  lemma {:induction false} LiveSwap(a: seq<Block>, was: seq<Block>, now: seq<Block>, b: seq<Block>)
    requires Live(now) == Live(was)
    ensures Live(a + now + b) == Live(a + was + b)
  {
    hide Live;
    LiveConcat(a + was, b);
    LiveConcat(a, was);
    LiveConcat(a + now, b);
    LiveConcat(a, now);
  }

  lemma {:induction false} LiveTwo(b: Block, c: Block)
    ensures c.free ==> Live([b, c]) == Live([b])
    ensures Live([b]) == if b.free then {} else {(b.addr + HEADER, b.used)}
  {
    assert [b, c][1..] == [c];
    assert [c][1..] == [] && [b][1..] == [];
    assert Live([c]) == if c.free then {} else {(c.addr + HEADER, c.used)};
  }

  lemma {:induction false} LiveBlock(bs: seq<Block>, x: (nat, nat)) returns (k: nat)
    requires x in Live(bs)
    ensures k < |bs| && !bs[k].free && x == (bs[k].addr + HEADER, bs[k].used)
    decreases bs
  {
    if !bs[0].free && x == (bs[0].addr + HEADER, bs[0].used) {
      k := 0;
    } else {
      k := LiveBlock(bs[1..], x);
      k := k + 1;
    }
  }

  // Two live payloads never overlap, and no header lies in one.
  lemma {:induction false} LiveApart(bs: seq<Block>, x: (nat, nat), y: (nat, nat))
    requires WfHeap(bs) && x in Live(bs) && y in Live(bs) && x != y
    ensures x.0 + x.1 <= y.0 || y.0 + y.1 <= x.0
  {
    var i := LiveBlock(bs, x);
    var j := LiveBlock(bs, y);
    InPlace(bs, i);
    InPlace(bs, j);
    if i < j { AllApart(bs, i, j); } else { AllApart(bs, j, i); }
  }

  lemma {:induction false} HeadersApart(bs: seq<Block>, x: (nat, nat), k: nat)
    requires WfHeap(bs) && x in Live(bs) && k < |bs|
    ensures x.0 + x.1 <= bs[k].addr || bs[k].addr + HEADER <= x.0
  {
    var i := LiveBlock(bs, x);
    InPlace(bs, i);
    if i < k { AllApart(bs, i, k); } else if k < i { AllApart(bs, k, i); }
  }

  // ---------- the steps of kalloc and kfree ----------

  lemma {:induction false} One(b: Block, p: Place)
    ensures After([b], p) == Next(b, p) && Pages([b], p) == if p.Inside? then [] else [PageOf(b.addr)]
  {
  }

  lemma {:induction false} Two(b: Block, c: Block, p: Place)
    ensures After([b, c], p) == Next(c, Next(b, p))
    ensures Next(b, p).Inside? ==> Pages([b, c], p) == if p.Inside? then [] else [PageOf(b.addr)]
  {
    assert [b, c][1..] == [c];
    One(c, Next(b, p));
  }

  lemma {:induction false} NewPageListed(bs: seq<Block>, p: Place)
    ensures bs != [] && !p.Inside? ==> PageOf(bs[0].addr) in Pages(bs, p)
  {
  }

  // The same pages and the same live allocations, well laid out.
  predicate SameHeap(bs: seq<Block>, now: seq<Block>) {
    WfHeap(now) && Live(now) == Live(bs) && Pages(now, Between) == Pages(bs, Between)
  }

  function Merged(b: Block, c: Block): Block { Block(b.addr, b.size + c.size + HEADER, b.used, b.free) }

  // merge_adjacent, one block at a time: the next block of the list is free and in the same page.
  lemma {:induction false} MergeStep(bs: seq<Block>, k: nat)
    requires WfHeap(bs) && k + 1 < |bs| && bs[k + 1].free && PageOf(bs[k].addr) == PageOf(bs[k + 1].addr)
    ensures var now := bs[..k] + [Merged(bs[k], bs[k + 1])] + bs[k + 2..];
            SameHeap(bs, now)
  {
    var a, b, c, rest := bs[..k], bs[k], bs[k + 1], bs[k + 2..];
    InPlace(bs, k);
    InPlace(bs, k + 1);
    var p := After(a, Between);
    var n := Next(b, p);
    assert bs[..k + 1] == a + [b];
    AfterConcat(a, [b], Between);
    assert After([b], p) == n;
    PageOnce(a, b, bs[k + 1..]);
    NewPageListed(bs[k + 1..], n);
    assert n.Inside? && Next(c, n) == Next(Merged(b, c), p);
    assert bs == a + [b, c] + rest;
    Two(b, c, p);
    One(Merged(b, c), p);
    Retile(a, [b, c], [Merged(b, c)], rest);
    LiveTwo(b, c);
    LiveSwap(a, [b, c], [Merged(b, c)], rest);
  }

  // A block is cut in two behind the first s bytes of its payload; the second part is free.
  lemma {:induction false} SplitStep(bs: seq<Block>, k: nat, s: nat)
    requires WfHeap(bs) && k < |bs| && s % 4 == 0 && s + HEADER <= bs[k].size && (!bs[k].free ==> bs[k].used <= s)
    ensures var b := bs[k];
            var rest := Block(b.addr + HEADER + s, b.size - s - HEADER, 0, true);
            var now := bs[..k] + [b.(size := s), rest] + bs[k + 1..];
            SameHeap(bs, now)
  {
    var a, b, rest := bs[..k], bs[k], bs[k + 1..];
    var x, y := b.(size := s), Block(b.addr + HEADER + s, b.size - s - HEADER, 0, true);
    InPlace(bs, k);
    var p := After(a, Between);
    SplitPlace(b, s, p);
    Two(x, y, p);
    One(b, p);
    Retile(a, [b], [x, y], rest);
    LiveTwo(x, y);
    LiveSwap(a, [b], [x, y], rest);
  }

  lemma {:induction false} SplitInPage(bs: seq<Block>, k: nat, a: nat)
    requires WfHeap(bs) && k < |bs| && bs[k].addr <= a <= bs[k].addr + bs[k].size
    ensures PageOf(a) == PageOf(bs[k].addr)
  {
    InPlace(bs, k);
  }

  lemma {:induction false} SplitPlace(b: Block, s: nat, p: Place)
    requires Next(b, p) != Nowhere && s % 4 == 0 && s + HEADER <= b.size && (!b.free ==> b.used <= s)
    ensures var y := Block(b.addr + HEADER + s, b.size - s - HEADER, 0, true);
            Next(b.(size := s), p) == Inside(y.addr) && Next(y, Inside(y.addr)) == Next(b, p)
  {
    var y := Block(b.addr + HEADER + s, b.size - s - HEADER, 0, true);
    assert End(y) == End(b) && PageOf(y.addr) == PageOf(b.addr);
  }

  // A free block is handed out, or a block is taken back.
  lemma {:induction false} MarkStep(bs: seq<Block>, k: nat, used: nat, free: bool)
    requires WfHeap(bs) && k < |bs| && (!free ==> used <= bs[k].size)
    ensures WfHeap(bs[k := bs[k].(used := used, free := free)])
    ensures Pages(bs[k := bs[k].(used := used, free := free)], Between) == Pages(bs, Between)
  {
    var a, b, rest := bs[..k], bs[k], bs[k + 1..];
    var x := b.(used := used, free := free);
    InPlace(bs, k);
    var p := After(a, Between);
    assert After([x], p) == Next(x, p) == Next(b, p) == After([b], p);
    assert Pages([x], p) == Pages([b], p);
    Retile(a, [b], [x], rest);
    assert bs[k := x] == a + [x] + rest;
  }

  lemma {:induction false} LiveAt(bs: seq<Block>, k: nat)
    requires k < |bs|
    ensures Live(bs) == Live(bs[..k]) + Live([bs[k]]) + Live(bs[k + 1..])
  {
    hide Live;
    assert bs == bs[..k] + [bs[k]] + bs[k + 1..];
    LiveConcat(bs[..k] + [bs[k]], bs[k + 1..]);
    LiveConcat(bs[..k], [bs[k]]);
  }

  lemma {:induction false} NextAligned(b: Block, p: Place)
    requires Next(b, p) != Nowhere && (p.Inside? ==> p.at % 4 == 0)
    ensures b.addr % 4 == 0 && b.size % 4 == 0 && (Next(b, p).Inside? ==> Next(b, p).at % 4 == 0)
  {
  }

  // Headers stand at multiples of four.
  lemma {:induction false} WordAligned(bs: seq<Block>, p: Place, k: nat)
    requires After(bs, p) != Nowhere && k < |bs| && (p.Inside? ==> p.at % 4 == 0)
    ensures bs[k].addr % 4 == 0 && bs[k].size % 4 == 0
    decreases bs
  {
    hide Next;
    StaysNowhere(bs[1..]);
    NextAligned(bs[0], p);
    if k > 0 { WordAligned(bs[1..], Next(bs[0], p), k - 1); }
  }

  // The remainder, for the two alignments there are.
  function Off(x: nat, align: nat): nat { if align == 8 then x % 8 else x % 4 }

  function AlignUp(x: nat, align: nat): nat { if align == 8 then (x + 7) / 8 * 8 else (x + 3) / 4 * 4 }

  lemma {:induction false} AlignUpFacts(x: nat, align: nat)
    requires align == 4 || align == 8
    ensures var y := AlignUp(x, align); x <= y < x + align && Off(y, align) == 0 && y % 4 == 0
  {
  }

  lemma {:induction false} PageAligned(page: nat, align: nat)
    requires page % PAGE_SIZE == 0
    ensures Off(page, align) == 0
  {
  }

  lemma {:induction false} WordsBetween(a: nat, b: nat)
    requires a + HEADER <= b && a % 4 == 0 && b % 4 == 0
    ensures (b - a - HEADER) % 4 == 0
  {
  }

  function Weight(bs: seq<Block>): nat
    decreases bs
  {
    if bs == [] then 0 else HEADER + bs[0].size + Weight(bs[1..])
  }

  lemma {:induction false} TailWeight(bs: seq<Block>, k: nat)
    requires k < |bs|
    ensures Weight(bs[k..]) == HEADER + bs[k].size + Weight(bs[k + 1..])
  {
    assert bs[k..][1..] == bs[k + 1..];
  }

  lemma {:induction false} MergeWeight(bs: seq<Block>, k: nat)
    requires k + 1 < |bs|
    ensures Weight((bs[..k] + [Merged(bs[k], bs[k + 1])] + bs[k + 2..])[k..]) == Weight(bs[k..])
  {
    TailWeight(bs, k);
    TailWeight(bs, k + 1);
    var now := bs[..k] + [Merged(bs[k], bs[k + 1])] + bs[k + 2..];
    TailWeight(now, k);
    assert now[k + 1..] == bs[k + 2..];
  }

  lemma {:induction false} SplitWeight(bs: seq<Block>, k: nat, x: Block, y: Block)
    requires k < |bs|
    ensures Weight((bs[..k] + [x, y] + bs[k + 1..])[k + 1..]) == HEADER + y.size + Weight(bs[k + 1..])
  {
    var now := bs[..k] + [x, y] + bs[k + 1..];
    TailWeight(now, k + 1);
    assert now[k + 2..] == bs[k + 1..];
  }

  lemma {:induction false} NewPage(bs: seq<Block>, page: nat)
    requires WfHeap(bs) && page % PAGE_SIZE == 0 && PageOf(page) !in Pages(bs, Between)
    ensures var now := [Block(page, PAGE_SIZE - HEADER, 0, true)] + bs;
            WfHeap(now) && Live(now) == Live(bs) && Pages(now, Between) == [PageOf(page)] + Pages(bs, Between)
  {
    var b := Block(page, PAGE_SIZE - HEADER, 0, true);
    var now := [b] + bs;
    assert now[1..] == bs;
    assert End(b) == (PageOf(page) + 1) * PAGE_SIZE && Next(b, Between) == Between;
  }

  // A block that serves a request is handed out.
  lemma {:induction false} TakeStep(bs: seq<Block>, k: nat, size: nat)
    requires WfHeap(bs) && k < |bs| && bs[k].free && size <= bs[k].size
    ensures var now := bs[k := bs[k].(used := size, free := false)];
            && WfHeap(now) && Live(now) == Live(bs) + {(bs[k].addr + HEADER, size)}
            && Pages(now, Between) == Pages(bs, Between)
            && forall x :: x in Live(bs) ==> x.0 + x.1 <= bs[k].addr + HEADER || bs[k].addr + HEADER + size <= x.0
  {
    hide After, Pages;
    var now := bs[k := bs[k].(used := size, free := false)];
    MarkStep(bs, k, size, false);
    LiveAt(bs, k);
    LiveAt(now, k);
    assert now[..k] == bs[..k] && now[k + 1..] == bs[k + 1..];
    assert Live([bs[k]]) == {} && Live([now[k]]) == {(bs[k].addr + HEADER, size)};
    forall x | x in Live(bs) ensures x.0 + x.1 <= bs[k].addr + HEADER || bs[k].addr + HEADER + size <= x.0 {
      var i := LiveBlock(bs, x);
      InPlace(bs, i);
      if i < k { AllApart(bs, i, k); } else { AllApart(bs, k, i); }
    }
  }

  // ... and taken back.
  lemma {:induction false} GiveStep(bs: seq<Block>, k: nat)
    requires WfHeap(bs) && k < |bs| && !bs[k].free
    ensures var now := bs[k := bs[k].(free := true)];
            && WfHeap(now) && Live(now) == Live(bs) - {(bs[k].addr + HEADER, bs[k].used)}
            && Pages(now, Between) == Pages(bs, Between)
  {
    hide After, Pages;
    var now := bs[k := bs[k].(free := true)];
    MarkStep(bs, k, bs[k].used, true);
    LiveAt(bs, k);
    LiveAt(now, k);
    assert now[..k] == bs[..k] && now[k + 1..] == bs[k + 1..];
    var y := (bs[k].addr + HEADER, bs[k].used);
    assert Live([now[k]]) == {} && Live([bs[k]]) == {y};
    assert y !in Live(bs[..k]) by {
      if y in Live(bs[..k]) {
        var i := LiveBlock(bs[..k], y);
        AllApart(bs, i, k);
      }
    }
    assert y !in Live(bs[k + 1..]) by {
      if y in Live(bs[k + 1..]) {
        var i := LiveBlock(bs[k + 1..], y);
        AllApart(bs, k, k + 1 + i);
      }
    }
  }

  lemma {:induction false} SizeBound(bs: seq<Block>, k: nat)
    requires WfHeap(bs) && k < |bs|
    ensures bs[k].size <= MAX_SIZE
  {
    InPlace(bs, k);
  }

  // ---------- what serves a request ----------

  // What the block would hold, merged with the free blocks that follow it in its page.
  function RunSize(b: Block, rest: seq<Block>): nat
    decreases rest
  {
    b.size + if rest != [] && rest[0].free && PageOf(rest[0].addr) == PageOf(b.addr)
             then HEADER + RunSize(rest[0], rest[1..]) else 0
  }

  // Where the free room of a block begins: with itself, or behind the payload.
  function Start(b: Block, align: nat): nat { if b.free then b.addr else AlignUp(b.addr + HEADER + b.used, align) }

  // Where a header can stand so that header and payload are aligned, at or behind the given one.
  function HeaderAt(start: nat, align: nat): nat {
    if Off(start, align) == 0 then start else AlignUp(start + HEADER, align)
  }

  // A free block, or one with room behind its payload, has room for a header and an aligned payload of this size,
  // together with the free blocks that follow it.
  predicate CanServe(b: Block, rest: seq<Block>, size: nat, align: nat) {
    && (b.free || Start(b, align) <= b.addr + b.size)
    && HeaderAt(Start(b, align), align) + size <= b.addr + RunSize(b, rest)
  }

  // The payload that the first block to serve the request provides.
  function FirstFit(bs: seq<Block>, size: nat, align: nat): Option<nat>
    decreases bs
  {
    if bs == [] then None
    else if CanServe(bs[0], bs[1..], size, align) then Some(HeaderAt(Start(bs[0], align), align) + HEADER)
    else FirstFit(bs[1..], size, align)
  }

  predicate NoneServes(bs: seq<Block>, size: nat, align: nat) {
    forall k :: 0 <= k < |bs| ==> !CanServe(bs[k], bs[k + 1..], size, align)
  }

  lemma {:induction false} NoneFits(bs: seq<Block>, size: nat, align: nat)
    ensures FirstFit(bs, size, align).None? <==> NoneServes(bs, size, align)
    decreases bs
  {
    hide CanServe;
    if bs != [] {
      var rest := bs[1..];
      NoneFits(rest, size, align);
      forall k | 0 <= k < |rest| ensures rest[k + 1..] == bs[k + 1 + 1..] && rest[k] == bs[k + 1] {}
      if FirstFit(bs, size, align).None? {
        forall k | 0 <= k < |bs| ensures !CanServe(bs[k], bs[k + 1..], size, align) {
          if k > 0 { assert bs[k] == rest[k - 1] && bs[k + 1..] == rest[k..]; }
        }
      } else if !CanServe(bs[0], rest, size, align) {
        var k :| 0 <= k < |rest| && CanServe(rest[k], rest[k + 1..], size, align);
        assert CanServe(bs[k + 1], bs[k + 2..], size, align);
      }
    }
  }

  lemma {:induction false} HeaderAtGrows(a: nat, c: nat, align: nat)
    requires (align == 4 || align == 8) && a % 4 == 0 && c % 4 == 0 && a + HEADER <= c
    ensures HeaderAt(a, align) <= HeaderAt(c, align)
  {
  }

  lemma {:induction false} RunMerged(b: Block, c: Block, r: seq<Block>)
    requires c.free && PageOf(c.addr) == PageOf(b.addr)
    ensures RunSize(b, [c] + r) == RunSize(Merged(b, c), r) == b.size + HEADER + RunSize(c, r)
  {
    assert ([c] + r)[1..] == r;
  }

  // A free block serves whatever one that follows it would, and from the same room.
  lemma {:induction false} FitMerged(b: Block, c: Block, r: seq<Block>, size: nat, align: nat)
    requires b.free && c.free && PageOf(c.addr) == PageOf(b.addr) && c.addr == End(b)
    requires b.addr % 4 == 0 && b.size % 4 == 0 && (align == 4 || align == 8)
    ensures FirstFit([b, c] + r, size, align) == FirstFit([Merged(b, c)] + r, size, align)
  {
    hide HeaderAt, RunSize, PageOf;
    var tail := [c] + r;
    assert ([b, c] + r)[1..] == tail && tail[1..] == r && ([Merged(b, c)] + r)[1..] == r;
    RunMerged(b, c, r);
    HeaderAtGrows(b.addr, c.addr, align);
    assert CanServe(b, tail, size, align) <==> CanServe(Merged(b, c), r, size, align);
    assert CanServe(c, r, size, align) ==> CanServe(b, tail, size, align);
  }

  // The room behind a payload serves as the block it becomes.
  lemma {:induction false} FitTrimmed(b: Block, y: Block, r: seq<Block>, size: nat, align: nat)
    requires (align == 4 || align == 8) && !b.free && y.free && Start(b, align) <= b.addr + b.size
    requires y.addr == Start(b, align) && y.size == b.addr + b.size - y.addr && PageOf(y.addr) == PageOf(b.addr)
    ensures FirstFit([y] + r, size, align) == FirstFit([b] + r, size, align)
  {
    hide PageOf, AlignUp, Off;
    AlignUpFacts(b.addr + HEADER + b.used, align);
    assert ([y] + r)[1..] == r == ([b] + r)[1..];
    assert HeaderAt(y.addr, align) == y.addr;
    assert y.addr + RunSize(y, r) == b.addr + RunSize(b, r);
  }

  // Whatever is asked for, the same payload serves.
  ghost predicate SameFit(bs: seq<Block>, now: seq<Block>) {
    forall size, align :: align == 4 || align == 8 ==> FirstFit(now, size, align) == FirstFit(bs, size, align)
  }

  lemma {:induction false} MergeFit(bs: seq<Block>, k: nat)
    requires WfHeap(bs) && k + 1 < |bs| && bs[k + 1].free && PageOf(bs[k].addr) == PageOf(bs[k + 1].addr)
    ensures var now := bs[..k] + [Merged(bs[k], bs[k + 1])] + bs[k + 2..];
            && RunSize(now[k], now[k + 1..]) == RunSize(bs[k], bs[k + 1..])
            && (bs[k].free ==> SameFit(bs[k..], now[k..]))
  {
    hide RunSize, FirstFit, Pages;
    var b, c, r := bs[k], bs[k + 1], bs[k + 2..];
    var now := bs[..k] + [Merged(b, c)] + r;
    assert now[k + 1..] == r && now[k..] == [Merged(b, c)] + r && bs[k + 1..] == [c] + r && bs[k..] == [b, c] + r;
    RunMerged(b, c, r);
    WordAligned(bs, Between, k);
    NextInPage(bs, k);
    if b.free {
      forall size, align | align == 4 || align == 8
        ensures FirstFit(now[k..], size, align) == FirstFit(bs[k..], size, align)
      {
        FitMerged(b, c, r, size, align);
      }
    }
  }

  // The next block of the same page follows at once.
  lemma {:induction false} NextInPage(bs: seq<Block>, k: nat)
    requires WfHeap(bs) && k + 1 < |bs| && PageOf(bs[k].addr) == PageOf(bs[k + 1].addr)
    ensures bs[k + 1].addr == End(bs[k])
  {
    InPlace(bs, k);
    InPlace(bs, k + 1);
    var a, b := bs[..k], bs[k];
    var n := Next(b, After(a, Between));
    assert bs[..k + 1] == a + [b];
    AfterConcat(a, [b], Between);
    assert After([b], After(a, Between)) == n;
    PageOnce(a, b, bs[k + 1..]);
    NewPageListed(bs[k + 1..], n);
  }

  // A block that serves a request.
  predicate Serves(b: Block, size: nat, align: nat) { b.free && Off(b.addr, align) == 0 && b.size >= size }

  // The block at ptr is free, with what is free behind it.
  predicate Retaken(bs: seq<Block>, k: nat, ptr: nat, used: nat)
    requires k < |bs|
  {
    && bs[k].addr + HEADER == ptr && bs[k].free && bs[k].size >= used
    && (k + 1 < |bs| ==> !bs[k + 1].free || PageOf(bs[k + 1].addr) != PageOf(bs[k].addr))
  }

  lemma {:induction false} FreedServes(bs: seq<Block>, k: nat, ptr: nat, size: nat)
    requires k < |bs| && Retaken(bs, k, ptr, size) && (if size % 8 == 0 then ptr % 8 == 0 else ptr % 4 == 0)
    ensures !NoneServes(bs, size, if size % 8 == 0 then 8 else 4)
  {
    assert CanServe(bs[k], bs[k + 1..], size, if size % 8 == 0 then 8 else 4);
  }

  // The list of one CPU.
  class Heap {
    var blocks: seq<Block>

    // merge_adjacent
    method Merge(k: nat)
      requires WfHeap(blocks) && k < |blocks|
      modifies this
      ensures WfHeap(blocks) && SameHeap(old(blocks), blocks) && k < |blocks|
      ensures blocks[..k] == old(blocks)[..k]
      ensures blocks[k] == old(blocks)[k].(size := blocks[k].size) && blocks[k].size >= old(blocks)[k].size
      ensures Weight(blocks[k..]) <= old(Weight(blocks[k..]))
      // Nothing is left to merge.
      ensures k + 1 < |blocks| ==> !blocks[k + 1].free || PageOf(blocks[k + 1].addr) != PageOf(blocks[k].addr)
      ensures blocks[k].size == old(RunSize(blocks[k], blocks[k + 1..]))
      ensures blocks[k].free ==> SameFit(old(blocks[k..]), blocks[k..])
    {
      hide WfHeap, Live, Pages, FirstFit;
      while k + 1 < |blocks| && blocks[k + 1].free && PageOf(blocks[k].addr) == PageOf(blocks[k + 1].addr)
        invariant k < |blocks| && WfHeap(blocks) && SameHeap(old(blocks), blocks) && blocks[..k] == old(blocks)[..k]
        invariant blocks[k] == old(blocks)[k].(size := blocks[k].size) && blocks[k].size >= old(blocks)[k].size
        invariant Weight(blocks[k..]) <= old(Weight(blocks[k..]))
        invariant RunSize(blocks[k], blocks[k + 1..]) == old(RunSize(blocks[k], blocks[k + 1..]))
        invariant blocks[k].free ==> SameFit(old(blocks[k..]), blocks[k..])
        decreases |blocks|
      {
        MergeStep(blocks, k);
        MergeFit(blocks, k);
        MergeWeight(blocks, k);
        blocks := blocks[..k] + [Merged(blocks[k], blocks[k + 1])] + blocks[k + 2..];
      }
    }

    // What kalloc does at a block in use: what is left behind its payload becomes a block.
    method TrimUsed(k: nat, align: nat, ghost size: nat)
      requires WfHeap(blocks) && k < |blocks| && !blocks[k].free && (align == 4 || align == 8)
      modifies this
      ensures WfHeap(blocks) && SameHeap(old(blocks), blocks) && k < |blocks|
      ensures Weight(blocks[k + 1..]) < old(Weight(blocks[k..]))
      ensures FirstFit(blocks[k + 1..], size, align) == old(FirstFit(blocks[k..], size, align))
    {
      hide Live, After, Pages, Next, PageOf, AlignUp, Off, RunSize, HeaderAt;
      var blk := blocks[k];
      InPlace(blocks, k);
      WordAligned(blocks, Between, k);
      var newAddr := AlignUp(blk.addr + HEADER + blk.used, align);
      AlignUpFacts(blk.addr + HEADER + blk.used, align);
      var s := newAddr - blk.addr - HEADER;
      WordsBetween(blk.addr, newAddr);
      TailWeight(blocks, k);
      if blk.size >= s + HEADER {
        SplitStep(blocks, k, s);
        ghost var y, rest := Block(newAddr, blk.size - s - HEADER, 0, true), blocks[k + 1..];
        SplitWeight(blocks, k, blk.(size := s), y);
        SplitInPage(blocks, k, newAddr);
        FitTrimmed(blk, y, rest, size, align);
        assert blocks[k..] == [blk] + rest;
        blocks := blocks[..k] + [blk.(size := s), Block(newAddr, blk.size - s - HEADER, 0, true)] + blocks[k + 1..];
        assert blocks[k + 1..] == [y] + rest;
      } else {
        assert blocks[k..][1..] == blocks[k + 1..];
      }
    }

    // What kalloc does at a free block: it grows as far as it can, and if it then serves the request, the search is
    // over; a block whose header would leave the payload unaligned gives up its first bytes.
    method TryFree(k: nat, size: nat, align: nat) returns (found: bool, k': nat)
      requires WfHeap(blocks) && k < |blocks| && blocks[k].free && (align == 4 || align == 8)
      modifies this
      ensures WfHeap(blocks) && SameHeap(old(blocks), blocks)
      ensures found ==> && k' < |blocks| && Serves(blocks[k'], size, align)
                        && old(FirstFit(blocks[k..], size, align)) == Some(blocks[k'].addr + HEADER)
      ensures !found ==> && k' == k < |blocks| && Weight(blocks[k + 1..]) < old(Weight(blocks[k..]))
                         && FirstFit(blocks[k + 1..], size, align) == old(FirstFit(blocks[k..], size, align))
    {
      hide Live, After, Pages, Next, PageOf, AlignUp, Off;
      k' := k;
      Merge(k);
      TailWeight(blocks, k);
      var blk := blocks[k];
      assert blocks[k..][1..] == blocks[k + 1..];
      InPlace(blocks, k);
      WordAligned(blocks, Between, k);
      var aligned := AlignUp(blk.addr + HEADER, align);
      AlignUpFacts(blk.addr + HEADER, align);
      var s := aligned - blk.addr - HEADER;
      WordsBetween(blk.addr, aligned);
      found := if Off(blk.addr, align) == 0 then blk.size >= size else blk.size >= size + s + HEADER;
      if found && Off(blk.addr, align) != 0 {
        SplitStep(blocks, k, s);
        blocks := blocks[..k] + [blk.(size := s), Block(aligned, blk.size - s - HEADER, 0, true)] + blocks[k + 1..];
        k' := k + 1;
      }
    }

    // The search of kalloc.
    method Search(size: nat, align: nat) returns (found: bool, k: nat)
      requires WfHeap(blocks) && (align == 4 || align == 8)
      modifies this
      ensures WfHeap(blocks) && SameHeap(old(blocks), blocks)
              && (found ==> k < |blocks| && Serves(blocks[k], size, align))
      ensures old(FirstFit(blocks, size, align)) == if found then Some(blocks[k].addr + HEADER) else None
    {
      hide WfHeap, Live, Pages, Weight, Next, CanServe;
      k := 0;
      assert blocks[0..] == blocks;
      while k < |blocks|
        invariant WfHeap(blocks) && SameHeap(old(blocks), blocks) && k <= |blocks|
        invariant FirstFit(blocks[k..], size, align) == old(FirstFit(blocks, size, align))
        decreases Weight(blocks[k..])
      {
        if !blocks[k].free {
          TrimUsed(k, align, size);
        } else {
          found, k := TryFree(k, size, align);
          if found {
            return;
          }
        }
        k := k + 1;
      }
      found := false;
    }

    // The block kalloc will use: one the search finds, or a new page with a block of its own.
    method Obtain(size: nat, align: nat, page: nat) returns (pageUsed: bool, k: nat)
      requires WfHeap(blocks) && (align == 4 || align == 8) && page % PAGE_SIZE == 0
      requires PageOf(page) !in Pages(blocks, Between)
      modifies this
      ensures WfHeap(blocks) && Live(blocks) == old(Live(blocks)) && k < |blocks|
      ensures Pages(blocks, Between) == (if pageUsed then [PageOf(page)] else []) + old(Pages(blocks, Between))
      ensures blocks[k].free && Off(blocks[k].addr, align) == 0 && (pageUsed ==> blocks[k].size == MAX_SIZE)
      ensures !pageUsed ==> blocks[k].size >= size
      ensures Some(blocks[k].addr + HEADER) ==
              if pageUsed then Some(page + HEADER) else old(FirstFit(blocks, size, align))
      ensures pageUsed <==> old(FirstFit(blocks, size, align)).None?
    {
      hide Live, After, Pages, Next, PageOf, WfHeap, Off;
      var found;
      found, k := Search(size, align);
      pageUsed := !found;
      if !found {
        NewPage(blocks, page);
        PageAligned(page, align);
        blocks := [Block(page, PAGE_SIZE - HEADER, 0, true)] + blocks;
        k := 0;
      }
    }

    // kalloc, with the page kalloc_page would hand out; pageUsed says whether it is asked for.
    method Kalloc(size: nat, page: nat) returns (ptr: nat, pageUsed: bool)
      requires WfHeap(blocks) && page % PAGE_SIZE == 0 && PageOf(page) !in Pages(blocks, Between)
      modifies this
      ensures size <= MAX_SIZE ==> && WfHeap(blocks) && Live(blocks) == old(Live(blocks)) + {(ptr, size)}
                                   && (forall x :: x in old(Live(blocks)) ==> x.0 + x.1 <= ptr || ptr + size <= x.0)
                                   && Pages(blocks, Between) == (if pageUsed then [PageOf(page)] else [])
                                                                + old(Pages(blocks, Between))
      ensures if size % 8 == 0 then ptr % 8 == 0 else ptr % 4 == 0
      // The block is as large as asked exactly for sizes that fit a page.
      ensures exists b :: b in blocks && ptr == b.addr + HEADER && !b.free && (b.size >= size <==> size <= MAX_SIZE)
      // A page is taken exactly if no block serves the request; otherwise the first that does is used.
      ensures var align := if size % 8 == 0 then 8 else 4;
              && (pageUsed <==> old(NoneServes(blocks, size, align)))
              && Some(ptr) == if pageUsed then Some(page + HEADER) else old(FirstFit(blocks, size, align))
    {
      hide Live, After, Pages, Next, PageOf, WfHeap, FirstFit, NoneServes;
      var k;
      var align := if size % 8 == 0 then 8 else 4;
      NoneFits(blocks, size, align);
      pageUsed, k := Obtain(size, align, page);
      if size <= MAX_SIZE { TakeStep(blocks, k, size); }
      SizeBound(blocks, k);
      ptr := blocks[k].addr + HEADER;
      blocks := blocks[k := blocks[k].(used := size % 0x1_0000, free := false)];
      assert blocks[k] in blocks;
    }

    // kfree of a live allocation: exactly that one is gone. (The header is found by its address.)
    method Kfree(ptr: nat, ghost used: nat)
      requires WfHeap(blocks) && (ptr, used) in Live(blocks)
      modifies this
      ensures WfHeap(blocks) && Live(blocks) == old(Live(blocks)) - {(ptr, used)}
      ensures Pages(blocks, Between) == old(Pages(blocks, Between))
      // It is merged with the free blocks that follow it.
      ensures exists k :: 0 <= k < |blocks| && Retaken(blocks, k, ptr, used)
    {
      hide After, Pages, RunSize;
      var k := 0;
      ghost var at := LiveBlock(blocks, (ptr, used));
      while blocks[k].addr + HEADER != ptr
        invariant k <= at && blocks == old(blocks)
        decreases at - k
      {
        k := k + 1;
      }
      if k < at { AllApart(blocks, k, at); }
      InPlace(blocks, k);
      Merge(k);
      GiveStep(blocks, k);
      blocks := blocks[k := blocks[k].(free := true)];
      assert Retaken(blocks, k, ptr, used);
    }

    // What has been freed can be had again: an allocation of the same size does not take a page.
    method FreeThenAlloc(ptr: nat, size: nat, page: nat) returns (ptr': nat, pageUsed: bool)
      requires WfHeap(blocks) && (ptr, size) in Live(blocks) && (if size % 8 == 0 then ptr % 8 == 0 else ptr % 4 == 0)
      requires page % PAGE_SIZE == 0 && PageOf(page) !in Pages(blocks, Between)
      modifies this
      ensures !pageUsed
    {
      hide Live, After, Pages, Next, PageOf, WfHeap, NoneServes, Retaken;
      Kfree(ptr, size);
      ghost var k :| 0 <= k < |blocks| && Retaken(blocks, k, ptr, size);
      FreedServes(blocks, k, ptr, size);
      ptr', pageUsed := Kalloc(size, page);
    }
  }
}
