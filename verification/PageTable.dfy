/** src/kernel/pt.c: get_pte, vmmap and free_pgdir over the pages of a four-level table. Pages are named by their page
    number; the kernel address of a page and its physical address differ by a constant. */
module PageTable {

  import opened Basics

  const N_PTE: nat := 512
  const PAGE_SIZE: nat := 4096
  const PTE_TABLE: nat := 3
  const PAGES: nat := 0x10_0000_0000 // 2^36: physical addresses have 48 bits

  // ---------- addresses and entries ----------

  // VA_PART0 to VA_PART3
  function Part(va: nat, k: nat): (i: nat)
    requires k < 4
    ensures i < N_PTE
  {
    if k == 0 then va / 0x80_0000_0000 % 512
    else if k == 1 then va / 0x4000_0000 % 512
    else if k == 2 then va / 0x20_0000 % 512
    else va / 0x1000 % 512
  }

  // The virtual page of an address, in the 48 bits that are translated.
  function VirtualPage(va: nat): nat { va / PAGE_SIZE % PAGES }

  lemma {:induction false} Div1(va: nat)
    ensures va / 0x20_0000 == va / 0x1000 / 512
  {
  }

  lemma {:induction false} Div2(va: nat)
    ensures va / 0x4000_0000 == va / 0x20_0000 / 512
  {
  }

  lemma {:induction false} Div3(va: nat)
    ensures va / 0x80_0000_0000 == va / 0x4000_0000 / 512
  {
  }

  // The four lowest digits of n in base 512.
  lemma {:induction false} Digits(n: nat, a: nat, b: nat, c: nat)
    requires a == n / 512 && b == a / 512 && c == b / 512
    ensures n % PAGES == c % 512 * 0x800_0000 + b % 512 * 0x4_0000 + a % 512 * 0x200 + n % 512
  {
    var d := c / 512;
    var low := c % 512 * 0x800_0000 + b % 512 * 0x4_0000 + a % 512 * 0x200 + n % 512;
    assert n == PAGES * d + low && low < PAGES;
  }

  // The four parts are the digits of the virtual page in base 512.
  lemma {:induction false} PartsAreDigits(va: nat)
    ensures VirtualPage(va) == Part(va, 0) * 0x800_0000 + Part(va, 1) * 0x4_0000 + Part(va, 2) * 0x200 + Part(va, 3)
  {
    Div1(va);
    Div2(va);
    Div3(va);
    Digits(va / 0x1000, va / 0x20_0000, va / 0x4000_0000, va / 0x80_0000_0000);
  }

  // So they are jointly injective.
  lemma {:induction false} PartsInjective(va: nat, vb: nat)
    ensures (forall k :: 0 <= k < 4 ==> Part(va, k) == Part(vb, k)) <==> VirtualPage(va) == VirtualPage(vb)
  {
    PartsAreDigits(va);
    PartsAreDigits(vb);
    hide Part, VirtualPage;
    if VirtualPage(va) == VirtualPage(vb) {
      assert Part(va, 0) == Part(vb, 0) && Part(va, 1) == Part(vb, 1) && Part(va, 2) == Part(vb, 2)
             && Part(va, 3) == Part(vb, 3);
    }
  }

  // The entry for a table, and the page an entry names (PTE_ADDRESS).
  function Pack(page: nat): nat { page * PAGE_SIZE + PTE_TABLE }

  function PageIn(e: nat): nat { e / PAGE_SIZE % PAGES }

  lemma {:induction false} PackRoundTrip(page: nat)
    requires page < PAGES
    ensures PageIn(Pack(page)) == page && Pack(page) != 0
  {
  }

  lemma {:induction false} LowBits(n: nat)
    ensures (4 * n + 3) % 4 == 3
  {
  }

  // The entry is marked as valid and as one for a table.
  lemma {:induction false} PackBits(page: nat)
    ensures Pack(page) % 4 == 3
  {
    LowBits(1024 * page);
  }

  // ---------- the tables ----------

  // What the pages hold, 512 entries each.
  type Memory = map<nat, seq<nat>>

  // The page of each table there is, by the indices that lead to it: none for the root, three for a last-level table.
  type Tables = map<seq<nat>, nat>

  function Blank(): (z: seq<nat>)
    ensures |z| == N_PTE && forall i :: 0 <= i < |z| ==> z[i] == 0
  {
    seq(N_PTE, _ => 0)
  }

  // An entry is stored.
  function Written(mem: Memory, t: nat, i: nat, e: nat): Memory
    requires t in mem && i < |mem[t]|
  {
    var entries: seq<nat> := mem[t][i := e];
    mem[t := entries]
  }

  ghost predicate WfAt(mem: Memory, tab: Tables, q: seq<nat>)
    requires q in tab
  {
    && |q| <= 3 && (|q| > 0 ==> q[..|q| - 1] in tab && q[|q| - 1] < N_PTE)
    && 0 < tab[q] < PAGES && tab[q] in mem && |mem[tab[q]]| == N_PTE
  }

  // Each entry of a table above the last level leads to the next table, if there is one.
  ghost predicate Linked(mem: Memory, tab: Tables, q: seq<nat>, i: nat)
    requires q in tab && tab[q] in mem && |mem[tab[q]]| == N_PTE && i < N_PTE
  {
    mem[tab[q]][i] == if q + [i] in tab then Pack(tab[q + [i]]) else 0
  }

  ghost predicate WfTables(mem: Memory, root: nat, tab: Tables) {
    && (if root == 0 then tab == map[] else [] in tab && tab[[]] == root)
    && (forall q :: q in tab ==> WfAt(mem, tab, q))
    && (forall q, r :: q in tab && r in tab && tab[q] == tab[r] ==> q == r)
    && (forall q, i: nat :: q in tab && |q| < 3 && i < N_PTE ==> Linked(mem, tab, q, i))
  }

  function Prefix(va: nat, k: nat): (q: seq<nat>)
    requires k <= 3
    ensures |q| == k
  {
    if k == 0 then [] else Prefix(va, k - 1) + [Part(va, k - 1)]
  }

  // The flat map the tables stand for: the entry of a virtual address, 0 if there is no table for it.
  ghost function Entry(mem: Memory, tab: Tables, va: nat): nat {
    var q := Prefix(va, 3);
    if q in tab && tab[q] in mem && |mem[tab[q]]| == N_PTE then mem[tab[q]][Part(va, 3)] else 0
  }

  ghost predicate Unused(tab: Tables, page: nat) { forall q :: q in tab ==> tab[q] != page }

  // A blank page becomes the table behind entry i of table q.
  lemma {:induction false} LinkStep(mem: Memory, root: nat, tab: Tables, q: seq<nat>, i: nat, page: nat)
    requires WfTables(mem, root, tab) && q in tab && |q| < 3 && i < N_PTE && q + [i] !in tab
    requires 0 < page < PAGES && Unused(tab, page)
    ensures var m1 := mem[page := Blank()];
            var m2 := Written(m1, tab[q], i, Pack(page));
            var tab2 := tab[q + [i] := page];
            && WfTables(m2, root, tab2) && (forall va :: Entry(m2, tab2, va) == Entry(mem, tab, va))
            && m2.Keys == mem.Keys + {page} && forall x :: x in mem && x != page && x != tab[q] ==> m2[x] == mem[x]
  {
    hide Part, Pack, Entry;
    assert WfAt(mem, tab, q);
    var m1 := mem[page := Blank()];
    var m2 := Written(m1, tab[q], i, Pack(page));
    var tab2 := tab[q + [i] := page];
    forall r | r in tab2 ensures WfAt(m2, tab2, r) {
      if r == q + [i] { assert r[..|r| - 1] == q; } else { assert WfAt(mem, tab, r); }
    }
    forall r, j: nat | r in tab2 && |r| < 3 && j < N_PTE ensures Linked(m2, tab2, r, j) {
      LinkKept(mem, root, tab, q, i, page, r, j);
    }
    forall va ensures Entry(m2, tab2, va) == Entry(mem, tab, va) { LinkEntry(mem, root, tab, q, i, page, va); }
  }

  lemma {:induction false} LinkEntry(mem: Memory, root: nat, tab: Tables, q: seq<nat>, i: nat, page: nat, va: nat)
    requires WfTables(mem, root, tab) && q in tab && |q| < 3 && i < N_PTE && q + [i] !in tab
    requires 0 < page < PAGES && Unused(tab, page)
    ensures var m1 := mem[page := Blank()];
            && tab[q] in m1 && |m1[tab[q]]| == N_PTE
            && var m2 := Written(m1, tab[q], i, Pack(page));
               Entry(m2, tab[q + [i] := page], va) == Entry(mem, tab, va)
  {
    hide Part, Pack;
    assert WfAt(mem, tab, q);
    var r := Prefix(va, 3);
    if r in tab { assert WfAt(mem, tab, r); }
  }

  lemma {:induction false} ParentThere(mem: Memory, root: nat, tab: Tables, r: seq<nat>, j: nat)
    requires WfTables(mem, root, tab)
    ensures r + [j] in tab ==> r in tab
  {
    if r + [j] in tab {
      assert WfAt(mem, tab, r + [j]);
      assert (r + [j])[..|r|] == r;
    }
  }

  lemma {:induction false} LinkKept(mem: Memory, root: nat, tab: Tables, q: seq<nat>, i: nat, page: nat, r: seq<nat>,
                                    j: nat)
    requires WfTables(mem, root, tab) && q in tab && |q| < 3 && i < N_PTE && q + [i] !in tab
    requires 0 < page < PAGES && Unused(tab, page) && j < N_PTE && |r| < 3 && (r in tab || r == q + [i])
    ensures var m1 := mem[page := Blank()];
            && tab[q] in m1 && |m1[tab[q]]| == N_PTE
            && var m2 := Written(m1, tab[q], i, Pack(page));
               var tab2 := tab[q + [i] := page];
               r in tab2 && tab2[r] in m2 && |m2[tab2[r]]| == N_PTE && Linked(m2, tab2, r, j)
  {
    hide Part, Pack;
    assert WfAt(mem, tab, q);
    if r == q + [i] {
      // a new table has no tables behind it
      ParentThere(mem, root, tab, r, j);
      assert r + [j] != q + [i];
    } else {
      assert WfAt(mem, tab, r) && Linked(mem, tab, r, j);
      assert r + [j] == q + [i] <==> r == q && j == i by {
        assert (r + [j])[..|r|] == r && (q + [i])[..|q|] == q && (r + [j])[|r|] == j && (q + [i])[|q|] == i;
      }
    }
  }

  // The first table.
  lemma {:induction false} RootStep(mem: Memory, page: nat)
    requires WfTables(mem, 0, map[]) && 0 < page < PAGES
    ensures var m2 := mem[page := Blank()];
            var tab2: Tables := map[[] := page];
            WfTables(m2, page, tab2) && forall va :: Entry(m2, tab2, va) == Entry(mem, map[], va)
  {
    hide Part, Pack;
    var m2 := mem[page := Blank()];
    var tab2: Tables := map[[] := page];
    forall va ensures Entry(m2, tab2, va) == Entry(mem, map[], va) {
      assert |Prefix(va, 3)| == 3;
    }
  }

  // An entry of a last-level table is written: one translation changes.
  lemma {:induction false} PutStep(mem: Memory, root: nat, tab: Tables, va: nat, e: nat)
    requires WfTables(mem, root, tab) && Prefix(va, 3) in tab
    ensures var t := tab[Prefix(va, 3)];
            && t in mem && |mem[t]| == N_PTE
            && var m2 := Written(mem, t, Part(va, 3), e);
               && WfTables(m2, root, tab)
               && forall vb ::
                    Entry(m2, tab, vb) == if VirtualPage(vb) == VirtualPage(va) then e else Entry(mem, tab, vb)
  {
    hide Part, Pack, VirtualPage;
    var q := Prefix(va, 3);
    assert WfAt(mem, tab, q);
    var t := tab[q];
    var m2 := Written(mem, t, Part(va, 3), e);
    forall r | r in tab ensures WfAt(m2, tab, r) { assert WfAt(mem, tab, r); }
    forall r, j: nat | r in tab && |r| < 3 && j < N_PTE ensures Linked(m2, tab, r, j) {
      assert WfAt(mem, tab, r) && Linked(mem, tab, r, j) && tab[r] != t;
    }
    forall vb ensures Entry(m2, tab, vb) == if VirtualPage(vb) == VirtualPage(va) then e else Entry(mem, tab, vb) {
      PrefixParts(va);
      PrefixParts(vb);
      PartsInjective(va, vb);
      if Prefix(vb, 3) in tab { assert WfAt(mem, tab, Prefix(vb, 3)); }
      assert Prefix(vb, 3) == q && Part(vb, 3) == Part(va, 3) <==> VirtualPage(vb) == VirtualPage(va);
    }
  }

  lemma {:induction false} PrefixParts(va: nat)
    ensures Prefix(va, 3) == [Part(va, 0), Part(va, 1), Part(va, 2)]
  {
    hide Part;
    assert Prefix(va, 1) == [Part(va, 0)] && Prefix(va, 2) == [Part(va, 0), Part(va, 1)];
  }

  // ---------- what the hardware finds ----------

  function Word(mem: Memory, page: nat, i: nat): nat { if page in mem && i < |mem[page]| then mem[page][i] else 0 }

  // The walk through the tables in memory, from level k on: the upper parts of the address come first, an entry above
  // the last level leads on only if it is marked as one for a table, and the entry of the last level is the result.
  function Walk(mem: Memory, table: nat, va: nat, k: nat): nat
    requires k < 4
    decreases 4 - k
  {
    var e := Word(mem, table, Part(va, k));
    if k == 3 then e else if e % 4 == 3 then Walk(mem, PageIn(e), va, k + 1) else 0
  }

  lemma {:induction false} WalkFrom(mem: Memory, root: nat, tab: Tables, va: nat, k: nat)
    requires WfTables(mem, root, tab) && k < 4 && Prefix(va, k) in tab
    ensures Walk(mem, tab[Prefix(va, k)], va, k) == Entry(mem, tab, va)
    decreases 4 - k
  {
    hide Part, Pack, PageIn;
    var q := Prefix(va, k);
    assert WfAt(mem, tab, q);
    if k < 3 {
      var i := Part(va, k);
      assert Linked(mem, tab, q, i) && Prefix(va, k + 1) == q + [i];
      if q + [i] in tab {
        assert WfAt(mem, tab, q + [i]);
        PackRoundTrip(tab[q + [i]]);
        PackBits(tab[q + [i]]);
        WalkFrom(mem, root, tab, va, k + 1);
      } else {
        NoTable(mem, root, tab, va, k + 1);
      }
    }
  }

  function Translated(mem: Memory, root: nat, va: nat): nat { if root == 0 then 0 else Walk(mem, root, va, 0) }

  // It finds just what the flat map says.
  lemma {:induction false} WalkIsEntry(mem: Memory, root: nat, tab: Tables, va: nat)
    requires WfTables(mem, root, tab)
    ensures Translated(mem, root, va) == Entry(mem, tab, va)
  {
    if root != 0 { WalkFrom(mem, root, tab, va, 0); }
  }

  function Count(refs: map<nat, nat>, page: nat): nat { if page in refs then refs[page] else 0 }

  class PageDir {
    var mem: Memory
    var root: nat // pgdir->pt; 0 is NULL
    var refs: map<nat, nat> // page_ref, for the pages that are mapped
    ghost var tab: Tables

    ghost predicate Valid()
      reads this
    {
      WfTables(mem, root, tab)
    }

    // Every translation is as it was.
    ghost predicate SameMap(mem0: Memory, tab0: Tables)
      reads this
    {
      forall va :: Entry(mem, tab, va) == Entry(mem0, tab0, va)
    }

    // The first part of get_pte: there is a root table. page is what kalloc_page hands out, 0 if there is no memory.
    method NeedRoot(alloc: bool, page: nat) returns (ok: bool)
      requires Valid() && page < PAGES
      modifies this`mem, this`root, this`tab
      ensures Valid() && SameMap(old(mem), old(tab)) && (ok <==> root != 0)
      ensures ok <==> old(root) != 0 || (alloc && page != 0)
      ensures tab == old(tab) || (page != 0 && old(tab) == map[] && tab == map[[] := page])
      ensures !alloc ==> mem == old(mem) && tab == old(tab) && root == old(root)
      ensures forall x :: x in old(mem) && x != page ==> x in mem && mem[x] == old(mem)[x]
    {
      hide Entry, Part, Pack;
      if root == 0 {
        if !alloc || page == 0 {
          return false;
        }
        RootStep(mem, page);
        mem := mem[page := Blank()];
        root := page;
        tab := map[[] := page];
      }
      ok := true;
    }

    // The step of get_pte from one level to the next.
    method Descend(t: nat, i: nat, alloc: bool, page: nat, ghost q: seq<nat>) returns (ok: bool, t': nat)
      requires Valid() && q in tab && tab[q] == t && |q| < 3 && i < N_PTE && page < PAGES
               && (page != 0 ==> Unused(tab, page))
      modifies this`mem, this`tab
      ensures Valid() && SameMap(old(mem), old(tab))
      ensures ok <==> old(q + [i] in tab) || (alloc && page != 0)
      ensures ok ==> q + [i] in tab && t' == tab[q + [i]]
      ensures tab == old(tab) || (page != 0 && q + [i] !in old(tab) && tab == old(tab)[q + [i] := page])
      ensures !alloc ==> mem == old(mem) && tab == old(tab)
      ensures forall x :: x in old(mem) && x != page && x != t ==> x in mem && mem[x] == old(mem)[x]
    {
      hide Entry, Part, PageIn;
      assert WfAt(mem, tab, q) && Linked(mem, tab, q, i);
      if q + [i] in tab { assert WfAt(mem, tab, q + [i]); PackRoundTrip(tab[q + [i]]); }
      if mem[t][i] == 0 {
        if !alloc || page == 0 {
          return false, 0;
        }
        LinkStep(mem, root, tab, q, i, page);
        PackRoundTrip(page);
        mem := mem[page := Blank()];
        mem := Written(mem, t, i, Pack(page));
        tab := tab[q + [i] := page];
      }
      return true, PageIn(mem[t][i]);
    }

    // Since mem0 and tab0, tables have only been added, on pages out of spare, and all translations kept.
    ghost predicate Extends(mem0: Memory, tab0: Tables, spare: seq<nat>)
      reads this
    {
      && Valid() && SameMap(mem0, tab0)
      && (forall q :: q in tab0 ==> q in tab && tab[q] == tab0[q])
      && (forall q :: q in tab && q !in tab0 ==> tab[q] in spare)
      && (forall x :: x in mem0 && x !in spare && Unused(tab0, x) ==> x in mem && mem[x] == mem0[x])
    }

    // Before level k of get_pte: t is the table reached, and the pages from number k + 1 on are still free.
    ghost predicate Reached(va: nat, k: nat, t: nat, spare: seq<nat>)
      requires k <= 3 && |spare| == 4
      reads this
    {
      && Prefix(va, k) in tab && tab[Prefix(va, k)] == t
      && forall j :: k < j < 4 ==> spare[j] == 0 || Unused(tab, spare[j])
    }

    // One level of get_pte.
    method Level(va: nat, k: nat, t: nat, alloc: bool, spare: seq<nat>, ghost mem0: Memory, ghost tab0: Tables)
      returns (ok: bool, t': nat)
      requires k < 3 && SparePages(spare) && Extends(mem0, tab0, spare) && Reached(va, k, t, spare)
      modifies this`mem, this`tab
      ensures Extends(mem0, tab0, spare) && (ok ==> Reached(va, k + 1, t', spare))
      ensures !alloc ==> mem == old(mem) && tab == old(tab) && (!ok ==> Prefix(va, 3) !in tab)
      ensures ok <==> old(Prefix(va, k + 1) in tab) || (alloc && spare[k + 1] != 0)
      ensures forall r :: |r| > k + 1 ==> (r in tab <==> r in old(tab))
    {
      hide Entry, Part, Pack, Prefix, WfTables;
      ghost var q := Prefix(va, k);
      PrefixNext(va, k);
      assert spare[k + 1] in spare && (t in spare || (q in tab0 && tab0[q] == t));
      ok, t' := Descend(t, Part(va, k), alloc, spare[k + 1], q);
      assert forall x :: x in mem0 && x !in spare && Unused(tab0, x) ==> x != t && x != spare[k + 1];
      if !ok && !alloc { NoTable(mem, root, tab, va, k + 1); }
    }

    // The three levels one after the other.
    method Levels(va: nat, t: nat, alloc: bool, spare: seq<nat>, ghost mem0: Memory, ghost tab0: Tables)
      returns (ok: bool, t': nat)
      requires SparePages(spare) && Extends(mem0, tab0, spare) && Reached(va, 0, t, spare)
      modifies this`mem, this`tab
      ensures Extends(mem0, tab0, spare) && (ok ==> Reached(va, 3, t', spare))
      ensures !alloc ==> mem == old(mem) && tab == old(tab) && (!ok ==> Prefix(va, 3) !in tab)
      ensures ok <==> forall k :: 1 <= k < 4 ==> old(Prefix(va, k) in tab) || (alloc && spare[k] != 0)
    {
      hide Extends, Reached, Prefix;
      ok, t' := Level(va, 0, t, alloc, spare, mem0, tab0);
      if ok { ok, t' := Level(va, 1, t', alloc, spare, mem0, tab0); }
      if ok { ok, t' := Level(va, 2, t', alloc, spare, mem0, tab0); }
    }

    // get_pte. spare are the pages kalloc_page hands out (0 for none left), none of them in use as a table. The result
    // is the place of the entry, or nothing if a table is missing and may or can not be allocated.
    method GetPte(va: nat, alloc: bool, spare: seq<nat>) returns (ok: bool, t: nat, i: nat)
      requires Valid() && SparePages(spare) && forall j :: 0 <= j < 4 ==> spare[j] == 0 || Unused(tab, spare[j])
      modifies this`mem, this`root, this`tab
      ensures Extends(old(mem), old(tab), spare)
      ensures ok ==> && Prefix(va, 3) in tab && t == tab[Prefix(va, 3)] && i == Part(va, 3)
                     && t in mem && |mem[t]| == N_PTE && mem[t][i] == Entry(mem, tab, va)
      ensures !alloc ==> mem == old(mem) && tab == old(tab) && (ok <==> Prefix(va, 3) in tab)
      // With allocation it fails exactly if there is no page for a table that is missing.
      ensures alloc ==> (ok <==> forall k :: 0 <= k < 4 ==> Prefix(va, k) in old(tab) || spare[k] != 0)
    {
      hide Entry, Part, Pack, Prefix, WfTables;
      i := Part(va, 3);
      assert spare[0] in spare;
      ok := NeedRoot(alloc, spare[0]);
      t := root;
      RootTable(mem, root, tab);
      EmptyPrefix(va);
      if ok { ok, t := Levels(va, t, alloc, spare, old(mem), old(tab)); }
      if ok { EntryThere(mem, root, tab, va); }
      if root == 0 && !alloc { NoTable(mem, root, tab, va, 0); }
    }

    // vmmap: exactly the translation of this virtual page changes, and the page has one reference more.
    method Vmmap(va: nat, page: nat, flags: nat, spare: seq<nat>) returns (ok: bool)
      requires Valid() && SparePages(spare) && forall j :: 0 <= j < 4 ==> spare[j] == 0 || Unused(tab, spare[j])
      modifies this
      ensures Valid() && (ok <==> forall k :: 0 <= k < 4 ==> Prefix(va, k) in old(tab) || spare[k] != 0)
      ensures forall p :: Count(refs, p) == old(Count(refs, p)) + if ok && p == page then 1 else 0
      ensures forall vb ::
                Entry(mem, tab, vb) == if ok && VirtualPage(vb) == VirtualPage(va) then page * PAGE_SIZE + flags
                                       else old(Entry(mem, tab, vb))
      // So the hardware finds the page there, and everything else where it was.
      ensures forall vb ::
                Translated(mem, root, vb) == if ok && VirtualPage(vb) == VirtualPage(va) then page * PAGE_SIZE + flags
                                             else old(Translated(mem, root, vb))
    {
      hide Entry, Part, Pack, Prefix, WfTables, VirtualPage, Translated;
      forall vb ensures Translated(mem, root, vb) == Entry(mem, tab, vb) { WalkIsEntry(mem, root, tab, vb); }
      var t, i;
      ok, t, i := GetPte(va, true, spare);
      if ok {
        PutStep(mem, root, tab, va, page * PAGE_SIZE + flags);
        mem := Written(mem, t, i, page * PAGE_SIZE + flags);
        refs := refs[page := Count(refs, page) + 1];
      }
      forall vb ensures Translated(mem, root, vb) == Entry(mem, tab, vb) { WalkIsEntry(mem, root, tab, vb); }
    }

    // ---- free_pgdir

    // freed are the pages given back so far, order the tables they were, each once.
    ghost predicate Freed(freed: seq<nat>, order: seq<seq<nat>>)
      reads this
    {
      && |freed| == |order| && NoDup(order)
      && forall k :: 0 <= k < |order| ==> order[k] in tab && freed[k] == tab[order[k]]
    }

    // kfree_page of one table.
    method FreeOne(page: nat, freed0: seq<nat>, ghost q: seq<nat>, ghost order0: seq<seq<nat>>)
      returns (freed: seq<nat>, ghost order: seq<seq<nat>>)
      requires q in tab && page == tab[q] && Freed(freed0, order0) && q !in order0
      ensures Freed(freed, order) && forall r :: r in order <==> r in order0 || r == q
    {
      freed, order := freed0 + [page], order0 + [q];
    }

    // The loop over the second-level table q: the last-level tables behind it, and then the table itself.
    method FreeSecond(t: nat, freed0: seq<nat>, ghost q: seq<nat>, ghost order0: seq<seq<nat>>)
      returns (freed: seq<nat>, ghost order: seq<seq<nat>>)
      requires Valid() && q in tab && |q| == 2 && t == tab[q] && Freed(freed0, order0) && Untouched(order0, q)
      ensures Freed(freed, order) && Gained(tab, order0, order, q)
    {
      hide Part, Pack, PageIn, WfTables, Freed;
      freed, order := freed0, order0;
      StartLoop(tab, order0, q);
      var i := 0;
      while i < N_PTE
        invariant i <= N_PTE && Freed(freed, order) && InLoop(tab, order0, order, q, i)
      {
        ReadEntry(mem, root, tab, q, i);
        LoopStep(mem, root, tab, order0, order, q, i);
        if mem[t][i] != 0 {
          var l3 := PageIn(mem[t][i]);
          LastLevel(mem, root, tab, q + [i]);
          ghost var before := order;
          freed, order := FreeOne(l3, freed, q + [i], order);
          LoopNext(tab, order0, before, order, q, i);
        }
        i := i + 1;
      }
      LoopEnd(mem, root, tab, order0, order, q);
      freed, order := FreeOne(t, freed, q, order);
    }

    // The loop over the first-level table q.
    method FreeFirst(t: nat, freed0: seq<nat>, ghost q: seq<nat>, ghost order0: seq<seq<nat>>)
      returns (freed: seq<nat>, ghost order: seq<seq<nat>>)
      requires Valid() && q in tab && |q| == 1 && t == tab[q] && Freed(freed0, order0) && Untouched(order0, q)
      ensures Freed(freed, order) && Gained(tab, order0, order, q)
    {
      hide Part, Pack, PageIn, WfTables, Freed;
      freed, order := freed0, order0;
      StartLoop(tab, order0, q);
      var i := 0;
      while i < N_PTE
        invariant i <= N_PTE && Freed(freed, order) && InLoop(tab, order0, order, q, i)
      {
        ReadEntry(mem, root, tab, q, i);
        LoopStep(mem, root, tab, order0, order, q, i);
        if mem[t][i] != 0 {
          var l2 := PageIn(mem[t][i]);
          ghost var before := order;
          freed, order := FreeSecond(l2, freed, q + [i], order);
          LoopNext(tab, order0, before, order, q, i);
        }
        i := i + 1;
      }
      LoopEnd(mem, root, tab, order0, order, q);
      freed, order := FreeOne(t, freed, q, order);
    }

    // free_pgdir: every table is given back once, and nothing else is.
    method FreePgdir() returns (freed: seq<nat>)
      requires Valid()
      modifies this`root, this`tab
      ensures Valid() && root == 0 && NoDup(freed)
      ensures forall page :: page in freed <==> !old(Unused(tab, page))
    {
      hide Part, Pack, PageIn, WfTables, Freed;
      freed := [];
      RootTable(mem, root, tab);
      ghost var order: seq<seq<nat>> := [];
      assert Freed(freed, order) by { NothingFreed(freed, order); }
      if root != 0 {
        ghost var order0 := order;
        StartLoop(tab, order0, []);
        var i := 0;
        while i < N_PTE
          invariant i <= N_PTE && root == old(root) && tab == old(tab)
          invariant Freed(freed, order) && InLoop(tab, order0, order, [], i)
        {
          ReadEntry(mem, root, tab, [], i);
          LoopStep(mem, root, tab, order0, order, [], i);
          if mem[root][i] != 0 {
            var l1 := PageIn(mem[root][i]);
            ghost var before := order;
            freed, order := FreeFirst(l1, freed, [] + [i], order);
            LoopNext(tab, order0, before, order, [], i);
          }
          i := i + 1;
        }
        LoopEnd(mem, root, tab, order0, order, []);
        freed, order := FreeOne(root, freed, [], order);
      }
      AllFreed(mem, root, tab, freed, order);
      NoTables(mem);
      root := 0;
      tab := map[];
    }

    lemma {:induction false} NothingFreed(freed: seq<nat>, order: seq<seq<nat>>)
      requires freed == [] && order == []
      ensures Freed(freed, order)
    {
    }

    lemma {:induction false} AllFreed(m: Memory, r: nat, tb: Tables, freed: seq<nat>, order: seq<seq<nat>>)
      requires m == mem && r == root && tb == tab && WfTables(mem, root, tab) && Freed(freed, order)
      requires forall q :: q in order <==> q in tab
      ensures NoDup(freed) && forall page :: page in freed <==> !Unused(tab, page)
    {
      forall i, j | 0 <= i < j < |freed| ensures freed[i] != freed[j] {
        assert order[i] != order[j];
      }
      forall page ensures page in freed <==> !Unused(tab, page) {
        if page in freed {
          var k :| 0 <= k < |freed| && freed[k] == page;
          assert order[k] in tab;
        }
        if !Unused(tab, page) {
          var q :| q in tab && tab[q] == page;
          var k :| 0 <= k < |order| && order[k] == q;
          assert freed[k] == page;
        }
      }
    }
  }

  // Four pages, each different unless it is 0.
  predicate SparePages(spare: seq<nat>) {
    && |spare| == 4 && (forall j :: 0 <= j < 4 ==> spare[j] < PAGES)
    && forall j, k :: 0 <= j < k < 4 && spare[j] != 0 ==> spare[j] != spare[k]
  }

  lemma {:induction false} RootTable(mem: Memory, root: nat, tab: Tables)
    requires WfTables(mem, root, tab)
    ensures if root == 0 then tab == map[] else [] in tab && tab[[]] == root
  {
  }

  lemma {:induction false} EmptyPrefix(va: nat)
    ensures Prefix(va, 0) == []
  {
  }

  lemma {:induction false} PrefixNext(va: nat, k: nat)
    requires k < 3
    ensures Prefix(va, k + 1) == Prefix(va, k) + [Part(va, k)] && |Prefix(va, k)| == k
  {
  }

  lemma {:induction false} EntryThere(mem: Memory, root: nat, tab: Tables, va: nat)
    requires WfTables(mem, root, tab) && Prefix(va, 3) in tab
    ensures var t := tab[Prefix(va, 3)]; t in mem && |mem[t]| == N_PTE && mem[t][Part(va, 3)] == Entry(mem, tab, va)
  {
    assert WfAt(mem, tab, Prefix(va, 3));
  }

  // Below a table that is not there, there are none.
  lemma {:induction false} NoTable(mem: Memory, root: nat, tab: Tables, va: nat, k: nat)
    requires WfTables(mem, root, tab) && k <= 3 && Prefix(va, k) !in tab
    ensures Prefix(va, 3) !in tab
    decreases 3 - k
  {
    hide Part, Pack, WfTables;
    if k < 3 {
      ParentThere(mem, root, tab, Prefix(va, k), Part(va, k));
      PrefixNext(va, k);
      NoTable(mem, root, tab, va, k + 1);
    }
  }

  // An entry of a table above the last level is 0 exactly if there is no table behind it, and else names its page.
  lemma {:induction false} ReadEntry(mem: Memory, root: nat, tab: Tables, q: seq<nat>, i: nat)
    requires WfTables(mem, root, tab) && q in tab && |q| < 3 && i < N_PTE
    ensures tab[q] in mem && |mem[tab[q]]| == N_PTE
    ensures mem[tab[q]][i] != 0 <==> q + [i] in tab
    ensures q + [i] in tab ==> PageIn(mem[tab[q]][i]) == tab[q + [i]]
  {
    assert WfAt(mem, tab, q) && Linked(mem, tab, q, i);
    if q + [i] in tab {
      assert WfAt(mem, tab, q + [i]);
      PackRoundTrip(tab[q + [i]]);
    }
  }

  // ---------- the order of free_pgdir ----------

  // Nothing at or behind q has been freed.
  ghost predicate Untouched(order: seq<seq<nat>>, q: seq<nat>) { forall r :: r in order ==> !(q <= r) }

  // All tables at or behind q, and only they, have been freed in between.
  ghost predicate Gained(tab: Tables, order0: seq<seq<nat>>, order: seq<seq<nat>>, q: seq<nat>) {
    forall r :: r in order <==> r in order0 || (r in tab && q <= r)
  }

  // The loop over table q has reached entry i.
  ghost predicate InLoop(tab: Tables, order0: seq<seq<nat>>, order: seq<seq<nat>>, q: seq<nat>, i: nat) {
    forall r :: r in order <==> r in order0 || (r in tab && q < r && r[|q|] < i)
  }

  lemma {:induction false} StartLoop(tab: Tables, order0: seq<seq<nat>>, q: seq<nat>)
    ensures InLoop(tab, order0, order0, q, 0)
  {
  }

  lemma {:induction false} PrefixSnoc(q: seq<nat>, i: nat, r: seq<nat>)
    ensures q + [i] <= r <==> q < r && r[|q|] == i
  {
    if q + [i] <= r { assert r[..|q|] == q; }
    if q < r && r[|q|] == i { assert r[..|q| + 1] == q + [i]; }
  }

  lemma {:induction false} AncestorThere(mem: Memory, root: nat, tab: Tables, r: seq<nat>, k: nat)
    requires WfTables(mem, root, tab) && r in tab && k <= |r|
    ensures r[..k] in tab
    decreases |r|
  {
    if k < |r| {
      assert WfAt(mem, tab, r);
      AncestorThere(mem, root, tab, r[..|r| - 1], k);
      assert r[..|r| - 1][..k] == r[..k];
    } else {
      assert r[..k] == r;
    }
  }

  // Before entry i is looked at: nothing behind it has been freed, and if there is no table behind it, the loop may go
  // on.
  lemma {:induction false} LoopStep(mem: Memory, root: nat, tab: Tables, order0: seq<seq<nat>>, order: seq<seq<nat>>,
                                    q: seq<nat>, i: nat)
    requires WfTables(mem, root, tab) && InLoop(tab, order0, order, q, i) && Untouched(order0, q)
    ensures Untouched(order, q + [i])
    ensures q + [i] !in tab ==> InLoop(tab, order0, order, q, i + 1)
  {
    hide WfTables;
    forall r | r in order ensures !(q + [i] <= r) {
      PrefixSnoc(q, i, r);
    }
    forall r | r in tab && q < r && r[|q|] == i ensures q + [i] in tab {
      PrefixSnoc(q, i, r);
      AncestorThere(mem, root, tab, r, |q| + 1);
      assert r[..|q| + 1] == q + [i];
    }
  }

  lemma {:induction false} LoopNext(tab: Tables, order0: seq<seq<nat>>, before: seq<seq<nat>>, order: seq<seq<nat>>,
                                    q: seq<nat>, i: nat)
    requires InLoop(tab, order0, before, q, i) && Gained(tab, before, order, q + [i])
    ensures InLoop(tab, order0, order, q, i + 1)
  {
    forall r ensures r in order <==> r in order0 || (r in tab && q < r && r[|q|] < i + 1) {
      PrefixSnoc(q, i, r);
    }
  }

  // Behind a last-level table there is only itself.
  lemma {:induction false} LastLevel(mem: Memory, root: nat, tab: Tables, q: seq<nat>)
    requires WfTables(mem, root, tab) && |q| == 3
    ensures forall r :: r in tab && q <= r ==> r == q
  {
    forall r | r in tab && q <= r ensures r == q {
      assert WfAt(mem, tab, r);
    }
  }

  lemma {:induction false} LoopEnd(mem: Memory, root: nat, tab: Tables, order0: seq<seq<nat>>, order: seq<seq<nat>>,
                                   q: seq<nat>)
    requires WfTables(mem, root, tab) && q in tab && InLoop(tab, order0, order, q, N_PTE) && Untouched(order0, q)
    ensures q !in order
    ensures forall r :: r in order || r == q <==> r in order0 || (r in tab && q <= r)
  {
    hide WfTables;
    assert q !in order0 by { assert q <= q; }
    forall r | r in tab && q < r ensures r[|q|] < N_PTE {
      AncestorThere(mem, root, tab, r, |q| + 1);
      IndexBound(mem, root, tab, r[..|q| + 1]);
    }
  }

  lemma {:induction false} IndexBound(mem: Memory, root: nat, tab: Tables, r: seq<nat>)
    requires WfTables(mem, root, tab) && r in tab && |r| > 0
    ensures r[|r| - 1] < N_PTE
  {
    assert WfAt(mem, tab, r);
  }

  lemma {:induction false} NoTables(mem: Memory)
    ensures WfTables(mem, 0, map[])
  {
  }
}
