/** src/driver/virtio_blk.c: the descriptors of the block device's queue, free or in a chain of three. */
module Virtqueue {

  import opened Basics

  // A descriptor: whether VIRTQ_DESC_F_NEXT is set, and the field next.
  datatype Desc = Desc(more: bool, next: nat)

  // The free list. Only the links between its members count: what the last one points to is stale.
  predicate IsFree(desc: seq<Desc>, head: nat, free: seq<nat>) {
    && NoDup(free) && (forall i :: 0 <= i < |free| ==> free[i] < |desc|) && (free != [] ==> free[0] == head)
    && forall i :: 0 <= i < |free| - 1 ==> desc[free[i]] == Desc(true, free[i + 1])
  }

  // The same, for the members from number k on.
  predicate FreeFrom(desc: seq<Desc>, head: nat, f: seq<nat>, k: nat) {
    && NoDup(f) && (forall i :: 0 <= i < |f| ==> f[i] < |desc|) && k <= |f| && (k < |f| ==> f[k] == head)
    && forall i :: k <= i < |f| - 1 ==> desc[f[i]] == Desc(true, f[i + 1])
  }

  // A descriptor that has left the list may be written.
  lemma {:induction false} FreeWrite(desc: seq<Desc>, head: nat, f: seq<nat>, k: nat, j: nat, x: Desc)
    requires FreeFrom(desc, head, f, k) && j < k
    ensures f[j] < |desc| && FreeFrom(desc[f[j] := x], head, f, k)
  {
  }

  lemma {:induction false} FreeDistinct(desc: seq<Desc>, head: nat, f: seq<nat>, k: nat)
    requires FreeFrom(desc, head, f, k) && |f| >= 3
    ensures f[0] < |desc| && f[1] < |desc| && f[2] < |desc| && f[0] != f[1] && f[0] != f[2] && f[1] != f[2]
  {
  }

  lemma {:induction false} FreeTail(desc: seq<Desc>, head: nat, f: seq<nat>, k: nat)
    requires FreeFrom(desc, head, f, k)
    ensures IsFree(desc, head, f[k..])
  {
    assert forall i :: 0 <= i < |f| - k ==> f[k..][i] == f[k + i];
  }

  // A request in flight: header, data and status, linked in that order.
  predicate IsChain(desc: seq<Desc>, c: nat, d1: nat, d2: nat) {
    && c < |desc| && d1 < |desc| && d2 < |desc| && c != d1 && c != d2 && d1 != d2
    && desc[c] == Desc(true, d1) && desc[d1] == Desc(true, d2) && !desc[d2].more
  }

  // Who has a descriptor: the free list, or the request with that first descriptor.
  datatype Owner = Free | Chain(c: nat)

  // Every descriptor is on the free list or in one chain, never in two places.
  predicate Shared(desc: seq<Desc>, free: seq<nat>, owner: seq<Owner>, chains: map<nat, (nat, nat)>) {
    && |owner| == |desc|
    && (forall d :: 0 <= d < |desc| ==> (owner[d] == Free <==> d in free))
    && (forall d :: 0 <= d < |desc| && owner[d].Chain? ==>
          owner[d].c in chains && (d == owner[d].c || d == chains[owner[d].c].0 || d == chains[owner[d].c].1))
    && (forall c :: c in chains ==>
          && IsChain(desc, c, chains[c].0, chains[c].1)
          && owner[c] == Chain(c) && owner[chains[c].0] == Chain(c) && owner[chains[c].1] == Chain(c))
  }

  class Virtq {
    var desc: seq<Desc>
    var freeHead: nat
    var nfree: nat
    ghost var free: seq<nat>
    ghost var owner: seq<Owner>
    ghost var chains: map<nat, (nat, nat)>

    ghost predicate Valid()
      reads this
    {
      nfree == |free| && IsFree(desc, freeHead, free) && Shared(desc, free, owner, chains)
    }

    // desc_init on a queue of n descriptors, whose memory was cleared.
    constructor (n: nat)
      ensures Valid() && |desc| == n == nfree && chains == map[]
    {
      desc, freeHead, nfree := seq(n, _ => Desc(false, 0)), 0, n;
      free, owner, chains := seq(n, i => i), seq(n, _ => Free), map[];
      new;
      var i := 0;
      while i < n
        invariant i <= n && |desc| == n && forall j :: 0 <= j < i && j < n - 1 ==> desc[j] == Desc(true, j + 1)
        invariant freeHead == 0 && nfree == n == |free| && (forall j :: 0 <= j < n ==> free[j] == j)
        invariant owner == seq(n, _ => Free) && chains == map[]
      {
        if i != n - 1 {
          desc := desc[i := Desc(true, i + 1)];
        }
        i := i + 1;
      }
      forall d | 0 <= d < n ensures d in free {
        assert free[d] == d;
      }
    }

    // alloc_desc, which panics if there is none. The members of f from number k on are free.
    method AllocDesc(ghost f: seq<nat>, ghost k: nat) returns (ok: bool, d: nat)
      requires FreeFrom(desc, freeHead, f, k) && nfree == |f| - k
      modifies this`freeHead, this`nfree
      ensures ok <==> k < |f|
      ensures ok ==> d == f[k] < |desc| && nfree == |f| - k - 1 && FreeFrom(desc, freeHead, f, k + 1)
      ensures !ok ==> nfree == 0
    {
      if nfree == 0 {
        return false, 0;
      }
      d := freeHead;
      if desc[d].more {
        freeHead := desc[d].next;
      }
      nfree := nfree - 1;
      ok := true;
    }

    // The part of virtio_blk_rw that takes three descriptors and links them.
    method LinkThree(ghost f: seq<nat>) returns (ok: bool, d0: nat, d1: nat, d2: nat)
      requires FreeFrom(desc, freeHead, f, 0) && nfree == |f|
      modifies this`desc, this`freeHead, this`nfree
      ensures ok <==> |f| >= 3
      ensures ok ==> && d0 == f[0] && d1 == f[1] && d2 == f[2] && nfree == |f| - 3 && |desc| == |old(desc)|
                     && FreeFrom(desc, freeHead, f, 3)
                     && desc == old(desc)[d0 := Desc(true, d1)][d1 := Desc(true, d2)][d2 := Desc(false, 0)]
    {
      if |f| >= 3 { FreeDistinct(desc, freeHead, f, 0); }
      hide FreeFrom;
      d1, d2 := 0, 0;
      ok, d0 := AllocDesc(f, 0);
      if !ok { return; }
      FreeWrite(desc, freeHead, f, 1, 0, Desc(true, desc[d0].next));
      desc := desc[d0 := Desc(true, desc[d0].next)];
      ok, d1 := AllocDesc(f, 1);
      if !ok { return; }
      FreeWrite(desc, freeHead, f, 2, 0, Desc(true, d1));
      desc := desc[d0 := Desc(true, d1)];
      FreeWrite(desc, freeHead, f, 2, 1, Desc(true, desc[d1].next));
      desc := desc[d1 := Desc(true, desc[d1].next)];
      ok, d2 := AllocDesc(f, 2);
      if !ok { return; }
      FreeWrite(desc, freeHead, f, 3, 1, Desc(true, d2));
      desc := desc[d1 := Desc(true, d2)];
      FreeWrite(desc, freeHead, f, 3, 2, Desc(false, 0));
      desc := desc[d2 := Desc(false, 0)];
    }

    // The descriptors of virtio_blk_rw: three of them become a chain, unless too few are free, where the code panics.
    method Submit() returns (ok: bool, d0: nat)
      requires Valid()
      modifies this
      ensures ok <==> old(nfree) >= 3
      ensures ok ==> && Valid() && |desc| == |old(desc)| && free == old(free)[3..]
                     && d0 == old(free)[0] && d0 !in old(chains)
                     && chains == old(chains)[d0 := (old(free)[1], old(free)[2])]
    {
      OwnerSize(desc, free, owner, chains);
      hide Shared;
      var d1, d2;
      ok, d0, d1, d2 := LinkThree(free);
      if ok {
        SubmitShares(old(desc), desc, free, owner, chains);
        FreeTail(desc, freeHead, free, 3);
        free := free[3..];
        owner := owner[d0 := Chain(d0)][d1 := Chain(d0)][d2 := Chain(d0)];
        chains := chains[d0 := (d1, d2)];
      }
    }

    // free_desc of a request that has completed: its chain goes to the front of the free list.
    method Complete(d0: nat)
      requires Valid() && d0 in chains
      modifies this
      ensures Valid() && |desc| == |old(desc)| && chains == old(chains) - {d0}
      ensures free == [d0, old(chains)[d0].0, old(chains)[d0].1] + old(free)
    {
      ghost var chain := [d0, chains[d0].0, chains[d0].1];
      var n := d0;
      var empty := nfree == 0;
      nfree := nfree + 1;
      ghost var k := 0;
      while desc[n].more
        invariant k < 3 && n == chain[k] && nfree == old(nfree) + k + 1 && desc == old(desc)
                  && freeHead == old(freeHead)
        invariant free == old(free) && owner == old(owner) && chains == old(chains)
        decreases 3 - k
      {
        n := desc[n].next;
        nfree := nfree + 1;
        k := k + 1;
      }
      desc := desc[n := Desc(true, desc[n].next)];
      if !empty {
        desc := desc[n := Desc(true, freeHead)];
      }
      freeHead := d0;
      CompleteShares(old(desc), desc, old(freeHead), free, owner, chains, d0);
      free := chain + free;
      owner := owner[chain[0] := Free][chain[1] := Free][chain[2] := Free];
      chains := chains - {d0};
    }
  }

  lemma {:induction false} OwnerSize(desc: seq<Desc>, free: seq<nat>, owner: seq<Owner>, chains: map<nat, (nat, nat)>)
    requires Shared(desc, free, owner, chains)
    ensures |owner| == |desc|
  {
  }

  lemma {:induction false} SubmitShares(desc: seq<Desc>, now: seq<Desc>, f: seq<nat>, owner: seq<Owner>,
                                        chains: map<nat, (nat, nat)>)
    requires Shared(desc, f, owner, chains) && |f| >= 3 && NoDup(f) && (forall i :: 0 <= i < |f| ==> f[i] < |desc|)
    requires now == desc[f[0] := Desc(true, f[1])][f[1] := Desc(true, f[2])][f[2] := Desc(false, 0)]
    ensures f[0] !in chains
    ensures Shared(now, f[3..], owner[f[0] := Chain(f[0])][f[1] := Chain(f[0])][f[2] := Chain(f[0])],
                   chains[f[0] := (f[1], f[2])])
  {
    var owner2 := owner[f[0] := Chain(f[0])][f[1] := Chain(f[0])][f[2] := Chain(f[0])];
    assert f[0] in f && f[1] in f && f[2] in f;
    forall d | 0 <= d < |now| ensures owner2[d] == Free <==> d in f[3..] {
      FrontThree(f, d);
    }
    forall c | c in chains
      ensures IsChain(now, c, chains[c].0, chains[c].1) && c != f[0]
      ensures owner2[c] == Chain(c) && owner2[chains[c].0] == Chain(c) && owner2[chains[c].1] == Chain(c)
    {
      assert IsChain(desc, c, chains[c].0, chains[c].1);
    }
  }

  lemma {:induction false} FrontThree(f: seq<nat>, d: nat)
    requires |f| >= 3 && NoDup(f)
    ensures d in f[3..] <==> d in f && d != f[0] && d != f[1] && d != f[2]
  {
    if d in f {
      var i :| 0 <= i < |f| && f[i] == d;
      if i >= 3 { assert f[3..][i - 3] == d; }
    }
    assert forall i :: 0 <= i < |f[3..]| ==> f[3..][i] == f[i + 3];
  }

  // The chain c, d1, d2 in front of the free list.
  lemma {:induction false} CompleteFree(now: seq<Desc>, head: nat, f: seq<nat>, c: nat, d1: nat, d2: nat)
    requires c < |now| && d1 < |now| && d2 < |now| && c != d1 && c != d2 && d1 != d2
    requires c !in f && d1 !in f && d2 !in f && IsFree(now, head, f)
    requires now[c] == Desc(true, d1) && now[d1] == Desc(true, d2) && now[d2].more && (f != [] ==> now[d2].next == head)
    ensures IsFree(now, c, [c, d1, d2] + f)
  {
    var all := [c, d1, d2] + f;
    assert forall i :: 0 <= i < |f| ==> all[i + 3] == f[i] && f[i] in f;
    forall i, j | 0 <= i < j < |all| ensures all[i] != all[j] {
      if j >= 3 { assert all[j] in f; }
    }
    forall i | 0 <= i < |all| - 1 ensures now[all[i]] == Desc(true, all[i + 1]) {
      if i >= 3 { assert now[f[i - 3]] == Desc(true, f[i - 2]); }
    }
  }

  lemma {:induction false} FrontMembers(c: nat, d1: nat, d2: nat, f: seq<nat>, d: nat)
    ensures d in [c, d1, d2] + f <==> d in f || d == c || d == d1 || d == d2
  {
    var all := [c, d1, d2] + f;
    assert all[0] == c && all[1] == d1 && all[2] == d2;
  }

  lemma {:induction false} CompleteShares(desc: seq<Desc>, now: seq<Desc>, head: nat, f: seq<nat>, owner: seq<Owner>,
                                          chains: map<nat, (nat, nat)>, c: nat)
    requires Shared(desc, f, owner, chains) && IsFree(desc, head, f) && c in chains
    requires var d2 := chains[c].1;
             d2 < |desc| == |now| && now == desc[d2 := now[d2]] && now[d2].more && (f != [] ==> now[d2].next == head)
    ensures var chain := [c, chains[c].0, chains[c].1];
            && IsFree(now, c, chain + f)
            && Shared(now, chain + f, owner[chain[0] := Free][chain[1] := Free][chain[2] := Free], chains - {c})
  {
    var d1, d2 := chains[c].0, chains[c].1;
    assert IsChain(desc, c, d1, d2);
    assert c !in f && d1 !in f && d2 !in f;
    assert IsFree(now, head, f) by { assert forall i :: 0 <= i < |f| ==> f[i] in f; }
    CompleteFree(now, head, f, c, d1, d2);
    CompleteOwners(desc, now, f, owner, chains, c);
  }

  lemma {:induction false} CompleteOwners(desc: seq<Desc>, now: seq<Desc>, f: seq<nat>, owner: seq<Owner>,
                                          chains: map<nat, (nat, nat)>, c: nat)
    requires Shared(desc, f, owner, chains) && c in chains && chains[c].1 < |desc| == |now|
    requires now == desc[chains[c].1 := now[chains[c].1]]
    ensures var chain := [c, chains[c].0, chains[c].1];
            Shared(now, chain + f, owner[chain[0] := Free][chain[1] := Free][chain[2] := Free], chains - {c})
  {
    var d1, d2 := chains[c].0, chains[c].1;
    assert IsChain(desc, c, d1, d2);
    var owner2 := owner[c := Free][d1 := Free][d2 := Free];
    forall d | 0 <= d < |now| ensures owner2[d] == Free <==> d in [c, d1, d2] + f {
      FrontMembers(c, d1, d2, f, d);
    }
    forall x | x in chains && x != c
      ensures IsChain(now, x, chains[x].0, chains[x].1)
      ensures owner2[x] == Chain(x) && owner2[chains[x].0] == Chain(x) && owner2[chains[x].1] == Chain(x)
    {
      assert IsChain(desc, x, chains[x].0, chains[x].1);
    }
  }
}
