/** The list of cached blocks of src/fs/cache.c, most recently acquired first. */
module CacheList {

  import opened LogFormat
  import opened Journal

  const EVICTION_THRESHOLD: nat := 20

  // A Block of the C code; acquired and pinned are its flags of that name.
  datatype Entry = Entry(no: nat, acquired: bool, pinned: bool, data: Block)

  function Numbers(list: seq<Entry>): set<nat> {
    if list == [] then {} else {list[0].no} + Numbers(list[1..])
  }

  // The numbers of the blocks flagged as acquired.
  function Held(list: seq<Entry>): set<nat> {
    if list == [] then {} else (if list[0].acquired then {list[0].no} else {}) + Held(list[1..])
  }

  function Contents(list: seq<Entry>): map<nat, Buf> {
    if list == [] then map[] else Contents(list[1..])[list[0].no := Buf(list[0].data, list[0].pinned)]
  }

  predicate Distinct(list: seq<Entry>) {
    list == [] || (list[0].no !in Numbers(list[1..]) && Distinct(list[1..]))
  }

  predicate Evictable(e: Entry) { !e.acquired && !e.pinned }

  function Drop<T>(s: seq<T>, k: nat): seq<T>
    requires k < |s|
  {
    s[..k] + s[k + 1..]
  }

  // k is the last, that is the least recently acquired, of the entries that may go.
  predicate IsVictim(list: seq<Entry>, k: nat) {
    k < |list| && Evictable(list[k]) && NoneEvictable(list[k + 1..])
  }

  predicate NoneEvictable(list: seq<Entry>) { forall e :: e in list ==> !Evictable(e) }

  predicate IsOldest(list: seq<Entry>, stamps: seq<nat>, k: nat)
    requires |list| == |stamps| && k < |list|
  {
    forall i :: 0 <= i < |list| && Evictable(list[i]) ==> stamps[k] <= stamps[i]
  }

  // rest is what a miss leaves of the list: all of it exactly if it is below the threshold or no entry may go;
  // otherwise the one acquired longest ago of those that may go is gone.
  predicate MadeRoom(list: seq<Entry>, stamps: seq<nat>, rest: seq<Entry>)
    requires |list| == |stamps|
  {
    if |list| < EVICTION_THRESHOLD || NoneEvictable(list) then rest == list
    else exists k :: 0 <= k < |list| && IsVictim(list, k) && IsOldest(list, stamps, k) && rest == Drop(list, k)
  }

  // How many entries may not go.
  function Busy(list: seq<Entry>): nat {
    if list == [] then 0 else (if Evictable(list[0]) then 0 else 1) + Busy(list[1..])
  }

  // The longest the list gets, if never more than n entries may not go when one is missing.
  function Most(n: nat): nat { if n + 1 > EVICTION_THRESHOLD then n + 1 else EVICTION_THRESHOLD }

  lemma {:induction false} BusyAll(list: seq<Entry>)
    ensures Busy(list) <= |list| && (Busy(list) == |list| <==> NoneEvictable(list))
  {
    if list != [] {
      BusyAll(list[1..]);
      assert list == [list[0]] + list[1..];
    }
  }

  // The times at which the entries were last acquired: all before now, and falling along the list.
  predicate Falling(stamps: seq<nat>, now: nat) {
    stamps == [] || (stamps[0] < now && Falling(stamps[1..], stamps[0]))
  }

  // The same by block.
  function Stamps(list: seq<Entry>, at: map<nat, nat>): (stamps: seq<nat>)
    ensures |stamps| == |list|
  {
    seq(|list|, i requires 0 <= i < |list| => if list[i].no in at then at[list[i].no] else 0)
  }

  lemma {:induction false} StampsDrop(list: seq<Entry>, at: map<nat, nat>, k: nat)
    requires k < |list|
    ensures Stamps(Drop(list, k), at) == Drop(Stamps(list, at), k)
  {
  }

  lemma {:induction false} StampsUpdate(list: seq<Entry>, at: map<nat, nat>, k: nat, e: Entry)
    requires k < |list| && e.no == list[k].no
    ensures Stamps(list[k := e], at) == Stamps(list, at)
  {
  }

  lemma {:induction false} StampsCons(e: Entry, list: seq<Entry>, at: map<nat, nat>, now: nat)
    requires e.no !in Numbers(list)
    requires Falling(Stamps(list, at), now)
    ensures Falling(Stamps([e] + list, at[e.no := now]), now + 1)
  {
    forall i | 0 <= i < |list| ensures list[i].no != e.no { NumberAt(list, i); }
    assert Stamps([e] + list, at[e.no := now])[1..] == Stamps(list, at);
  }

  lemma {:induction false} ContentsKeys(list: seq<Entry>)
    ensures Contents(list).Keys == Numbers(list)
    ensures Held(list) <= Numbers(list)
  {
    if list != [] { ContentsKeys(list[1..]); }
  }

  lemma {:induction false} NumberAt(list: seq<Entry>, k: nat)
    requires k < |list|
    ensures list[k].no in Numbers(list)
    ensures list[k].acquired ==> list[k].no in Held(list)
  {
    if k > 0 { NumberAt(list[1..], k - 1); }
  }

  lemma {:induction false} EntryAt(list: seq<Entry>, k: nat)
    requires Distinct(list) && k < |list|
    ensures list[k].no in Contents(list) && Contents(list)[list[k].no] == Buf(list[k].data, list[k].pinned)
    ensures list[k].acquired <==> list[k].no in Held(list)
  {
    ContentsKeys(list[1..]);
    if k > 0 {
      NumberAt(list[1..], k - 1);
      EntryAt(list[1..], k - 1);
    }
  }

  lemma {:induction false} DropNumbers(list: seq<Entry>, k: nat)
    requires Distinct(list) && k < |list|
    ensures Distinct(Drop(list, k)) && Numbers(Drop(list, k)) == Numbers(list) - {list[k].no}
  {
    var d := Drop(list, k);
    if k == 0 {
      assert d == list[1..];
    } else {
      DropNumbers(list[1..], k - 1);
      NumberAt(list[1..], k - 1);
      assert d[0] == list[0] && d[1..] == Drop(list[1..], k - 1);
    }
  }

  lemma {:induction false} DropContents(list: seq<Entry>, k: nat)
    requires Distinct(list) && k < |list|
    ensures Contents(Drop(list, k)) == Contents(list) - {list[k].no}
  {
    ContentsKeys(list[1..]);
    var d := Drop(list, k);
    if k == 0 {
      assert d == list[1..];
    } else {
      DropContents(list[1..], k - 1);
      NumberAt(list[1..], k - 1);
      assert d[0] == list[0] && d[1..] == Drop(list[1..], k - 1);
    }
  }

  lemma {:induction false} HeldNumbers(list: seq<Entry>)
    ensures Held(list) <= Numbers(list)
  {
    if list != [] { HeldNumbers(list[1..]); }
  }

  lemma {:induction false} DropHeld(list: seq<Entry>, k: nat)
    requires Distinct(list) && k < |list|
    ensures Held(Drop(list, k)) == Held(list) - {list[k].no}
  {
    HeldNumbers(list[1..]);
    var d := Drop(list, k);
    if k == 0 {
      assert d == list[1..];
    } else {
      DropHeld(list[1..], k - 1);
      NumberAt(list[1..], k - 1);
      assert d[0] == list[0] && d[1..] == Drop(list[1..], k - 1);
    }
  }

  lemma {:induction false} DropFacts(list: seq<Entry>, k: nat)
    requires Distinct(list) && k < |list|
    ensures Distinct(Drop(list, k)) && Numbers(Drop(list, k)) == Numbers(list) - {list[k].no}
    ensures Contents(Drop(list, k)) == Contents(list) - {list[k].no}
    ensures Held(Drop(list, k)) == Held(list) - {list[k].no}
  {
    DropNumbers(list, k);
    DropContents(list, k);
    DropHeld(list, k);
  }

  lemma {:induction false} UpdateFacts(list: seq<Entry>, k: nat, e: Entry)
    requires Distinct(list) && k < |list| && e.no == list[k].no
    ensures Distinct(list[k := e]) && Numbers(list[k := e]) == Numbers(list)
    ensures Contents(list[k := e]) == Contents(list)[e.no := Buf(e.data, e.pinned)]
    ensures Held(list[k := e]) == if e.acquired then Held(list) + {e.no} else Held(list) - {e.no}
  {
    var l := list[k := e];
    ContentsKeys(list[1..]);
    if k == 0 {
      assert l[1..] == list[1..];
    } else {
      UpdateFacts(list[1..], k - 1, e);
      NumberAt(list[1..], k - 1);
      assert l[0] == list[0] && l[1..] == list[1..][k - 1 := e];
    }
  }

  lemma {:induction false} ConsFacts(e: Entry, list: seq<Entry>)
    requires Distinct(list) && e.no !in Numbers(list)
    ensures Distinct([e] + list) && Numbers([e] + list) == Numbers(list) + {e.no}
    ensures Contents([e] + list) == Contents(list)[e.no := Buf(e.data, e.pinned)]
    ensures Held([e] + list) == if e.acquired then Held(list) + {e.no} else Held(list)
  {
    assert ([e] + list)[1..] == list;
  }

  // A hit moves the entry to the front; the contents stay.
  lemma {:induction false} FrontFacts(list: seq<Entry>, k: nat)
    requires Distinct(list) && k < |list|
    ensures var l := [list[k].(acquired := true)] + Drop(list, k);
            Distinct(l) && Contents(l) == Contents(list) && Held(l) == Held(list) + {list[k].no}
  {
    DropFacts(list, k);
    EntryAt(list, k);
    ConsFacts(list[k].(acquired := true), Drop(list, k));
    MapPutBack(Contents(list), list[k].no);
  }

  lemma {:induction false} MapPutBack(m: map<nat, Buf>, b: nat)
    requires b in m
    ensures (m - {b})[b := m[b]] == m
  {
  }

  lemma {:induction false} FallingDrop(stamps: seq<nat>, k: nat, now: nat)
    requires Falling(stamps, now) && k < |stamps|
    ensures Falling(Drop(stamps, k), now)
  {
    if k == 0 {
      assert Drop(stamps, k) == stamps[1..];
      FallingLater(stamps[1..], stamps[0], now);
    } else {
      FallingDrop(stamps[1..], k - 1, stamps[0]);
      assert Drop(stamps, k)[1..] == Drop(stamps[1..], k - 1);
    }
  }

  lemma {:induction false} FallingLater(stamps: seq<nat>, now: nat, later: nat)
    requires Falling(stamps, now) && now <= later
    ensures Falling(stamps, later)
  {
  }

  lemma {:induction false} FallingPairs(stamps: seq<nat>, now: nat, i: nat, j: nat)
    requires Falling(stamps, now) && i < j < |stamps|
    ensures stamps[i] > stamps[j]
  {
    if i == 0 {
      FallingBound(stamps[1..], stamps[0], j - 1);
    } else {
      FallingPairs(stamps[1..], stamps[0], i - 1, j - 1);
    }
  }

  lemma {:induction false} FallingBound(stamps: seq<nat>, now: nat, j: nat)
    requires Falling(stamps, now) && j < |stamps|
    ensures stamps[j] < now
  {
    if j > 0 { FallingBound(stamps[1..], stamps[0], j - 1); }
  }

  lemma {:induction false} LastIsOldest(list: seq<Entry>, stamps: seq<nat>, now: nat, k: nat)
    requires |list| == |stamps| && Falling(stamps, now) && k < |list| && NoneEvictable(list[k + 1..])
    ensures IsOldest(list, stamps, k)
  {
    forall i | 0 <= i < |list| && Evictable(list[i]) ensures stamps[k] <= stamps[i] {
      if i < k { FallingPairs(stamps, now, i, k); }
    }
  }
}
