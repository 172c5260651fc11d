/** src/fs/cache.c: the list of cached blocks, and acquire, release, sync, begin_op, end_op, the checkpoint and the
    recovery as loops over it. Each method is a sequence of steps of the journal machine. */
module BlockCache {

  import opened LogFormat
  import opened Journal
  import opened JournalProofs
  import opened JournalRuns
  import opened CacheList

  // Nothing changes for a reader, and what is pinned stays cached.
  ghost predicate SameForReaders(s: State, s': State) {
    && s'.disk == s.disk && s'.header == s.header && s'.ops == s.ops && s'.phase == s.phase
    && forall b: nat :: b < |s.disk| ==> Current(s', b) == Current(s, b)
  }

  lemma {:induction false} FetchStep(cfg: Config, s: State, b: nat)
    requires Reachable(cfg, s) && Ready(cfg, s) && Enabled(cfg, s, Fetch(b))
    ensures Reachable(cfg, Next(cfg, s, Fetch(b))) && SameForReaders(s, Next(cfg, s, Fetch(b)))
  {
    ReachableStep(cfg, s, Fetch(b));
  }

  lemma {:induction false} EvictStep(cfg: Config, s: State, b: nat)
    requires Reachable(cfg, s) && Ready(cfg, s) && Enabled(cfg, s, Evict(b))
    ensures Reachable(cfg, Next(cfg, s, Evict(b))) && SameForReaders(s, Next(cfg, s, Evict(b)))
  {
    ReachableStep(cfg, s, Evict(b));
    assert Coherent(s.disk, s.cache) by { ReachableInv(cfg, s); }
  }

  // A miss drops at most one evictable entry and puts the block as on disk in front.
  lemma {:induction false} MissSteps(cfg: Config, s: State, list: seq<Entry>, rest: seq<Entry>, k: int, b: nat)
    requires Reachable(cfg, s) && Ready(cfg, s) && Distinct(list) && s.cache == Contents(list)
    requires b !in Numbers(list) && b < cfg.numBlocks && b != cfg.logStart
    requires if k == -1 then rest == list else 0 <= k < |list| && rest == Drop(list, k) && Evictable(list[k])
    ensures var l := [Entry(b, true, false, s.disk[b])] + rest;
            var s' := State(s.disk, Contents(l), s.header, s.ops, s.phase);
            Distinct(l) && Held(l) == Held(list) + {b} && Reachable(cfg, s') && SameForReaders(s, s')
  {
    ContentsKeys(list);
    var s1 := s;
    if k != -1 {
      DropFacts(list, k);
      EntryAt(list, k);
      EvictStep(cfg, s, list[k].no);
      s1 := Next(cfg, s, Evict(list[k].no));
    }
    ContentsKeys(rest);
    ConsFacts(Entry(b, true, false, s.disk[b]), rest);
    FetchStep(cfg, s1, b);
  }

  lemma {:induction false} SyncStep(cfg: Config, s: State, op: nat, b: nat, data: Block)
    requires Reachable(cfg, s) && Ready(cfg, s) && op < |s.ops| && b in s.cache && IsHome(cfg, b)
    ensures s.header.num <= LOG_MAX_SIZE
    ensures Enabled(cfg, s, Write(op, b, data)) <==> Logged(s.header, b) || s.ops[op] > 0
    ensures s.ops[op] > 0 ==> s.header.num < LOG_MAX_SIZE
    ensures Logged(s.header, b) || s.ops[op] > 0
            ==> Next(cfg, s, Write(op, b, data)) == Synced(s, op, b, data) && Reachable(cfg, Synced(s, op, b, data))
  {
    NoPanic(cfg, s, op);
    if Enabled(cfg, s, Write(op, b, data)) { ReachableStep(cfg, s, Write(op, b, data)); }
  }

  // ---------- the device writes of a checkpoint and of a recovery ----------

  lemma {:induction false} ReadersMap(cfg: Config, s: State, s': State)
    requires ValidConfig(cfg) && |s.disk| == cfg.numBlocks && SameForReaders(s, s')
    ensures CurrentMap(cfg, s') == CurrentMap(cfg, s)
  {
  }

  // What a device write that is no commit keeps.
  ghost predicate SameStable(cfg: Config, d: Disk, d': Disk) {
    ValidConfig(cfg) && |d| == cfg.numBlocks && |d'| == cfg.numBlocks && StableMap(cfg, d') == StableMap(cfg, d)
  }

  lemma {:induction false} EntryIsHome(cfg: Config, s: State, i: nat)
    requires Reachable(cfg, s) && Ready(cfg, s) && i < s.header.num
    requires s.phase.Logging? || s.phase.Homing? || s.phase.Recovering?
    ensures i < LOG_MAX_SIZE && IsHome(cfg, s.header.nos[i])
    ensures LogBlock(cfg, i) < cfg.numBlocks && LogBlock(cfg, i) != cfg.logStart && !IsHome(cfg, LogBlock(cfg, i))
  {
    ReachableInv(cfg, s);
  }

  // The next entry to the log.
  lemma {:induction false} LogStep(cfg: Config, s: State, i: nat, from: nat, to: nat)
    requires Reachable(cfg, s) && Ready(cfg, s) && s.phase == Logging(i) && i < s.header.num && i < LOG_MAX_SIZE
    requires from == s.header.nos[i] && to == LogBlock(cfg, i) && from < |s.disk| && to < |s.disk|
    ensures var s' := Through(s, to, Current(s, from), Pinned(s, to), Logging(i + 1));
            Reachable(cfg, s') && SameStable(cfg, s.disk, s'.disk) && CurrentMap(cfg, s') == CurrentMap(cfg, s)
  {
    ReachableInv(cfg, s);
    ReachableStep(cfg, s, LogWrite);
    RefinesQuiet(cfg, s, LogWrite);
  }

  // The next entry home.
  lemma {:induction false} HomeStep(cfg: Config, s: State, i: nat, to: nat)
    requires Reachable(cfg, s) && Ready(cfg, s) && s.phase == Homing(i) && i < s.header.num && i < LOG_MAX_SIZE
    requires to == s.header.nos[i] && to < |s.disk|
    ensures var s' := Through(s, to, Current(s, to), false, Homing(i + 1));
            Reachable(cfg, s') && SameStable(cfg, s.disk, s'.disk) && CurrentMap(cfg, s') == CurrentMap(cfg, s)
  {
    hide OnDisk, Replay, Coherent, Budget;
    ReachableInv(cfg, s);
    ReachableStep(cfg, s, HomeWrite);
    RefinesQuiet(cfg, s, HomeWrite);
  }

  // A safe sync outside any operation.
  lemma {:induction false} DirectStep(cfg: Config, s: State, b: nat, data: Block)
    requires Reachable(cfg, s) && Ready(cfg, s) && Enabled(cfg, s, Direct(b, data)) && Safe(cfg, s, Direct(b, data))
    ensures var s' := Through(s, b, data, Pinned(s, b), s.phase);
            && Reachable(cfg, s') && StableMap(cfg, s'.disk) == StableMap(cfg, s.disk)[b := data]
            && CurrentMap(cfg, s') == CurrentMap(cfg, s)[b := data]
  {
    hide StableMap, CurrentMap, Replay, Copied;
    ReachableInv(cfg, s);
    ReachableStep(cfg, s, Direct(b, data));
    RefinesDirect(cfg, s, b, data);
  }

  lemma {:induction false} CommitStep(cfg: Config, s: State)
    requires Reachable(cfg, s) && Ready(cfg, s) && s.phase == Logging(s.header.num)
    ensures Storable(s.header)
    ensures var s' := State(s.disk[cfg.logStart := EncodeHeader(s.header)], s.cache, s.header, s.ops, Homing(0));
            Reachable(cfg, s') && StableMap(cfg, s'.disk) == CurrentMap(cfg, s) == CurrentMap(cfg, s')
  {
    ReachableInv(cfg, s);
    ReachableStep(cfg, s, HeaderWrite);
    RefinesCommit(cfg, s);
  }

  lemma {:induction false} ClearStep(cfg: Config, s: State)
    requires Reachable(cfg, s) && Ready(cfg, s) && s.phase == Homing(s.header.num)
    ensures Storable(Header(0, s.header.nos))
    ensures var h := Header(0, s.header.nos);
            var s' := State(s.disk[cfg.logStart := EncodeHeader(h)], s.cache, h, s.ops, Idle);
            Reachable(cfg, s') && SameStable(cfg, s.disk, s'.disk) && CurrentMap(cfg, s') == CurrentMap(cfg, s)
  {
    ReachableInv(cfg, s);
    ReachableStep(cfg, s, ClearHeader);
    RefinesQuiet(cfg, s, ClearHeader);
  }

  // The next log block home.
  lemma {:induction false} CopyStep(cfg: Config, s: State, i: nat, from: nat, to: nat)
    requires Reachable(cfg, s) && Ready(cfg, s) && s.phase == Recovering(i) && i < s.header.num && i < LOG_MAX_SIZE
    requires from == LogBlock(cfg, i) && to == s.header.nos[i] && from < |s.disk| && to < |s.disk|
    ensures var s' := Through(s, to, Current(s, from), Pinned(s, to), Recovering(i + 1));
            Reachable(cfg, s') && SameStable(cfg, s.disk, s'.disk)
  {
    ReachableInv(cfg, s);
    ReachableStep(cfg, s, CopyBack);
    InvCopyBack(cfg, s);
    SameReplayMap(cfg, s.disk, Next(cfg, s, CopyBack).disk);
  }

  // All disks from number n of the history on are stable as d.
  ghost predicate AllStable(cfg: Config, history: seq<Disk>, n: nat, m: map<nat, Block>) {
    && ValidConfig(cfg)
    && forall k :: n <= k < |history| ==> |history[k]| == cfg.numBlocks && StableMap(cfg, history[k]) == m
  }

  predicate Grown(h: seq<Disk>, h': seq<Disk>) { |h| <= |h'| && h'[..|h|] == h }

  lemma {:induction false} EndStep(cfg: Config, s: State, op: nat)
    requires Reachable(cfg, s) && Ready(cfg, s) && op < |s.ops| && (|s.ops| == 1 ==> FitsLog(cfg, s.header))
    ensures s.phase.Idle?
    ensures var s' := State(s.disk, s.cache, s.header, Without(s.ops, op), if |s.ops| == 1 then Logging(0) else Idle);
            Reachable(cfg, s') && CurrentMap(cfg, s') == CurrentMap(cfg, s)
  {
    NoPanic(cfg, s, op);
    ReachableStep(cfg, s, End(op));
  }

  lemma {:induction false} BootStep(cfg: Config, s: State)
    requires IsBoot(cfg, s)
    ensures var h := OnDisk(cfg, s.disk);
            Reachable(cfg, State(s.disk, map[], h, [], if h.num == 0 then Idle else Recovering(0)))
  {
    ReachableBoot(cfg, s);
    ReachableStep(cfg, s, ReadHeader);
  }

  // The end of a recovery: the log is cleared, and what is read is what was stable.
  lemma {:induction false} RecoveredStep(cfg: Config, s: State)
    requires Reachable(cfg, s) && Ready(cfg, s) && s.phase == Recovering(s.header.num)
    ensures var h := Header(0, Zeros(LOG_MAX_SIZE));
            var d := s.disk[cfg.logStart := EncodeHeader(h)];
            Reachable(cfg, State(d, s.cache, h, s.ops, Idle)) && SameStable(cfg, s.disk, d)
  {
    ReachableInv(cfg, s);
    ReachableStep(cfg, s, ClearLog);
    InvClearLog(cfg, s);
    SameReplayMap(cfg, s.disk, Next(cfg, s, ClearLog).disk);
  }

  // A system that is up with an empty log: the home blocks on disk, what is stable and what is read agree.
  lemma {:induction false} UpIsStable(cfg: Config, s: State)
    requires Reachable(cfg, s) && Ready(cfg, s) && s.phase.Idle? && s.header.num == 0
    ensures CurrentMap(cfg, s) == StableMap(cfg, s.disk) == HomeMap(cfg, s.disk)
  {
    ReachableInv(cfg, s);
    FreshIsStable(cfg, s);
    assert forall b :: b in s.cache ==> !s.cache[b].pinned;
  }

  // The home blocks as they stand on the device.
  ghost function HomeMap(cfg: Config, d: Disk): map<nat, Block>
    requires ValidConfig(cfg) && |d| == cfg.numBlocks
  {
    map b | 0 <= b < cfg.numBlocks && IsHome(cfg, b) :: d[b]
  }

  // Nobody holds an entry of the header or the log block of one.
  predicate Untouched(cfg: Config, h: Header, held: set<nat>) {
    forall i :: 0 <= i < h.num && i < |h.nos| ==> h.nos[i] !in held && LogBlock(cfg, i) !in held
  }

  class Cache {
    const cfg: Config
    var disk: Disk              // the device
    var list: seq<Entry>        // the blocks from head.next to head.prev
    var numCached: nat
    var header: Header
    var runningOps: nat
    var checkpointing: bool
    ghost var ops: seq<nat>     // the budgets (rm) of the running operations
    ghost var phase: Phase
    ghost var history: seq<Disk> // the device after each write to it
    ghost var at: map<nat, nat> // when each block was last acquired
    ghost var clock: nat
    ghost var peak: nat         // the most blocks that were held or pinned when one was missing

    ghost function Mach(): State
      reads this
    {
      State(disk, Contents(list), header, ops, phase)
    }

    ghost predicate Valid()
      reads this
    {
      && Distinct(list) && numCached == |list| <= Most(peak) && Falling(Stamps(list, at), clock)
      && Ready(cfg, Mach()) && Reachable(cfg, Mach())
      && runningOps == |ops| && checkpointing == (phase.Logging? || phase.Homing?)
    }

    // find_cached_block
    method Find(b: nat) returns (k: int)
      ensures k == -1 <==> b !in Numbers(list)
      ensures k != -1 ==> 0 <= k < |list| && list[k].no == b
    {
      k := 0;
      while k < |list|
        invariant 0 <= k <= |list|
        invariant b in Numbers(list) <==> b in Numbers(list[k..])
      {
        if list[k].no == b {
          return;
        }
        assert list[k..][1..] == list[k + 1..];
        k := k + 1;
      }
      k := -1;
    }

    // evict_block: of all the blocks that may go, the victim is the one acquired longest ago.
    method Evict() returns (ghost victim: int)
      requires numCached == |list| && Falling(Stamps(list, at), clock)
      modifies this`list, this`numCached
      ensures numCached == |list| && Falling(Stamps(list, at), clock)
      ensures victim == -1 <==> old(numCached) < EVICTION_THRESHOLD || NoneEvictable(old(list))
      ensures if victim == -1 then list == old(list)
              else 0 <= victim < |old(list)| && list == Drop(old(list), victim) && IsVictim(old(list), victim)
                   && IsOldest(old(list), old(Stamps(list, at)), victim)
    {
      var p := |list| - 1;
      while p >= 0
        invariant -1 <= p < |list| && list == old(list) && numCached == old(numCached)
        invariant NoneEvictable(list[p + 1..])
      {
        if numCached < EVICTION_THRESHOLD {
          return -1;
        }
        if !list[p].acquired && !list[p].pinned {
          LastIsOldest(list, Stamps(list, at), clock, p);
          assert list[p] in list && Evictable(list[p]);
          FallingDrop(Stamps(list, at), p, clock);
          StampsDrop(list, at, p);
          numCached := numCached - 1;
          list := list[..p] + list[p + 1..];
          return p;
        }
        assert list[p..] == [list[p]] + list[p + 1..];
        p := p - 1;
      }
      assert list[p + 1..] == list;
      return -1;
    }

    // The hit path of cache_acquire, up to the lock of the block.
    method MoveToFront(k: nat)
      requires Valid() && k < |list|
      modifies this`list, this`at, this`clock
      ensures Valid() && Mach() == old(Mach()) && Held(list) == old(Held(list)) + {old(list)[k].no}
      ensures |list| > 0 && list[0] == old(list)[k].(acquired := true) && list[1..] == Drop(old(list), k)
    {
      FrontFacts(list, k);
      FallingDrop(Stamps(list, at), k, clock);
      StampsDrop(list, at, k);
      DropFacts(list, k);
      var e := list[k].(acquired := true);
      list := [e] + (list[..k] + list[k + 1..]);
      StampsCons(e, Drop(old(list), k), at, clock);
      at := at[e.no := clock];
      clock := clock + 1;
    }

    // Where the block is missing: one is evicted, if there are enough of them and one may go.
    method MakeRoom() returns (ghost victim: int)
      requires numCached == |list| <= Most(peak) && Falling(Stamps(list, at), clock)
      modifies this`list, this`numCached, this`peak
      ensures numCached == |list| < Most(peak) && Falling(Stamps(list, at), clock)
      ensures MadeRoom(old(list), old(Stamps(list, at)), list)
      ensures peak == if old(Busy(list)) > old(peak) then old(Busy(list)) else old(peak)
      ensures if victim == -1 then list == old(list)
              else 0 <= victim < |old(list)| && list == Drop(old(list), victim) && Evictable(old(list)[victim])
    {
      hide Busy, IsOldest, Falling;
      BusyAll(list);
      if Busy(list) > peak { peak := Busy(list); }
      victim := -1;
      if numCached >= EVICTION_THRESHOLD {
        victim := Evict();
      }
    }

    // The miss path: make room, then read the block from the device.
    method Load(b: nat)
      requires Valid() && b !in Numbers(list) && b < cfg.numBlocks && b != cfg.logStart
      modifies this`list, this`numCached, this`at, this`clock, this`peak
      ensures Valid() && SameForReaders(old(Mach()), Mach()) && Held(list) == old(Held(list)) + {b}
      ensures |list| > 0 && list[0] == Entry(b, true, false, disk[b])
      ensures MadeRoom(old(list), old(Stamps(list, at)), list[1..])
      ensures peak == if old(Busy(list)) > old(peak) then old(Busy(list)) else old(peak)
    {
      hide MadeRoom, Most, Contents, Numbers, Held, Distinct, Evictable;
      ghost var list0 := list;
      ghost var victim := MakeRoom();
      MissSteps(cfg, old(Mach()), list0, list, victim, b);
      ghost var rest := list;
      list := [Entry(b, true, false, disk[b])] + list;
      numCached := numCached + 1;
      StampsCons(list[0], rest, at, clock);
      at := at[b := clock];
      clock := clock + 1;
      assert list[1..] == rest;
    }

    // cache_acquire. Nobody, the caller included, holds the block yet: the flag acquired cannot count holders.
    method Acquire(b: nat)
      requires Valid() && b < cfg.numBlocks && b != cfg.logStart && b !in Held(list)
      modifies this`list, this`numCached, this`at, this`clock, this`peak
      ensures Valid() && SameForReaders(old(Mach()), Mach()) && Held(list) == old(Held(list)) + {b}
      ensures |list| > 0 && list[0].no == b && list[0].acquired && list[0].data == old(Current(Mach(), b))
      // The rest of the list keeps its order and its entries, but for the block itself, or, if that was missing, the
      // victim, if there is one.
      ensures if b in old(Numbers(list))
              then exists k :: 0 <= k < |old(list)| && old(list)[k].no == b && list[1..] == Drop(old(list), k)
              else MadeRoom(old(list), old(Stamps(list, at)), list[1..])
    {
      ContentsKeys(list);
      var k := Find(b);
      if k != -1 {
        EntryAt(list, k);
        MoveToFront(k);
      } else {
        Load(b);
      }
    }

    // Acquire, for a caller that only wants the contents.
    method Hold(b: nat) returns (data: Block)
      requires Valid() && b < cfg.numBlocks && b != cfg.logStart && b !in Held(list)
      modifies this`list, this`numCached, this`at, this`clock, this`peak
      ensures Valid() && SameForReaders(old(Mach()), Mach()) && Held(list) == old(Held(list)) + {b}
      ensures data == Current(Mach(), b) && CurrentMap(cfg, Mach()) == old(CurrentMap(cfg, Mach()))
    {
      Acquire(b);
      data := list[0].data;
      ReadersMap(cfg, old(Mach()), Mach());
    }

    // cache_release
    method Release(b: nat)
      requires Valid() && b in Held(list)
      modifies this`list
      ensures Valid() && Mach() == old(Mach()) && Held(list) == old(Held(list)) - {b}
    {
      ContentsKeys(list);
      var k := Find(b);
      UpdateFacts(list, k, list[k].(acquired := false));
      StampsUpdate(list, at, k, list[k].(acquired := false));
      EntryAt(list, k);
      list := list[k := list[k].(acquired := false)];
      assert Contents(list) == old(Contents(list));
    }

    // Two blocks at a time, as the loops that copy between the log and the home blocks do.
    method HoldTwo(from: nat, to: nat) returns (data: Block)
      requires Valid() && from < cfg.numBlocks && to < cfg.numBlocks && from !in Held(list) && to !in Held(list)
      requires from != to && from != cfg.logStart && to != cfg.logStart
      modifies this`list, this`numCached, this`at, this`clock, this`peak
      ensures Valid() && SameForReaders(old(Mach()), Mach()) && Held(list) == old(Held(list)) + {from, to}
      ensures data == Current(Mach(), from) && CurrentMap(cfg, Mach()) == old(CurrentMap(cfg, Mach()))
    {
      data := Hold(from);
      var _ := Hold(to);
    }

    method ReleaseTwo(from: nat, to: nat)
      requires Valid() && from in Held(list) && to in Held(list) && from != to
      modifies this`list
      ensures Valid() && Mach() == old(Mach()) && Held(list) == old(Held(list)) - {from, to}
    {
      Release(from);
      Release(to);
    }

    // One round of the waiting loop of cache_begin_op: admitted, or to be woken by the next post to op_sem.
    method TryBegin() returns (admitted: bool, rm: nat)
      requires Valid() && Up(Mach())
      modifies this`runningOps, this`ops
      ensures Valid() && admitted == Enabled(cfg, old(Mach()), Begin)
      ensures admitted <==> !checkpointing && header.num + (old(runningOps) + 1) * OP_MAX_NUM_BLOCKS <= LOG_MAX_SIZE
      ensures admitted ==> Mach() == Next(cfg, old(Mach()), Begin) && rm == OP_MAX_NUM_BLOCKS
      ensures !admitted ==> Mach() == old(Mach())
    {
      if checkpointing || header.num + (runningOps + 1) * OP_MAX_NUM_BLOCKS > LOG_MAX_SIZE {
        return false, 0;
      }
      ReachableStep(cfg, Mach(), Begin);
      runningOps := runningOps + 1;
      ops := ops + [OP_MAX_NUM_BLOCKS];
      return true, OP_MAX_NUM_BLOCKS;
    }

    // The search of cache_sync through the header.
    method FindLogged(b: nat) returns (found: bool)
      requires header.num <= |header.nos|
      ensures found == Logged(header, b)
    {
      var i := 0;
      while i < header.num
        invariant 0 <= i <= header.num
        invariant forall j :: 0 <= j < i ==> header.nos[j] != b
      {
        if b == header.nos[i] {
          return true;
        }
        i := i + 1;
      }
      return false;
    }

    // What cache_sync does to the block itself.
    method PinHeld(b: nat, data: Block)
      requires Distinct(list) && b in Held(list)
      modifies this`list
      ensures Distinct(list) && |list| == |old(list)| && Held(list) == old(Held(list))
      ensures Stamps(list, at) == old(Stamps(list, at))
      ensures Contents(list) == old(Contents(list))[b := Buf(data, true)]
    {
      ContentsKeys(list);
      var k := Find(b);
      EntryAt(list, k);
      UpdateFacts(list, k, Entry(b, list[k].acquired, true, data));
      StampsUpdate(list, at, k, Entry(b, list[k].acquired, true, data));
      list := list[k := Entry(b, list[k].acquired, true, data)];
    }

    // cache_sync for a running operation: data is what the holder of block b has made of it. The result is false where
    // the code panics.
    method Sync(ghost op: nat, rm: nat, b: nat, data: Block) returns (ok: bool, rm': nat)
      requires Valid() && op < |ops| && ops[op] == rm && b in Held(list) && IsHome(cfg, b)
      modifies this`list, this`header, this`ops
      ensures ok == Enabled(cfg, old(Mach()), Write(op, b, data))
      ensures ok <==> rm > 0 || old(header.num <= |header.nos| && Logged(header, b))
      ensures ok ==> Valid() && Mach() == Synced(old(Mach()), op, b, data) && ops[op] == rm'
      ensures ok ==> rm' == if old(header.num <= |header.nos| && Logged(header, b)) then rm else rm - 1
      ensures Held(list) == old(Held(list))
    {
      ghost var s := Mach();
      ContentsKeys(list);
      SyncStep(cfg, s, op, b, data);
      PinHeld(b, data);
      var found := FindLogged(b);
      ok, rm' := true, rm;
      if !found {
        if rm <= 0 || header.num >= LOG_MAX_SIZE {
          return false, rm;
        }
        header := Header(header.num + 1, header.nos[header.num := b]);
        rm' := rm - 1;
        ops := ops[op := rm'];
      }
      assert Mach() == Synced(s, op, b, data);
    }

    // A held block is written to the device with new contents, after which it may be unpinned.
    method PutHeld(b: nat, data: Block, unpin: bool)
      requires Distinct(list) && b in Held(list) && b < |disk|
      modifies this`list, this`disk, this`history
      ensures Distinct(list) && |list| == |old(list)| && Held(list) == old(Held(list))
      ensures Stamps(list, at) == old(Stamps(list, at))
      ensures Mach() == Through(old(Mach()), b, data, !unpin && old(Pinned(Mach(), b)), phase)
      ensures history == old(history) + [disk]
    {
      ContentsKeys(list);
      var k := Find(b);
      EntryAt(list, k);
      var e := Entry(b, list[k].acquired, !unpin && list[k].pinned, data);
      UpdateFacts(list, k, e);
      StampsUpdate(list, at, k, e);
      list := list[k := e];
      disk := disk[b := data];
      history := history + [disk];
    }

    // cache_sync outside any operation, where data is what the holder of block b has made of it. Where that is safe,
    // readers and crashes see the write in this one block and nothing else.
    method SyncDirect(b: nat, data: Block)
      requires Valid() && b in Held(list) && Enabled(cfg, Mach(), Direct(b, data))
      modifies this`list, this`disk, this`history
      ensures Mach() == Next(cfg, old(Mach()), Direct(b, data)) && history == old(history) + [disk]
      ensures Held(list) == old(Held(list))
      ensures old(Safe(cfg, Mach(), Direct(b, data))) ==>
                && Valid() && StableMap(cfg, disk) == old(StableMap(cfg, disk))[b := data]
                && CurrentMap(cfg, Mach()) == old(CurrentMap(cfg, Mach()))[b := data]
    {
      if Safe(cfg, Mach(), Direct(b, data)) { DirectStep(cfg, Mach(), b, data); }
      ContentsKeys(list);
      PutHeld(b, data, false);
    }

    // A write of a held block to the device (sync without an operation), after which it may be unpinned.
    method WriteThrough(b: nat, data: Block, unpin: bool, ghost next: Phase)
      requires Valid() && b in Held(list) && b < |disk|
      requires Reachable(cfg, Through(Mach(), b, data, !unpin && Pinned(Mach(), b), next))
      requires checkpointing == (next.Logging? || next.Homing?)
      modifies this`list, this`disk, this`phase, this`history
      ensures Valid() && Mach() == Through(old(Mach()), b, data, !unpin && old(Pinned(Mach(), b)), next)
              && Held(list) == old(Held(list))
      ensures history == old(history) + [disk]
    {
      PutHeld(b, data, unpin);
      phase := next;
    }

    // One round of the first loop of do_checkpoint: an entry goes to the log.
    method LogOne(idx: nat)
      requires Valid() && phase == Logging(idx) && idx < header.num && Untouched(cfg, header, Held(list))
      modifies this`list, this`numCached, this`at, this`clock, this`peak, this`disk, this`phase, this`history
      ensures Valid() && phase == Logging(idx + 1) && Held(list) == old(Held(list))
      ensures SameStable(cfg, old(disk), disk) && CurrentMap(cfg, Mach()) == old(CurrentMap(cfg, Mach()))
      ensures history == old(history) + [disk]
    {
      hide Falling, Stamps, Most, Distinct, Contents, Held, Numbers;
      EntryIsHome(cfg, Mach(), idx);
      var src := header.nos[idx];
      var to := cfg.logStart + 1 + idx;
      var data := HoldTwo(src, to);
      LogStep(cfg, Mach(), idx, src, to);
      WriteThrough(to, data, false, Logging(idx + 1));
      ReleaseTwo(src, to);
    }

    // One round of the second loop: an entry goes home and is no longer pinned.
    method HomeOne(i: nat)
      requires Valid() && phase == Homing(i) && i < header.num && Untouched(cfg, header, Held(list))
      modifies this`list, this`numCached, this`at, this`clock, this`peak, this`disk, this`phase, this`history
      ensures Valid() && phase == Homing(i + 1) && Held(list) == old(Held(list))
      ensures SameStable(cfg, old(disk), disk) && CurrentMap(cfg, Mach()) == old(CurrentMap(cfg, Mach()))
      ensures history == old(history) + [disk]
    {
      EntryIsHome(cfg, Mach(), i);
      var no := header.nos[i];
      var data := Hold(no);
      HomeStep(cfg, Mach(), i, no);
      WriteThrough(no, data, true, Homing(i + 1));
      Release(no);
    }

    // One round of the loop of init_bcache: an entry of the log goes home.
    method CopyOne(i: nat)
      requires Valid() && phase == Recovering(i) && i < header.num && Untouched(cfg, header, Held(list))
      modifies this`list, this`numCached, this`at, this`clock, this`peak, this`disk, this`phase, this`history
      ensures Valid() && phase == Recovering(i + 1) && Held(list) == old(Held(list))
      ensures SameStable(cfg, old(disk), disk) && history == old(history) + [disk]
    {
      EntryIsHome(cfg, Mach(), i);
      var from, no := cfg.logStart + 1 + i, header.nos[i];
      var data := HoldTwo(from, no);
      CopyStep(cfg, Mach(), i, from, no);
      WriteThrough(no, data, false, Recovering(i + 1));
      ReleaseTwo(from, no);
    }

    // The two writes of the header in do_checkpoint.
    method WriteHeader()
      requires Valid() && phase == Logging(header.num)
      modifies this`disk, this`phase, this`history
      ensures Valid() && phase == Homing(0) && history == old(history) + [disk]
      ensures CurrentMap(cfg, Mach()) == StableMap(cfg, disk) == old(CurrentMap(cfg, Mach()))
    {
      CommitStep(cfg, Mach());
      disk := disk[cfg.logStart := EncodeHeader(header)];
      history := history + [disk];
      phase := Homing(0);
    }

    method WriteClearedHeader()
      requires Valid() && phase == Homing(header.num)
      modifies this`disk, this`phase, this`history, this`header, this`checkpointing
      ensures Valid() && phase == Idle && header.num == 0 && history == old(history) + [disk]
      ensures SameStable(cfg, old(disk), disk) && CurrentMap(cfg, Mach()) == old(CurrentMap(cfg, Mach()))
    {
      ClearStep(cfg, Mach());
      header := Header(0, header.nos);
      disk := disk[cfg.logStart := EncodeHeader(header)];
      history := history + [disk];
      phase := Idle;
      checkpointing := false;
    }

    // The first loop of do_checkpoint.
    method LogAll()
      requires Valid() && phase == Logging(0) && Untouched(cfg, header, Held(list))
      modifies this`list, this`numCached, this`at, this`clock, this`peak, this`disk, this`phase, this`history
      ensures Valid() && phase == Logging(header.num) && Held(list) == old(Held(list))
      ensures StableMap(cfg, disk) == old(StableMap(cfg, disk))
              && CurrentMap(cfg, Mach()) == old(CurrentMap(cfg, Mach()))
      ensures Grown(old(history), history) && AllStable(cfg, history, |old(history)|, old(StableMap(cfg, disk)))
    {
      var idx := 0;
      while idx < header.num
        invariant 0 <= idx <= header.num && Valid() && phase == Logging(idx) && Held(list) == old(Held(list))
        invariant StableMap(cfg, disk) == old(StableMap(cfg, disk))
                  && CurrentMap(cfg, Mach()) == old(CurrentMap(cfg, Mach()))
        invariant Grown(old(history), history) && AllStable(cfg, history, |old(history)|, old(StableMap(cfg, disk)))
        decreases header.num - idx
      {
        LogOne(idx);
        idx := idx + 1;
      }
    }

    // The second loop of do_checkpoint.
    method HomeAll()
      requires Valid() && phase == Homing(0) && Untouched(cfg, header, Held(list))
      modifies this`list, this`numCached, this`at, this`clock, this`peak, this`disk, this`phase, this`history
      ensures Valid() && phase == Homing(header.num) && Held(list) == old(Held(list))
      ensures StableMap(cfg, disk) == old(StableMap(cfg, disk))
              && CurrentMap(cfg, Mach()) == old(CurrentMap(cfg, Mach()))
      ensures Grown(old(history), history) && AllStable(cfg, history, |old(history)|, old(StableMap(cfg, disk)))
    {
      var i := 0;
      while i < header.num
        invariant 0 <= i <= header.num && Valid() && phase == Homing(i) && Held(list) == old(Held(list))
        invariant StableMap(cfg, disk) == old(StableMap(cfg, disk))
                  && CurrentMap(cfg, Mach()) == old(CurrentMap(cfg, Mach()))
        invariant Grown(old(history), history) && AllStable(cfg, history, |old(history)|, old(StableMap(cfg, disk)))
        decreases header.num - i
      {
        HomeOne(i);
        i := i + 1;
      }
    }

    // The second loop and the header write that ends do_checkpoint.
    method HomeAndClear()
      requires Valid() && phase == Homing(0) && Untouched(cfg, header, Held(list))
      modifies this`list, this`numCached, this`at, this`clock, this`peak, this`disk, this`phase, this`history,
               this`header, this`checkpointing
      ensures Valid() && phase == Idle && header.num == 0 && Held(list) == old(Held(list))
      ensures Grown(old(history), history) && AllStable(cfg, history, |old(history)|, old(StableMap(cfg, disk)))
      ensures StableMap(cfg, disk) == old(StableMap(cfg, disk))
    {
      HomeAll();
      WriteClearedHeader();
    }

    // From the header write on.
    method CommitAll()
      requires Valid() && phase == Logging(header.num) && Untouched(cfg, header, Held(list))
      modifies this`list, this`numCached, this`at, this`clock, this`peak, this`disk, this`phase, this`history,
               this`header, this`checkpointing
      ensures Valid() && phase == Idle && header.num == 0 && Held(list) == old(Held(list))
      ensures Grown(old(history), history) && AllStable(cfg, history, |old(history)|, old(CurrentMap(cfg, Mach())))
      ensures StableMap(cfg, disk) == old(CurrentMap(cfg, Mach()))
    {
      WriteHeader();
      HomeAndClear();
    }

    // do_checkpoint. Whatever disk a crash finds, a recovery from it gives all home blocks as before the checkpoint
    // (the disks up to number commit of the history) or all as they were read when it started (the disks from there
    // on).
    method DoCheckpoint() returns (ghost commit: nat)
      requires Valid() && phase == Logging(0) && Untouched(cfg, header, Held(list))
      modifies this`list, this`numCached, this`at, this`clock, this`peak, this`disk, this`phase, this`history,
               this`header, this`checkpointing
      ensures Valid() && phase == Idle && header.num == 0 && Held(list) == old(Held(list))
      ensures |old(history)| <= commit <= |history| && Grown(old(history), history)
      ensures AllStable(cfg, history[..commit], |old(history)|, old(StableMap(cfg, disk)))
      ensures AllStable(cfg, history, commit, old(CurrentMap(cfg, Mach())))
      ensures HomeMap(cfg, disk) == CurrentMap(cfg, Mach()) == old(CurrentMap(cfg, Mach()))
    {
      LogAll();
      commit := |history|;
      CommitAll();
      UpIsStable(cfg, Mach());
    }

    // cache_end_op. The last operation finds none of the blocks it is about to copy held: its own syncs and releases
    // come before. Other blocks may be held by anybody.
    method EndOp(ghost op: nat)
      requires Valid() && op < |ops| && (|ops| == 1 ==> Untouched(cfg, header, Held(list)) && FitsLog(cfg, header))
      modifies this
      ensures Valid() && |ops| == |old(ops)| - 1 && CurrentMap(cfg, Mach()) == old(CurrentMap(cfg, Mach()))
      ensures Held(list) == old(Held(list))
      // Only the last operation to end waits for the device: then all that was synced is at home and the log is empty.
      ensures ops == [] ==> HomeMap(cfg, disk) == old(CurrentMap(cfg, Mach())) && header.num == 0 && phase == Idle
      ensures ops != [] ==> && disk == old(disk) && history == old(history) && header == old(header)
                            && ops == old(ops[..op] + ops[op + 1..])
    {
      EndStep(cfg, Mach(), op);
      assert !checkpointing; // else the code panics
      runningOps := runningOps - 1;
      ops := Without(ops, op);
      if runningOps == 0 {
        checkpointing := true;
        phase := Logging(0);
        ghost var commit := DoCheckpoint();
      } else {
        phase := Idle;
      }
    }

    // The loop of init_bcache over the entries of the log.
    method CopyAll()
      requires Valid() && phase == Recovering(0) && Untouched(cfg, header, Held(list))
      modifies this`list, this`numCached, this`at, this`clock, this`peak, this`disk, this`phase, this`history
      ensures Valid() && phase == Recovering(header.num) && Held(list) == old(Held(list))
      ensures StableMap(cfg, disk) == old(StableMap(cfg, disk))
      ensures Grown(old(history), history) && AllStable(cfg, history, |old(history)|, old(StableMap(cfg, disk)))
    {
      var i := 0;
      while i < header.num
        invariant 0 <= i <= header.num && Valid() && phase == Recovering(i) && Held(list) == old(Held(list))
        invariant StableMap(cfg, disk) == old(StableMap(cfg, disk))
        invariant Grown(old(history), history) && AllStable(cfg, history, |old(history)|, old(StableMap(cfg, disk)))
        decreases header.num - i
      {
        CopyOne(i);
        i := i + 1;
      }
    }

    // init_bcache up to the header.
    method Boot()
      requires IsBoot(cfg, State(disk, map[], header, [], Booting))
      modifies this`list, this`numCached, this`at, this`clock, this`peak, this`phase, this`history, this`header,
               this`runningOps, this`checkpointing, this`ops
      ensures Valid() && phase == (if header.num == 0 then Idle else Recovering(0)) && Held(list) == {} && ops == []
              && history == []
    {
      BootStep(cfg, State(disk, map[], header, [], Booting));
      list, numCached, runningOps, checkpointing := [], 0, 0, false;
      ops, history, at, clock, peak := [], [], map[], 0, 0;
      header := DecodeHeader(disk[cfg.logStart]);
      phase := if header.num == 0 then Idle else Recovering(0);
    }

    // The end of init_bcache.
    method ClearLogHeader()
      requires Valid() && phase == Recovering(header.num)
      modifies this`disk, this`phase, this`history, this`header
      ensures Valid() && phase == Idle && header.num == 0
      ensures SameStable(cfg, old(disk), disk) && history == old(history) + [disk]
    {
      RecoveredStep(cfg, Mach());
      header := Header(0, Zeros(LOG_MAX_SIZE));
      disk := disk[cfg.logStart := EncodeHeader(header)];
      history := history + [disk];
      phase := Idle;
    }

    // init_bcache on a device whose header is well formed: every disk on the way, and the last, is stable as the first,
    // so interrupting the recovery and starting it again, any number of times, changes nothing.
    method InitBcache()
      requires IsBoot(cfg, State(disk, map[], header, [], Booting))
      modifies this
      ensures Valid() && phase == Idle && header.num == 0 && Held(list) == {} && ops == []
      ensures AllStable(cfg, history, 0, old(StableMap(cfg, disk)))
      ensures HomeMap(cfg, disk) == CurrentMap(cfg, Mach()) == old(StableMap(cfg, disk))
    {
      Boot();
      if header.num != 0 {
        CopyAll();
        ClearLogHeader();
      }
      UpIsStable(cfg, Mach());
    }
  }
}
