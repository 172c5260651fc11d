/** When cache_end_op returns, are the writes of the operation safe from a crash? src/fs/cache.h promises that it waits
    for the checkpoint; src/fs/cache.c lets only the last operation do so. */
module JournalDurable {

  import opened LogFormat
  import opened Journal
  import opened JournalProofs
  import opened JournalRuns

  // But for what has been written past the log, a crash at t would bring back what was read at s.
  ghost predicate Durable(cfg: Config, s: State, patch: map<nat, Block>, t: State)
    requires Ready(cfg, s) && Ready(cfg, t)
  {
    forall b :: IsHome(cfg, b) ==> Replay(cfg, t.disk, b) == if b in patch then patch[b] else Current(s, b)
  }

  // What happens until cache_end_op returns, if the machine stays up and no other operation does anything.
  predicate EndActions(acts: seq<Action>) {
    forall k :: 0 <= k < |acts| ==> CheckpointAction(acts[k]) && acts[k] != Crash
  }

  // ---------- an operation that is not the last ----------

  // Since s0 only blocks that held nothing uncommitted have been written, past the log.
  ghost predicate Quiet(cfg: Config, s0: State, patch: map<nat, Block>, s: State)
    requires Ready(cfg, s0) && Ready(cfg, s)
  {
    && StableMap(cfg, s.disk) == StableMap(cfg, s0.disk) + patch
    && CurrentMap(cfg, s) == CurrentMap(cfg, s0) + patch
    && forall b :: IsHome(cfg, b) && b in patch ==> Current(s0, b) == Replay(cfg, s0.disk, b)
  }

  lemma {:induction false} QuietStep(cfg: Config, s0: State, patch: map<nat, Block>, s: State, a: Action)
    requires Ready(cfg, s0) && Inv(cfg, s) && s.phase.Idle? && Quiet(cfg, s0, patch, s)
    requires Enabled(cfg, s, a) && Safe(cfg, s, a) && CheckpointAction(a) && a != Crash
    ensures Next(cfg, s, a).phase.Idle?
    ensures Quiet(cfg, s0, if a.Direct? then patch[a.b := a.data] else patch, Next(cfg, s, a))
  {
    hide OnDisk, Replay, Coherent, Budget, StableMap, CurrentMap, PinnedFrom, View;
    InvStep(cfg, s, a);
    Refines(cfg, s, a);
    if a.Direct? {
      PatchMore(StableMap(cfg, s0.disk), patch, a.b, a.data);
      PatchMore(CurrentMap(cfg, s0), patch, a.b, a.data);
      MapsAt(cfg, s, a.b);
      MapsAt(cfg, s0, a.b);
    }
  }

  lemma {:induction false} QuietRun(cfg: Config, s0: State, done: seq<Action>, s: State, acts: seq<Action>, t: State)
    requires Ready(cfg, s0) && Inv(cfg, s) && s.phase.Idle? && Quiet(cfg, s0, Patch(done), s)
    requires Runs(cfg, true, s, acts, t) && EndActions(acts)
    ensures Ready(cfg, t) && Quiet(cfg, s0, Patch(done + acts), t)
    decreases acts
  {
    hide Quiet, Enabled, Safe, Next, Patch;
    if acts == [] {
      assert done + acts == done;
    } else {
      InvStep(cfg, s, acts[0]);
      QuietStep(cfg, s0, Patch(done), s, acts[0]);
      PatchSnoc(done, acts[0]);
      QuietRun(cfg, s0, done + [acts[0]], Next(cfg, s, acts[0]), acts[1..], t);
      assert done + [acts[0]] + acts[1..] == done + acts;
    }
  }

  // Nothing that is logged differs from the disk.
  ghost predicate NothingToLose(cfg: Config, s: State)
    requires Ready(cfg, s) && WfHeader(cfg, s.header)
  {
    forall i :: 0 <= i < s.header.num ==> Current(s, s.header.nos[i]) == s.disk[s.header.nos[i]]
  }

  lemma {:induction false} StableExactly(cfg: Config, s: State)
    requires Inv(cfg, s) && s.phase.Idle?
    ensures (forall b :: IsHome(cfg, b) ==> Replay(cfg, s.disk, b) == Current(s, b)) <==> NothingToLose(cfg, s)
  {
    assert forall b: nat :: IsHome(cfg, b) ==> Replay(cfg, s.disk, b) == s.disk[b];
    if NothingToLose(cfg, s) {
      forall b: nat | IsHome(cfg, b) ensures Current(s, b) == s.disk[b] {
        assert Logged(s.header, b) || b !in s.cache || !s.cache[b].pinned;
      }
    }
  }

  lemma {:induction false} QuietIsDurable(cfg: Config, s: State, s1: State, patch: map<nat, Block>, t: State)
    requires Ready(cfg, s) && Ready(cfg, s1) && Ready(cfg, t) && Quiet(cfg, s1, patch, t)
    requires s1.disk == s.disk && s1.cache == s.cache
    ensures Durable(cfg, s, patch, t) <==> forall b :: IsHome(cfg, b) ==> Replay(cfg, s.disk, b) == Current(s, b)
  {
    hide Replay, StableMap, CurrentMap, View;
    forall b | IsHome(cfg, b)
      ensures Replay(cfg, t.disk, b) == if b in patch then patch[b] else Replay(cfg, s.disk, b)
    {
      MapsAt(cfg, t, b);
      MapsAt(cfg, s1, b);
    }
  }

  // ---------- the last operation ----------

  // Before the header write all is as read at s0, and after it that is stable.
  ghost predicate Committing(cfg: Config, s0: State, patch: map<nat, Block>, s: State)
    requires Ready(cfg, s0) && Ready(cfg, s)
  {
    match s.phase
    case Logging(_) => CurrentMap(cfg, s) == CurrentMap(cfg, s0) + patch
    case Homing(_) => StableMap(cfg, s.disk) == CurrentMap(cfg, s0) + patch
    case Idle => StableMap(cfg, s.disk) == CurrentMap(cfg, s0) + patch
    case _ => false
  }

  lemma {:induction false} CommittingStep(cfg: Config, s0: State, patch: map<nat, Block>, s: State, a: Action)
    requires Ready(cfg, s0) && Inv(cfg, s) && Committing(cfg, s0, patch, s)
    requires Enabled(cfg, s, a) && Safe(cfg, s, a) && CheckpointAction(a) && a != Crash
    ensures Committing(cfg, s0, if a.Direct? then patch[a.b := a.data] else patch, Next(cfg, s, a))
  {
    hide OnDisk, Replay, Coherent, Budget, StableMap, CurrentMap, PinnedFrom, LogFilled;
    InvStep(cfg, s, a);
    Refines(cfg, s, a);
    if a.Direct? { PatchMore(CurrentMap(cfg, s0), patch, a.b, a.data); }
  }

  lemma {:induction false} CommittingRun(cfg: Config, s0: State, done: seq<Action>, s: State, acts: seq<Action>,
                                         t: State)
    requires Ready(cfg, s0) && Inv(cfg, s) && Committing(cfg, s0, Patch(done), s)
    requires Runs(cfg, true, s, acts, t) && EndActions(acts)
    ensures Ready(cfg, t) && Committing(cfg, s0, Patch(done + acts), t)
    decreases acts
  {
    hide Committing, Enabled, Safe, Next, Patch;
    if acts == [] {
      assert done + acts == done;
    } else {
      InvStep(cfg, s, acts[0]);
      CommittingStep(cfg, s0, Patch(done), s, acts[0]);
      PatchSnoc(done, acts[0]);
      CommittingRun(cfg, s0, done + [acts[0]], Next(cfg, s, acts[0]), acts[1..], t);
      assert done + [acts[0]] + acts[1..] == done + acts;
    }
  }

  lemma {:induction false} StableIsDurable(cfg: Config, s: State, patch: map<nat, Block>, t: State)
    requires Ready(cfg, s) && Ready(cfg, t) && StableMap(cfg, t.disk) == CurrentMap(cfg, s) + patch
    ensures Durable(cfg, s, patch, t)
  {
    hide Replay, StableMap, CurrentMap, View;
    forall b | IsHome(cfg, b) ensures Replay(cfg, t.disk, b) == if b in patch then patch[b] else Current(s, b) {
      MapsAt(cfg, t, b);
      MapsAt(cfg, s, b);
    }
  }

  // ---------- both ----------

  // What was read when cache_end_op was called survives a crash from its return on exactly if the operation was the
  // last one under way, or no logged block differed from the disk anyway. (Blocks written past the log meanwhile have
  // what was written.)
  lemma {:induction false} DurableExactly(cfg: Config, s: State, op: nat, acts: seq<Action>, t: State)
    requires Inv(cfg, s) && s.phase.Idle? && op < |s.ops| && (|s.ops| == 1 ==> FitsLog(cfg, s.header))
    requires Runs(cfg, true, Next(cfg, s, End(op)), acts, t) && EndActions(acts) && t.phase.Idle?
    ensures Ready(cfg, t) && (Durable(cfg, s, Patch(acts), t) <==> |s.ops| == 1 || NothingToLose(cfg, s))
  {
    hide Replay, StableMap, CurrentMap, OnDisk, Coherent, Budget, Durable;
    var s1 := Next(cfg, s, End(op));
    InvStep(cfg, s, End(op));
    SameCurrentMap(cfg, s, s1);
    assert StableMap(cfg, s1.disk) + map[] == StableMap(cfg, s1.disk);
    assert CurrentMap(cfg, s1) + map[] == CurrentMap(cfg, s1);
    assert [] + acts == acts;
    if |s.ops| == 1 {
      CommittingRun(cfg, s1, [], s1, acts, t);
      StableIsDurable(cfg, s, Patch(acts), t);
    } else {
      QuietRun(cfg, s1, [], s1, acts, t);
      QuietIsDurable(cfg, s, s1, Patch(acts), t);
      StableExactly(cfg, s);
    }
  }

  // ---------- a write past the log ----------

  predicate LeavesAlone(b: nat, a: Action) { !(a.Write? && a.b == b) && !(a.Direct? && a.b == b) }

  // A recovery gives data in block b, and the running system reads it.
  ghost predicate Has(cfg: Config, s: State, b: nat, data: Block)
    requires Ready(cfg, s) && IsHome(cfg, b)
  {
    Replay(cfg, s.disk, b) == data && (Up(s) ==> Current(s, b) == data)
  }

  lemma {:induction false} HasStep(cfg: Config, s: State, b: nat, data: Block, a: Action)
    requires Inv(cfg, s) && IsHome(cfg, b) && Has(cfg, s, b, data)
    requires Enabled(cfg, s, a) && Safe(cfg, s, a) && LeavesAlone(b, a)
    ensures Has(cfg, Next(cfg, s, a), b, data)
  {
    hide OnDisk, Replay, Coherent, Budget, StableMap, CurrentMap, PhaseInv, View;
    var s' := Next(cfg, s, a);
    Refines(cfg, s, a);
    MapsAt(cfg, s, b);
    MapsAt(cfg, s', b);
  }

  lemma {:induction false} HasRunOn(cfg: Config, s: State, b: nat, data: Block, acts: seq<Action>, t: State)
    requires Inv(cfg, s) && IsHome(cfg, b) && Has(cfg, s, b, data)
    requires Runs(cfg, true, s, acts, t) && forall k :: 0 <= k < |acts| ==> LeavesAlone(b, acts[k])
    ensures Ready(cfg, t) && Has(cfg, t, b, data)
    decreases acts
  {
    hide Has, Enabled, Safe, Next;
    if acts != [] {
      InvStep(cfg, s, acts[0]);
      HasStep(cfg, s, b, data, acts[0]);
      HasRunOn(cfg, Next(cfg, s, acts[0]), b, data, acts[1..], t);
    }
  }

  // From then on, as long as nobody writes the block again, it reads as written, whatever crashes there are.
  ghost predicate Lasts(cfg: Config, s: State, b: nat, data: Block)
    requires Ready(cfg, s) && b < |s.disk|
  {
    forall acts, t :: LaterIn(cfg, s, b, acts, t) && Up(t) ==> Current(t, b) == data
  }

  ghost predicate LaterIn(cfg: Config, s: State, b: nat, acts: seq<Action>, t: State) {
    Runs(cfg, true, s, acts, t) && |t.disk| == |s.disk| && forall k :: 0 <= k < |acts| ==> LeavesAlone(b, acts[k])
  }

  // The rest of a recovery.
  lemma {:induction false} CopyRun(cfg: Config, s: State) returns (acts: seq<Action>, t: State)
    requires Inv(cfg, s) && s.phase.Recovering? && s.phase.i <= s.header.num
    ensures Runs(cfg, true, s, acts, t) && t.phase.Idle?
    ensures forall k :: 0 <= k < |acts| ==> acts[k] == CopyBack || acts[k] == ClearLog
    decreases s.header.num - s.phase.i
  {
    hide OnDisk, Coherent, Replay;
    if s.phase.i == s.header.num {
      t := Next(cfg, s, ClearLog);
      RunStep(cfg, true, s, ClearLog, [], t);
      acts := [ClearLog] + [];
    } else {
      var s1 := Next(cfg, s, CopyBack);
      InvCopyBack(cfg, s);
      var rest;
      rest, t := CopyRun(cfg, s1);
      RunStep(cfg, true, s, CopyBack, rest, t);
      acts := [CopyBack] + rest;
    }
  }

  // A crash, and a recovery that is not cut short.
  lemma {:induction false} RecoveryRun(cfg: Config, s: State) returns (acts: seq<Action>, t: State)
    requires Ready(cfg, s) && WfHeader(cfg, OnDisk(cfg, s.disk)) && FitsLog(cfg, OnDisk(cfg, s.disk))
    ensures Runs(cfg, true, s, [Crash] + acts, t) && t.phase.Idle? && Inv(cfg, Next(cfg, s, Crash))
    ensures Runs(cfg, true, Next(cfg, s, Crash), acts, t)
    ensures forall k :: 0 <= k < |acts| ==> acts[k] in {ReadHeader, CopyBack, ClearLog}
  {
    hide DecodeHeader;
    var c := Next(cfg, s, Crash);
    var s1 := Next(cfg, c, ReadHeader);
    InvReadHeader(cfg, c);
    var rest := [];
    t := s1;
    if s1.phase.Recovering? { rest, t := CopyRun(cfg, s1); }
    RunStep(cfg, true, c, ReadHeader, rest, t);
    acts := [ReadHeader] + rest;
    RunStep(cfg, true, s, Crash, acts, t);
  }

  // What the log holds for block b, however the machine came to be in this state.
  ghost predicate Held(cfg: Config, s: State, h: Header, j: nat, data: Block) {
    && Ready(cfg, s) && s.header == h && WfHeader(cfg, h) && FitsLog(cfg, h) && j < h.num
    && s.disk[LogBlock(cfg, j)] == data
  }

  // On to the header write.
  lemma {:induction false} LogOn(cfg: Config, s: State, j: nat, data: Block) returns (acts: seq<Action>, t: State)
    requires Held(cfg, s, s.header, j, data) && s.phase.Logging? && j < s.phase.i <= s.header.num
    ensures Runs(cfg, true, s, acts, t) && Held(cfg, t, s.header, j, data) && OnDisk(cfg, t.disk) == s.header
    ensures forall k :: 0 <= k < |acts| ==> acts[k] == LogWrite || acts[k] == HeaderWrite
    decreases s.header.num - s.phase.i
  {
    hide DecodeHeader;
    if s.phase.i == s.header.num {
      t := Next(cfg, s, HeaderWrite);
      HeaderOnDisk(cfg, s.disk, s.header);
      RunStep(cfg, true, s, HeaderWrite, [], t);
      acts := [HeaderWrite] + [];
    } else {
      var s1 := Next(cfg, s, LogWrite);
      var rest;
      rest, t := LogOn(cfg, s1, j, data);
      RunStep(cfg, true, s, LogWrite, rest, t);
      acts := [LogWrite] + rest;
    }
  }

  lemma {:induction false} CopyStays(cfg: Config, s: State, j: nat, b: nat, data: Block)
    requires Inv(cfg, s) && Enabled(cfg, s, Direct(b, data)) && j < Copies(s) && j < |s.header.nos|
    requires s.header.nos[j] == b
    ensures var s1 := Next(cfg, s, Direct(b, data));
            && s1.phase == s.phase && s1.header == s.header && Held(cfg, s1, s.header, j, Current(s, b))
            && (s.phase.Logging? || s.phase.Homing?) && (s.phase.Logging? ==> j < s.phase.i <= s.header.num)
            && (s.phase.Homing? ==> OnDisk(cfg, s1.disk) == s.header)
  {
    hide DecodeHeader, Coherent, PinnedFrom;
  }

  // The copy in the log comes back in place of the write.
  lemma {:induction false} Undone(cfg: Config, s: State, b: nat, data: Block) returns (acts: seq<Action>, t: State)
    requires Inv(cfg, s) && Enabled(cfg, s, Direct(b, data)) && Copied(s, b)
    ensures var s1 := Next(cfg, s, Direct(b, data));
            LaterIn(cfg, s1, b, acts, t) && t.phase.Idle? && Current(t, b) == Current(s, b)
  {
    hide OnDisk, Coherent, PhaseInv, View, Copies, Replay, Budget;
    var j :| 0 <= j < Copies(s) && j < |s.header.nos| && s.header.nos[j] == b;
    CopyStays(cfg, s, j, b, data);
    var s1 := Next(cfg, s, Direct(b, data));
    var x := Current(s, b);
    var first, u := [], s1;
    if s.phase.Logging? { first, u := LogOn(cfg, s1, j, x); }
    acts, t := Replayed(cfg, u, s.header, j, x);
    RunConcat(cfg, true, s1, first, u, acts, t);
    acts := first + acts;
  }

  lemma {:induction false} Replayed(cfg: Config, u: State, h: Header, j: nat, data: Block)
    returns (acts: seq<Action>, t: State)
    requires Held(cfg, u, h, j, data) && OnDisk(cfg, u.disk) == h
    ensures Runs(cfg, true, u, acts, t) && t.phase.Idle? && |t.disk| == |u.disk| && Current(t, h.nos[j]) == data
    ensures forall k :: 0 <= k < |acts| ==> LeavesAlone(h.nos[j], acts[k])
  {
    hide DecodeHeader;
    var rest;
    rest, t := RecoveryRun(cfg, u);
    var c := Next(cfg, u, Crash);
    ReplayAt(cfg, u.disk, j);
    HasRunOn(cfg, c, h.nos[j], data, rest, t);
    acts := [Crash] + rest;
  }

  // A block written past the log stays as written exactly if no copy of it is in the log, or the write changed nothing.
  lemma {:induction false} LastsExactly(cfg: Config, s: State, b: nat, data: Block)
    requires Inv(cfg, s) && Enabled(cfg, s, Direct(b, data))
    ensures Lasts(cfg, Next(cfg, s, Direct(b, data)), b, data) <==> data == Current(s, b) || !Copied(s, b)
  {
    hide OnDisk, Replay, Coherent, Budget, PhaseInv, Copied;
    var s1 := Next(cfg, s, Direct(b, data));
    if data == Current(s, b) || !Copied(s, b) {
      DirectHas(cfg, s, b, data);
      forall acts, t | LaterIn(cfg, s1, b, acts, t) && Up(t) ensures Current(t, b) == data {
        HasRunOn(cfg, s1, b, data, acts, t);
      }
    } else {
      var acts, t := Undone(cfg, s, b, data);
      assert LaterIn(cfg, s1, b, acts, t);
    }
  }

  lemma {:induction false} DirectHas(cfg: Config, s: State, b: nat, data: Block)
    requires Inv(cfg, s) && Enabled(cfg, s, Direct(b, data)) && (data == Current(s, b) || !Copied(s, b))
    ensures Inv(cfg, Next(cfg, s, Direct(b, data))) && Has(cfg, Next(cfg, s, Direct(b, data)), b, data)
  {
    DirectInv(cfg, s, b, data);
    DirectReplay(cfg, s, b, data);
    if s.phase.Homing? && Logged(s.header, b) {
      var i := IndexOf(s.header, b);
      assert Copied(s, b);
      ReadsStable(cfg, s, b);
    }
  }

  // Two operations under way, and block b read.
  lemma {:induction false} OneBegun(cfg: Config, d: Disk, h: Header, b: nat) returns (s: State)
    requires ValidConfig(cfg) && |d| == cfg.numBlocks && OnDisk(cfg, d).num == 0 && |h.nos| == LOG_MAX_SIZE
    requires IsHome(cfg, b)
    ensures Runs(cfg, true, State(d, map[], h, [], Booting), [ReadHeader, Fetch(b), Begin], s)
    ensures Ready(cfg, s) && s.disk == d && s.phase == Idle && s.header.num == 0 && b in s.cache
            && s.ops == [OP_MAX_NUM_BLOCKS]
  {
    var s0 := State(d, map[], h, [], Booting);
    var s1 := Next(cfg, s0, ReadHeader);
    var s2 := Next(cfg, s1, Fetch(b));
    s := Next(cfg, s2, Begin);
    RunStep(cfg, true, s2, Begin, [], s);
    RunStep(cfg, true, s1, Fetch(b), [Begin], s);
    RunStep(cfg, true, s0, ReadHeader, [Fetch(b), Begin], s);
  }

  lemma {:induction false} Lost(cfg: Config, s: State, b: nat) returns (s': State)
    requires Ready(cfg, s) && OnDisk(cfg, s.disk).num == 0 && b < |s.disk|
    ensures Runs(cfg, true, s, [Crash, ReadHeader], s')
    ensures s'.phase.Idle? && |s'.disk| == |s.disk| && Current(s', b) == s.disk[b]
  {
    var t := Next(cfg, s, Crash);
    s' := Next(cfg, t, ReadHeader);
    RunStep(cfg, true, t, ReadHeader, [], s');
    RunStep(cfg, true, s, Crash, [ReadHeader], s');
  }

  // Two operations are under way; the one that wrote ends first, and a crash then undoes its write.
  lemma {:induction false} EarlyEndIsLost(cfg: Config, d: Disk, h: Header, b: nat, data: Block)
    returns (s0: State, s: State, s': State)
    requires ValidConfig(cfg) && |d| == cfg.numBlocks && OnDisk(cfg, d).num == 0 && |h.nos| == LOG_MAX_SIZE
    requires IsHome(cfg, b)
    ensures Runs(cfg, true, State(d, map[], h, [], Booting), [ReadHeader, Fetch(b), Begin], s0)
    ensures Runs(cfg, true, s0, [Begin, Write(0, b, data), End(0)], s) && Runs(cfg, true, s, [Crash, ReadHeader], s')
    ensures |s.disk| == |s'.disk| == |d| && Current(s, b) == data && s'.phase.Idle? && Current(s', b) == d[b]
  {
    hide OnDisk;
    s0 := OneBegun(cfg, d, h, b);
    var s1 := Next(cfg, s0, Begin);
    var s2 := Next(cfg, s1, Write(0, b, data));
    s := Next(cfg, s2, End(0));
    RunStep(cfg, true, s2, End(0), [], s);
    RunStep(cfg, true, s1, Write(0, b, data), [End(0)], s);
    RunStep(cfg, true, s0, Begin, [Write(0, b, data), End(0)], s);
    s' := Lost(cfg, s, b);
  }

  // From there, the operation syncs a block and ends, and the checkpoint copies the block to the log.
  lemma {:induction false} OneCopied(cfg: Config, s0: State, b: nat, x: Block) returns (s: State)
    requires Ready(cfg, s0) && IsHome(cfg, b) && cfg.logLen >= 2
    requires s0.phase == Idle && s0.header.num == 0 && b in s0.cache && s0.ops == [OP_MAX_NUM_BLOCKS]
    ensures Runs(cfg, true, s0, [Write(0, b, x), End(0), LogWrite], s)
    ensures Ready(cfg, s) && b in s.cache && Up(s) && Copied(s, b) && Current(s, b) == x
  {
    var s1 := Next(cfg, s0, Write(0, b, x));
    var s2 := Next(cfg, s1, End(0));
    s := Next(cfg, s2, LogWrite);
    assert s.header.nos[0] == b;
    RunStep(cfg, true, s2, LogWrite, [], s);
    RunStep(cfg, true, s1, End(0), [LogWrite], s);
    RunStep(cfg, true, s0, Write(0, b, x), [End(0), LogWrite], s);
  }

  lemma {:induction false} EmptyLogBoots(cfg: Config, d: Disk, h: Header)
    requires ValidConfig(cfg) && |d| == cfg.numBlocks && OnDisk(cfg, d).num == 0 && |h.nos| == LOG_MAX_SIZE
    requires cfg.logLen >= 2
    ensures Inv(cfg, State(d, map[], h, [], Booting))
  {
    InvBoot(cfg, State(d, map[], h, [], Booting));
  }

  // Whatever is then written to it past the log, a crash brings back what the operation wrote.
  lemma {:induction false} MappedWriteIsLost(cfg: Config, d: Disk, h: Header, b: nat, x: Block, y: Block)
    returns (s0: State, s: State, acts: seq<Action>, t: State)
    requires ValidConfig(cfg) && |d| == cfg.numBlocks && OnDisk(cfg, d).num == 0 && |h.nos| == LOG_MAX_SIZE
    requires IsHome(cfg, b) && cfg.logLen >= 2
    ensures Runs(cfg, true, State(d, map[], h, [], Booting), [ReadHeader, Fetch(b), Begin], s0)
    ensures Runs(cfg, true, s0, [Write(0, b, x), End(0), LogWrite], s)
    ensures Ready(cfg, s) && Enabled(cfg, s, Direct(b, y))
    ensures LaterIn(cfg, Next(cfg, s, Direct(b, y)), b, acts, t) && b < |t.disk| && t.phase.Idle? && Current(t, b) == x
  {
    hide OnDisk, Replay, Runs, Inv, Copied;
    s0 := OneBegun(cfg, d, h, b);
    s := OneCopied(cfg, s0, b, x);
    EmptyLogBoots(cfg, d, h);
    InvRun(cfg, State(d, map[], h, [], Booting), [ReadHeader, Fetch(b), Begin], s0);
    InvRun(cfg, s0, [Write(0, b, x), End(0), LogWrite], s);
    acts, t := Undone(cfg, s, b, y);
  }
}
