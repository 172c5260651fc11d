/** When a checkpoint is all or nothing, exactly: when the log area has a block for every entry. The area mkfs lays out
    (src/user/mkfs/main.c) has LOG_MAX_SIZE blocks, header included, which is one less than the header can name entries
    for, and a run of the journal can get there. */
module JournalShortLog {

  import opened Basics
  import opened LogFormat
  import opened Journal
  import opened JournalProofs
  import opened JournalRuns

  predicate ShortConfig(cfg: Config) {
    ValidConfig(cfg) && cfg.logLen == LOG_MAX_SIZE && cfg.logStart + 2 * LOG_MAX_SIZE + 1 <= cfg.numBlocks
  }

  // The layout of mkfs: 1000 blocks, the log from block 2 on.
  const MKFS_LAYOUT := Config(2, LOG_MAX_SIZE, 1000)

  // The home block of the i-th entry.
  function Target(cfg: Config, i: nat): nat { cfg.logStart + LOG_MAX_SIZE + 1 + i }

  // n blocks are logged, all with contents data; nothing else is cached.
  ghost predicate Filled(cfg: Config, d: Disk, data: Block, s: State, n: nat) {
    && Ready(cfg, s) && ShortConfig(cfg) && s.disk == d && s.header.num == n <= LOG_MAX_SIZE
    && (forall i :: 0 <= i < n ==> s.header.nos[i] == Target(cfg, i) && s.header.nos[i] in s.cache
                                   && s.cache[s.header.nos[i]] == Buf(data, true))
    && (forall b :: b in s.cache ==> Target(cfg, 0) <= b < Target(cfg, n))
  }

  lemma {:induction false} FillOne(cfg: Config, d: Disk, data: Block, s: State, n: nat, op: nat)
    returns (acts: seq<Action>, s2: State)
    requires Filled(cfg, d, data, s, n) && s.phase.Idle? && op < |s.ops| && s.ops[op] >= 1 && n + 1 <= LOG_MAX_SIZE
    ensures Runs(cfg, true, s, acts, s2) && Filled(cfg, d, data, s2, n + 1) && s2.phase.Idle?
            && s2.ops == s.ops[op := s.ops[op] - 1]
  {
    var b := Target(cfg, n);
    var s1 := Next(cfg, s, Fetch(b));
    assert !Logged(s1.header, b);
    s2 := Next(cfg, s1, Write(op, b, data));
    acts := [Fetch(b), Write(op, b, data)];
    RunStep(cfg, true, s1, Write(op, b, data), [], s2);
    RunStep(cfg, true, s, Fetch(b), [Write(op, b, data)] + [], s2);
  }

  lemma {:induction false} Fill(cfg: Config, d: Disk, data: Block, s: State, n: nat, op: nat, k: nat)
    returns (acts: seq<Action>, s': State)
    requires Filled(cfg, d, data, s, n) && s.phase.Idle? && op < |s.ops| && s.ops[op] >= k && n + k <= LOG_MAX_SIZE
    ensures Runs(cfg, true, s, acts, s') && Filled(cfg, d, data, s', n + k) && s'.phase.Idle?
            && s'.ops == s.ops[op := s.ops[op] - k]
    decreases k
  {
    hide OnDisk, Enabled, Next, Safe;
    if k == 0 {
      acts, s' := [], s;
    } else {
      var one, s1 := FillOne(cfg, d, data, s, n, op);
      var rest;
      rest, s' := Fill(cfg, d, data, s1, n + 1, op, k - 1);
      RunConcat(cfg, true, s, one, s1, rest, s');
      acts := one + rest;
    }
  }

  lemma {:induction false} Open(cfg: Config, d: Disk, data: Block, s: State, n: nat, k: nat)
    returns (acts: seq<Action>, s': State)
    requires Filled(cfg, d, data, s, n) && s.phase.Idle? && n + (|s.ops| + k) * OP_MAX_NUM_BLOCKS <= LOG_MAX_SIZE
    ensures Runs(cfg, true, s, acts, s') && Filled(cfg, d, data, s', n) && s'.phase.Idle? && |s'.ops| == |s.ops| + k
    ensures forall i :: 0 <= i < |s'.ops| ==> s'.ops[i] == if i < |s.ops| then s.ops[i] else OP_MAX_NUM_BLOCKS
    decreases k
  {
    if k == 0 {
      acts, s' := [], s;
    } else {
      var s1 := Next(cfg, s, Begin);
      var rest;
      rest, s' := Open(cfg, d, data, s1, n, k - 1);
      RunStep(cfg, true, s, Begin, rest, s');
      acts := [Begin] + rest;
    }
  }

  // All operations from number j on log their whole budget.
  lemma {:induction false} FillAll(cfg: Config, d: Disk, data: Block, s: State, n: nat, j: nat)
    returns (acts: seq<Action>, s': State)
    requires Filled(cfg, d, data, s, n) && s.phase.Idle? && j <= |s.ops|
    requires n + (|s.ops| - j) * OP_MAX_NUM_BLOCKS == LOG_MAX_SIZE
    requires forall i :: j <= i < |s.ops| ==> s.ops[i] == OP_MAX_NUM_BLOCKS
    ensures Runs(cfg, true, s, acts, s') && Filled(cfg, d, data, s', LOG_MAX_SIZE) && s'.phase.Idle?
            && |s'.ops| == |s.ops|
    decreases |s.ops| - j
  {
    if j == |s.ops| {
      acts, s' := [], s;
    } else {
      var a, t := Fill(cfg, d, data, s, n, j, OP_MAX_NUM_BLOCKS);
      var b;
      b, s' := FillAll(cfg, d, data, t, n + OP_MAX_NUM_BLOCKS, j + 1);
      RunConcat(cfg, true, s, a, t, b, s');
      acts := a + b;
    }
  }

  // Six operations run at once and one before them logged three blocks: the log fills up completely.
  lemma {:induction false} LogFillsUp(cfg: Config, d: Disk, data: Block, s: State)
    returns (acts: seq<Action>, s': State)
    requires Filled(cfg, d, data, s, 0) && s.phase.Idle? && s.ops == []
    ensures Runs(cfg, true, s, acts, s') && Filled(cfg, d, data, s', LOG_MAX_SIZE) && s'.phase.Idle? && |s'.ops| == 6
  {
    var a1, s1 := Open(cfg, d, data, s, 0, 2);
    var a2, s2 := Fill(cfg, d, data, s1, 0, 0, 3);
    var s3 := Next(cfg, s2, End(0));
    RunStep(cfg, true, s2, End(0), [], s3);
    var a4, s4 := Open(cfg, d, data, s3, 3, 5);
    var a5, s5 := FillAll(cfg, d, data, s4, 3, 0);
    RunConcat(cfg, true, s, a1, s1, a2, s2);
    RunConcat(cfg, true, s, a1 + a2, s2, [End(0)] + [], s3);
    RunConcat(cfg, true, s, a1 + a2 + ([End(0)] + []), s3, a4, s4);
    RunConcat(cfg, true, s, a1 + a2 + ([End(0)] + []) + a4, s4, a5, s5);
    acts, s' := a1 + a2 + ([End(0)] + []) + a4 + a5, s5;
  }

  // All operations but one end.
  lemma {:induction false} CloseAllButOne(cfg: Config, d: Disk, data: Block, s: State, n: nat)
    returns (acts: seq<Action>, s': State)
    requires Filled(cfg, d, data, s, n) && s.phase.Idle? && |s.ops| > 0
    ensures Runs(cfg, true, s, acts, s') && Filled(cfg, d, data, s', n) && s'.phase.Idle? && |s'.ops| == 1
    decreases |s.ops|
  {
    if |s.ops| == 1 {
      acts, s' := [], s;
    } else {
      var s1 := Next(cfg, s, End(0));
      var rest;
      rest, s' := CloseAllButOne(cfg, d, data, s1, n);
      RunStep(cfg, true, s, End(0), rest, s');
      acts := [End(0)] + rest;
    }
  }

  // ---------- a log without room for every entry ----------

  // The home block right behind the log.
  function Behind(cfg: Config): nat { cfg.logStart + cfg.logLen }

  // i log writes into the checkpoint of s0: the home blocks and the header are as before, and so are the entries.
  ghost predicate InLog(cfg: Config, s0: State, s: State, i: nat) {
    && Ready(cfg, s0) && Ready(cfg, s) && s.phase == Logging(i) && s.header == s0.header
    && i < cfg.logLen <= s.header.num <= LOG_MAX_SIZE && Behind(cfg) < cfg.numBlocks
    && (forall b: nat :: IsHome(cfg, b) || b == cfg.logStart ==> s.disk[b] == s0.disk[b])
    && (forall k :: 0 <= k < s.header.num ==> IsHome(cfg, s.header.nos[k]))
    && (forall b: nat :: IsHome(cfg, b) ==> Current(s, b) == Current(s0, b))
  }

  lemma {:induction false} InLogStep(cfg: Config, s0: State, s: State, i: nat)
    requires InLog(cfg, s0, s, i) && i + 1 < cfg.logLen
    ensures Enabled(cfg, s, LogWrite) && InLog(cfg, s0, Next(cfg, s, LogWrite), i + 1)
  {
    assert IsHome(cfg, s.header.nos[i]);
  }

  // Only what the checkpoint itself, crashes and recoveries do.
  predicate Plain(acts: seq<Action>) {
    forall k :: 0 <= k < |acts| ==> CheckpointAction(acts[k]) && !acts[k].Direct?
  }

  lemma {:induction false} PlainPatch(acts: seq<Action>)
    requires Plain(acts)
    ensures CheckpointActions(acts) && Patch(acts) == map[]
    decreases acts
  {
    if acts != [] { PlainPatch(acts[..|acts| - 1]); }
  }

  lemma {:induction false} FillLog(cfg: Config, s0: State, s: State, i: nat) returns (acts: seq<Action>, s': State)
    requires InLog(cfg, s0, s, i)
    ensures Runs(cfg, true, s, acts, s') && InLog(cfg, s0, s', cfg.logLen - 1) && Plain(acts)
    decreases cfg.logLen - i
  {
    if i == cfg.logLen - 1 {
      acts, s' := [], s;
    } else {
      InLogStep(cfg, s0, s, i);
      var rest;
      rest, s' := FillLog(cfg, s0, Next(cfg, s, LogWrite), i + 1);
      RunStep(cfg, true, s, LogWrite, rest, s');
      acts := [LogWrite] + rest;
    }
  }

  // The next log write goes to the home block behind the log, and then the power fails.
  lemma {:induction false} PastLog(cfg: Config, s0: State, s: State) returns (s': State)
    requires cfg.logLen > 0 && InLog(cfg, s0, s, cfg.logLen - 1) && OnDisk(cfg, s0.disk).num == 0
    ensures Runs(cfg, true, s, [LogWrite, Crash, ReadHeader], s') && s'.phase.Idle? && Ready(cfg, s')
    ensures Current(s', Behind(cfg)) == Current(s0, s.header.nos[cfg.logLen - 1])
    ensures forall b: nat :: IsHome(cfg, b) && b != Behind(cfg) ==> Current(s', b) == s0.disk[b]
  {
    hide DecodeHeader;
    assert IsHome(cfg, s.header.nos[cfg.logLen - 1]);
    var t := Next(cfg, s, LogWrite);
    var u := Next(cfg, t, Crash);
    assert OnDisk(cfg, u.disk).num == 0;
    s' := Next(cfg, u, ReadHeader);
    RunStep(cfg, true, u, ReadHeader, [], s');
    RunStep(cfg, true, t, Crash, [ReadHeader], s');
    RunStep(cfg, true, s, LogWrite, [Crash, ReadHeader], s');
  }

  // Where the log has no room for the last entry, a crash in the checkpoint can leave that entry's contents in the home
  // block behind the log and every other home block as it was.
  lemma {:induction false} EntersLog(cfg: Config, s: State)
    requires Inv(cfg, s) && s.phase.Idle? && |s.ops| == 1 && !FitsLog(cfg, s.header) && Behind(cfg) < cfg.numBlocks
    ensures InLog(cfg, s, Next(cfg, s, End(0)), 0) && OnDisk(cfg, s.disk).num == 0 && cfg.logLen > 0
  {
    hide Coherent, PinnedFrom, OnDisk;
  }

  lemma {:induction false} Overrun(cfg: Config, s: State) returns (acts: seq<Action>, s': State)
    requires Inv(cfg, s) && s.phase.Idle? && |s.ops| == 1 && !FitsLog(cfg, s.header) && Behind(cfg) < cfg.numBlocks
    ensures Runs(cfg, true, Next(cfg, s, End(0)), acts, s') && Plain(acts)
    ensures s'.phase.Idle? && Ready(cfg, s')
    ensures Current(s', Behind(cfg)) == Current(s, s.header.nos[cfg.logLen - 1])
    ensures forall b: nat :: IsHome(cfg, b) && b != Behind(cfg) ==> Current(s', b) == s.disk[b]
  {
    hide InLog, FitsLog, OnDisk, Coherent, Budget, PhaseInv;
    var s1 := Next(cfg, s, End(0));
    EntersLog(cfg, s);
    var a, t := FillLog(cfg, s, s1, 0);
    s' := PastLog(cfg, s, t);
    RunConcat(cfg, true, s1, a, t, [LogWrite, Crash, ReadHeader], s');
    acts := a + [LogWrite, Crash, ReadHeader];
  }

  // Whatever the blocks hold, the checkpoint of a log with header h is all or nothing.
  ghost predicate AtomicFor(cfg: Config, h: Header) {
    forall s, acts, s' :: CheckpointRun(cfg, h, s, acts, s') ==> Atomic(cfg, s, Patch(acts), s')
  }

  ghost predicate CheckpointRun(cfg: Config, h: Header, s: State, acts: seq<Action>, s': State) {
    && Inv(cfg, s) && s.phase.Idle? && |s.ops| == 1 && s.header == h
    && Runs(cfg, true, Next(cfg, s, End(0)), acts, s') && CheckpointActions(acts) && s'.phase.Idle? && Ready(cfg, s')
  }

  function Filler(x: Byte): Block { seq(BLOCK_SIZE, _ => x) }

  function OldBlock(cfg: Config, b: int): Block {
    if b == cfg.logStart then EncodeHeader(Header(0, Zeros(LOG_MAX_SIZE))) else Filler(0)
  }

  // A state in which every logged block is new and everything else is old.
  ghost function AllNew(cfg: Config, h: Header): State
    requires ValidConfig(cfg) && h.num <= |h.nos|
  {
    var d := seq(cfg.numBlocks, b => OldBlock(cfg, b));
    State(d, map b | b in h.nos[..h.num] :: Buf(Filler(1), true), h, [0], Idle)
  }

  lemma {:induction false} AllNewInv(cfg: Config, h: Header)
    requires ValidConfig(cfg) && WfHeader(cfg, h)
    ensures Inv(cfg, AllNew(cfg, h))
  {
    var s := AllNew(cfg, h);
    HeaderRoundTrip(Header(0, Zeros(LOG_MAX_SIZE)));
    assert OnDisk(cfg, s.disk).num == 0;
    assert PinnedFrom(s.cache, h, 0) by {
      forall b | b in s.cache ensures exists i :: 0 <= i < h.num && h.nos[i] == b {
        var i :| 0 <= i < |h.nos[..h.num]| && h.nos[..h.num][i] == b;
      }
      assert forall i :: 0 <= i < h.num ==> h.nos[i] == h.nos[..h.num][i];
    }
  }

  lemma {:induction false} AllNewReads(cfg: Config, h: Header, b: nat)
    requires ValidConfig(cfg) && WfHeader(cfg, h) && IsHome(cfg, b)
    ensures var s := AllNew(cfg, h);
            && s.disk[b] == Filler(0) == Replay(cfg, s.disk, b)
            && (forall k :: 0 <= k < h.num && h.nos[k] == b ==> Current(s, b) == Filler(1))
  {
    var s := AllNew(cfg, h);
    HeaderRoundTrip(Header(0, Zeros(LOG_MAX_SIZE)));
    assert OnDisk(cfg, s.disk).num == 0;
    assert forall k :: 0 <= k < h.num ==> h.nos[k] == h.nos[..h.num][k];
  }

  // One block is not as before and another not as it was to be.
  lemma {:induction false} NotAtomic(cfg: Config, s: State, s': State, x: nat, e: nat)
    requires Ready(cfg, s) && Ready(cfg, s') && IsHome(cfg, x) && IsHome(cfg, e)
    requires Current(s', x) != Replay(cfg, s.disk, x) && Current(s', e) != Current(s, e)
    ensures !Atomic(cfg, s, map[], s')
  {
  }

  lemma {:induction false} AllNewBreaks(cfg: Config, h: Header)
    requires ValidConfig(cfg) && WfHeader(cfg, h) && 2 <= cfg.logLen && Behind(cfg) < cfg.numBlocks && !FitsLog(cfg, h)
    ensures !AtomicFor(cfg, h)
  {
    var s := AllNew(cfg, h);
    AllNewInv(cfg, h);
    var acts, s' := Overrun(cfg, s);
    PlainPatch(acts);
    assert CheckpointRun(cfg, h, s, acts, s');
    assert Filler(0)[0] != Filler(1)[0];
    var x := Behind(cfg);
    var last := h.nos[cfg.logLen - 1];
    AllNewReads(cfg, h, x);
    AllNewReads(cfg, h, last);
    // an entry other than x: it was to become new and has not
    var e := if h.nos[0] == x then h.nos[1] else h.nos[0];
    AllNewReads(cfg, h, e);
    NotAtomic(cfg, s, s', x, e);
  }

  // A checkpoint is all or nothing for all contents exactly when the log has a block for every entry of its header.
  // (With a block behind the log and at least one entry block in it.)
  lemma {:induction false} AtomicExactly(cfg: Config, h: Header)
    requires ValidConfig(cfg) && WfHeader(cfg, h) && 2 <= cfg.logLen && Behind(cfg) < cfg.numBlocks
    ensures AtomicFor(cfg, h) <==> FitsLog(cfg, h)
  {
    if FitsLog(cfg, h) {
      forall s, acts, s' | CheckpointRun(cfg, h, s, acts, s') ensures Atomic(cfg, s, Patch(acts), s') {
        CrashAtomicity(cfg, s, acts, s');
      }
    } else {
      AllNewBreaks(cfg, h);
    }
  }

  // A run of safe steps from any disk with an empty log to the end of the last operation, with a full header.
  lemma {:induction false} FullHeaderRun(cfg: Config, d: Disk, h: Header, data: Block)
    returns (acts: seq<Action>, s: State)
    requires ShortConfig(cfg) && |d| == cfg.numBlocks && OnDisk(cfg, d).num == 0 && |h.nos| == LOG_MAX_SIZE
    ensures Runs(cfg, true, State(d, map[], h, [], Booting), acts, s)
    ensures Filled(cfg, d, data, s, LOG_MAX_SIZE) && s.phase.Idle? && |s.ops| == 1
  {
    var s0 := State(d, map[], h, [], Booting);
    var s1 := Next(cfg, s0, ReadHeader);
    RunStep(cfg, true, s0, ReadHeader, [], s1);
    var a2, s2 := LogFillsUp(cfg, d, data, s1);
    var a3, s3 := CloseAllButOne(cfg, d, data, s2, LOG_MAX_SIZE);
    RunConcat(cfg, true, s0, [ReadHeader] + [], s1, a2, s2);
    RunConcat(cfg, true, s0, [ReadHeader] + [] + a2, s2, a3, s3);
    acts, s := [ReadHeader] + [] + a2 + a3, s3;
  }

  lemma {:induction false} FilledReads(cfg: Config, d: Disk, data: Block, s: State, i: nat)
    requires Filled(cfg, d, data, s, LOG_MAX_SIZE) && i < LOG_MAX_SIZE
    ensures IsHome(cfg, Target(cfg, i)) && Target(cfg, i) != Behind(cfg) && Current(s, Target(cfg, i)) == data
    ensures IsHome(cfg, Behind(cfg)) && Current(s, Behind(cfg)) == d[Behind(cfg)]
  {
    assert s.header.nos[i] == Target(cfg, i);
  }

  // On the log of mkfs the two come together: the checkpoint that then starts can leave contents in a block nobody
  // wrote while none of the blocks that were written has changed.
  lemma {:induction false} ShortLogBreaks(cfg: Config, d: Disk, h: Header, data: Block)
    returns (before: seq<Action>, s: State, acts: seq<Action>, s': State)
    requires ShortConfig(cfg) && |d| == cfg.numBlocks && OnDisk(cfg, d).num == 0 && |h.nos| == LOG_MAX_SIZE
    ensures Runs(cfg, true, State(d, map[], h, [], Booting), before, s)
    ensures s.phase.Idle? && |s.ops| == 1 && Ready(cfg, s) && s.header.num == cfg.logLen
    ensures Runs(cfg, true, Next(cfg, s, End(0)), acts, s') && CheckpointActions(acts)
    ensures s'.phase.Idle? && Ready(cfg, s')
    ensures IsHome(cfg, Behind(cfg)) && Current(s, Behind(cfg)) == d[Behind(cfg)] && Current(s', Behind(cfg)) == data
    ensures forall i: nat :: i < LOG_MAX_SIZE ==>
              IsHome(cfg, Target(cfg, i)) && Current(s, Target(cfg, i)) == data
              && Current(s', Target(cfg, i)) == d[Target(cfg, i)]
    ensures data != d[Behind(cfg)] && data != d[Target(cfg, 0)] ==> !Atomic(cfg, s, Patch(acts), s')
  {
    before, s := FullHeaderRun(cfg, d, h, data);
    InvBoot(cfg, State(d, map[], h, [], Booting));
    InvRun(cfg, State(d, map[], h, [], Booting), before, s);
    acts, s' := Overrun(cfg, s);
    PlainPatch(acts);
    FilledReads(cfg, d, data, s, cfg.logLen - 1);
    forall i: nat | i < LOG_MAX_SIZE
      ensures IsHome(cfg, Target(cfg, i)) && Current(s, Target(cfg, i)) == data && Target(cfg, i) != Behind(cfg)
    {
      FilledReads(cfg, d, data, s, i);
    }
    if data != d[Behind(cfg)] && data != d[Target(cfg, 0)] {
      NotAtomic(cfg, s, s', Behind(cfg), Target(cfg, 0));
    }
  }

  lemma {:induction false} MkfsLayoutIsShort()
    ensures ShortConfig(MKFS_LAYOUT) && !RoomyConfig(MKFS_LAYOUT)
  {
  }
}
