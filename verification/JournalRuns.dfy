/** Whole runs of the journal: they refine an atomic store, and a checkpoint is all or nothing under any number of
    crashes, as long as every step is safe. */
module JournalRuns {

  import opened LogFormat
  import opened Journal
  import opened JournalProofs

  lemma {:induction false} InvStep(cfg: Config, s: State, a: Action)
    requires Inv(cfg, s) && Enabled(cfg, s, a) && Safe(cfg, s, a)
    ensures Inv(cfg, Next(cfg, s, a))
    ensures a.Direct? ==> ReplayBut(cfg, s.disk, Next(cfg, s, a).disk, a.b, a.data)
    ensures a != HeaderWrite && !a.Direct? ==> SameReplay(cfg, s.disk, Next(cfg, s, a).disk)
  {
    hide PhaseInv, Coherent, Replay, OnDisk, Budget;
    match a
    case Fetch(b) => InvFetch(cfg, s, b);
    case Evict(b) => InvEvict(cfg, s, b);
    case Begin => InvBegin(cfg, s);
    case Write(op, b, data) => InvWrite(cfg, s, op, b, data);
    case Direct(b, data) => InvDirect(cfg, s, b, data);
    case End(op) => InvEnd(cfg, s, op);
    case LogWrite => InvLogWrite(cfg, s);
    case HeaderWrite => InvHeaderWrite(cfg, s);
    case HomeWrite => InvHomeWrite(cfg, s);
    case ClearHeader => InvClearHeader(cfg, s);
    case Crash => InvCrash(cfg, s);
    case ReadHeader => InvReadHeader(cfg, s);
    case CopyBack => InvCopyBack(cfg, s);
    case ClearLog => InvClearLog(cfg, s);
  }

  // ---------- the atomic store ----------

  // A store of home blocks: stable survives a crash, current is what the running system reads.
  datatype Store = Store(stable: map<nat, Block>, current: map<nat, Block>, up: bool, running: nat)

  datatype Event =
    | Nothing | Put(b: nat, data: Block) | PutStable(b: nat, data: Block) | Open | Close | Commit | Down | Restart

  // A commit takes place only when no operation is under way, and what goes past the commits only to blocks that hold
  // nothing uncommitted.
  ghost predicate StoreStep(a: Store, e: Event, a': Store) {
    match e
    case Nothing => a' == a
    case Put(b, data) =>
      && a.up && a.running > 0 && b in a.current
      && a' == Store(a.stable, a.current[b := data], true, a.running)
    case PutStable(b, data) =>
      && a.up && b in a.current && b in a.stable && a.stable[b] == a.current[b]
      && a' == Store(a.stable[b := data], a.current[b := data], true, a.running)
    case Open => a.up && a' == Store(a.stable, a.current, true, a.running + 1)
    case Close => a.up && a.running > 0 && a' == Store(a.stable, a.current, true, a.running - 1)
    case Commit => a.up && a.running == 0 && a' == Store(a.current, a.current, true, 0)
    case Down => a' == Store(a.stable, a.stable, false, 0)
    case Restart => !a.up && a' == Store(a.stable, a.stable, true, 0)
  }

  // What each step of the journal is to the store: the header write is the commit.
  function EventOf(cfg: Config, s: State, a: Action): Event
    requires ValidConfig(cfg) && |s.disk| == cfg.numBlocks
  {
    match a
    case Write(_, b, data) => Put(b, data)
    case Direct(b, data) => PutStable(b, data)
    case Begin => Open
    case End(_) => Close
    case HeaderWrite => Commit
    case Crash => Down
    case ReadHeader => if OnDisk(cfg, s.disk).num == 0 then Restart else Nothing
    case ClearLog => Restart
    case _ => Nothing
  }

  ghost function StableMap(cfg: Config, d: Disk): map<nat, Block>
    requires ValidConfig(cfg) && |d| == cfg.numBlocks
  {
    map b | 0 <= b < cfg.numBlocks && IsHome(cfg, b) :: Replay(cfg, d, b)
  }

  ghost function CurrentMap(cfg: Config, s: State): map<nat, Block>
    requires ValidConfig(cfg) && |s.disk| == cfg.numBlocks
  {
    map b | 0 <= b < cfg.numBlocks && IsHome(cfg, b) :: Current(s, b)
  }

  ghost function Abs(cfg: Config, s: State): Store
    requires ValidConfig(cfg) && |s.disk| == cfg.numBlocks
  {
    Store(StableMap(cfg, s.disk), if Up(s) then CurrentMap(cfg, s) else StableMap(cfg, s.disk), Up(s), |s.ops|)
  }

  // Once the system is up with an empty log on disk and no pinned block, what it reads is what is stable.
  lemma {:induction false} FreshIsStable(cfg: Config, s: State)
    requires Inv(cfg, s) && s.phase.Idle? && s.header.num == 0
    ensures CurrentMap(cfg, s) == StableMap(cfg, s.disk)
  {
  }

  // The steps that only move blocks between cache, log and home.
  predicate Moves(a: Action) {
    a.Fetch? || a.Evict? || a.LogWrite? || a.HomeWrite? || a.ClearHeader?
  }

  lemma {:induction false} SameCurrentMap(cfg: Config, s: State, s': State)
    requires ValidConfig(cfg) && |s.disk| == cfg.numBlocks && |s'.disk| == cfg.numBlocks
    requires forall b :: IsHome(cfg, b) ==> Current(s', b) == Current(s, b)
    ensures CurrentMap(cfg, s') == CurrentMap(cfg, s)
  {
  }

  // A block is written through with its own contents, or it is no home block.
  lemma {:induction false} ThroughKeeps(cfg: Config, s: State, to: nat, data: Block, pinned: bool, phase: Phase)
    requires ValidConfig(cfg) && |s.disk| == cfg.numBlocks && Coherent(s.disk, s.cache) && to < |s.disk|
    requires IsHome(cfg, to) ==> data == Current(s, to)
    ensures CurrentMap(cfg, Through(s, to, data, pinned, phase)) == CurrentMap(cfg, s)
  {
    ThroughCurrent(s, to, data, pinned, phase);
    SameCurrentMap(cfg, s, Through(s, to, data, pinned, phase));
  }

  lemma {:induction false} LogWriteKeepsCurrent(cfg: Config, s: State)
    requires Inv(cfg, s) && Enabled(cfg, s, LogWrite)
    ensures CurrentMap(cfg, Next(cfg, s, LogWrite)) == CurrentMap(cfg, s)
  {
    var to := LogBlock(cfg, s.phase.i);
    ThroughKeeps(cfg, s, to, Current(s, s.header.nos[s.phase.i]), Pinned(s, to), Logging(s.phase.i + 1));
  }

  lemma {:induction false} HomeWriteKeepsCurrent(cfg: Config, s: State)
    requires Inv(cfg, s) && Enabled(cfg, s, HomeWrite)
    ensures CurrentMap(cfg, Next(cfg, s, HomeWrite)) == CurrentMap(cfg, s)
  {
    var to := s.header.nos[s.phase.i];
    ThroughKeeps(cfg, s, to, Current(s, to), false, Homing(s.phase.i + 1));
  }

  // They change nothing for a reader, and neither does the header write.
  lemma {:induction false} MovesKeepCurrent(cfg: Config, s: State, a: Action)
    requires Inv(cfg, s) && Enabled(cfg, s, a) && (Moves(a) || a.HeaderWrite?)
    ensures CurrentMap(cfg, Next(cfg, s, a)) == CurrentMap(cfg, s)
  {
    if a.LogWrite? {
      LogWriteKeepsCurrent(cfg, s);
    } else if a.HomeWrite? {
      HomeWriteKeepsCurrent(cfg, s);
    } else {
      SameCurrentMap(cfg, s, Next(cfg, s, a));
    }
  }

  lemma {:induction false} SameReplayMap(cfg: Config, d: Disk, d': Disk)
    requires ValidConfig(cfg) && |d| == cfg.numBlocks && |d'| == cfg.numBlocks && SameReplay(cfg, d, d')
    ensures StableMap(cfg, d') == StableMap(cfg, d)
  {
  }

  lemma {:induction false} RefinesCommit(cfg: Config, s: State)
    requires Inv(cfg, s) && Enabled(cfg, s, HeaderWrite)
    ensures StoreStep(Abs(cfg, s), Commit, Abs(cfg, Next(cfg, s, HeaderWrite)))
  {
    var s' := Next(cfg, s, HeaderWrite);
    InvHeaderWrite(cfg, s);
    MovesKeepCurrent(cfg, s, HeaderWrite);
    assert StableMap(cfg, s'.disk) == CurrentMap(cfg, s);
  }

  lemma {:induction false} RefinesQuiet(cfg: Config, s: State, a: Action)
    requires Inv(cfg, s) && Enabled(cfg, s, a) && Safe(cfg, s, a) && Moves(a)
    ensures Abs(cfg, Next(cfg, s, a)) == Abs(cfg, s)
  {
    InvStep(cfg, s, a);
    SameReplayMap(cfg, s.disk, Next(cfg, s, a).disk);
    MovesKeepCurrent(cfg, s, a);
  }

  lemma {:induction false} RefinesDirect(cfg: Config, s: State, b: nat, data: Block)
    requires Inv(cfg, s) && Enabled(cfg, s, Direct(b, data)) && Safe(cfg, s, Direct(b, data))
    ensures StoreStep(Abs(cfg, s), PutStable(b, data), Abs(cfg, Next(cfg, s, Direct(b, data))))
  {
    hide Replay, OnDisk, StableMap, CurrentMap, Copied, View;
    var s' := Next(cfg, s, Direct(b, data));
    InvDirect(cfg, s, b, data);
    ThroughPuts(cfg, s, b, data, Pinned(s, b), s.phase);
    StablePut(cfg, s.disk, s'.disk, b, data);
    MapsAt(cfg, s, b);
  }

  lemma {:induction false} ThroughPuts(cfg: Config, s: State, b: nat, data: Block, pinned: bool, phase: Phase)
    requires ValidConfig(cfg) && |s.disk| == cfg.numBlocks && IsHome(cfg, b)
    ensures CurrentMap(cfg, Through(s, b, data, pinned, phase)) == CurrentMap(cfg, s)[b := data]
  {
  }

  lemma {:induction false} StablePut(cfg: Config, d: Disk, d': Disk, b: nat, data: Block)
    requires ValidConfig(cfg) && |d| == cfg.numBlocks && |d'| == cfg.numBlocks && IsHome(cfg, b)
    requires ReplayBut(cfg, d, d', b, data)
    ensures StableMap(cfg, d') == StableMap(cfg, d)[b := data]
  {
    hide Replay;
  }

  lemma {:induction false} MapsAt(cfg: Config, s: State, b: nat)
    requires ValidConfig(cfg) && |s.disk| == cfg.numBlocks && IsHome(cfg, b)
    ensures b in StableMap(cfg, s.disk) && StableMap(cfg, s.disk)[b] == Replay(cfg, s.disk, b)
    ensures b in CurrentMap(cfg, s) && CurrentMap(cfg, s)[b] == Current(s, b)
  {
    hide Replay;
  }

  // Exactly the safe ones among the syncs outside an operation are such steps and leave the machine as it should be.
  lemma {:induction false} DirectExactly(cfg: Config, s: State, b: nat, data: Block)
    requires Inv(cfg, s) && Enabled(cfg, s, Direct(b, data))
    ensures var s' := Next(cfg, s, Direct(b, data));
            Inv(cfg, s') && StoreStep(Abs(cfg, s), PutStable(b, data), Abs(cfg, s')) <==> Safe(cfg, s, Direct(b, data))
  {
    var s' := Next(cfg, s, Direct(b, data));
    if Safe(cfg, s, Direct(b, data)) {
      RefinesDirect(cfg, s, b, data);
      InvDirect(cfg, s, b, data);
    } else if Current(s, b) != Replay(cfg, s.disk, b) {
      MapsAt(cfg, s, b);
    } else {
      NotFilled(cfg, s, b, data);
    }
  }

  // A copy in the log is then not what is read.
  lemma {:induction false} NotFilled(cfg: Config, s: State, b: nat, data: Block)
    requires Inv(cfg, s) && Enabled(cfg, s, Direct(b, data)) && Copied(s, b) && data != Current(s, b)
    ensures !Inv(cfg, Next(cfg, s, Direct(b, data)))
  {
    var j :| 0 <= j < Copies(s) && s.header.nos[j] == b;
    assert s.disk[LogBlock(cfg, j)] == Current(s, b);
    assert Next(cfg, s, Direct(b, data)).disk[LogBlock(cfg, j)] == Current(s, b);
  }

  lemma {:induction false} RefinesOps(cfg: Config, s: State, a: Action)
    requires Inv(cfg, s) && Enabled(cfg, s, a) && (a.Begin? || a.End? || a.Write?)
    ensures StoreStep(Abs(cfg, s), EventOf(cfg, s, a), Abs(cfg, Next(cfg, s, a)))
  {
    hide OnDisk, Replay, Budget;
    var s' := Next(cfg, s, a);
    if a.Write? {
      assert CurrentMap(cfg, s') == CurrentMap(cfg, s)[a.b := a.data];
    } else {
      assert CurrentMap(cfg, s') == CurrentMap(cfg, s);
    }
  }

  lemma {:induction false} RefinesCrash(cfg: Config, s: State)
    requires Inv(cfg, s)
    ensures StoreStep(Abs(cfg, s), Down, Abs(cfg, Next(cfg, s, Crash)))
  {
  }

  lemma {:induction false} RefinesReadHeader(cfg: Config, s: State)
    requires Inv(cfg, s) && Enabled(cfg, s, ReadHeader)
    ensures StoreStep(Abs(cfg, s), EventOf(cfg, s, ReadHeader), Abs(cfg, Next(cfg, s, ReadHeader)))
  {
    InvReadHeader(cfg, s);
    if OnDisk(cfg, s.disk).num == 0 { FreshIsStable(cfg, Next(cfg, s, ReadHeader)); }
  }

  lemma {:induction false} RefinesCopyBack(cfg: Config, s: State)
    requires Inv(cfg, s) && Enabled(cfg, s, CopyBack)
    ensures Abs(cfg, Next(cfg, s, CopyBack)) == Abs(cfg, s)
  {
    InvCopyBack(cfg, s);
    SameReplayMap(cfg, s.disk, Next(cfg, s, CopyBack).disk);
  }

  lemma {:induction false} RefinesClearLog(cfg: Config, s: State)
    requires Inv(cfg, s) && Enabled(cfg, s, ClearLog)
    ensures StoreStep(Abs(cfg, s), Restart, Abs(cfg, Next(cfg, s, ClearLog)))
  {
    InvClearLog(cfg, s);
    SameReplayMap(cfg, s.disk, Next(cfg, s, ClearLog).disk);
    FreshIsStable(cfg, Next(cfg, s, ClearLog));
  }

  // Every safe step of the journal is a step of the atomic store.
  lemma {:induction false} Refines(cfg: Config, s: State, a: Action)
    requires Inv(cfg, s) && Enabled(cfg, s, a) && Safe(cfg, s, a)
    ensures StoreStep(Abs(cfg, s), EventOf(cfg, s, a), Abs(cfg, Next(cfg, s, a)))
  {
    hide OnDisk, Replay, Budget, Coherent;
    if a.HeaderWrite? {
      RefinesCommit(cfg, s);
    } else if Moves(a) {
      RefinesQuiet(cfg, s, a);
    } else if a.Direct? {
      RefinesDirect(cfg, s, a.b, a.data);
    } else if a.Begin? || a.End? || a.Write? {
      RefinesOps(cfg, s, a);
    } else if a.Crash? {
      RefinesCrash(cfg, s);
    } else if a.ReadHeader? {
      RefinesReadHeader(cfg, s);
    } else if a.CopyBack? {
      RefinesCopyBack(cfg, s);
    } else {
      RefinesClearLog(cfg, s);
    }
  }

  // ---------- runs ----------

  predicate Ready(cfg: Config, s: State) {
    ValidConfig(cfg) && |s.disk| == cfg.numBlocks && |s.header.nos| == LOG_MAX_SIZE
  }

  // The actions acts, all of them safe if asked for, lead from s to s'.
  ghost predicate Runs(cfg: Config, safe: bool, s: State, acts: seq<Action>, s': State)
    decreases acts
  {
    && Ready(cfg, s)
    && if acts == [] then s' == s
       else && Enabled(cfg, s, acts[0]) && (safe ==> Safe(cfg, s, acts[0]))
            && Runs(cfg, safe, Next(cfg, s, acts[0]), acts[1..], s')
  }

  lemma {:induction false} RunStep(cfg: Config, safe: bool, s: State, a: Action, acts: seq<Action>, s': State)
    requires Ready(cfg, s) && Enabled(cfg, s, a) && (safe ==> Safe(cfg, s, a))
    requires Runs(cfg, safe, Next(cfg, s, a), acts, s')
    ensures Runs(cfg, safe, s, [a] + acts, s')
  {
    assert ([a] + acts)[1..] == acts;
  }

  lemma {:induction false} RunConcat(cfg: Config, safe: bool, s: State, a: seq<Action>, t: State, b: seq<Action>,
                                     u: State)
    requires Runs(cfg, safe, s, a, t) && Runs(cfg, safe, t, b, u)
    ensures Runs(cfg, safe, s, a + b, u)
    decreases a
  {
    hide Enabled, Safe, Next;
    if a == [] {
      assert a + b == b;
    } else {
      RunConcat(cfg, safe, Next(cfg, s, a[0]), a[1..], t, b, u);
      RunStep(cfg, safe, s, a[0], a[1..] + b, u);
      assert a + b == [a[0]] + (a[1..] + b);
    }
  }

  lemma {:induction false} RunReady(cfg: Config, safe: bool, s: State, acts: seq<Action>, s': State)
    requires Runs(cfg, safe, s, acts, s')
    ensures Ready(cfg, s')
    decreases acts
  {
    if acts != [] { RunReady(cfg, safe, Next(cfg, s, acts[0]), acts[1..], s'); }
  }

  lemma {:induction false} InvRun(cfg: Config, s: State, acts: seq<Action>, s': State)
    requires Inv(cfg, s) && Runs(cfg, true, s, acts, s')
    ensures Inv(cfg, s')
    decreases acts
  {
    if acts != [] {
      InvStep(cfg, s, acts[0]);
      InvRun(cfg, Next(cfg, s, acts[0]), acts[1..], s');
    }
  }

  // On a log with room for all that its header can hold, only a sync outside an operation can be unsafe.
  lemma {:induction false} RoomyRunsAreSafe(cfg: Config, s: State, acts: seq<Action>, s': State)
    requires RoomyConfig(cfg) && Inv(cfg, s) && Runs(cfg, false, s, acts, s')
    requires forall k :: 0 <= k < |acts| ==> !acts[k].Direct?
    ensures Runs(cfg, true, s, acts, s')
    decreases acts
  {
    if acts != [] {
      InvStep(cfg, s, acts[0]);
      RoomyRunsAreSafe(cfg, Next(cfg, s, acts[0]), acts[1..], s');
    }
  }

  // The events es lead the store from a to a'.
  ghost predicate StoreRuns(a: Store, es: seq<Event>, a': Store)
    decreases es
  {
    if es == [] then a' == a else exists b :: StoreStep(a, es[0], b) && StoreRuns(b, es[1..], a')
  }

  ghost function Events(cfg: Config, s: State, acts: seq<Action>, s': State): seq<Event>
    requires Runs(cfg, true, s, acts, s')
    decreases acts
  {
    if acts == [] then []
    else [EventOf(cfg, s, acts[0])] + Events(cfg, Next(cfg, s, acts[0]), acts[1..], s')
  }

  lemma {:induction false} StoreRunStep(a: Store, e: Event, b: Store, es: seq<Event>, c: Store)
    requires StoreStep(a, e, b) && StoreRuns(b, es, c)
    ensures StoreRuns(a, [e] + es, c)
  {
    assert ([e] + es)[1..] == es;
  }

  // Every run of the journal is a run of the atomic store.
  lemma {:induction false} RunRefines(cfg: Config, s: State, acts: seq<Action>, s': State)
    requires Inv(cfg, s) && Runs(cfg, true, s, acts, s')
    ensures Ready(cfg, s') && StoreRuns(Abs(cfg, s), Events(cfg, s, acts, s'), Abs(cfg, s'))
    decreases acts
  {
    if acts != [] {
      var s1 := Next(cfg, s, acts[0]);
      InvStep(cfg, s, acts[0]);
      Refines(cfg, s, acts[0]);
      RunRefines(cfg, s1, acts[1..], s');
      StoreRunStep(Abs(cfg, s), EventOf(cfg, s, acts[0]), Abs(cfg, s1), Events(cfg, s1, acts[1..], s'), Abs(cfg, s'));
    }
  }

  // Switched on with a well-formed header on disk whose entries are all in the log, then any safe actions.
  ghost predicate IsBoot(cfg: Config, s: State) {
    && Ready(cfg, s) && s.cache == map[] && s.ops == [] && s.phase == Booting
    && WfHeader(cfg, OnDisk(cfg, s.disk)) && FitsLog(cfg, OnDisk(cfg, s.disk))
  }

  lemma {:induction false} InvBoot(cfg: Config, s: State)
    requires IsBoot(cfg, s)
    ensures Inv(cfg, s)
  {
  }

  // A set of states that holds every boot and is kept by every safe step.
  ghost predicate KeptByAll(cfg: Config, p: iset<State>) {
    && (forall s :: IsBoot(cfg, s) ==> s in p)
    && (forall s, a :: s in p && Ready(cfg, s) && Enabled(cfg, s, a) && Safe(cfg, s, a) ==> Next(cfg, s, a) in p)
  }

  ghost predicate Reachable(cfg: Config, s: State) { forall p: iset<State> :: KeptByAll(cfg, p) ==> s in p }

  lemma {:induction false} ReachableInv(cfg: Config, s: State)
    requires Reachable(cfg, s)
    ensures Inv(cfg, s)
  {
    var p := iset t | Inv(cfg, t);
    forall t | IsBoot(cfg, t) ensures t in p { InvBoot(cfg, t); }
    forall t, a | t in p && Ready(cfg, t) && Enabled(cfg, t, a) && Safe(cfg, t, a) ensures Next(cfg, t, a) in p {
      InvStep(cfg, t, a);
    }
    assert KeptByAll(cfg, p);
  }

  lemma {:induction false} ReachableBoot(cfg: Config, s: State)
    requires IsBoot(cfg, s)
    ensures Reachable(cfg, s)
  {
  }

  lemma {:induction false} ReachableStep(cfg: Config, s: State, a: Action)
    requires Reachable(cfg, s) && Ready(cfg, s) && Enabled(cfg, s, a) && Safe(cfg, s, a)
    ensures Reachable(cfg, Next(cfg, s, a))
  {
  }

  lemma {:induction false} ReachableRun(cfg: Config, s: State, acts: seq<Action>, s': State)
    requires Reachable(cfg, s) && Runs(cfg, true, s, acts, s')
    ensures Reachable(cfg, s')
    decreases acts
  {
    if acts != [] {
      ReachableStep(cfg, s, acts[0]);
      ReachableRun(cfg, Next(cfg, s, acts[0]), acts[1..], s');
    }
  }

  ghost predicate RunsFromBoot(cfg: Config, s0: State, acts: seq<Action>, s: State) {
    IsBoot(cfg, s0) && Runs(cfg, true, s0, acts, s)
  }

  lemma {:induction false} RunsFromBootStep(cfg: Config, s0: State, acts: seq<Action>, s: State, a: Action)
    requires RunsFromBoot(cfg, s0, acts, s) && Ready(cfg, s) && Enabled(cfg, s, a) && Safe(cfg, s, a)
    ensures RunsFromBoot(cfg, s0, acts + ([a] + []), Next(cfg, s, a))
  {
    var s' := Next(cfg, s, a);
    assert Runs(cfg, true, s', [], s');
    RunStep(cfg, true, s, a, [], s');
    RunConcat(cfg, true, s0, acts, s, [a] + [], s');
  }

  ghost predicate HasRun(cfg: Config, s: State) { exists s0, acts :: RunsFromBoot(cfg, s0, acts, s) }

  lemma {:induction false} HasRunStep(cfg: Config, s: State, a: Action)
    requires HasRun(cfg, s) && Ready(cfg, s) && Enabled(cfg, s, a) && Safe(cfg, s, a)
    ensures HasRun(cfg, Next(cfg, s, a))
  {
    var s0, acts :| RunsFromBoot(cfg, s0, acts, s);
    RunsFromBootStep(cfg, s0, acts, s, a);
  }

  lemma {:induction false} HasRunKept(cfg: Config)
    ensures KeptByAll(cfg, iset t | HasRun(cfg, t))
  {
    var p := iset t | HasRun(cfg, t);
    forall t | IsBoot(cfg, t) ensures t in p { assert RunsFromBoot(cfg, t, [], t); }
    forall t, a | t in p && Ready(cfg, t) && Enabled(cfg, t, a) && Safe(cfg, t, a) ensures Next(cfg, t, a) in p {
      HasRunStep(cfg, t, a);
    }
  }

  // The reachable states are those at the end of a run of safe steps from a boot.
  lemma {:induction false} ReachableIsRun(cfg: Config, s: State)
    ensures Reachable(cfg, s) <==> HasRun(cfg, s)
  {
    if Reachable(cfg, s) { HasRunKept(cfg); }
    if HasRun(cfg, s) {
      var s0, acts :| RunsFromBoot(cfg, s0, acts, s);
      ReachableBoot(cfg, s0);
      ReachableRun(cfg, s0, acts, s);
    }
  }

  // In every reachable state the second half of the panic guard of cache_sync is false: an operation with budget left
  // finds room in the header; an operation runs only outside a checkpoint, so cache_end_op does not panic either;
  // and every logged block is in the cache, pinned, whatever was evicted.
  lemma {:induction false} NoPanic(cfg: Config, s: State, op: nat)
    requires Reachable(cfg, s) && op < |s.ops|
    ensures s.phase.Idle? && WfHeader(cfg, s.header) && s.header.num + Sum(s.ops) <= LOG_MAX_SIZE
    ensures s.ops[op] > 0 ==> s.header.num < LOG_MAX_SIZE
    ensures forall i :: 0 <= i < s.header.num ==> s.header.nos[i] in s.cache && s.cache[s.header.nos[i]].pinned
  {
    ReachableInv(cfg, s);
    SumAt(s.ops, op);
  }

  // ---------- a checkpoint is all or nothing ----------

  // What a checkpoint, its readers, syncs outside operations, crashes and recoveries do.
  predicate CheckpointAction(a: Action) { !a.Begin? && !a.Write? && !a.End? }

  predicate CheckpointActions(acts: seq<Action>) { forall k :: 0 <= k < |acts| ==> CheckpointAction(acts[k]) }

  // What was last written past the log.
  function Patch(acts: seq<Action>): map<nat, Block>
    decreases acts
  {
    if acts == [] then map[]
    else
      var n := |acts| - 1;
      if acts[n].Direct? then Patch(acts[..n])[acts[n].b := acts[n].data] else Patch(acts[..n])
  }

  lemma {:induction false} PatchSnoc(acts: seq<Action>, a: Action)
    ensures Patch(acts + [a]) == if a.Direct? then Patch(acts)[a.b := a.data] else Patch(acts)
  {
    assert (acts + [a])[..|acts|] == acts;
  }

  ghost predicate AllOrNothing(cfg: Config, s0: State, patch: map<nat, Block>, s: State)
    requires Ready(cfg, s0) && Ready(cfg, s)
  {
    var before, after := StableMap(cfg, s0.disk) + patch, CurrentMap(cfg, s0) + patch;
    var stable := StableMap(cfg, s.disk);
    match s.phase
    case Logging(_) => stable == before && CurrentMap(cfg, s) == after
    case Homing(_) => stable == after
    case Idle => && s.header.num == 0 && s.ops == [] && CurrentMap(cfg, s) == stable
                 && (stable == before || stable == after)
    case _ => stable == before || stable == after
  }

  lemma {:induction false} PatchMore(m: map<nat, Block>, patch: map<nat, Block>, b: nat, data: Block)
    ensures (m + patch)[b := data] == m + patch[b := data]
  {
  }

  lemma {:induction false} AllOrNothingStep(cfg: Config, s0: State, patch: map<nat, Block>, s: State, a: Action)
    requires Ready(cfg, s0) && Inv(cfg, s) && AllOrNothing(cfg, s0, patch, s)
    requires Enabled(cfg, s, a) && Safe(cfg, s, a) && CheckpointAction(a)
    ensures AllOrNothing(cfg, s0, if a.Direct? then patch[a.b := a.data] else patch, Next(cfg, s, a))
  {
    hide OnDisk, Replay, Coherent, Budget, StableMap, CurrentMap, PinnedFrom, LogFilled, WfHeader, Safe, ReplayBut;
    var s' := Next(cfg, s, a);
    InvStep(cfg, s, a);
    Refines(cfg, s, a);
    if a.Direct? {
      PatchMore(StableMap(cfg, s0.disk), patch, a.b, a.data);
      PatchMore(CurrentMap(cfg, s0), patch, a.b, a.data);
    }
    if s'.phase.Idle? && s'.header.num == 0 { FreshIsStable(cfg, s'); }
  }

  lemma {:induction false} AllOrNothingRun(cfg: Config, s0: State, done: seq<Action>, s: State, acts: seq<Action>,
                                           s': State)
    requires Ready(cfg, s0) && Inv(cfg, s) && AllOrNothing(cfg, s0, Patch(done), s)
    requires Runs(cfg, true, s, acts, s') && CheckpointActions(acts)
    ensures Ready(cfg, s') && Inv(cfg, s') && AllOrNothing(cfg, s0, Patch(done + acts), s')
    decreases acts
  {
    hide AllOrNothing, Enabled, Safe, Next, Patch;
    if acts == [] {
      assert done + acts == done;
    } else {
      InvStep(cfg, s, acts[0]);
      AllOrNothingStep(cfg, s0, Patch(done), s, acts[0]);
      PatchSnoc(done, acts[0]);
      AllOrNothingRun(cfg, s0, done + [acts[0]], Next(cfg, s, acts[0]), acts[1..], s');
      assert done + [acts[0]] + acts[1..] == done + acts;
    }
  }

  // But for the blocks written past the log, which read as written, s' reads all home blocks as s had them stable, or
  // all as s read them.
  ghost predicate Atomic(cfg: Config, s: State, patch: map<nat, Block>, s': State)
    requires Ready(cfg, s) && Ready(cfg, s')
  {
    && (forall b :: IsHome(cfg, b) && b in patch ==> Current(s', b) == patch[b])
    && (|| (forall b :: IsHome(cfg, b) && b !in patch ==> Current(s', b) == Replay(cfg, s.disk, b))
        || (forall b :: IsHome(cfg, b) && b !in patch ==> Current(s', b) == Current(s, b)))
  }

  lemma {:induction false} AtomicMaps(cfg: Config, s: State, patch: map<nat, Block>, s': State)
    requires Ready(cfg, s) && Ready(cfg, s')
    requires CurrentMap(cfg, s') == StableMap(cfg, s.disk) + patch || CurrentMap(cfg, s') == CurrentMap(cfg, s) + patch
    ensures Atomic(cfg, s, patch, s')
  {
    hide Replay, StableMap, CurrentMap, View;
    forall b | IsHome(cfg, b)
      ensures b in CurrentMap(cfg, s') && CurrentMap(cfg, s')[b] == Current(s', b)
      ensures b in StableMap(cfg, s.disk) && StableMap(cfg, s.disk)[b] == Replay(cfg, s.disk, b)
      ensures b in CurrentMap(cfg, s) && CurrentMap(cfg, s)[b] == Current(s, b)
    {
      MapsAt(cfg, s, b);
      MapsAt(cfg, s', b);
    }
  }

  // The last operation ends at s and the log has room for what is logged. The checkpoint that starts may be cut short
  // by a crash at any device write, and so may any number of recoveries after it; blocks may be written past the log.
  // Whenever the system is up and idle again, it reads either all home blocks as they were stable before or all as they
  // were read when the checkpoint started, but for those written past the log: these read as last written.
  lemma {:induction false} CrashAtomicity(cfg: Config, s: State, acts: seq<Action>, s': State)
    requires Inv(cfg, s) && s.phase.Idle? && |s.ops| == 1 && FitsLog(cfg, s.header)
    requires Runs(cfg, true, Next(cfg, s, End(0)), acts, s') && CheckpointActions(acts) && s'.phase.Idle?
    ensures Inv(cfg, s') && s'.header.num == 0 && Atomic(cfg, s, Patch(acts), s')
  {
    hide Replay, StableMap, CurrentMap, OnDisk, Coherent, Budget, Atomic;
    var s1 := Next(cfg, s, End(0));
    InvEnd(cfg, s, 0);
    SameCurrentMap(cfg, s, s1);
    assert StableMap(cfg, s1.disk) + map[] == StableMap(cfg, s1.disk);
    assert CurrentMap(cfg, s1) + map[] == CurrentMap(cfg, s1);
    AllOrNothingRun(cfg, s1, [], s1, acts, s');
    assert [] + acts == acts;
    AtomicMaps(cfg, s, Patch(acts), s');
  }

  // ---------- an unsafe sync outside any operation ----------

  // A block of a running operation survives a crash with its new contents though no operation ever ended.
  lemma {:induction false} DirectSyncLeaks(cfg: Config, d: Disk, h: Header, b: nat, data: Block)
    returns (s: State, s': State)
    requires ValidConfig(cfg) && |d| == cfg.numBlocks && OnDisk(cfg, d).num == 0 && |h.nos| == LOG_MAX_SIZE
    requires IsHome(cfg, b) && d[b] != data
    ensures Runs(cfg, true, State(d, map[], h, [], Booting), [ReadHeader, Fetch(b), Begin, Write(0, b, data)], s)
    ensures |s.disk| == |d| && Current(s, b) == data && Runs(cfg, false, s, [Direct(b, data), Crash, ReadHeader], s')
    ensures s'.phase.Idle? && b < |s'.disk| && Current(s', b) == data != d[b]
  {
    var s0 := State(d, map[], h, [], Booting);
    var s1 := Next(cfg, s0, ReadHeader);
    var s2 := Next(cfg, s1, Fetch(b));
    var s3 := Next(cfg, s2, Begin);
    s := Next(cfg, s3, Write(0, b, data));
    RunStep(cfg, true, s3, Write(0, b, data), [], s);
    RunStep(cfg, true, s2, Begin, [Write(0, b, data)], s);
    RunStep(cfg, true, s1, Fetch(b), [Begin, Write(0, b, data)], s);
    RunStep(cfg, true, s0, ReadHeader, [Fetch(b), Begin, Write(0, b, data)], s);
    s' := Leaked(cfg, s, b, data);
  }

  lemma {:induction false} Leaked(cfg: Config, s: State, b: nat, data: Block) returns (s': State)
    requires Ready(cfg, s) && Enabled(cfg, s, Direct(b, data)) && OnDisk(cfg, s.disk).num == 0
    ensures Runs(cfg, false, s, [Direct(b, data), Crash, ReadHeader], s')
    ensures s'.phase.Idle? && |s'.disk| == |s.disk| && Current(s', b) == data
  {
    var t := Next(cfg, s, Direct(b, data));
    var u := Next(cfg, t, Crash);
    s' := Next(cfg, u, ReadHeader);
    RunStep(cfg, false, u, ReadHeader, [], s');
    RunStep(cfg, false, t, Crash, [ReadHeader], s');
    RunStep(cfg, false, s, Direct(b, data), [Crash, ReadHeader], s');
  }
}
