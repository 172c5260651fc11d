/** Runs of the file system on the journal. Operations begin and end in any interleaving and any number of them share a
    checkpoint, but only one at a time is part way through its syncs. */
module FsCrash {

  import opened Basics
  import opened LogFormat
  import opened Journal
  import opened JournalProofs
  import opened JournalRuns
  import opened FsLayout
  import opened FsFile
  import opened FsJournal
  import T = FsTrace
  import I = InodeLayer
  import R = FsRoom
  import S = InodeSteps

  // Operation op has done the first n of the syncs tr, on what was shown as from.
  datatype Busy = Busy(op: nat, from: Disk, tr: seq<T.Put>, n: nat)

  // The machine, the operation that is part way through its syncs, what was shown whenever none was, and the syncs of
  // all operations that ever started.
  datatype Sys = Sys(s: State, busy: Option<Busy>, marks: seq<Disk>, started: set<seq<T.Put>>)

  datatype Move =
    | Do(a: Action)                        // a step of the journal that changes no contents
    | Start(op: nat, tr: seq<T.Put>)       // a running operation is about to sync tr
    | SyncNext
    | Finish

  // An operation takes a consistent file system to a consistent one.
  ghost predicate Legal(l: Layout, d: Disk, tr: seq<T.Put>) {
    InArea(l, tr) && FsInv(l, T.Applied(d, tr))
  }

  ghost predicate MayDo(cfg: Config, q: Sys, a: Action)
    requires Ready(cfg, q.s)
  {
    && Enabled(cfg, q.s, a) && Safe(cfg, q.s, a) && !a.Write?
    && (a.Direct? ==> a.b < |q.s.disk| && a.data == Current(q.s, a.b))
    && (a.End? && q.busy.Some? ==> a.op != q.busy.value.op)
  }

  ghost predicate MoveEnabled(cfg: Config, l: Layout, q: Sys, m: Move)
    requires Ready(cfg, q.s)
  {
    match m
    case Do(a) => MayDo(cfg, q, a)
    case Start(op, tr) => q.busy.None? && q.s.phase.Idle? && op < |q.s.ops| && Legal(l, Shown(cfg, q.s), tr)
    case SyncNext =>
      && q.busy.Some? && q.busy.value.n < |q.busy.value.tr|
      && var p := q.busy.value.tr[q.busy.value.n]; Enabled(cfg, q.s, Write(q.busy.value.op, p.b, p.data))
    case Finish => q.busy.Some? && q.busy.value.n == |q.busy.value.tr|
  }

  // The operations behind one that ends move up.
  function Moved(busy: Option<Busy>, a: Action): Option<Busy> {
    if a.Crash? then None
    else if a.End? && busy.Some? && a.op < busy.value.op then Some(busy.value.(op := busy.value.op - 1))
    else busy
  }

  ghost function Moves(cfg: Config, l: Layout, q: Sys, m: Move): Sys
    requires Ready(cfg, q.s) && MoveEnabled(cfg, l, q, m)
  {
    match m
    case Do(a) => Sys(Next(cfg, q.s, a), Moved(q.busy, a), q.marks, q.started)
    case Start(op, tr) => Sys(q.s, Some(Busy(op, Shown(cfg, q.s), tr, 0)), q.marks, q.started + {tr})
    case SyncNext =>
      var busy := q.busy.value;
      var p := busy.tr[busy.n];
      Sys(Next(cfg, q.s, Write(busy.op, p.b, p.data)), Some(busy.(n := busy.n + 1)), q.marks, q.started)
    case Finish => Sys(q.s, None, q.marks + [Shown(cfg, q.s)], q.started)
  }

  // ---- the invariant

  // Every mark is consistent, and all but the first have come from an earlier one by the syncs of one operation.
  ghost predicate MarksInv(l: Layout, marks: seq<Disk>, started: set<seq<T.Put>>) {
    && |marks| > 0 && (forall k :: 0 <= k < |marks| ==> FsInv(l, marks[k]))
    && forall k :: 0 < k < |marks| ==> Made(marks, started, k)
  }

  ghost predicate Made(marks: seq<Disk>, started: set<seq<T.Put>>, k: nat)
    requires k < |marks|
  {
    exists i: nat, tr :: i < k && tr in started && MadeFrom(marks, k, i, tr)
  }

  ghost predicate MadeFrom(marks: seq<Disk>, k: nat, i: nat, tr: seq<T.Put>)
    requires i < |marks| && k < |marks|
  {
    marks[k] == T.Applied(marks[i], tr)
  }

  // What the running system shows: a mark, or a mark with the first syncs of one operation.
  ghost predicate ShownInv(cfg: Config, l: Layout, q: Sys)
    requires Ready(cfg, q.s)
  {
    if q.busy.None? then Up(q.s) ==> Shown(cfg, q.s) in q.marks
    else
      var busy := q.busy.value;
      && busy.op < |q.s.ops| && busy.n <= |busy.tr| && busy.from in q.marks && busy.tr in q.started
      && Legal(l, busy.from, busy.tr)
      && Shown(cfg, q.s) == T.Applied(busy.from, busy.tr[..busy.n])
  }

  ghost predicate SysInv(cfg: Config, l: Layout, q: Sys) {
    && Matches(cfg, l) && Inv(cfg, q.s) && MarksInv(l, q.marks, q.started) && ShownInv(cfg, l, q)
    && Recovered(cfg, q.s) in q.marks
  }

  // An operation is under way only between checkpoints.
  lemma {:induction false} OpsIdle(cfg: Config, s: State)
    requires Inv(cfg, s) && s.ops != []
    ensures s.phase.Idle?
  {
  }

  // What such a step does to what is shown and what would be recovered.
  lemma {:induction false} DoShows(cfg: Config, s: State, a: Action)
    requires Inv(cfg, s) && Enabled(cfg, s, a) && Safe(cfg, s, a) && !a.Write?
    requires a.Direct? ==> a.b < |s.disk| && a.data == Current(s, a.b)
    ensures var s' := Next(cfg, s, a);
            && (Up(s) && Up(s') ==> Shown(cfg, s') == Shown(cfg, s))
            && (!Up(s) && Up(s') ==> Shown(cfg, s') == Recovered(cfg, s))
            && Recovered(cfg, s') == (if a.HeaderWrite? then Shown(cfg, s) else Recovered(cfg, s))
            && (a.HeaderWrite? ==> Up(s) && s.ops == [])
            && (a.Crash? ==> !Up(s')) && (Up(s) && !a.Crash? ==> Up(s'))
  {
    hide OnDisk, Replay, Coherent, Budget, StableMap, CurrentMap, DiskOf, PinnedFrom, LogFilled, CopiedBack, View;
    Refines(cfg, s, a);
    if a.Direct? {
      MapsAt(cfg, s, a.b);
      assert CurrentMap(cfg, s)[a.b := a.data] == CurrentMap(cfg, s);
      assert StableMap(cfg, s.disk)[a.b := a.data] == StableMap(cfg, s.disk);
    }
  }

  lemma {:induction false} DoInv(cfg: Config, l: Layout, q: Sys, a: Action)
    requires SysInv(cfg, l, q) && MayDo(cfg, q, a)
    ensures SysInv(cfg, l, Moves(cfg, l, q, Do(a)))
  {
    hide Replay, Coherent, Budget, Shown, Recovered, MarksInv, PinnedFrom, LogFilled, CopiedBack, Legal, OnDisk;
    InvStep(cfg, q.s, a);
    DoShows(cfg, q.s, a);
    if q.busy.Some? { OpsIdle(cfg, q.s); }
  }

  lemma {:induction false} SyncInv(cfg: Config, l: Layout, q: Sys)
    requires SysInv(cfg, l, q) && MoveEnabled(cfg, l, q, SyncNext)
    ensures SysInv(cfg, l, Moves(cfg, l, q, SyncNext))
  {
    hide OnDisk, Replay, Coherent, Budget, StableMap, CurrentMap, DiskOf, PinnedFrom, LogFilled, MarksInv, PhaseInv;
    var busy := q.busy.value;
    var p := busy.tr[busy.n];
    var a := Write(busy.op, p.b, p.data);
    InvStep(cfg, q.s, a);
    RefinesOps(cfg, q.s, a);
    DiskOfPut(cfg, CurrentMap(cfg, q.s), p.b, p.data);
    assert busy.tr[..busy.n + 1][..busy.n] == busy.tr[..busy.n];
  }

  lemma {:induction false} MadeStill(marks: seq<Disk>, d: Disk, started: set<seq<T.Put>>, more: set<seq<T.Put>>, k: nat)
    requires k < |marks| && started <= more && Made(marks, started, k)
    ensures Made(marks + [d], more, k) && Made(marks, more, k)
  {
    var i: nat, tr :| i < k && tr in started && MadeFrom(marks, k, i, tr);
    assert MadeFrom(marks + [d], k, i, tr);
  }

  lemma {:induction false} StartInv(cfg: Config, l: Layout, q: Sys, op: nat, tr: seq<T.Put>)
    requires SysInv(cfg, l, q) && MoveEnabled(cfg, l, q, Start(op, tr))
    ensures SysInv(cfg, l, Moves(cfg, l, q, Start(op, tr)))
  {
    hide OnDisk, Replay, Coherent, Budget, PinnedFrom, LogFilled, PhaseInv, Shown, Recovered, FsInv;
    assert tr[..0] == [];
    forall k | 0 < k < |q.marks| ensures Made(q.marks, q.started + {tr}, k) {
      MadeStill(q.marks, q.marks[0], q.started, q.started + {tr}, k);
    }
  }

  lemma {:induction false} FinishInv(cfg: Config, l: Layout, q: Sys)
    requires SysInv(cfg, l, q) && MoveEnabled(cfg, l, q, Finish)
    ensures SysInv(cfg, l, Moves(cfg, l, q, Finish))
  {
    hide OnDisk, Replay, Coherent, Budget, PinnedFrom, LogFilled, PhaseInv, Shown, Recovered, FsInv;
    var busy, marks := q.busy.value, q.marks;
    var now := Shown(cfg, q.s);
    assert busy.tr[..busy.n] == busy.tr;
    var marks' := marks + [now];
    var i :| 0 <= i < |marks| && marks[i] == busy.from;
    assert MadeFrom(marks', |marks|, i, busy.tr);
    forall k | 0 < k < |marks'| ensures Made(marks', q.started, k) {
      if k < |marks| { MadeStill(marks, now, q.started, q.started, k); }
    }
    assert marks'[|marks|] == now;
  }

  lemma {:induction false} MoveInv(cfg: Config, l: Layout, q: Sys, m: Move)
    requires SysInv(cfg, l, q) && MoveEnabled(cfg, l, q, m)
    ensures SysInv(cfg, l, Moves(cfg, l, q, m))
  {
    match m
    case Do(a) => DoInv(cfg, l, q, a);
    case Start(op, tr) => StartInv(cfg, l, q, op, tr);
    case SyncNext => SyncInv(cfg, l, q);
    case Finish => FinishInv(cfg, l, q);
  }

  // ---- runs

  ghost predicate SysRuns(cfg: Config, l: Layout, q: Sys, ms: seq<Move>, q': Sys)
    decreases ms
  {
    && Ready(cfg, q.s)
    && if ms == [] then q' == q
       else MoveEnabled(cfg, l, q, ms[0]) && SysRuns(cfg, l, Moves(cfg, l, q, ms[0]), ms[1..], q')
  }

  // Switched on with a file system on the disk that is consistent once the log is replayed.
  ghost predicate SysBoot(cfg: Config, l: Layout, q: Sys) {
    && Matches(cfg, l) && IsBoot(cfg, q.s) && q.busy.None? && q.marks == [Recovered(cfg, q.s)]
    && FsInv(l, Recovered(cfg, q.s))
  }

  lemma {:induction false} SysRunInv(cfg: Config, l: Layout, q: Sys, ms: seq<Move>, q': Sys)
    requires SysInv(cfg, l, q) && SysRuns(cfg, l, q, ms, q')
    ensures SysInv(cfg, l, q')
    decreases ms
  {
    hide SysInv, MoveEnabled, Moves;
    if ms != [] {
      MoveInv(cfg, l, q, ms[0]);
      SysRunInv(cfg, l, Moves(cfg, l, q, ms[0]), ms[1..], q');
    }
  }

  // Over every run, with any number of operations, checkpoints, crashes and interrupted recoveries: what a recovery
  // would show is a consistent file system, and one that was shown when no operation was part way; so is what the
  // running system shows whenever none is. Each of these but the first has come from an earlier one by one operation.
  lemma {:induction false} FileSystemSurvives(cfg: Config, l: Layout, q: Sys, ms: seq<Move>, q': Sys)
    requires SysBoot(cfg, l, q) && SysRuns(cfg, l, q, ms, q')
    ensures Ready(cfg, q'.s) && FsInv(l, Recovered(cfg, q'.s)) && Recovered(cfg, q'.s) in q'.marks
    ensures Up(q'.s) && q'.busy.None? ==> FsInv(l, Shown(cfg, q'.s)) && Shown(cfg, q'.s) in q'.marks
    ensures q'.marks != [] && forall k :: 0 < k < |q'.marks| ==> Made(q'.marks, q'.started, k)
  {
    hide OnDisk, Replay, Coherent, Budget, PhaseInv, FsInv, Shown, Recovered;
    InvBoot(cfg, q.s);
    SysRunInv(cfg, l, q, ms, q');
    var i :| 0 <= i < |q'.marks| && q'.marks[i] == Recovered(cfg, q'.s);
    if Up(q'.s) && q'.busy.None? {
      var j :| 0 <= j < |q'.marks| && q'.marks[j] == Shown(cfg, q'.s);
    }
  }

  // ---- the operations of the inode layer

  lemma {:induction false} BlockListed(tr: seq<T.Put>, k: nat)
    requires k < |tr|
    ensures tr[k].b in T.Blocks(tr)
    decreases |tr|
  {
    if k < |tr| - 1 { BlockListed(tr[..|tr| - 1], k); }
  }

  // Syncs that make a consistent file system and fit the budget are a legal operation, and a run of the journal.
  lemma {:induction false} Journaled(cfg: Config, l: Layout, s: State, d: Disk, log: set<nat>, tr: seq<T.Put>)
    returns (acts: seq<Action>, t: State)
    requires Matches(cfg, l) && Inv(cfg, s) && Enabled(cfg, s, Begin)
    requires T.AllLogged(Shown(cfg, s), {}, [], d, log, tr) && FsInv(l, d)
    requires |log| <= OP_MAX_NUM_BLOCKS && forall b :: b in log ==> l.inodeStart <= b < l.numBlocks
    ensures Legal(l, Shown(cfg, s), tr) && Runs(cfg, true, s, acts, t) && Inv(cfg, t) && SyncsOf(|s.ops|, acts) == tr
    ensures Enabled(cfg, t, End(|s.ops|)) && Shown(cfg, t) == d
  {
    hide OnDisk, Replay, Coherent, Budget, PhaseInv, FsInv, Shown;
    assert tr[0..] == tr;
    forall k | 0 <= k < |tr| ensures l.inodeStart <= tr[k].b < l.numBlocks { BlockListed(tr, k); }
    acts, t := OperationRuns(cfg, l, s, tr);
  }

  // A piece of file_write: wherever an operation may begin, its syncs are a run of the journal from there, and legal.
  method ChunkJournaled(cfg: Config, op: I.InodeOp, off: nat, piece: seq<Byte>, ghost c: seq<Byte>, ghost s: State)
    returns (ok: bool, ghost acts: seq<Action>, ghost t: State)
    requires Matches(cfg, op.l) && Inv(cfg, s) && Enabled(cfg, s, Begin) && Shown(cfg, s) == op.disk
    requires op.AtRest(c) && |piece| <= I.CHUNK && off < U64
    modifies op
    ensures ok ==> && Legal(op.l, Shown(cfg, s), op.syncs) && Runs(cfg, true, s, acts, t) && Inv(cfg, t)
                   && SyncsOf(|s.ops|, acts) == op.syncs && Enabled(cfg, t, End(|s.ops|)) && Shown(cfg, t) == op.disk
                   && off <= |c| && op.AtRest(S.Overlay(c, off, piece))
  {
    hide OnDisk, Replay, Coherent, Budget, PhaseInv, FsInv, Shown, R.HasRoom;
    ok := op.WriteChunk(off, piece, c, 0);
    acts, t := [], s;
    if ok { acts, t := Journaled(cfg, op.l, s, op.disk, op.logged, op.syncs); }
  }

  // inode_clear as an operation of its own, on a disk whose bitmap fits the budget.
  method ClearJournaled(cfg: Config, op: I.InodeOp, ghost s: State) returns (ghost acts: seq<Action>, ghost t: State)
    requires Matches(cfg, op.l) && Inv(cfg, s) && Enabled(cfg, s, Begin) && Shown(cfg, s) == op.disk
    requires op.ino < op.l.numInodes && FsInv(op.l, op.disk) && WfInode(op.l, op.disk, op.entry)
    requires Refs(op.disk, op.entry) == RefsAt(op.l, op.disk, op.ino) && op.logged == {} && op.syncs == []
    requires 1 + op.l.dataStart - op.l.bitmapStart <= OP_MAX_NUM_BLOCKS
    modifies op
    ensures Legal(op.l, Shown(cfg, s), op.syncs) && Runs(cfg, true, s, acts, t) && Inv(cfg, t)
    ensures SyncsOf(|s.ops|, acts) == op.syncs && Enabled(cfg, t, End(|s.ops|)) && Shown(cfg, t) == op.disk
    ensures WfInode(op.l, op.disk, op.entry) && Content(op.disk, op.entry) == []
  {
    hide OnDisk, Replay, Coherent, Budget, PhaseInv, FsInv, Shown, Content, Refs;
    var ok, rm := op.Clear(OP_MAX_NUM_BLOCKS);
    assert op.logged - {} == op.logged;
    acts, t := Journaled(cfg, op.l, s, op.disk, op.logged, op.syncs);
  }
}
