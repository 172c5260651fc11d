/** The file system on top of the journal: an operation on an inode, as a sequence of syncs, is an operation of the
    journal, and whatever crashes there are, the file system comes back as it was between two operations. */
module FsJournal {

  import opened Basics
  import opened LogFormat
  import opened Journal
  import opened JournalProofs
  import opened JournalRuns
  import opened FsLayout
  import opened FsFile
  import T = FsTrace

  // The log lies in front of the blocks of the file system.
  predicate Matches(cfg: Config, l: Layout) {
    ValidConfig(cfg) && ValidLayout(l) && cfg.numBlocks == l.numBlocks && cfg.logStart + cfg.logLen <= l.inodeStart
  }

  // ---- what the journal shows of the disk

  function BlockOf(m: map<nat, Block>, b: nat): Block { if b in m then m[b] else ZeroBlock() }

  function DiskOf(cfg: Config, m: map<nat, Block>): (d: Disk)
    ensures |d| == cfg.numBlocks && forall b: nat :: b < |d| ==> d[b] == BlockOf(m, b)
  {
    seq(cfg.numBlocks, b requires 0 <= b => BlockOf(m, b))
  }

  // What readers see of the home blocks, ...
  ghost function Shown(cfg: Config, s: State): (d: Disk)
    requires ValidConfig(cfg) && |s.disk| == cfg.numBlocks
    ensures |d| == cfg.numBlocks
  {
    DiskOf(cfg, CurrentMap(cfg, s))
  }

  // ... and what they would see after a crash and a recovery.
  ghost function Recovered(cfg: Config, s: State): (d: Disk)
    requires ValidConfig(cfg) && |s.disk| == cfg.numBlocks
    ensures |d| == cfg.numBlocks
  {
    DiskOf(cfg, StableMap(cfg, s.disk))
  }

  lemma {:induction false} DiskOfPut(cfg: Config, m: map<nat, Block>, b: nat, data: Block)
    requires b < cfg.numBlocks
    ensures DiskOf(cfg, m[b := data]) == DiskOf(cfg, m)[b := data]
  {
  }

  // ---- an operation is a run of the journal

  // The syncs go to the blocks of the file system.
  predicate InArea(l: Layout, tr: seq<T.Put>) {
    forall k :: 0 <= k < |tr| ==> l.inodeStart <= tr[k].b < l.numBlocks
  }

  // What the actions sync for operation op, in order.
  function SyncsOf(op: nat, acts: seq<Action>): seq<T.Put>
    decreases acts
  {
    if acts == [] then []
    else
      var n := |acts| - 1;
      SyncsOf(op, acts[..n])
      + if acts[n].Write? && acts[n].op == op then [T.Put(acts[n].b, acts[n].data)] else []
  }

  lemma {:induction false} SyncsOfSnoc(op: nat, acts: seq<Action>, a: Action)
    ensures SyncsOf(op, acts + [a])
         == SyncsOf(op, acts) + if a.Write? && a.op == op then [T.Put(a.b, a.data)] else []
  {
    assert (acts + [a])[..|acts|] == acts;
  }

  lemma {:induction false} RunSnoc(cfg: Config, s: State, acts: seq<Action>, t: State, a: Action)
    requires Runs(cfg, true, s, acts, t) && Ready(cfg, t) && Enabled(cfg, t, a) && Safe(cfg, t, a)
    ensures Runs(cfg, true, s, acts + [a], Next(cfg, t, a))
  {
    hide Enabled, Safe, Next;
    var u := Next(cfg, t, a);
    RunStep(cfg, true, t, a, [], u);
    assert [a] + [] == [a];
    RunConcat(cfg, true, s, acts, t, [a], u);
  }

  // Part way through operation op of s: the syncs tr are done, and each new block has cost one of the budget.
  ghost predicate Under(cfg: Config, s: State, acts: seq<Action>, t: State, op: nat, tr: seq<T.Put>) {
    && Ready(cfg, s) && Runs(cfg, true, s, acts, t) && Inv(cfg, t) && t.phase.Idle?
    && op == |s.ops| && |t.ops| == op + 1
    && SyncsOf(op, acts) == tr && Shown(cfg, t) == T.Applied(Shown(cfg, s), tr)
    && (forall b :: b in T.Blocks(tr) ==> Logged(t.header, b))
    && t.ops[op] + |T.Blocks(tr)| >= OP_MAX_NUM_BLOCKS
  }

  lemma {:induction false} Begun(cfg: Config, s: State)
    requires Inv(cfg, s) && Enabled(cfg, s, Begin)
    ensures Under(cfg, s, [Begin], Next(cfg, s, Begin), |s.ops|, [])
  {
    hide OnDisk, Coherent, Replay, CurrentMap, DiskOf, PinnedFrom, PhaseInv, StableMap, Budget;
    var t := Next(cfg, s, Begin);
    InvBegin(cfg, s);
    RunSnoc(cfg, s, [], s, Begin);
    assert [] + [Begin] == [Begin];
    SyncsOfSnoc(|s.ops|, [], Begin);
    SameCurrentMap(cfg, s, t);
  }

  // The block is brought in, if it is not there.
  lemma {:induction false} Cached(cfg: Config, s: State, acts: seq<Action>, t: State, op: nat, tr: seq<T.Put>, b: nat)
    returns (acts': seq<Action>, t': State)
    requires Under(cfg, s, acts, t, op, tr) && b < cfg.numBlocks && b != cfg.logStart
    ensures Under(cfg, s, acts', t', op, tr) && b in t'.cache
  {
    hide OnDisk, Coherent, Replay, CurrentMap, DiskOf, PinnedFrom, Budget;
    acts', t' := acts, t;
    if b !in t.cache {
      acts', t' := acts + [Fetch(b)], Next(cfg, t, Fetch(b));
      InvFetch(cfg, t, b);
      RunSnoc(cfg, s, acts, t, Fetch(b));
      SyncsOfSnoc(op, acts, Fetch(b));
      MovesKeepCurrent(cfg, t, Fetch(b));
    }
  }

  // The budget covers the next sync.
  lemma {:induction false} Covered(cfg: Config, s: State, acts: seq<Action>, t: State, op: nat, tr: seq<T.Put>,
                                   p: T.Put)
    requires Under(cfg, s, acts, t, op, tr) && p.b in t.cache && IsHome(cfg, p.b)
    requires |T.Blocks(tr + [p])| <= OP_MAX_NUM_BLOCKS
    ensures Enabled(cfg, t, Write(op, p.b, p.data))
  {
    hide OnDisk, Coherent, Replay, CurrentMap, DiskOf, PinnedFrom, Shown;
    SumAt(t.ops, op);
    assert (tr + [p])[..|tr|] == tr;
    if !Logged(t.header, p.b) { assert p.b !in T.Blocks(tr); }
  }

  lemma {:induction false} StillLogged(s: State, op: nat, b: nat, data: Block, x: nat)
    requires op < |s.ops| && s.header.num <= |s.header.nos|
    requires Logged(s.header, b) || (s.ops[op] > 0 && s.header.num < |s.header.nos|)
    ensures Synced(s, op, b, data).header.num <= |Synced(s, op, b, data).header.nos|
    ensures x == b || Logged(s.header, x) ==> Logged(Synced(s, op, b, data).header, x)
  {
    var h := Synced(s, op, b, data).header;
    if !Logged(s.header, b) {
      assert h.nos[s.header.num] == b;
      if Logged(s.header, x) {
        var i :| 0 <= i < s.header.num && s.header.nos[i] == x;
        assert h.nos[i] == x;
      }
    }
  }

  lemma {:induction false} SyncCharges(t: State, op: nat, tr: seq<T.Put>, p: T.Put)
    requires op < |t.ops| && t.header.num <= |t.header.nos|
    requires Logged(t.header, p.b) || (t.ops[op] > 0 && t.header.num < |t.header.nos|)
    requires (forall b :: b in T.Blocks(tr) ==> Logged(t.header, b)) && t.ops[op] + |T.Blocks(tr)| >= OP_MAX_NUM_BLOCKS
    ensures var t' := Synced(t, op, p.b, p.data);
            && (forall b :: b in T.Blocks(tr + [p]) ==> Logged(t'.header, b)) && |t'.ops| == |t.ops|
            && t'.ops[op] + |T.Blocks(tr + [p])| >= OP_MAX_NUM_BLOCKS
  {
    assert (tr + [p])[..|tr|] == tr;
    forall b | b in T.Blocks(tr + [p]) ensures Logged(Synced(t, op, p.b, p.data).header, b) {
      StillLogged(t, op, p.b, p.data, b);
    }
    if Logged(t.header, p.b) {
      SubsetCard(T.Blocks(tr), T.Blocks(tr + [p]));
    } else {
      assert p.b !in T.Blocks(tr);
    }
  }

  // The next sync.
  lemma {:induction false} SyncOne(cfg: Config, s: State, acts: seq<Action>, t: State, op: nat, tr: seq<T.Put>,
                                   p: T.Put)
    requires Under(cfg, s, acts, t, op, tr) && p.b in t.cache && IsHome(cfg, p.b)
    requires Enabled(cfg, t, Write(op, p.b, p.data))
    ensures var a := Write(op, p.b, p.data);
            Under(cfg, s, acts + [a], Next(cfg, t, a), op, tr + [p])
  {
    hide OnDisk, Coherent, Replay, CurrentMap, DiskOf, PinnedFrom, Budget, StableMap, PhaseInv;
    var a := Write(op, p.b, p.data);
    SyncCharges(t, op, tr, p);
    InvWrite(cfg, t, op, p.b, p.data);
    RunSnoc(cfg, s, acts, t, a);
    SyncsOfSnoc(op, acts, a);
    RefinesOps(cfg, t, a);
    DiskOfPut(cfg, CurrentMap(cfg, t), p.b, p.data);
    assert (tr + [p])[..|tr|] == tr;
  }

  // All syncs from number |tr| - n on.
  lemma {:induction false} SyncRest(cfg: Config, l: Layout, s: State, acts: seq<Action>, t: State, op: nat,
                                    tr: seq<T.Put>, n: nat)
    returns (acts': seq<Action>, t': State)
    requires Matches(cfg, l) && InArea(l, tr) && |T.Blocks(tr)| <= OP_MAX_NUM_BLOCKS && n <= |tr|
    requires Under(cfg, s, acts, t, op, tr[..|tr| - n])
    ensures Under(cfg, s, acts', t', op, tr)
    decreases n
  {
    hide Under;
    if n == 0 {
      acts', t' := acts, t;
      assert tr[..|tr|] == tr;
    } else {
      var k := |tr| - n;
      var t1;
      acts', t1 := Cached(cfg, s, acts, t, op, tr[..k], tr[k].b);
      assert tr[..k] + [tr[k]] == tr[..k + 1];
      T.AppliedConcat([], tr[..k + 1], tr[k + 1..]);
      assert tr[..k + 1] + tr[k + 1..] == tr;
      SubsetCard(T.Blocks(tr[..k + 1]), T.Blocks(tr));
      Covered(cfg, s, acts', t1, op, tr[..k], tr[k]);
      UnderEnds(cfg, s, acts', t1, op, tr[..k]);
      var a := Write(op, tr[k].b, tr[k].data);
      SyncOne(cfg, s, acts', t1, op, tr[..k], tr[k]);
      acts', t' := SyncRest(cfg, l, s, acts' + [a], Next(cfg, t1, a), op, tr, n - 1);
    }
  }

  // The operation can end.
  lemma {:induction false} UnderEnds(cfg: Config, s: State, acts: seq<Action>, t: State, op: nat, tr: seq<T.Put>)
    requires Under(cfg, s, acts, t, op, tr)
    ensures Runs(cfg, true, s, acts, t) && Inv(cfg, t) && SyncsOf(op, acts) == tr && Ready(cfg, t)
    ensures Enabled(cfg, t, End(op)) && Shown(cfg, t) == T.Applied(Shown(cfg, s), tr)
  {
    hide Shown, Coherent, Budget, PhaseInv, Replay;
  }

  // Where an operation may begin, any syncs that touch no more blocks than the budget allows are part of a run: it
  // begins, syncs just these and can end, and cache_sync does not panic. What is shown then is the disk with the syncs.
  lemma {:induction false} OperationRuns(cfg: Config, l: Layout, s: State, tr: seq<T.Put>)
    returns (acts: seq<Action>, t: State)
    requires Matches(cfg, l) && Inv(cfg, s) && Enabled(cfg, s, Begin)
    requires InArea(l, tr) && |T.Blocks(tr)| <= OP_MAX_NUM_BLOCKS
    ensures Runs(cfg, true, s, acts, t) && Inv(cfg, t) && SyncsOf(|s.ops|, acts) == tr
    ensures Enabled(cfg, t, End(|s.ops|)) && Shown(cfg, t) == T.Applied(Shown(cfg, s), tr)
  {
    hide Under, Shown, Coherent, Budget, PhaseInv, Replay;
    Begun(cfg, s);
    assert tr[..0] == [];
    acts, t := SyncRest(cfg, l, s, [Begin], Next(cfg, s, Begin), |s.ops|, tr, |tr|);
    UnderEnds(cfg, s, acts, t, |s.ops|, tr);
  }
}
