/** The invariant of the journal machine, and what each step does to the contents a recovery would give. */
module JournalProofs {

  import opened LogFormat
  import opened Journal

  ghost predicate SameReplay(cfg: Config, d: Disk, d': Disk)
    requires ValidConfig(cfg) && |d| == cfg.numBlocks && |d'| == cfg.numBlocks
  {
    forall b :: IsHome(cfg, b) ==> Replay(cfg, d', b) == Replay(cfg, d, b)
  }

  lemma {:induction false} ReplayAt(cfg: Config, d: Disk, i: nat)
    requires ValidConfig(cfg) && |d| == cfg.numBlocks && WfHeader(cfg, OnDisk(cfg, d)) && i < OnDisk(cfg, d).num
    requires FitsLog(cfg, OnDisk(cfg, d))
    ensures LogBlock(cfg, i) < |d| && Replay(cfg, d, OnDisk(cfg, d).nos[i]) == d[LogBlock(cfg, i)]
  {
    var h := OnDisk(cfg, d);
    assert Logged(h, h.nos[i]);
    var k := IndexOf(h, h.nos[i]);
    assert k == i;
  }

  lemma {:induction false} HeaderOnDisk(cfg: Config, d: Disk, h: Header)
    requires ValidConfig(cfg) && |d| == cfg.numBlocks && Storable(h)
    ensures OnDisk(cfg, d[cfg.logStart := EncodeHeader(h)]) == h
  {
    HeaderRoundTrip(h);
  }

  // ---------- steps that leave the disk alone ----------

  // Another cache with the same pinned blocks, and otherwise as on disk, shows a reader the same.
  ghost predicate SameView(s: State, s': State) {
    && s'.disk == s.disk && s'.header == s.header && s'.ops == s.ops && s'.phase == s.phase
    && Coherent(s'.disk, s'.cache)
    && (forall b :: b in s.cache && s.cache[b].pinned ==> b in s'.cache && s'.cache[b] == s.cache[b])
    && (forall b :: b in s'.cache && s'.cache[b].pinned ==> b in s.cache && s.cache[b].pinned)
  }

  lemma {:induction false} SameViewCurrent(s: State, s': State, b: nat)
    requires Coherent(s.disk, s.cache) && SameView(s, s') && b < |s.disk|
    ensures Current(s', b) == Current(s, b)
  {
  }

  lemma {:induction false} SameViewFilled(cfg: Config, s: State, s': State, n: nat)
    requires Coherent(s.disk, s.cache) && SameView(s, s') && LogFilled(cfg, s.disk, s.cache, s.header, n)
    ensures LogFilled(cfg, s'.disk, s'.cache, s'.header, n)
  {
    forall j | 0 <= j < n ensures s'.disk[LogBlock(cfg, j)] == View(s'.disk, s'.cache, s.header.nos[j]) {
      SameViewCurrent(s, s', s.header.nos[j]);
    }
  }

  lemma {:induction false} SameViewPinned(s: State, s': State, from: nat)
    requires SameView(s, s') && s.header.num <= |s.header.nos| && PinnedFrom(s.cache, s.header, from)
    ensures PinnedFrom(s'.cache, s'.header, from)
  {
  }

  lemma {:induction false} SameViewInv(cfg: Config, s: State, s': State)
    requires Inv(cfg, s) && SameView(s, s') && cfg.logStart !in s'.cache
    ensures Inv(cfg, s')
  {
    match s.phase
    case Booting =>
    case Recovering(i) =>
    case Idle => SameViewPinned(s, s', 0);
    case Logging(i) => SameViewFilled(cfg, s, s', i); SameViewPinned(s, s', 0);
    case Homing(i) => SameViewFilled(cfg, s, s', s.header.num); SameViewPinned(s, s', i);
  }

  lemma {:induction false} InvFetch(cfg: Config, s: State, b: nat)
    requires Inv(cfg, s) && Enabled(cfg, s, Fetch(b))
    ensures Inv(cfg, Next(cfg, s, Fetch(b)))
  {
    SameViewInv(cfg, s, Next(cfg, s, Fetch(b)));
  }

  lemma {:induction false} InvEvict(cfg: Config, s: State, b: nat)
    requires Inv(cfg, s) && Enabled(cfg, s, Evict(b))
    ensures Inv(cfg, Next(cfg, s, Evict(b)))
  {
    SameViewInv(cfg, s, Next(cfg, s, Evict(b)));
  }

  lemma {:induction false} SumAppend(a: seq<nat>, b: seq<nat>)
    ensures Sum(a + b) == Sum(a) + Sum(b)
  {
    if a == [] {
      assert a + b == b;
    } else {
      SumAppend(a[1..], b);
      assert (a + b)[1..] == a[1..] + b;
    }
  }

  lemma {:induction false} SumAt(ops: seq<nat>, k: nat)
    requires k < |ops|
    ensures Sum(ops) == Sum(ops[..k]) + ops[k] + Sum(ops[k + 1..])
    ensures Sum(Without(ops, k)) == Sum(ops) - ops[k]
    ensures ops[k] > 0 ==> Sum(ops[k := ops[k] - 1]) == Sum(ops) - 1
  {
    var a, b := ops[..k], ops[k + 1..];
    assert ops == a + ([ops[k]] + b);
    SumAppend(a, [ops[k]] + b);
    SumAppend(a, b);
    if ops[k] > 0 {
      assert ops[k := ops[k] - 1] == a + ([ops[k] - 1] + b);
      SumAppend(a, [ops[k] - 1] + b);
    }
  }

  lemma {:induction false} SumBound(ops: seq<nat>, m: nat)
    requires forall k :: 0 <= k < |ops| ==> ops[k] <= m
    ensures Sum(ops) <= |ops| * m
  {
    if ops != [] {
      SumBound(ops[1..], m);
      assert |ops| * m == m + |ops[1..]| * m;
    }
  }

  lemma {:induction false} InvBegin(cfg: Config, s: State)
    requires Inv(cfg, s) && Enabled(cfg, s, Begin)
    ensures Inv(cfg, Next(cfg, s, Begin))
  {
    SumAppend(s.ops, [OP_MAX_NUM_BLOCKS]);
    SumBound(s.ops, OP_MAX_NUM_BLOCKS);
  }

  lemma {:induction false} InvWrite(cfg: Config, s: State, op: nat, b: nat, data: Block)
    requires Inv(cfg, s) && Enabled(cfg, s, Write(op, b, data))
    ensures Inv(cfg, Next(cfg, s, Write(op, b, data)))
  {
    SumAt(s.ops, op);
    var s' := Next(cfg, s, Write(op, b, data));
    if !Logged(s.header, b) {
      assert s'.header.nos[s.header.num] == b;
      assert forall i :: 0 <= i < s.header.num ==> s'.header.nos[i] == s.header.nos[i];
    }
  }

  lemma {:induction false} InvEnd(cfg: Config, s: State, op: nat)
    requires Inv(cfg, s) && Enabled(cfg, s, End(op)) && Safe(cfg, s, End(op))
    ensures Inv(cfg, Next(cfg, s, End(op)))
  {
    SumAt(s.ops, op);
  }

  lemma {:induction false} InvCrash(cfg: Config, s: State)
    requires Inv(cfg, s)
    ensures Inv(cfg, Next(cfg, s, Crash))
  {
  }

  lemma {:induction false} InvReadHeader(cfg: Config, s: State)
    requires Inv(cfg, s) && Enabled(cfg, s, ReadHeader)
    ensures Inv(cfg, Next(cfg, s, ReadHeader))
  {
  }

  // ---------- device writes ----------

  // While the header on disk names an entry, what stands in its home block does not matter.
  lemma {:induction false} ReplayIgnoresHome(cfg: Config, d: Disk, i: nat, data: Block)
    requires ValidConfig(cfg) && |d| == cfg.numBlocks && WfHeader(cfg, OnDisk(cfg, d)) && i < OnDisk(cfg, d).num
    requires FitsLog(cfg, OnDisk(cfg, d))
    ensures var d' := d[OnDisk(cfg, d).nos[i] := data]; OnDisk(cfg, d') == OnDisk(cfg, d) && SameReplay(cfg, d, d')
  {
    var h := OnDisk(cfg, d);
    var d' := d[h.nos[i] := data];
    forall b | IsHome(cfg, b) ensures Replay(cfg, d', b) == Replay(cfg, d, b) {
      if Logged(h, b) { ReplayAt(cfg, d, IndexOf(h, b)); }
    }
  }

  // While the header on disk is empty, what stands in the log area does not matter.
  lemma {:induction false} ReplayIgnoresLog(cfg: Config, d: Disk, i: nat, data: Block)
    requires ValidConfig(cfg) && |d| == cfg.numBlocks && OnDisk(cfg, d).num == 0 && i + 1 < cfg.logLen
    ensures var d' := d[LogBlock(cfg, i) := data]; OnDisk(cfg, d') == OnDisk(cfg, d) && SameReplay(cfg, d, d')
  {
  }

  // Writing a block through with what is read elsewhere.
  lemma {:induction false} ThroughCurrent(s: State, to: nat, data: Block, pinned: bool, phase: Phase)
    requires to < |s.disk| && Coherent(s.disk, s.cache)
    ensures var s' := Through(s, to, data, pinned, phase);
            && Coherent(s'.disk, s'.cache)
            && forall b: nat :: b < |s.disk| && (b != to || data == Current(s, b)) ==> Current(s', b) == Current(s, b)
  {
  }

  // A buffer off the home blocks comes or changes, unpinned.
  lemma {:induction false} PinnedOffHome(cfg: Config, cache: map<nat, Buf>, h: Header, to: nat, data: Block)
    requires WfHeader(cfg, h) && PinnedFrom(cache, h, 0) && !IsHome(cfg, to)
    ensures (to in cache ==> !cache[to].pinned) && PinnedFrom(cache[to := Buf(data, false)], h, 0)
  {
  }

  lemma {:induction false} LogWriteFilled(cfg: Config, s: State, i: nat, to: nat, data: Block, phase: Phase)
    requires ValidConfig(cfg) && |s.disk| == cfg.numBlocks && WfHeader(cfg, s.header) && FitsLog(cfg, s.header)
    requires i < s.header.num && Coherent(s.disk, s.cache) && LogFilled(cfg, s.disk, s.cache, s.header, i)
    requires to == LogBlock(cfg, i) && data == Current(s, s.header.nos[i])
    ensures var s' := Through(s, to, data, false, phase);
            Coherent(s'.disk, s'.cache) && LogFilled(cfg, s'.disk, s'.cache, s'.header, i + 1)
  {
    var s' := Through(s, to, data, false, phase);
    ThroughCurrent(s, to, data, false, phase);
    forall j | 0 <= j < i + 1 ensures s'.disk[LogBlock(cfg, j)] == Current(s', s.header.nos[j]) {
      assert IsHome(cfg, s.header.nos[j]) && s.header.nos[j] != to;
    }
  }

  lemma {:induction false} InvLogWrite(cfg: Config, s: State)
    requires Inv(cfg, s) && Enabled(cfg, s, LogWrite)
    ensures Inv(cfg, Next(cfg, s, LogWrite)) && SameReplay(cfg, s.disk, Next(cfg, s, LogWrite).disk)
  {
    var i := s.phase.i;
    var data := Current(s, s.header.nos[i]);
    PinnedOffHome(cfg, s.cache, s.header, LogBlock(cfg, i), data);
    LogWriteFilled(cfg, s, i, LogBlock(cfg, i), data, Logging(i + 1));
    ReplayIgnoresLog(cfg, s.disk, i, data);
  }

  lemma {:induction false} HeaderWriteReplay(cfg: Config, s: State)
    requires ValidConfig(cfg) && |s.disk| == cfg.numBlocks && WfHeader(cfg, s.header) && FitsLog(cfg, s.header)
    requires cfg.logStart !in s.cache && Coherent(s.disk, s.cache) && PinnedFrom(s.cache, s.header, 0)
             && LogFilled(cfg, s.disk, s.cache, s.header, s.header.num)
    requires Storable(s.header)
    ensures var d' := s.disk[cfg.logStart := EncodeHeader(s.header)];
            OnDisk(cfg, d') == s.header && forall b :: IsHome(cfg, b) ==> Replay(cfg, d', b) == Current(s, b)
  {
    HeaderOnDisk(cfg, s.disk, s.header);
    var d' := s.disk[cfg.logStart := EncodeHeader(s.header)];
    forall b | IsHome(cfg, b) ensures Replay(cfg, d', b) == Current(s, b) {
      if Logged(s.header, b) { ReplayAt(cfg, d', IndexOf(s.header, b)); }
    }
  }

  lemma {:induction false} InvHeaderWrite(cfg: Config, s: State)
    requires Inv(cfg, s) && Enabled(cfg, s, HeaderWrite)
    ensures Inv(cfg, Next(cfg, s, HeaderWrite))
    ensures forall b :: IsHome(cfg, b) ==> Replay(cfg, Next(cfg, s, HeaderWrite).disk, b) == Current(s, b)
  {
    HeaderWriteReplay(cfg, s);
  }

  lemma {:induction false} UnpinOne(cfg: Config, cache: map<nat, Buf>, h: Header, i: nat, data: Block)
    requires WfHeader(cfg, h) && i < h.num && PinnedFrom(cache, h, i)
    ensures PinnedFrom(cache[h.nos[i] := Buf(data, false)], h, i + 1)
  {
    var cache' := cache[h.nos[i] := Buf(data, false)];
    forall b | b in cache' && cache'[b].pinned ensures exists j :: i + 1 <= j < h.num && h.nos[j] == b {
      var j :| i <= j < h.num && h.nos[j] == b;
    }
  }

  lemma {:induction false} HomeWriteFilled(cfg: Config, s: State, to: nat, phase: Phase)
    requires ValidConfig(cfg) && |s.disk| == cfg.numBlocks && WfHeader(cfg, s.header) && FitsLog(cfg, s.header)
    requires IsHome(cfg, to) && Coherent(s.disk, s.cache) && LogFilled(cfg, s.disk, s.cache, s.header, s.header.num)
    ensures var s' := Through(s, to, Current(s, to), false, phase);
            Coherent(s'.disk, s'.cache) && LogFilled(cfg, s'.disk, s'.cache, s'.header, s.header.num)
  {
    var s' := Through(s, to, Current(s, to), false, phase);
    ThroughCurrent(s, to, Current(s, to), false, phase);
    forall j | 0 <= j < s.header.num ensures s'.disk[LogBlock(cfg, j)] == Current(s', s.header.nos[j]) {
      assert LogBlock(cfg, j) != to;
    }
  }

  lemma {:induction false} InvHomeWrite(cfg: Config, s: State)
    requires Inv(cfg, s) && Enabled(cfg, s, HomeWrite)
    ensures Inv(cfg, Next(cfg, s, HomeWrite)) && SameReplay(cfg, s.disk, Next(cfg, s, HomeWrite).disk)
  {
    var i, to := s.phase.i, s.header.nos[s.phase.i];
    ReplayIgnoresHome(cfg, s.disk, i, Current(s, to));
    UnpinOne(cfg, s.cache, s.header, i, Current(s, to));
    HomeWriteFilled(cfg, s, to, Homing(i + 1));
  }

  // With every entry at home, the log is not needed any more.
  lemma {:induction false} ClearHeaderReplay(cfg: Config, d: Disk, h: Header)
    requires ValidConfig(cfg) && |d| == cfg.numBlocks && WfHeader(cfg, OnDisk(cfg, d)) && FitsLog(cfg, OnDisk(cfg, d))
    requires forall j :: 0 <= j < OnDisk(cfg, d).num ==> d[OnDisk(cfg, d).nos[j]] == d[LogBlock(cfg, j)]
    requires Storable(h) && h.num == 0
    ensures var d' := d[cfg.logStart := EncodeHeader(h)]; OnDisk(cfg, d') == h && SameReplay(cfg, d, d')
  {
    HeaderOnDisk(cfg, d, h);
    var d' := d[cfg.logStart := EncodeHeader(h)];
    var was := OnDisk(cfg, d);
    forall b | IsHome(cfg, b) ensures Replay(cfg, d', b) == Replay(cfg, d, b) {
      if Logged(was, b) { ReplayAt(cfg, d, IndexOf(was, b)); }
    }
  }

  lemma {:induction false} InvClearHeader(cfg: Config, s: State)
    requires Inv(cfg, s) && Enabled(cfg, s, ClearHeader)
    ensures Inv(cfg, Next(cfg, s, ClearHeader)) && SameReplay(cfg, s.disk, Next(cfg, s, ClearHeader).disk)
  {
    forall j | 0 <= j < s.header.num ensures s.disk[s.header.nos[j]] == s.disk[LogBlock(cfg, j)] {
      assert !Pinned(s, s.header.nos[j]);
    }
    ClearHeaderReplay(cfg, s.disk, Header(0, s.header.nos));
  }

  lemma {:induction false} CopyBackParts(cfg: Config, s: State, i: nat, data: Block, phase: Phase)
    requires ValidConfig(cfg) && |s.disk| == cfg.numBlocks && WfHeader(cfg, s.header) && FitsLog(cfg, s.header)
    requires i < s.header.num && Coherent(s.disk, s.cache) && NoPins(s.cache) && CopiedBack(cfg, s.disk, s.header, i)
    requires LogBlock(cfg, i) < |s.disk| && data == Current(s, LogBlock(cfg, i))
    ensures var to := s.header.nos[i];
            var s' := Through(s, to, data, Pinned(s, to), phase);
            Coherent(s'.disk, s'.cache) && NoPins(s'.cache) && CopiedBack(cfg, s'.disk, s'.header, i + 1)
  {
    var to := s.header.nos[i];
    var s' := Through(s, to, data, Pinned(s, to), phase);
    ThroughCurrent(s, to, data, Pinned(s, to), phase);
    forall j | 0 <= j < i + 1 ensures s'.disk[s.header.nos[j]] == s'.disk[LogBlock(cfg, j)] {
      assert IsHome(cfg, s.header.nos[j]) && to != LogBlock(cfg, j);
    }
  }

  lemma {:induction false} InvCopyBack(cfg: Config, s: State)
    requires Inv(cfg, s) && Enabled(cfg, s, CopyBack)
    ensures Inv(cfg, Next(cfg, s, CopyBack)) && SameReplay(cfg, s.disk, Next(cfg, s, CopyBack).disk)
  {
    var i := s.phase.i;
    var data := Current(s, LogBlock(cfg, i));
    ReplayIgnoresHome(cfg, s.disk, i, data);
    CopyBackParts(cfg, s, i, data, Recovering(i + 1));
  }

  lemma {:induction false} InvClearLog(cfg: Config, s: State)
    requires Inv(cfg, s) && Enabled(cfg, s, ClearLog)
    ensures Inv(cfg, Next(cfg, s, ClearLog)) && SameReplay(cfg, s.disk, Next(cfg, s, ClearLog).disk)
  {
    ClearHeaderReplay(cfg, s.disk, Header(0, Zeros(LOG_MAX_SIZE)));
  }

  // ---------- a sync outside any operation ----------

  // d' gives back what d does, but data in block b.
  ghost predicate ReplayBut(cfg: Config, d: Disk, d': Disk, b: nat, data: Block)
    requires ValidConfig(cfg) && |d| == cfg.numBlocks && |d'| == cfg.numBlocks
  {
    forall x :: IsHome(cfg, x) ==> Replay(cfg, d', x) == if x == b then data else Replay(cfg, d, x)
  }

  // A block that is not logged reads as it is stable, and so does every block once the header is on disk.
  lemma {:induction false} ReadsStable(cfg: Config, s: State, b: nat)
    requires Inv(cfg, s) && Up(s) && IsHome(cfg, b) && (s.phase.Homing? || !Logged(s.header, b))
    ensures Current(s, b) == Replay(cfg, s.disk, b)
  {
    if Logged(s.header, b) {
      ReplayAt(cfg, s.disk, IndexOf(s.header, b));
    } else if b in s.cache {
      assert !s.cache[b].pinned;
    }
  }

  // Where the header on disk does not name the block, the write is what a recovery gives.
  lemma {:induction false} ReplayPut(cfg: Config, d: Disk, b: nat, data: Block)
    requires ValidConfig(cfg) && |d| == cfg.numBlocks && IsHome(cfg, b)
    requires OnDisk(cfg, d).num <= LOG_MAX_SIZE && !Logged(OnDisk(cfg, d), b)
    ensures OnDisk(cfg, d[b := data]) == OnDisk(cfg, d) && ReplayBut(cfg, d, d[b := data], b, data)
  {
    var h, d' := OnDisk(cfg, d), d[b := data];
    forall x | IsHome(cfg, x) ensures Replay(cfg, d', x) == if x == b then data else Replay(cfg, d, x) {
      if FitsLog(cfg, h) && Logged(h, x) { assert LogBlock(cfg, IndexOf(h, x)) != b; }
    }
  }

  lemma {:induction false} DirectFilled(cfg: Config, s: State, b: nat, data: Block, n: nat)
    requires ValidConfig(cfg) && |s.disk| == cfg.numBlocks && WfHeader(cfg, s.header) && FitsLog(cfg, s.header)
    requires IsHome(cfg, b) && Coherent(s.disk, s.cache) && LogFilled(cfg, s.disk, s.cache, s.header, n)
    requires data == Current(s, b) || forall j :: 0 <= j < n ==> s.header.nos[j] != b
    ensures var s' := Through(s, b, data, Pinned(s, b), s.phase);
            Coherent(s'.disk, s'.cache) && LogFilled(cfg, s'.disk, s'.cache, s'.header, n)
  {
    var s' := Through(s, b, data, Pinned(s, b), s.phase);
    ThroughCurrent(s, b, data, Pinned(s, b), s.phase);
    forall j | 0 <= j < n ensures s'.disk[LogBlock(cfg, j)] == View(s'.disk, s'.cache, s.header.nos[j]) {
      assert LogBlock(cfg, j) != b;
    }
  }

  // The pins stay as they are.
  lemma {:induction false} DirectPinned(s: State, b: nat, data: Block, from: nat)
    requires b in s.cache && b < |s.disk| && s.header.num <= |s.header.nos| && PinnedFrom(s.cache, s.header, from)
    ensures PinnedFrom(s.cache[b := Buf(data, Pinned(s, b))], s.header, from)
  {
  }

  lemma {:induction false} DirectInv(cfg: Config, s: State, b: nat, data: Block)
    requires Inv(cfg, s) && Enabled(cfg, s, Direct(b, data)) && (data == Current(s, b) || !Copied(s, b))
    ensures Inv(cfg, Next(cfg, s, Direct(b, data)))
    ensures OnDisk(cfg, Next(cfg, s, Direct(b, data)).disk) == OnDisk(cfg, s.disk)
  {
    hide DecodeHeader, PinnedFrom, Coherent, Sum;
    ThroughCurrent(s, b, data, Pinned(s, b), s.phase);
    DirectPinned(s, b, data, if s.phase.Homing? then s.phase.i else 0);
    if s.phase.Logging? {
      DirectFilled(cfg, s, b, data, s.phase.i);
    } else if s.phase.Homing? {
      DirectFilled(cfg, s, b, data, s.header.num);
    }
  }

  // What a recovery gives after it: the write, unless the header on disk names the block and the write is news.
  lemma {:induction false} DirectReplay(cfg: Config, s: State, b: nat, data: Block)
    requires Inv(cfg, s) && Enabled(cfg, s, Direct(b, data))
    ensures var d' := Next(cfg, s, Direct(b, data)).disk;
            if s.phase.Homing? && Logged(s.header, b) then SameReplay(cfg, s.disk, d')
            else ReplayBut(cfg, s.disk, d', b, data)
  {
    if s.phase.Homing? && Logged(s.header, b) {
      ReplayIgnoresHome(cfg, s.disk, IndexOf(s.header, b), data);
    } else {
      ReplayPut(cfg, s.disk, b, data);
    }
  }

  lemma {:induction false} InvDirect(cfg: Config, s: State, b: nat, data: Block)
    requires Inv(cfg, s) && Enabled(cfg, s, Direct(b, data)) && Safe(cfg, s, Direct(b, data))
    ensures Inv(cfg, Next(cfg, s, Direct(b, data)))
    ensures ReplayBut(cfg, s.disk, Next(cfg, s, Direct(b, data)).disk, b, data)
  {
    DirectInv(cfg, s, b, data);
    DirectReplay(cfg, s, b, data);
    if s.phase.Homing? && Logged(s.header, b) {
      var i := IndexOf(s.header, b);
      assert Copied(s, b);
    }
  }

  // In a running system a sync that changes nothing leaves what a crash would bring back alone exactly if the home
  // writes are under way, or the block is not logged, or it reads as it is stable.
  lemma {:induction false} DirectSyncKeeps(cfg: Config, s: State, b: nat)
    requires Inv(cfg, s) && b < |s.disk| && Enabled(cfg, s, Direct(b, Current(s, b)))
    ensures SameReplay(cfg, s.disk, Next(cfg, s, Direct(b, Current(s, b))).disk)
       <==> s.phase.Homing? || !Logged(s.header, b) || Current(s, b) == Replay(cfg, s.disk, b)
  {
    var data := Current(s, b);
    DirectReplay(cfg, s, b, data);
    if s.phase.Homing? || !Logged(s.header, b) { ReadsStable(cfg, s, b); }
  }
}
