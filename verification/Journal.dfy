/** The write-ahead log of src/fs/cache.c as a state machine: operations begin, sync and end in any interleaving,
    the last one to end runs a checkpoint, and the machine can crash between any two device writes, also while a
    recovery is under way. One device write is one step. */
module Journal {

  import opened LogFormat

  // Where the log lies: the header block and, right behind it, one block for each entry.
  datatype Config = Config(logStart: nat, logLen: nat, numBlocks: nat)

  predicate ValidConfig(cfg: Config) {
    cfg.logLen > 0 && cfg.logStart + cfg.logLen <= cfg.numBlocks < WORD_MAX
  }

  // The log has room for all the entries its header can hold.
  predicate RoomyConfig(cfg: Config) { ValidConfig(cfg) && cfg.logLen >= LOG_MAX_SIZE + 1 }

  // The log has room for the entries this header does hold.
  predicate FitsLog(cfg: Config, h: Header) { h.num < cfg.logLen }

  predicate IsHome(cfg: Config, b: nat) {
    b < cfg.numBlocks && !(cfg.logStart <= b < cfg.logStart + cfg.logLen)
  }

  function LogBlock(cfg: Config, i: nat): nat { cfg.logStart + 1 + i }

  // ---------- what a disk means ----------

  function OnDisk(cfg: Config, d: Disk): Header
    requires ValidConfig(cfg) && |d| == cfg.numBlocks
  {
    DecodeHeader(d[cfg.logStart])
  }

  // The entries of a header are distinct home blocks.
  predicate WfHeader(cfg: Config, h: Header) {
    && |h.nos| == LOG_MAX_SIZE && h.num <= LOG_MAX_SIZE
    && (forall i :: 0 <= i < h.num ==> IsHome(cfg, h.nos[i]))
    && (forall i, j :: 0 <= i < j < h.num ==> h.nos[i] != h.nos[j])
    && (forall i :: 0 <= i < LOG_MAX_SIZE ==> h.nos[i] < WORD_MAX)
  }

  predicate Logged(h: Header, b: nat)
    requires h.num <= |h.nos|
  {
    exists i :: 0 <= i < h.num && h.nos[i] == b
  }

  ghost function IndexOf(h: Header, b: nat): (i: nat)
    requires h.num <= |h.nos| && Logged(h, b)
    ensures i < h.num && h.nos[i] == b
  {
    var i: nat :| i < h.num && h.nos[i] == b; i
  }

  // The contents a completed recovery would give block b.
  ghost function Replay(cfg: Config, d: Disk, b: nat): Block
    requires ValidConfig(cfg) && |d| == cfg.numBlocks && b < cfg.numBlocks
  {
    var h := OnDisk(cfg, d);
    if h.num <= LOG_MAX_SIZE && h.num < cfg.logLen && Logged(h, b) then d[LogBlock(cfg, IndexOf(h, b))] else d[b]
  }

  // ---------- the machine ----------

  datatype Buf = Buf(data: Block, pinned: bool)

  datatype Phase =
    | Booting            // just started: the header is still to be read
    | Recovering(i: nat) // the first i entries are back home
    | Idle
    | Logging(i: nat)    // checkpoint: the first i entries are in the log
    | Homing(i: nat)     // checkpoint: the header is on disk and the first i entries are home

  // ops holds the remaining budget (rm) of each running operation.
  datatype State = State(disk: Disk, cache: map<nat, Buf>, header: Header, ops: seq<nat>, phase: Phase)

  datatype Action =
    | Fetch(b: nat)
    | Evict(b: nat)
    | Begin
    | Write(op: nat, b: nat, data: Block) // modify a cached block and sync it
    | Direct(b: nat, data: Block)         // modify a cached block, or not, and sync it outside any operation
    | End(op: nat)
    | LogWrite
    | HeaderWrite
    | HomeWrite
    | ClearHeader
    | Crash
    | ReadHeader
    | CopyBack
    | ClearLog

  function Sum(ops: seq<nat>): nat { if ops == [] then 0 else ops[0] + Sum(ops[1..]) }

  predicate Up(s: State) { s.phase.Idle? || s.phase.Logging? || s.phase.Homing? }

  // The contents a reader sees.
  function View(d: Disk, cache: map<nat, Buf>, b: nat): Block
    requires b < |d|
  {
    if b in cache then cache[b].data else d[b]
  }

  function Current(s: State, b: nat): Block
    requires b < |s.disk|
  {
    View(s.disk, s.cache, b)
  }

  // What the code can do next. A sync beyond the budget and a begin without room are not enabled: the first
  // panics, the second waits.
  predicate Enabled(cfg: Config, s: State, a: Action)
    requires ValidConfig(cfg) && |s.disk| == cfg.numBlocks && |s.header.nos| == LOG_MAX_SIZE
  {
    match a
    case Fetch(b) => b < cfg.numBlocks && b != cfg.logStart && b !in s.cache
    case Evict(b) => b in s.cache && !s.cache[b].pinned
    case Begin => s.phase.Idle? && s.header.num + (|s.ops| + 1) * OP_MAX_NUM_BLOCKS <= LOG_MAX_SIZE
    case Write(op, b, _) =>
      && s.phase.Idle? && op < |s.ops| && b in s.cache && IsHome(cfg, b) && s.header.num <= LOG_MAX_SIZE
      && (Logged(s.header, b) || (s.ops[op] > 0 && s.header.num < LOG_MAX_SIZE))
    case Direct(b, _) => Up(s) && b in s.cache && IsHome(cfg, b)
    case End(op) => s.phase.Idle? && op < |s.ops|
    case LogWrite =>
      && s.phase.Logging? && s.phase.i < s.header.num <= LOG_MAX_SIZE && s.header.nos[s.phase.i] < cfg.numBlocks
      && LogBlock(cfg, s.phase.i) < cfg.numBlocks
    case HeaderWrite => s.phase.Logging? && s.phase.i == s.header.num && Storable(s.header)
    case HomeWrite =>
      s.phase.Homing? && s.phase.i < s.header.num <= LOG_MAX_SIZE && s.header.nos[s.phase.i] < cfg.numBlocks
    case ClearHeader => s.phase.Homing? && s.phase.i == s.header.num && Storable(s.header)
    case Crash => true
    case ReadHeader => s.phase.Booting?
    case CopyBack =>
      && s.phase.Recovering? && s.phase.i < s.header.num <= LOG_MAX_SIZE && s.header.nos[s.phase.i] < cfg.numBlocks
      && LogBlock(cfg, s.phase.i) < cfg.numBlocks
    case ClearLog => s.phase.Recovering? && s.phase.i == s.header.num
  }

  function Zeros(n: nat): (z: seq<nat>)
    ensures |z| == n && forall i :: 0 <= i < n ==> z[i] == 0
  {
    if n == 0 then [] else [0] + Zeros(n - 1)
  }

  function Synced(s: State, op: nat, b: nat, data: Block): State
    requires op < |s.ops| && s.header.num <= |s.header.nos|
    requires Logged(s.header, b) || (s.ops[op] > 0 && s.header.num < |s.header.nos|)
  {
    if Logged(s.header, b) then State(s.disk, s.cache[b := Buf(data, true)], s.header, s.ops, s.phase)
    else State(s.disk, s.cache[b := Buf(data, true)], Header(s.header.num + 1, s.header.nos[s.header.num := b]),
               s.ops[op := s.ops[op] - 1], s.phase)
  }

  function Without(ops: seq<nat>, k: nat): seq<nat>
    requires k < |ops|
  {
    ops[..k] + ops[k + 1..]
  }

  predicate Pinned(s: State, b: nat) { b in s.cache && s.cache[b].pinned }

  // A device write through the cache: disk and cached copy change together.
  function Through(s: State, to: nat, data: Block, pinned: bool, phase: Phase): State
    requires to < |s.disk|
  {
    State(s.disk[to := data], s.cache[to := Buf(data, pinned)], s.header, s.ops, phase)
  }

  function Next(cfg: Config, s: State, a: Action): (s': State)
    requires ValidConfig(cfg) && |s.disk| == cfg.numBlocks && |s.header.nos| == LOG_MAX_SIZE && Enabled(cfg, s, a)
    ensures |s'.disk| == cfg.numBlocks && |s'.header.nos| == LOG_MAX_SIZE
  {
    match a
    case Fetch(b) => State(s.disk, s.cache[b := Buf(s.disk[b], false)], s.header, s.ops, s.phase)
    case Evict(b) => State(s.disk, s.cache - {b}, s.header, s.ops, s.phase)
    case Begin => State(s.disk, s.cache, s.header, s.ops + [OP_MAX_NUM_BLOCKS], s.phase)
    case Write(op, b, data) => Synced(s, op, b, data)
    case Direct(b, data) => Through(s, b, data, Pinned(s, b), s.phase)
    case End(op) => State(s.disk, s.cache, s.header, Without(s.ops, op), if |s.ops| == 1 then Logging(0) else Idle)
    case LogWrite =>
      var to := LogBlock(cfg, s.phase.i);
      Through(s, to, Current(s, s.header.nos[s.phase.i]), Pinned(s, to), Logging(s.phase.i + 1))
    case HeaderWrite =>
      State(s.disk[cfg.logStart := EncodeHeader(s.header)], s.cache, s.header, s.ops, Homing(0))
    case HomeWrite =>
      var to := s.header.nos[s.phase.i];
      Through(s, to, Current(s, to), false, Homing(s.phase.i + 1))
    case ClearHeader =>
      var h := Header(0, s.header.nos);
      State(s.disk[cfg.logStart := EncodeHeader(h)], s.cache, h, s.ops, Idle)
    case Crash => State(s.disk, map[], s.header, [], Booting)
    case ReadHeader =>
      State(s.disk, s.cache, OnDisk(cfg, s.disk), s.ops, if OnDisk(cfg, s.disk).num == 0 then Idle else Recovering(0))
    case CopyBack =>
      var to := s.header.nos[s.phase.i];
      Through(s, to, Current(s, LogBlock(cfg, s.phase.i)), Pinned(s, to), Recovering(s.phase.i + 1))
    case ClearLog =>
      var h := Header(0, Zeros(LOG_MAX_SIZE));
      State(s.disk[cfg.logStart := EncodeHeader(h)], s.cache, h, s.ops, Idle)
  }

  // ---------- the invariant ----------

  // An unpinned block in the cache is as on disk.
  ghost predicate Coherent(d: Disk, cache: map<nat, Buf>) {
    forall b :: b in cache ==> b < |d| && (!cache[b].pinned ==> cache[b].data == d[b])
  }

  // Exactly the entries from..num of the header are pinned, and they are all in the cache.
  ghost predicate PinnedFrom(cache: map<nat, Buf>, h: Header, from: nat)
    requires h.num <= |h.nos|
  {
    && (forall i :: from <= i < h.num ==> h.nos[i] in cache && cache[h.nos[i]].pinned)
    && (forall b :: b in cache && cache[b].pinned ==> exists i :: from <= i < h.num && h.nos[i] == b)
  }

  // header.num_blocks plus what the running operations may still log fits the header.
  predicate Budget(s: State) {
    && s.header.num + Sum(s.ops) <= LOG_MAX_SIZE
    && forall k :: 0 <= k < |s.ops| ==> s.ops[k] <= OP_MAX_NUM_BLOCKS
  }

  // The first n log blocks hold what a reader sees in their entries.
  ghost predicate LogFilled(cfg: Config, d: Disk, cache: map<nat, Buf>, h: Header, n: nat) {
    && n <= h.num <= |h.nos|
    && forall j :: 0 <= j < n ==>
         LogBlock(cfg, j) < |d| && h.nos[j] < |d| && d[LogBlock(cfg, j)] == View(d, cache, h.nos[j])
  }

  // The first n entries are back home.
  ghost predicate CopiedBack(cfg: Config, d: Disk, h: Header, n: nat) {
    && n <= h.num <= |h.nos|
    && forall j :: 0 <= j < n ==>
         LogBlock(cfg, j) < |d| && h.nos[j] < |d| && d[h.nos[j]] == d[LogBlock(cfg, j)]
  }

  ghost predicate NoPins(cache: map<nat, Buf>) { forall b :: b in cache ==> !cache[b].pinned }

  // Between a checkpoint's first device write and its last, and while a recovery is under way, the log holds all the
  // entries there are.
  ghost predicate PhaseInv(cfg: Config, s: State)
    requires ValidConfig(cfg) && |s.disk| == cfg.numBlocks
  {
    match s.phase
    case Booting =>
      s.ops == [] && WfHeader(cfg, OnDisk(cfg, s.disk)) && FitsLog(cfg, OnDisk(cfg, s.disk)) && NoPins(s.cache)
    case Recovering(i) =>
      && s.ops == [] && WfHeader(cfg, s.header) && FitsLog(cfg, s.header) && s.header == OnDisk(cfg, s.disk)
      && NoPins(s.cache) && CopiedBack(cfg, s.disk, s.header, i)
    case Idle => WfHeader(cfg, s.header) && OnDisk(cfg, s.disk).num == 0 && PinnedFrom(s.cache, s.header, 0)
    case Logging(i) =>
      && s.ops == [] && WfHeader(cfg, s.header) && FitsLog(cfg, s.header) && OnDisk(cfg, s.disk).num == 0
      && PinnedFrom(s.cache, s.header, 0) && LogFilled(cfg, s.disk, s.cache, s.header, i)
    case Homing(i) =>
      && s.ops == [] && WfHeader(cfg, s.header) && FitsLog(cfg, s.header) && OnDisk(cfg, s.disk) == s.header
      && i <= s.header.num && PinnedFrom(s.cache, s.header, i)
      && LogFilled(cfg, s.disk, s.cache, s.header, s.header.num)
  }

  ghost predicate Inv(cfg: Config, s: State) {
    && ValidConfig(cfg) && |s.disk| == cfg.numBlocks && |s.header.nos| == LOG_MAX_SIZE
    && cfg.logStart !in s.cache && Coherent(s.disk, s.cache) && (Up(s) ==> Budget(s)) && PhaseInv(cfg, s)
  }

  // ---------- what the code must not do ----------

  // How many entries have a copy in the log that may be replayed.
  function Copies(s: State): nat {
    match s.phase
    case Logging(i) => i
    case Homing(_) => s.header.num
    case _ => 0
  }

  predicate Copied(s: State, b: nat) { exists j :: 0 <= j < Copies(s) && j < |s.header.nos| && s.header.nos[j] == b }

  // The last operation may end only while the log has room for all that is logged. A block may be synced outside an
  // operation only if it holds nothing that is still to be committed, and may be changed by that only if no copy of it
  // is in the log. The code checks none of this.
  ghost predicate Safe(cfg: Config, s: State, a: Action)
    requires ValidConfig(cfg) && |s.disk| == cfg.numBlocks
  {
    match a
    case End(_) => |s.ops| == 1 ==> FitsLog(cfg, s.header)
    case Direct(b, data) =>
      && b < cfg.numBlocks && Current(s, b) == Replay(cfg, s.disk, b) && (data == Current(s, b) || !Copied(s, b))
    case _ => true
  }
}
