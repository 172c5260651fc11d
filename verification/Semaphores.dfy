/** src/common/sem.c on top of the scheduler: waits, posts, alerts and kills of any number of processes on any number of
    semaphores, as steps between the points where the two locks are taken. */
module Semaphores {

  import opened Basics
  import opened Scheduler

  // Where a process stands in _wait_sem: outside; with its record on the sleep list and the scheduler lock taken; or in
  // (or behind) the call of sched. up is the flag of its record; early, that sched returned at once.
  datatype Wait = Out | Going(k: nat, alertable: bool, up: bool) | In(k: nat, alertable: bool, up: bool, early: bool)

  // list is the sleep list from its front, where records are inserted. posting is the process that a post in progress
  // has taken off the list and not yet activated; until then it keeps the lock of the semaphore. start, posts and
  // grants count the initial value, the posts, and the waits and gets that got through.
  datatype Sem = Sem(val: int, list: seq<nat>, posting: Option<nat>, start: int, posts: nat, grants: nat)

  // lock is the CPU that holds the scheduler lock from one step to the next. A ticket is the time at which a process
  // last joined a sleep list.
  datatype Sys = Sys(sched: Sched, sems: seq<Sem>, waits: seq<Wait>, lock: Option<nat>, tickets: seq<nat>, clock: nat)

  datatype Action =
    | StartWait(c: nat, k: nat, alertable: bool) // _wait_sem up to the call of sched
    | FallAsleep(c: nat)                         // that call
    | Resume(c: nat)                             // the rest of _wait_sem
    | Post(k: nat)                               // _post_sem up to the call of activate_proc
    | Wake(k: nat)                               // that call
    | Get(k: nat)
    | Alert(p: nat)
    | Start(p: nat)
    | Kill(p: nat)
    | Yield(c: nat)
    | Exit(c: nat)

  // ---------- the steps ----------

  predicate Sized(s: Sys) {
    |s.waits| == |s.tickets| == |s.sched.state| == |s.sched.killed| && SchedInv(s.sched)
  }

  // The process that is current on CPU c and not in a wait.
  predicate Acting(s: Sys, c: nat)
    requires Sized(s)
  {
    c < |s.sched.cur| && s.sched.cur[c].Proc?
  }

  function Me(s: Sys, c: nat): (p: nat)
    requires Sized(s) && Acting(s, c)
    ensures p < |s.waits|
  {
    s.sched.cur[c].p
  }

  predicate Enabled(s: Sys, a: Action)
    requires Sized(s)
  {
    match a
    case StartWait(c, k, _) =>
      && Acting(s, c) && s.waits[Me(s, c)].Out? && k < |s.sems| && s.sems[k].posting.None?
      && (s.sems[k].val <= 0 ==> s.lock.None?)
    case FallAsleep(c) => Acting(s, c) && s.lock == Some(c) && s.waits[Me(s, c)].Going?
    case Resume(c) =>
      && Acting(s, c) && s.waits[Me(s, c)].In? && s.waits[Me(s, c)].k < |s.sems|
      && s.sems[s.waits[Me(s, c)].k].posting.None?
    case Post(k) =>
      && k < |s.sems| && s.sems[k].posting.None?
      && (s.sems[k].val < 0 ==>
            s.sems[k].list != [] && Last(s.sems[k].list) < |s.waits| && !s.waits[Last(s.sems[k].list)].Out?)
    case Wake(k) =>
      k < |s.sems| && s.lock.None? && s.sems[k].posting.Some? && s.sems[k].posting.value < |s.waits|
    case Get(k) => k < |s.sems| && s.sems[k].posting.None? && s.sems[k].val > 0
    case Alert(p) => p < |s.waits| && s.lock.None?
    case Start(p) => p < |s.waits| && s.lock.None? && s.sched.state[p] == UNUSED && s.waits[p].Out?
    case Kill(p) => p < |s.waits|
    case Yield(c) => c < |s.sched.cur| && s.lock.None?
    case Exit(c) => Acting(s, c) && s.lock.None? && s.waits[Me(s, c)].Out?
  }

  function Last(q: seq<nat>): nat
    requires q != []
  {
    q[|q| - 1]
  }

  function Up(w: Wait): Wait {
    match w
    case Out => Out
    case Going(k, a, _) => Going(k, a, true)
    case In(k, a, _, e) => In(k, a, true, e)
  }

  function Next(s: Sys, a: Action): Sys
    requires Sized(s) && Enabled(s, a)
  {
    match a
    case StartWait(c, k, alertable) =>
      var p, m := Me(s, c), s.sems[k];
      if m.val > 0 then s.(sems := s.sems[k := m.(val := m.val - 1, grants := m.grants + 1)])
      else s.(sems := s.sems[k := m.(val := m.val - 1, list := [p] + m.list)],
              waits := s.waits[p := Going(k, alertable, false)], lock := Some(c),
              tickets := s.tickets[p := s.clock], clock := s.clock + 1)
    case FallAsleep(c) =>
      var p := Me(s, c);
      var w := s.waits[p];
      s.(sched := Scheduled(s.sched, c, if w.alertable then SLEEPING else DEEPSLEEPING), lock := None,
         waits := s.waits[p := In(w.k, w.alertable, w.up, s.sched.killed[p])])
    case Resume(c) =>
      var p := Me(s, c);
      var k, m := s.waits[p].k, s.sems[s.waits[p].k];
      if s.waits[p].up then s.(waits := s.waits[p := Out])
      else s.(waits := s.waits[p := Out], sems := s.sems[k := m.(val := m.val + 1, list := Without(m.list, p))])
    case Post(k) =>
      var m := s.sems[k];
      if m.val >= 0 then s.(sems := s.sems[k := m.(val := m.val + 1, posts := m.posts + 1)])
      else
        var p := Last(m.list);
        s.(sems := s.sems[k := m.(val := m.val + 1, posts := m.posts + 1, grants := m.grants + 1,
                                  list := m.list[..|m.list| - 1], posting := Some(p))],
           waits := s.waits[p := Up(s.waits[p])])
    case Wake(k) =>
      var m := s.sems[k];
      s.(sched := Activated(s.sched, m.posting.value, false), sems := s.sems[k := m.(posting := None)])
    case Get(k) =>
      var m := s.sems[k];
      s.(sems := s.sems[k := m.(val := m.val - 1, grants := m.grants + 1)])
    case Alert(p) => s.(sched := Activated(s.sched, p, true))
    case Start(p) => s.(sched := Activated(s.sched, p, false))
    case Kill(p) => s.(sched := s.sched.(killed := s.sched.killed[p := true]))
    case Yield(c) => s.(sched := Scheduled(s.sched, c, RUNNABLE))
    case Exit(c) => s.(sched := Scheduled(s.sched, c, ZOMBIE))
  }

  // ---------- the invariant ----------

  // p is waiting for semaphore k and no post has reached it.
  predicate Pending(w: Wait, k: nat) { !w.Out? && w.k == k && !w.up }

  predicate Falling(list: seq<nat>, tickets: seq<nat>, clock: nat) {
    && (forall i :: 0 <= i < |list| ==> list[i] < |tickets| && tickets[list[i]] < clock)
    && (forall i, j :: 0 <= i < j < |list| ==> tickets[list[i]] > tickets[list[j]])
  }

  // The sleep list has as many records as the value is below zero, those of the waiting processes, latest first; what
  // came in by the initial value and by posts is there or was granted.
  predicate SemInv(m: Sem, k: nat, waits: seq<Wait>, tickets: seq<nat>, clock: nat) {
    && |waits| == |tickets| && |m.list| == (if m.val < 0 then -m.val else 0)
    && NoDup(m.list) && Falling(m.list, tickets, clock)
    && (forall p :: 0 <= p < |waits| ==> (p in m.list <==> Pending(waits[p], k)))
    && m.start + m.posts == m.val + m.grants + |m.list|
    && (m.posting.Some? ==> m.posting.value < |waits| && !waits[m.posting.value].Out?
                            && waits[m.posting.value].k == k && waits[m.posting.value].up)
  }

  // What a process is doing: nobody sleeps but in a wait; a process whose wait was granted, and the post completed, is
  // RUNNABLE or RUNNING; one in a wait that takes no alerts sleeps until then, unless it had been killed. Only those
  // that take alerts sleep so that an alert wakes them.
  predicate ProcInv(w: Wait, x: ProcState, killed: bool, sems: seq<Sem>, p: nat) {
    match w
    case Out => x != SLEEPING && x != DEEPSLEEPING
    case Going(k, _, up) => k < |sems| && x == RUNNING && (up ==> sems[k].posting == Some(p))
    case In(k, alertable, up, early) =>
      && k < |sems| && x != UNUSED && x != ZOMBIE && (early ==> killed && Ready(x))
      && (up && sems[k].posting != Some(p) ==> Ready(x))
      && (!up && !alertable && !early ==> x == DEEPSLEEPING)
      && (x == SLEEPING ==> alertable) && (x == DEEPSLEEPING ==> !alertable)
  }

  predicate LockInv(s: Sys)
    requires Sized(s)
  {
    && (s.lock.Some? ==> Acting(s, s.lock.value) && s.waits[Me(s, s.lock.value)].Going?)
    && (forall p :: 0 <= p < |s.waits| && s.waits[p].Going? ==>
          s.lock.Some? && Acting(s, s.lock.value) && Me(s, s.lock.value) == p)
  }

  predicate SysInv(s: Sys) {
    && Sized(s) && LockInv(s)
    && (forall k :: 0 <= k < |s.sems| ==> SemInv(s.sems[k], k, s.waits, s.tickets, s.clock))
    && (forall p :: 0 <= p < |s.waits| ==> ProcInv(s.waits[p], s.sched.state[p], s.sched.killed[p], s.sems, p))
  }

  // ---------- every step keeps it ----------

  // Another semaphore, when the record of process p changes.
  lemma {:induction false} SemFrame(m: Sem, k: nat, waits: seq<Wait>, tickets: seq<nat>, clock: nat, p: nat, w: Wait,
                                    ticket: nat, clock': nat)
    requires SemInv(m, k, waits, tickets, clock) && p < |waits| && clock <= clock'
    requires Pending(w, k) == Pending(waits[p], k) && (p in m.list ==> ticket == tickets[p])
    requires m.posting != Some(p) || (!w.Out? && w.k == k && w.up)
    ensures SemInv(m, k, waits[p := w], tickets[p := ticket], clock')
  {
    assert forall i :: 0 <= i < |m.list| ==> m.list[i] in m.list;
  }

  lemma {:induction false} MeRunning(s: Sys, c: nat)
    requires Sized(s) && Acting(s, c)
    ensures s.sched.state[Me(s, c)] == RUNNING
    ensures forall d :: 0 <= d < |s.sched.cur| && d != c ==> s.sched.cur[d] != s.sched.cur[c]
  {
  }

  lemma {:induction false} StartWaitSem(m: Sem, k: nat, waits: seq<Wait>, tickets: seq<nat>, clock: nat, p: nat,
                                        alertable: bool)
    requires SemInv(m, k, waits, tickets, clock) && p < |waits| && waits[p].Out? && m.val <= 0
    ensures SemInv(m.(val := m.val - 1, list := [p] + m.list), k, waits[p := Going(k, alertable, false)],
                   tickets[p := clock], clock + 1)
  {
    assert p !in m.list;
    assert forall i :: 0 <= i < |m.list| ==> m.list[i] in m.list;
  }

  lemma {:induction false} StartWaitInv(s: Sys, c: nat, k: nat, alertable: bool)
    requires SysInv(s) && Enabled(s, StartWait(c, k, alertable))
    ensures SysInv(Next(s, StartWait(c, k, alertable)))
  {
    hide SchedInv, SemInv;
    var t := Next(s, StartWait(c, k, alertable));
    var p, m := Me(s, c), s.sems[k];
    MeRunning(s, c);
    assert SemInv(m, k, s.waits, s.tickets, s.clock);
    if m.val > 0 {
      GrantSem(m, k, s.waits, s.tickets, s.clock);
    } else {
      StartWaitSem(m, k, s.waits, s.tickets, s.clock, p, alertable);
      forall j | 0 <= j < |s.sems| && j != k ensures SemInv(s.sems[j], j, t.waits, t.tickets, t.clock) {
        assert SemInv(s.sems[j], j, s.waits, s.tickets, s.clock);
        NotPosted(s.sems[j], j, s.waits, s.tickets, s.clock, p);
        SemFrame(s.sems[j], j, s.waits, s.tickets, s.clock, p, Going(k, alertable, false), s.clock, s.clock + 1);
      }
    }
  }

  // Nobody outside a wait is on a sleep list or about to be activated.
  lemma {:induction false} NotPosted(m: Sem, k: nat, waits: seq<Wait>, tickets: seq<nat>, clock: nat, p: nat)
    requires SemInv(m, k, waits, tickets, clock) && p < |waits|
    ensures waits[p].Out? ==> m.posting != Some(p) && p !in m.list
    ensures !waits[p].Out? && waits[p].k != k ==> m.posting != Some(p) && p !in m.list
  {
  }

  lemma {:induction false} GrantSem(m: Sem, k: nat, waits: seq<Wait>, tickets: seq<nat>, clock: nat)
    requires SemInv(m, k, waits, tickets, clock) && m.val > 0
    ensures SemInv(m.(val := m.val - 1, grants := m.grants + 1), k, waits, tickets, clock)
  {
  }

  lemma {:induction false} FallAsleepInv(s: Sys, c: nat)
    requires SysInv(s) && Enabled(s, FallAsleep(c))
    ensures SysInv(Next(s, FallAsleep(c)))
  {
    hide SchedInv, SemInv, Scheduled;
    var t := Next(s, FallAsleep(c));
    var p := Me(s, c);
    var w := s.waits[p];
    MeRunning(s, c);
    ScheduledInv(s.sched, c, if w.alertable then SLEEPING else DEEPSLEEPING);
    forall j | 0 <= j < |s.sems| ensures SemInv(s.sems[j], j, t.waits, t.tickets, t.clock) {
      assert SemInv(s.sems[j], j, s.waits, s.tickets, s.clock);
      NotPosted(s.sems[j], j, s.waits, s.tickets, s.clock, p);
      PostedUp(s.sems[j], j, s.waits, s.tickets, s.clock);
      SemFrame(s.sems[j], j, s.waits, s.tickets, s.clock, p, t.waits[p], s.tickets[p], s.clock);
      assert s.tickets[p := s.tickets[p]] == s.tickets;
    }
  }

  lemma {:induction false} PostedUp(m: Sem, k: nat, waits: seq<Wait>, tickets: seq<nat>, clock: nat)
    requires SemInv(m, k, waits, tickets, clock)
    ensures m.posting.Some? ==>
              && m.posting.value < |waits| && !waits[m.posting.value].Out?
              && waits[m.posting.value].k == k && waits[m.posting.value].up
  {
  }

  // The processes, when only the scheduler changes: none but sleepers may be woken, and none but the runnable run.
  predicate Progress(x: ProcState, y: ProcState) { y == x || (Ready(x) && Ready(y)) }

  lemma {:induction false} ProcFrame(w: Wait, x: ProcState, y: ProcState, killed: bool, sems: seq<Sem>, p: nat)
    requires ProcInv(w, x, killed, sems, p) && Progress(x, y) && !w.Going?
    ensures ProcInv(w, y, killed, sems, p)
  {
  }

  lemma {:induction false} ResumeSem(m: Sem, k: nat, waits: seq<Wait>, tickets: seq<nat>, clock: nat, p: nat)
    requires SemInv(m, k, waits, tickets, clock) && p < |waits| && Pending(waits[p], k)
    ensures m.val + 1 <= 0 // the ASSERT of _wait_sem
    ensures m.posting != Some(p)
    ensures SemInv(m.(val := m.val + 1, list := Without(m.list, p)), k, waits[p := Out], tickets, clock)
  {
    WithoutMembers(m.list, p);
    WithoutFalling(m.list, p, tickets, clock);
    WithoutLength(m.list, p);
  }

  lemma {:induction false} WithoutLength(q: seq<nat>, p: nat)
    requires p in q
    ensures |Without(q, p)| == |q| - 1
    decreases q
  {
    if q[0] != p { WithoutLength(q[1..], p); }
  }

  lemma {:induction false} WithoutFalling(q: seq<nat>, p: nat, tickets: seq<nat>, clock: nat)
    requires Falling(q, tickets, clock)
    ensures Falling(Without(q, p), tickets, clock)
    ensures forall x :: x in Without(q, p) ==> x in q
    decreases q
  {
    if q != [] && q[0] != p {
      var r := Without(q[1..], p);
      WithoutFalling(q[1..], p, tickets, clock);
      forall i | 0 <= i < |r| ensures tickets[q[0]] > tickets[r[i]] {
        assert r[i] in q[1..];
        var j :| 0 <= j < |q[1..]| && q[1..][j] == r[i];
      }
    }
  }

  lemma {:induction false} ResumeInv(s: Sys, c: nat)
    requires SysInv(s) && Enabled(s, Resume(c))
    ensures SysInv(Next(s, Resume(c)))
  {
    hide SchedInv, SemInv, Without;
    var t := Next(s, Resume(c));
    var p := Me(s, c);
    var k := s.waits[p].k;
    MeRunning(s, c);
    forall j | 0 <= j < |s.sems| ensures SemInv(t.sems[j], j, t.waits, t.tickets, t.clock) {
      assert SemInv(s.sems[j], j, s.waits, s.tickets, s.clock);
      if j == k && !s.waits[p].up {
        ResumeSem(s.sems[k], k, s.waits, s.tickets, s.clock, p);
      } else {
        NotPosted(s.sems[j], j, s.waits, s.tickets, s.clock, p);
        NotListed(s.sems[j], j, s.waits, s.tickets, s.clock, p);
        SemFrame(s.sems[j], j, s.waits, s.tickets, s.clock, p, Out, s.tickets[p], s.clock);
        assert s.tickets[p := s.tickets[p]] == s.tickets;
      }
    }
  }

  lemma {:induction false} NotListed(m: Sem, k: nat, waits: seq<Wait>, tickets: seq<nat>, clock: nat, p: nat)
    requires SemInv(m, k, waits, tickets, clock) && p < |waits| && !Pending(waits[p], k)
    ensures p !in m.list
  {
  }

  // A post to a semaphore with waiters takes the one that has waited longest.
  lemma {:induction false} PostSem(m: Sem, k: nat, waits: seq<Wait>, tickets: seq<nat>, clock: nat)
    requires SemInv(m, k, waits, tickets, clock) && m.val < 0 && m.posting.None?
    ensures m.list != [] // the ASSERT of _post_sem
    ensures var p := Last(m.list);
            && p < |waits| && Pending(waits[p], k)
            && (forall q :: q in m.list ==> q < |tickets| && tickets[p] <= tickets[q])
            && SemInv(m.(val := m.val + 1, posts := m.posts + 1, grants := m.grants + 1, list := m.list[..|m.list| - 1],
                         posting := Some(p)), k, waits[p := Up(waits[p])], tickets, clock)
  {
    var p := Last(m.list);
    var rest := m.list[..|m.list| - 1];
    assert m.list == rest + [p] && p in m.list;
    assert p !in rest;
    forall q | 0 <= q < |waits| ensures q in rest <==> Pending(waits[p := Up(waits[p])][q], k) {
      assert q in m.list <==> q in rest || q == p;
    }
    forall q | q in m.list ensures q < |tickets| && tickets[p] <= tickets[q] {
      var i :| 0 <= i < |m.list| && m.list[i] == q;
    }
  }

  lemma {:induction false} PostFreeSem(m: Sem, k: nat, waits: seq<Wait>, tickets: seq<nat>, clock: nat)
    requires SemInv(m, k, waits, tickets, clock) && m.val >= 0
    ensures SemInv(m.(val := m.val + 1, posts := m.posts + 1), k, waits, tickets, clock)
  {
  }

  // A post is possible whenever the lock of the semaphore is free.
  lemma {:induction false} PostEnabled(s: Sys, k: nat)
    requires SysInv(s) && k < |s.sems| && s.sems[k].posting.None?
    ensures Enabled(s, Post(k))
  {
    hide SchedInv;
    assert SemInv(s.sems[k], k, s.waits, s.tickets, s.clock);
    if s.sems[k].val < 0 { PostSem(s.sems[k], k, s.waits, s.tickets, s.clock); }
  }

  lemma {:induction false} PostInv(s: Sys, k: nat)
    requires SysInv(s) && Enabled(s, Post(k))
    ensures SysInv(Next(s, Post(k)))
  {
    hide SchedInv, SemInv;
    var t := Next(s, Post(k));
    var m := s.sems[k];
    assert SemInv(m, k, s.waits, s.tickets, s.clock);
    if m.val >= 0 {
      PostFreeSem(m, k, s.waits, s.tickets, s.clock);
    } else {
      PostSem(m, k, s.waits, s.tickets, s.clock);
      var p := Last(m.list);
      forall j | 0 <= j < |s.sems| && j != k ensures SemInv(s.sems[j], j, t.waits, t.tickets, t.clock) {
        assert SemInv(s.sems[j], j, s.waits, s.tickets, s.clock);
        NotPosted(s.sems[j], j, s.waits, s.tickets, s.clock, p);
        SemFrame(s.sems[j], j, s.waits, s.tickets, s.clock, p, Up(s.waits[p]), s.tickets[p], s.clock);
        assert s.tickets[p := s.tickets[p]] == s.tickets;
      }
    }
  }

  lemma {:induction false} WakeInv(s: Sys, k: nat)
    requires SysInv(s) && Enabled(s, Wake(k))
    ensures SysInv(Next(s, Wake(k)))
    // The waiter that was posted is RUNNABLE or RUNNING once the post is complete.
    ensures Ready(Next(s, Wake(k)).sched.state[s.sems[k].posting.value])
  {
    hide SchedInv;
    var t := Next(s, Wake(k));
    var p := s.sems[k].posting.value;
    assert SemInv(s.sems[k], k, s.waits, s.tickets, s.clock);
    assert ProcInv(s.waits[p], s.sched.state[p], s.sched.killed[p], s.sems, p);
    ActivatedInv(s.sched, p, false);
    forall j | 0 <= j < |s.sems| && j != k ensures SemInv(t.sems[j], j, t.waits, t.tickets, t.clock) {
      assert SemInv(s.sems[j], j, s.waits, s.tickets, s.clock);
    }
    ActiveSame(s.sched, p, false);
  }

  lemma {:induction false} ActiveSame(s: Sched, p: nat, onalert: bool)
    requires p < |s.state|
    ensures var t := Activated(s, p, onalert);
            && t.cur == s.cur && t.killed == s.killed && |t.state| == |s.state|
            && (forall q :: 0 <= q < |s.state| && q != p ==> t.state[q] == s.state[q])
            && t.state[p] == if Wakes(s.state[p], onalert) then RUNNABLE else s.state[p]
  {
  }

  lemma {:induction false} GetInv(s: Sys, k: nat)
    requires SysInv(s) && Enabled(s, Get(k))
    ensures SysInv(Next(s, Get(k)))
  {
    hide SchedInv, SemInv;
    assert SemInv(s.sems[k], k, s.waits, s.tickets, s.clock);
    GrantSem(s.sems[k], k, s.waits, s.tickets, s.clock);
  }

  lemma {:induction false} ActivateInv(s: Sys, p: nat, onalert: bool)
    requires SysInv(s) && p < |s.waits| && s.lock.None? && (onalert || s.sched.state[p] == UNUSED)
    ensures SysInv(s.(sched := Activated(s.sched, p, onalert)))
  {
    hide SchedInv, SemInv, Activated;
    ActivatedInv(s.sched, p, onalert);
    ActiveSame(s.sched, p, onalert);
    assert ProcInv(s.waits[p], s.sched.state[p], s.sched.killed[p], s.sems, p);
  }

  lemma {:induction false} KillInv(s: Sys, p: nat)
    requires SysInv(s) && Enabled(s, Kill(p))
    ensures SysInv(Next(s, Kill(p)))
  {
    hide SemInv;
    var t := Next(s, Kill(p));
    assert SchedInv(t.sched);
    forall q | 0 <= q < |s.waits| ensures ProcInv(t.waits[q], t.sched.state[q], t.sched.killed[q], t.sems, q) {
      assert ProcInv(s.waits[q], s.sched.state[q], s.sched.killed[q], s.sems, q);
    }
  }

  lemma {:induction false} SwitchInv(s: Sys, c: nat, x: ProcState)
    requires SysInv(s) && c < |s.sched.cur| && s.lock.None? && MayEnter(s.sched, c, x)
    requires x == RUNNABLE || (x == ZOMBIE && Acting(s, c) && s.waits[Me(s, c)].Out?)
    ensures SysInv(s.(sched := Scheduled(s.sched, c, x)))
  {
    hide SchedInv, SemInv, Scheduled;
    var t := s.(sched := Scheduled(s.sched, c, x));
    ScheduledInv(s.sched, c, x);
    if s.sched.cur[c].Proc? { CurrentInRange(s.sched, c); }
    forall q | 0 <= q < |s.waits| ensures ProcInv(t.waits[q], t.sched.state[q], t.sched.killed[q], t.sems, q) {
      assert ProcInv(s.waits[q], s.sched.state[q], s.sched.killed[q], s.sems, q);
      if x == RUNNABLE || s.sched.cur[c] != Proc(q) {
        ProcFrame(s.waits[q], s.sched.state[q], t.sched.state[q], s.sched.killed[q], s.sems, q);
      }
    }
  }

  lemma {:induction false} CurrentInRange(s: Sched, c: nat)
    requires SchedInv(s) && c < |s.cur| && s.cur[c].Proc?
    ensures s.cur[c].p < |s.state| && s.state[s.cur[c].p] == RUNNING
  {
  }

  lemma {:induction false} InvStep(s: Sys, a: Action)
    requires SysInv(s) && Enabled(s, a)
    ensures SysInv(Next(s, a))
  {
    hide SysInv, SchedInv;
    match a
    case StartWait(c, k, alertable) => StartWaitInv(s, c, k, alertable);
    case FallAsleep(c) => FallAsleepInv(s, c);
    case Resume(c) => ResumeInv(s, c);
    case Post(k) => PostInv(s, k);
    case Wake(k) => WakeInv(s, k);
    case Get(k) => GetInv(s, k);
    case Alert(p) => ActivateInv(s, p, true);
    case Start(p) => ActivateInv(s, p, false);
    case Kill(p) => KillInv(s, p);
    case Yield(c) => SwitchInv(s, c, RUNNABLE);
    case Exit(c) => SwitchInv(s, c, ZOMBIE);
  }

  // ---------- runs ----------

  predicate Runs(s: Sys, acts: seq<Action>, t: Sys)
    decreases acts
  {
    Sized(s) && if acts == [] then t == s else Enabled(s, acts[0]) && Runs(Next(s, acts[0]), acts[1..], t)
  }

  // Nobody waits, and every semaphore has its initial value.
  predicate Initial(s: Sys) {
    && Sized(s) && s.lock.None? && (forall p :: 0 <= p < |s.waits| ==> s.waits[p].Out?)
    && (forall p :: 0 <= p < |s.waits| ==> s.sched.state[p] != SLEEPING && s.sched.state[p] != DEEPSLEEPING)
    && (forall k :: 0 <= k < |s.sems| ==> s.sems[k] == Sem(s.sems[k].start, [], None, s.sems[k].start, 0, 0))
    && (forall k :: 0 <= k < |s.sems| ==> s.sems[k].start >= 0)
  }

  lemma {:induction false} RunInv(s: Sys, acts: seq<Action>, t: Sys)
    requires SysInv(s) && Runs(s, acts, t)
    ensures SysInv(t)
    decreases acts
  {
    hide SysInv, Sized, Enabled, Next;
    if acts != [] {
      InvStep(s, acts[0]);
      RunInv(Next(s, acts[0]), acts[1..], t);
    }
  }

  lemma {:induction false} InitialInv(s: Sys)
    requires Initial(s)
    ensures SysInv(s)
  {
  }

  // In every run: the length of a sleep list, the balance of a semaphore, and no lost wake-up.
  lemma {:induction false} SafeRuns(s: Sys, acts: seq<Action>, t: Sys)
    requires Initial(s) && Runs(s, acts, t)
    ensures Sized(t)
    ensures forall k :: 0 <= k < |t.sems| ==>
              && |t.sems[k].list| == (if t.sems[k].val < 0 then -t.sems[k].val else 0) && NoDup(t.sems[k].list)
              && t.sems[k].start + t.sems[k].posts == t.sems[k].val + t.sems[k].grants + |t.sems[k].list|
    ensures forall p :: 0 <= p < |t.waits| && t.waits[p].In? && t.waits[p].up ==>
              t.waits[p].k < |t.sems| && (t.sems[t.waits[p].k].posting != Some(p) ==> Ready(t.sched.state[p]))
    ensures forall p :: 0 <= p < |t.waits| && (t.sched.state[p] == SLEEPING || t.sched.state[p] == DEEPSLEEPING) ==>
              t.waits[p].In?
  {
    hide Initial, Runs, SchedInv;
    InitialInv(s);
    RunInv(s, acts, t);
    forall k | 0 <= k < |t.sems| ensures SemInv(t.sems[k], k, t.waits, t.tickets, t.clock) {
    }
    forall p | 0 <= p < |t.waits| ensures ProcInv(t.waits[p], t.sched.state[p], t.sched.killed[p], t.sems, p) {
    }
  }

  // A wait that takes no alerts returns true, unless the process had been killed when it went to sleep.
  lemma {:induction false} UnalertableSucceeds(s: Sys, c: nat)
    requires SysInv(s) && Enabled(s, Resume(c)) && !s.waits[Me(s, c)].alertable && !s.waits[Me(s, c)].early
    ensures s.waits[Me(s, c)].up
  {
    hide SchedInv, SemInv;
    MeRunning(s, c);
    var p := Me(s, c);
    assert ProcInv(s.waits[p], s.sched.state[p], s.sched.killed[p], s.sems, p);
  }

  // A process that goes to sleep in a wait sleeps lightly exactly if the wait takes alerts.
  lemma {:induction false} AsleepAs(s: Sys, c: nat)
    requires SysInv(s) && Enabled(s, FallAsleep(c)) && !s.sched.killed[Me(s, c)]
    ensures var x := Next(s, FallAsleep(c)).sched.state;
            Me(s, c) < |x| && x[Me(s, c)] == if s.waits[Me(s, c)].alertable then SLEEPING else DEEPSLEEPING
  {
    hide SchedInv, SemInv, Scheduled;
    MeRunning(s, c);
    ScheduledInv(s.sched, c, if s.waits[Me(s, c)].alertable then SLEEPING else DEEPSLEEPING);
  }

  // An alert gets every process going that is in a wait that takes alerts, and none that is in one that does not.
  lemma {:induction false} AlertInterrupts(s: Sys, p: nat)
    requires SysInv(s) && Enabled(s, Alert(p)) && s.waits[p].In?
    ensures Next(s, Alert(p)).sched.state[p] == RUNNABLE || Next(s, Alert(p)).sched.state[p] == s.sched.state[p]
    ensures if s.waits[p].alertable then Ready(Next(s, Alert(p)).sched.state[p])
            else Next(s, Alert(p)).sched.state[p] == s.sched.state[p]
  {
    hide SchedInv, SemInv;
    assert ProcInv(s.waits[p], s.sched.state[p], s.sched.killed[p], s.sems, p);
  }

  // A process that exits is a ZOMBIE then, and no step changes that.
  lemma {:induction false} ExitIsFinal(s: Sys, a: Action, p: nat)
    requires SysInv(s) && Enabled(s, a) && p < |s.waits|
    requires s.sched.state[p] == ZOMBIE || (a.Exit? && Me(s, a.c) == p)
    ensures p < |Next(s, a).sched.state| && Next(s, a).sched.state[p] == ZOMBIE
  {
    hide SchedInv, SemInv, Scheduled, ProcInv;
    match a
    case FallAsleep(c) =>
      MeRunning(s, c);
      ScheduledInv(s.sched, c, if s.waits[Me(s, c)].alertable then SLEEPING else DEEPSLEEPING);
    case Yield(c) =>
      CurrentRunning(s.sched, c);
      ScheduledInv(s.sched, c, RUNNABLE);
    case Exit(c) =>
      MeRunning(s, c);
      ScheduledInv(s.sched, c, ZOMBIE);
    case _ =>
  }

  lemma {:induction false} CurrentRunning(s: Sched, c: nat)
    requires SchedInv(s) && c < |s.cur|
    ensures s.cur[c].Proc? ==> s.cur[c].p < |s.state| && s.state[s.cur[c].p] == RUNNING
  {
  }

  // ---------- post_all_sem ----------

  // One semaphore under its lock; woken are the processes activated so far.
  class Semaphore {
    var val: int
    var list: seq<nat>
    var woken: seq<nat>

    ghost predicate Valid()
      reads this
    {
      |list| == if val < 0 then -val else 0
    }

    // _post_sem
    method Post()
      requires Valid()
      modifies this
      ensures Valid() && val == old(val) + 1
      ensures if old(val) < 0 then list == old(list)[..|old(list)| - 1] && woken == old(woken) + [Last(old(list))]
              else list == old(list) && woken == old(woken)
    {
      val := val + 1;
      if val <= 0 {
        woken := woken + [Last(list)];
        list := list[..|list| - 1];
      }
    }

    // _get_sem
    method Get() returns (ok: bool)
      requires Valid()
      modifies this`val
      ensures Valid() && (ok <==> old(val) > 0) && val == if ok then old(val) - 1 else old(val)
    {
      ok := false;
      if val > 0 {
        val := val - 1;
        ok := true;
      }
    }

    // get_all_sem
    method GetAll() returns (n: int)
      requires Valid()
      modifies this`val
      ensures Valid() && n == (if old(val) > 0 then old(val) else 0) && val == old(val) - n
    {
      n := 0;
      if val > 0 {
        n := val;
        val := 0;
      }
    }

    // post_all_sem: it ends, wakes exactly those who wait, the longest waiting first, and returns their number; the
    // value is then 0, or as before if nobody waited.
    method PostAll() returns (n: int)
      requires Valid()
      modifies this
      ensures Valid() && list == [] && n == |old(list)| && val == if old(val) < 0 then 0 else old(val)
      ensures woken == old(woken) + Reversed(old(list))
    {
      hide Reversed;
      n := -1;
      var done := false;
      ReversedEnds(list);
      while !done
        invariant Valid() && n >= -1
        invariant !done ==> && val == old(val) + n + 1 && n < |old(list)| && list == old(list)[..|old(list)| - n - 1]
                            && woken == old(woken) + Reversed(old(list)[|old(list)| - n - 1..])
        invariant done ==> && list == [] && n == |old(list)| && val == (if old(val) < 0 then 0 else old(val))
                           && woken == old(woken) + Reversed(old(list))
        decreases !done, |old(list)| - n
      {
        ghost var before := list;
        Post();
        n := n + 1;
        done := Get();
        if n < |old(list)| {
          var i := |old(list)| - n - 1;
          ReversedFrom(old(list), i);
          assert Last(before) == old(list)[i];
        }
      }
    }
  }

  function Reversed(s: seq<nat>): seq<nat> { if s == [] then [] else Reversed(s[1..]) + [s[0]] }

  lemma {:induction false} ReversedFrom(s: seq<nat>, i: nat)
    requires i < |s|
    ensures Reversed(s[i..]) == Reversed(s[i + 1..]) + [s[i]]
  {
    assert s[i..][1..] == s[i + 1..];
  }

  lemma {:induction false} ReversedEnds(s: seq<nat>)
    ensures Reversed(s[|s|..]) == [] && s[0..] == s
  {
  }
}
