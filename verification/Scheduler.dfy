/** src/kernel/sched.c: the run queue, the states of the processes and the current process of each CPU, under the
    scheduler lock. */
module Scheduler {

  import opened Basics

  datatype ProcState = UNUSED | RUNNABLE | RUNNING | SLEEPING | DEEPSLEEPING | ZOMBIE

  // The idle process of the CPU, or a process of the table.
  datatype Who = Idle | Proc(p: nat)

  // state and killed are indexed by process, cur (thisproc) and idle (the state of the idle process) by CPU; rq is the
  // run queue from its front; panicking is panic_flag.
  datatype Sched = Sched(state: seq<ProcState>, killed: seq<bool>, rq: seq<nat>, cur: seq<Who>, idle: seq<ProcState>,
                         panicking: bool)

  predicate Ready(x: ProcState) { x == RUNNABLE || x == RUNNING }

  // ---------- the invariant ----------

  // A process is on the run queue, once, exactly if it is RUNNABLE or RUNNING.
  predicate QueueInv(s: Sched) {
    && |s.killed| == |s.state| && NoDup(s.rq) && (forall p :: p in s.rq ==> p < |s.state|)
    && forall p :: 0 <= p < |s.state| ==> (p in s.rq <==> Ready(s.state[p]))
  }

  // The processes that are current somewhere are the RUNNING ones, each on one CPU; an idle process that is not current
  // is RUNNABLE.
  predicate CpuInv(s: Sched) {
    && |s.idle| == |s.cur|
    && (forall c :: 0 <= c < |s.cur| && s.cur[c].Proc? ==> s.cur[c].p < |s.state| && s.state[s.cur[c].p] == RUNNING)
    && (forall c, d :: 0 <= c < d < |s.cur| && s.cur[c].Proc? ==> s.cur[c] != s.cur[d])
    && (forall p :: 0 <= p < |s.state| && s.state[p] == RUNNING ==> Proc(p) in s.cur)
    && (forall c :: 0 <= c < |s.cur| ==> s.idle[c] == if s.cur[c].Idle? then RUNNING else RUNNABLE)
  }

  predicate SchedInv(s: Sched) { QueueInv(s) && CpuInv(s) }

  // ---------- the operations ----------

  predicate Wakes(x: ProcState, onalert: bool) {
    x == SLEEPING || x == UNUSED || (x == DEEPSLEEPING && !onalert)
  }

  // _activate_proc: a sleeping or new process comes to the front of the queue.
  function Activated(s: Sched, p: nat, onalert: bool): Sched
    requires p < |s.state|
  {
    if Wakes(s.state[p], onalert) then s.(state := s.state[p := RUNNABLE], rq := [p] + s.rq) else s
  }

  function Without(q: seq<nat>, p: nat): seq<nat> {
    if q == [] then [] else if q[0] == p then q[1..] else [q[0]] + Without(q[1..], p)
  }

  // The first p is at place i, or there is none and i is the end.
  lemma {:induction false} WithoutAt(q: seq<nat>, p: nat, i: nat)
    requires i <= |q| && (i < |q| ==> q[i] == p) && forall k :: 0 <= k < i ==> q[k] != p
    ensures Without(q, p) == if i < |q| then q[..i] + q[i + 1..] else q
    decreases i
  {
    if i > 0 {
      var r := q[1..];
      assert forall k :: 0 <= k < i - 1 ==> r[k] == q[k + 1];
      WithoutAt(r, p, i - 1);
      assert q == [q[0]] + r;
    }
  }

  // update_this_state: the current process leaves the queue, and goes to its end if it may run on.
  function Updated(s: Sched, c: nat, new_: ProcState): Sched
    requires c < |s.cur| == |s.idle| && (s.cur[c].Proc? ==> s.cur[c].p < |s.state|)
  {
    if s.cur[c].Idle? then s.(idle := s.idle[c := new_])
    else
      var p := s.cur[c].p;
      var q := if Ready(s.state[p]) then Without(s.rq, p) else s.rq;
      s.(state := s.state[p := new_], rq := if Ready(new_) then q + [p] else q)
  }

  // The first RUNNABLE process of the queue, or the idle process.
  function Picked(s: Sched, q: seq<nat>): Who {
    if q == [] then Idle
    else if q[0] < |s.state| && s.state[q[0]] == RUNNABLE then Proc(q[0])
    else Picked(s, q[1..])
  }

  predicate MayRun(s: Sched, p: nat) { p < |s.state| && s.state[p] == RUNNABLE }

  // pick_next
  function Chosen(s: Sched): Who { if s.panicking then Idle else Picked(s, s.rq) }

  // The rest of sched: next becomes the current process.
  function Switched(s: Sched, c: nat, next: Who): Sched
    requires c < |s.cur| == |s.idle| && (next.Proc? ==> next.p < |s.state|)
  {
    match next
    case Idle => s.(cur := s.cur[c := Idle], idle := s.idle[c := RUNNING])
    case Proc(p) => s.(cur := s.cur[c := Proc(p)], state := s.state[p := RUNNING])
  }

  // ---------- they keep the invariant ----------

  lemma {:induction false} ActivatedInv(s: Sched, p: nat, onalert: bool)
    requires SchedInv(s) && p < |s.state|
    ensures SchedInv(Activated(s, p, onalert))
  {
    var t := Activated(s, p, onalert);
    if Wakes(s.state[p], onalert) {
      assert p !in s.rq;
      forall x | 0 <= x < |s.state| ensures x in t.rq <==> Ready(t.state[x]) {
        assert x in t.rq <==> x == p || x in s.rq;
      }
    }
  }

  lemma {:induction false} WithoutMembers(q: seq<nat>, p: nat)
    requires NoDup(q)
    ensures NoDup(Without(q, p)) && forall x :: x in Without(q, p) <==> x in q && x != p
    decreases q
  {
    if q != [] {
      WithoutMembers(q[1..], p);
      assert q == [q[0]] + q[1..] && q[0] !in q[1..];
    }
  }

  // Where the current process of c has been updated but the next not yet been picked.
  predicate Between(s: Sched, c: nat) {
    && QueueInv(s) && c < |s.cur| == |s.idle|
    && (forall d :: 0 <= d < |s.cur| && d != c && s.cur[d].Proc? ==>
          s.cur[d].p < |s.state| && s.state[s.cur[d].p] == RUNNING)
    && (forall d, e :: 0 <= d < e < |s.cur| && d != c && e != c && s.cur[d].Proc? ==> s.cur[d] != s.cur[e])
    && (forall p :: 0 <= p < |s.state| && s.state[p] == RUNNING ==>
          exists d :: 0 <= d < |s.cur| && d != c && s.cur[d] == Proc(p))
    && (forall d :: 0 <= d < |s.cur| && d != c ==> s.idle[d] == if s.cur[d].Idle? then RUNNING else RUNNABLE)
    && s.idle[c] == RUNNABLE
  }

  // The states sched is called with: a process may go on, sleep or end; an idle process only yields.
  predicate MayEnter(s: Sched, c: nat, x: ProcState)
    requires c < |s.cur|
  {
    if s.cur[c].Idle? then x == RUNNABLE else x == RUNNABLE || x == SLEEPING || x == DEEPSLEEPING || x == ZOMBIE
  }

  lemma {:induction false} UpdatedQueue(s: Sched, c: nat, x: ProcState)
    requires SchedInv(s) && c < |s.cur| && MayEnter(s, c, x)
    ensures QueueInv(Updated(s, c, x))
  {
    if s.cur[c].Proc? {
      var p := s.cur[c].p;
      WithoutMembers(s.rq, p);
      var t := Updated(s, c, x);
      var q := Without(s.rq, p);
      assert forall y :: y in q + [p] <==> y in q || y == p;
    }
  }

  lemma {:induction false} UpdatedInv(s: Sched, c: nat, x: ProcState)
    requires SchedInv(s) && c < |s.cur| && MayEnter(s, c, x)
    ensures Between(Updated(s, c, x), c)
  {
    hide Without;
    UpdatedQueue(s, c, x);
    var t := Updated(s, c, x);
    forall p | 0 <= p < |t.state| && t.state[p] == RUNNING
      ensures exists d :: 0 <= d < |t.cur| && d != c && t.cur[d] == Proc(p)
    {
      assert s.state[p] == RUNNING && Proc(p) in s.cur;
      var d :| 0 <= d < |s.cur| && s.cur[d] == Proc(p);
      assert t.cur[d] == Proc(p);
    }
  }

  // The one picked is RUNNABLE, and nobody RUNNABLE stands before it in the queue.
  lemma {:induction false} PickedRunnable(s: Sched, q: seq<nat>) returns (k: nat)
    ensures var n := Picked(s, q);
            && k <= |q| && (forall i :: 0 <= i < k && q[i] < |s.state| ==> s.state[q[i]] != RUNNABLE)
            && (if n.Idle? then k == |q| else k < |q| && n.p == q[k] < |s.state| && s.state[n.p] == RUNNABLE)
    decreases q
  {
    if q == [] || (q[0] < |s.state| && s.state[q[0]] == RUNNABLE) {
      k := 0;
    } else {
      k := PickedRunnable(s, q[1..]);
      k := k + 1;
    }
  }

  // The assertion of sched on the next process holds, and the switch restores the invariant.
  lemma {:induction false} SwitchedInv(s: Sched, c: nat)
    requires Between(s, c)
    ensures var n := Chosen(s);
            && (if n.Idle? then s.idle[c] == RUNNABLE else n.p < |s.state| && s.state[n.p] == RUNNABLE)
            && SchedInv(Switched(s, c, n))
  {
    var k := PickedRunnable(s, s.rq);
    var n := Chosen(s);
    var t := Switched(s, c, n);
    forall p | 0 <= p < |t.state| && t.state[p] == RUNNING ensures Proc(p) in t.cur {
      if n == Proc(p) {
        assert t.cur[c] == Proc(p);
      } else {
        var d :| 0 <= d < |s.cur| && d != c && s.cur[d] == Proc(p);
        assert t.cur[d] == Proc(p);
      }
    }
  }

  // sched, unless the process has been killed and is not about to end: then it just goes on.
  function Scheduled(s: Sched, c: nat, x: ProcState): Sched
    requires SchedInv(s) && c < |s.cur| && MayEnter(s, c, x)
  {
    if s.cur[c].Proc? && s.killed[s.cur[c].p] && x != ZOMBIE then s
    else
      var t := Updated(s, c, x);
      UpdatedInv(s, c, x);
      SwitchedInv(t, c);
      Switched(t, c, Chosen(t))
  }

  lemma {:induction false} ScheduledInv(s: Sched, c: nat, x: ProcState)
    requires SchedInv(s) && c < |s.cur| && MayEnter(s, c, x)
    ensures SchedInv(Scheduled(s, c, x))
    ensures |Scheduled(s, c, x).state| == |s.state| && |Scheduled(s, c, x).cur| == |s.cur|
    // Only the process that gives up the CPU and the one that gets it change state.
    ensures forall p :: 0 <= p < |s.state| && s.cur[c] != Proc(p) ==>
              || Scheduled(s, c, x).state[p] == s.state[p]
              || (s.state[p] == RUNNABLE && Scheduled(s, c, x).state[p] == RUNNING)
    ensures s.cur[c].Proc? ==>
              var y := Scheduled(s, c, x).state[s.cur[c].p];
              y == if s.killed[s.cur[c].p] && x != ZOMBIE then RUNNING
                   else if x == RUNNABLE && Scheduled(s, c, x).cur[c] == s.cur[c] then RUNNING else x
    ensures forall d :: 0 <= d < |s.cur| && d != c ==> Scheduled(s, c, x).cur[d] == s.cur[d]
    ensures Scheduled(s, c, x).killed == s.killed
  {
    UpdatedInv(s, c, x);
    var t := Updated(s, c, x);
    SwitchedInv(t, c);
    var k := PickedRunnable(t, t.rq);
  }

  // ---------- queue order ----------

  // p stands before r in the queue.
  predicate Ahead(q: seq<nat>, p: nat, r: nat) { exists i, j :: 0 <= i < j < |q| && q[i] == p && q[j] == r }

  // p and r both wait for a CPU, p in front.
  predicate InLine(s: Sched, p: nat, r: nat) {
    && p < |s.state| && r < |s.state| && s.state[p] == RUNNABLE && s.state[r] == RUNNABLE && Ahead(s.rq, p, r)
  }

  lemma {:induction false} WithoutOrder(q: seq<nat>, x: nat, p: nat, r: nat)
    requires Ahead(q, p, r) && x != p && x != r
    ensures Ahead(Without(q, x), p, r)
    decreases q
  {
    var i, j :| 0 <= i < j < |q| && q[i] == p && q[j] == r;
    if q[0] == x {
      assert q[1..][i - 1] == p && q[1..][j - 1] == r;
    } else {
      var w := Without(q[1..], x);
      if i == 0 {
        StillIn(q[1..], x, r, j - 1);
        var k :| 0 <= k < |w| && w[k] == r;
        assert ([q[0]] + w)[0] == p && ([q[0]] + w)[k + 1] == r;
      } else {
        assert q[1..][i - 1] == p && q[1..][j - 1] == r;
        WithoutOrder(q[1..], x, p, r);
        var a, b :| 0 <= a < b < |w| && w[a] == p && w[b] == r;
        assert ([q[0]] + w)[a + 1] == p && ([q[0]] + w)[b + 1] == r;
      }
    }
  }

  lemma {:induction false} StillIn(q: seq<nat>, x: nat, r: nat, j: nat)
    requires j < |q| && q[j] == r != x
    ensures r in Without(q, x)
    decreases q
  {
    if q[0] == x {
      assert q[1..][j - 1] == r;
    } else if j > 0 {
      StillIn(q[1..], x, r, j - 1);
    }
  }

  // The process that gives up the CPU leaves the two in line.
  lemma {:induction false} UpdatedOrder(s: Sched, c: nat, x: ProcState, p: nat, r: nat)
    requires SchedInv(s) && c < |s.cur| && MayEnter(s, c, x) && InLine(s, p, r)
    ensures InLine(Updated(s, c, x), p, r)
  {
    hide Without;
    if s.cur[c].Proc? {
      var y := s.cur[c].p;
      WithoutOrder(s.rq, y, p, r);
      var w := Without(s.rq, y);
      var i, j :| 0 <= i < j < |w| && w[i] == p && w[j] == r;
      assert (w + [y])[i] == p && (w + [y])[j] == r;
    }
  }

  // In one round of the scheduler the one behind does not get a CPU.
  lemma {:induction false} FrontFirst(s: Sched, c: nat, x: ProcState, p: nat, r: nat)
    requires SchedInv(s) && c < |s.cur| && MayEnter(s, c, x) && InLine(s, p, r)
    ensures var t := Scheduled(s, c, x);
            |t.state| == |s.state| && (t.state[p] == RUNNING || InLine(t, p, r)) && t.state[r] == RUNNABLE
  {
    hide Without;
    if !(s.cur[c].Proc? && s.killed[s.cur[c].p] && x != ZOMBIE) {
      UpdatedInv(s, c, x);
      UpdatedOrder(s, c, x, p, r);
      var t := Updated(s, c, x);
      var k := PickedRunnable(t, t.rq);
      var i, j :| 0 <= i < j < |t.rq| && t.rq[i] == p && t.rq[j] == r;
      assert k <= i;
    }
  }

  // Whoever wakes up comes in front of both.
  lemma {:induction false} WakeOrder(s: Sched, w: nat, onalert: bool, p: nat, r: nat)
    requires w < |s.state| && InLine(s, p, r)
    ensures InLine(Activated(s, w, onalert), p, r)
  {
    var i, j :| 0 <= i < j < |s.rq| && s.rq[i] == p && s.rq[j] == r;
    assert ([w] + s.rq)[i + 1] == p && ([w] + s.rq)[j + 1] == r;
  }

  // What happens to the queue: the scheduler is entered on a CPU, or a process is activated.
  datatype Event = Round(c: nat, x: ProcState) | WakeUp(w: nat, onalert: bool)

  predicate MayHappen(s: Sched, e: Event) {
    match e
    case Round(c, x) => c < |s.cur| && MayEnter(s, c, x)
    case WakeUp(w, _) => w < |s.state|
  }

  function After(s: Sched, e: Event): Sched
    requires SchedInv(s) && MayHappen(s, e)
  {
    match e
    case Round(c, x) => Scheduled(s, c, x)
    case WakeUp(w, onalert) => Activated(s, w, onalert)
  }

  predicate Runs(s: Sched, es: seq<Event>, t: Sched)
    decreases es
  {
    SchedInv(s) && if es == [] then t == s else MayHappen(s, es[0]) && Runs(After(s, es[0]), es[1..], t)
  }

  // p has not run up to the end.
  predicate NeverRuns(s: Sched, es: seq<Event>, t: Sched, p: nat)
    requires Runs(s, es, t)
    decreases es
  {
    p < |s.state| && s.state[p] != RUNNING && (es == [] || NeverRuns(After(s, es[0]), es[1..], t, p))
  }

  lemma {:induction false} StillInLine(s: Sched, e: Event, p: nat, r: nat)
    requires SchedInv(s) && MayHappen(s, e) && InLine(s, p, r)
    ensures var t := After(s, e); p < |t.state| && (t.state[p] == RUNNING || InLine(t, p, r))
  {
    hide SchedInv, Scheduled, Activated, InLine, MayEnter;
    InLineStates(s, p, r);
    match e
    case Round(c, x) => FrontFirst(s, c, x, p, r);
    case WakeUp(w, onalert) =>
      WakeOrder(s, w, onalert, p, r);
      InLineStates(Activated(s, w, onalert), p, r);
  }

  // Over any number of rounds on any CPUs, whoever wakes up meanwhile: as long as the one in front has not run, the one
  // behind has not either, and is still behind.
  lemma {:induction false} QueueOrder(s: Sched, es: seq<Event>, t: Sched, p: nat, r: nat)
    requires Runs(s, es, t) && InLine(s, p, r) && NeverRuns(s, es, t, p)
    ensures InLine(t, p, r) && NeverRuns(s, es, t, r)
    decreases es
  {
    hide SchedInv, After, InLine, MayHappen;
    InLineStates(s, p, r);
    if es != [] {
      StillInLine(s, es[0], p, r);
      QueueOrder(After(s, es[0]), es[1..], t, p, r);
    }
  }

  lemma {:induction false} InLineStates(s: Sched, p: nat, r: nat)
    requires InLine(s, p, r)
    ensures p < |s.state| && r < |s.state| && s.state[p] == RUNNABLE && s.state[r] == RUNNABLE
  {
  }

  // ---------- yielding ----------

  // Taking one process out of the queue and putting it at its end leaves the others in their order, and before it.
  lemma {:induction false} ToTheEnd(q: seq<nat>, p: nat, a: nat, b: nat)
    requires a != p && b != p
    ensures Ahead(q, a, b) ==> Ahead(Without(q, p) + [p], a, b)
    ensures a in q ==> Ahead(Without(q, p) + [p], a, p)
  {
    var w := Without(q, p);
    if Ahead(q, a, b) {
      WithoutOrder(q, p, a, b);
      var i, j :| 0 <= i < j < |w| && w[i] == a && w[j] == b;
      assert (w + [p])[i] == a && (w + [p])[j] == b;
    }
    if a in q {
      var j :| 0 <= j < |q| && q[j] == a;
      StillIn(q, p, a, j);
      var i :| 0 <= i < |w| && w[i] == a;
      assert (w + [p])[i] == a && (w + [p])[|w|] == p;
    }
  }

  // A process that gives up the CPU and may run on stands behind all others then, and they are in their old order.
  lemma {:induction false} YieldGoesBehind(s: Sched, c: nat, p: nat, a: nat, b: nat)
    requires SchedInv(s) && c < |s.cur| && s.cur[c] == Proc(p) && !s.killed[p] && a in s.rq && a != p && b != p
    ensures var t := Scheduled(s, c, RUNNABLE); Ahead(t.rq, a, p) && (Ahead(s.rq, a, b) ==> Ahead(t.rq, a, b))
  {
    hide Without;
    ToTheEnd(s.rq, p, a, b);
    UpdatedInv(s, c, RUNNABLE);
    var k := PickedRunnable(Updated(s, c, RUNNABLE), Updated(s, c, RUNNABLE).rq);
  }

  // So it does not go on if another one can.
  lemma {:induction false} YieldLetsOthersRun(s: Sched, c: nat, p: nat, r: nat)
    requires SchedInv(s) && c < |s.cur| && s.cur[c] == Proc(p) && !s.killed[p] && !s.panicking
    requires r < |s.state| && s.state[r] == RUNNABLE
    ensures Scheduled(s, c, RUNNABLE).cur[c] != s.cur[c]
  {
    hide Without;
    var t := Updated(s, c, RUNNABLE);
    ToTheEnd(s.rq, p, r, r);
    UpdatedInv(s, c, RUNNABLE);
    var k := PickedRunnable(t, t.rq);
    var i, j :| 0 <= i < j < |t.rq| && t.rq[i] == r && t.rq[j] == p;
  }

  // Nor does it run again, in any run of the scheduler, before every one that could run then has.
  lemma {:induction false} RoundRobin(s: Sched, c: nat, p: nat, r: nat, es: seq<Event>, u: Sched)
    requires SchedInv(s) && c < |s.cur| && s.cur[c] == Proc(p) && !s.killed[p]
    requires r < |s.state| && s.state[r] == RUNNABLE
    requires Runs(Scheduled(s, c, RUNNABLE), es, u) && NeverRuns(Scheduled(s, c, RUNNABLE), es, u, r)
    ensures NeverRuns(Scheduled(s, c, RUNNABLE), es, u, p)
  {
    hide Without;
    var t := Scheduled(s, c, RUNNABLE);
    YieldGoesBehind(s, c, p, r, r);
    YieldStates(s, c, p, r);
    QueueOrder(t, es, u, r, p);
  }

  lemma {:induction false} YieldStates(s: Sched, c: nat, p: nat, r: nat)
    requires SchedInv(s) && c < |s.cur| && s.cur[c] == Proc(p) && !s.killed[p]
    requires r < |s.state| && s.state[r] == RUNNABLE
    ensures var t := Scheduled(s, c, RUNNABLE);
            |t.state| == |s.state| && t.state[p] == RUNNABLE && (t.state[r] == RUNNABLE || t.state[r] == RUNNING)
  {
    hide Without;
    UpdatedInv(s, c, RUNNABLE);
    ScheduledInv(s, c, RUNNABLE);
    if !s.panicking { YieldLetsOthersRun(s, c, p, r); }
  }

  // The variables of the scheduler.
  class Variables {
    var s: Sched

    ghost predicate Valid()
      reads this
    {
      SchedInv(s)
    }

    // _activate_proc
    method Activate(p: nat, onalert: bool) returns (woken: bool)
      requires Valid() && p < |s.state|
      modifies this
      ensures Valid() && s == Activated(old(s), p, onalert)
      ensures woken <==> || old(s).state[p] == SLEEPING || old(s).state[p] == UNUSED
                         || (old(s).state[p] == DEEPSLEEPING && !onalert)
      ensures s == if woken then old(s).(state := old(s).state[p := RUNNABLE], rq := [p] + old(s).rq) else old(s)
    {
      ActivatedInv(s, p, onalert);
      if Ready(s.state[p]) || s.state[p] == ZOMBIE {
        return false;
      }
      woken := true;
      if s.state[p] == SLEEPING || s.state[p] == UNUSED {
        s := s.(state := s.state[p := RUNNABLE], rq := [p] + s.rq);
      } else if onalert {
        return false;
      } else {
        s := s.(state := s.state[p := RUNNABLE], rq := [p] + s.rq);
      }
    }

    // pick_next
    method PickNext() returns (next: Who)
      requires QueueInv(s)
      ensures next == Chosen(s)
      ensures next.Idle? <==> s.panicking || forall p :: p in s.rq ==> !MayRun(s, p)
      ensures next.Proc? ==> exists k :: && 0 <= k < |s.rq| && s.rq[k] == next.p && MayRun(s, next.p)
                                         && forall i :: 0 <= i < k ==> !MayRun(s, s.rq[i])
    {
      if s.panicking {
        return Idle;
      }
      var i := 0;
      while i < |s.rq|
        invariant i <= |s.rq| && Picked(s, s.rq) == Picked(s, s.rq[i..])
        invariant forall j :: 0 <= j < i ==> !MayRun(s, s.rq[j])
      {
        assert s.rq[i] in s.rq && s.rq[i..][1..] == s.rq[i + 1..];
        if s.state[s.rq[i]] == RUNNABLE {
          return Proc(s.rq[i]);
        }
        i := i + 1;
      }
      return Idle;
    }

    // _detach_from_list
    method Detach(p: nat)
      modifies this
      ensures s == old(s).(rq := Without(old(s).rq, p))
    {
      hide Without;
      var i := 0;
      while i < |s.rq| && s.rq[i] != p
        invariant i <= |s.rq| && forall k :: 0 <= k < i ==> s.rq[k] != p
      {
        i := i + 1;
      }
      WithoutAt(s.rq, p, i);
      if i < |s.rq| {
        s := s.(rq := s.rq[..i] + s.rq[i + 1..]);
      }
    }

    // update_this_state
    method UpdateThisState(c: nat, x: ProcState)
      requires Valid() && c < |s.cur| && MayEnter(s, c, x)
      modifies this
      ensures Between(s, c) && s == Updated(old(s), c, x)
    {
      UpdatedInv(s, c, x);
      hide Without, Between, SchedInv;
      if s.cur[c].Idle? {
        s := s.(idle := s.idle[c := x]);
      } else {
        var p := s.cur[c].p;
        if Ready(s.state[p]) { Detach(p); }
        s := s.(state := s.state[p := x]);
        if Ready(x) { s := s.(rq := s.rq + [p]); }
      }
    }

    // sched, called by the process that is current on CPU c. Its two assertions hold.
    method Schedule(c: nat, x: ProcState)
      requires Valid() && c < |s.cur| && MayEnter(s, c, x)
      modifies this
      ensures Valid() && s == Scheduled(old(s), c, x)
    {
      hide Without;
      assert if s.cur[c].Idle? then s.idle[c] == RUNNING else s.state[s.cur[c].p] == RUNNING; // the first ASSERT
      if s.cur[c].Proc? && s.killed[s.cur[c].p] && x != ZOMBIE {
        return;
      }
      UpdateThisState(c, x);
      SwitchedInv(s, c);
      var next := PickNext();
      s := s.(cur := s.cur[c := next]);
      assert if next.Idle? then s.idle[c] == RUNNABLE else s.state[next.p] == RUNNABLE; // the second ASSERT
      if next.Idle? {
        s := s.(idle := s.idle[c := RUNNING]);
      } else {
        s := s.(state := s.state[next.p := RUNNING]);
      }
    }
  }
}
