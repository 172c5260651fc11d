/** src/fs/cache.c: the flag acquired of a cached block against its sleep lock. cache_acquire sets the flag under the
    lock of the cache and takes the lock of the block only after it has given that one up; cache_release clears the flag
    and then posts the lock of the block; evict_block looks only at the flag. */
module HolderFlag {

  import opened Basics

  // coming are the processes that have found the block and set the flag but not tried its lock yet; waiting those
  // asleep on the lock, in the order in which a post wakes them.
  datatype State = State(acquired: bool, coming: set<nat>, holder: Option<nat>, waiting: seq<nat>)

  datatype Action = Flag(p: nat) | Lock(p: nat) | Release

  predicate Enabled(s: State, a: Action) {
    match a
    case Flag(p) => p !in s.coming && p !in s.waiting
    case Lock(p) => p in s.coming
    case Release => s.holder.Some?
  }

  function Next(s: State, a: Action): State
    requires Enabled(s, a)
  {
    match a
    case Flag(p) => State(true, s.coming + {p}, s.holder, s.waiting)
    case Lock(p) =>
      if s.holder.None? then State(s.acquired, s.coming - {p}, Some(p), s.waiting)
      else State(s.acquired, s.coming - {p}, s.holder, s.waiting + [p])
    case Release =>
      if s.waiting == [] then State(false, s.coming, None, [])
      else State(false, s.coming, Some(s.waiting[0]), s.waiting[1..])
  }

  // Somebody has the block or is about to.
  predicate InUse(s: State) { s.holder.Some? || s.waiting != [] || s.coming != {} }

  // A block that somebody points to is not evicted.
  predicate Protected(s: State) { InUse(s) ==> s.acquired }

  predicate Runs(s: State, acts: seq<Action>)
    decreases acts
  {
    acts == [] || (Enabled(s, acts[0]) && Runs(Next(s, acts[0]), acts[1..]))
  }

  // Protected in every state of the run.
  predicate AlwaysProtected(s: State, acts: seq<Action>)
    requires Runs(s, acts)
    decreases acts
  {
    Protected(s) && (acts == [] || AlwaysProtected(Next(s, acts[0]), acts[1..]))
  }

  // Nobody else has found the block whenever it is released.
  predicate ReleasedAlone(s: State, acts: seq<Action>)
    requires Runs(s, acts)
    decreases acts
  {
    || acts == []
    || ((acts[0].Release? ==> s.coming == {} && s.waiting == []) && ReleasedAlone(Next(s, acts[0]), acts[1..]))
  }

  // A block is safe from eviction while it is in use exactly in the runs in which no release finds anybody asleep on
  // the lock or on the way to it.
  lemma {:induction false} ProtectedExactly(s: State, acts: seq<Action>)
    requires Protected(s) && Runs(s, acts)
    ensures AlwaysProtected(s, acts) <==> ReleasedAlone(s, acts)
    decreases acts
  {
    if acts != [] {
      var t := Next(s, acts[0]);
      if Protected(t) { ProtectedExactly(t, acts[1..]); }
    }
  }

  // Two processes are enough to lose the protection: the second one is asleep when the first releases the block,
  lemma {:induction false} WaiterLosesIt()
    ensures var s := State(false, {}, None, []);
            var acts := [Flag(0), Lock(0), Flag(1), Lock(1), Release];
            Runs(s, acts) && !AlwaysProtected(s, acts) && After(s, acts) == State(false, {}, Some(1), [])
  {
    var s := State(false, {}, None, []);
    var s1 := Next(s, Flag(0));
    var s2 := Next(s1, Lock(0));
    var s3 := Next(s2, Flag(1));
    var s4 := Next(s3, Lock(1));
    assert s4 == State(true, {}, Some(0), [1]);
    Step(s4, Release, []);
    Step(s3, Lock(1), [Release]);
    Step(s2, Flag(1), [Lock(1), Release]);
    Step(s1, Lock(0), [Flag(1), Lock(1), Release]);
    Step(s, Flag(0), [Lock(0), Flag(1), Lock(1), Release]);
  }

  // or it is between the flag and the lock, so that no release ever finds anybody asleep.
  lemma {:induction false} LatecomerLosesIt()
    ensures var s := State(false, {}, None, []);
            var acts := [Flag(1), Flag(0), Lock(0), Release, Lock(1)];
            Runs(s, acts) && !AlwaysProtected(s, acts) && After(s, acts) == State(false, {}, Some(1), [])
  {
    var s := State(false, {}, None, []);
    var s1 := Next(s, Flag(1));
    var s2 := Next(s1, Flag(0));
    var s3 := Next(s2, Lock(0));
    var s4 := Next(s3, Release);
    assert s3 == State(true, {1}, Some(0), []) && s4 == State(false, {1}, None, []);
    assert Next(s4, Lock(1)) == State(false, {}, Some(1), []);
    Step(s4, Lock(1), []);
    Step(s3, Release, [Lock(1)]);
    Step(s2, Lock(0), [Release, Lock(1)]);
    Step(s1, Flag(0), [Lock(0), Release, Lock(1)]);
    Step(s, Flag(1), [Flag(0), Lock(0), Release, Lock(1)]);
  }

  // The state at the end of a run.
  function After(s: State, acts: seq<Action>): State
    requires Runs(s, acts)
    decreases acts
  {
    if acts == [] then s else After(Next(s, acts[0]), acts[1..])
  }

  lemma {:induction false} Step(s: State, a: Action, acts: seq<Action>)
    requires Enabled(s, a) && Runs(Next(s, a), acts)
    ensures Runs(s, [a] + acts) && After(s, [a] + acts) == After(Next(s, a), acts)
    ensures AlwaysProtected(s, [a] + acts) <==> Protected(s) && AlwaysProtected(Next(s, a), acts)
  {
    assert ([a] + acts)[1..] == acts;
  }
}
