/** musl/ldso/dynlink.c: extend_bfs_deps and queue_ctors. An object is a number, g[p] lists its direct dependencies. */
module CtorOrder {

  import opened Basics

  type Graph = seq<seq<nat>>

  predicate WfGraph(g: Graph) {
    forall p :: 0 <= p < |g| ==> forall j :: 0 <= j < |g[p]| ==> g[p][j] < |g|
  }

  // ---------- reachability ----------

  predicate IsPath(g: Graph, path: seq<nat>) {
    && |path| > 0 && (forall i :: 0 <= i < |path| ==> path[i] < |g|)
    && forall i :: 0 <= i < |path| - 1 ==> path[i + 1] in g[path[i]]
  }

  ghost predicate Reaches(g: Graph, a: nat, b: nat) {
    exists path :: IsPath(g, path) && path[0] == a && path[|path| - 1] == b
  }

  lemma {:induction false} ReachesSelf(g: Graph, a: nat)
    requires a < |g|
    ensures Reaches(g, a, a)
  {
    assert IsPath(g, [a]);
  }

  lemma {:induction false} ReachesEdge(g: Graph, a: nat, b: nat, c: nat)
    requires WfGraph(g) && Reaches(g, a, b) && c in g[b]
    ensures Reaches(g, a, c)
  {
    var path :| IsPath(g, path) && path[0] == a && path[|path| - 1] == b;
    assert IsPath(g, path + [c]);
  }

  // A set that holds a and, with each object, its dependencies, holds all that a reaches.
  predicate Closed(g: Graph, s: set<nat>) {
    forall x, d :: x in s && x < |g| && d in g[x] ==> d in s
  }

  lemma {:induction false} ClosedPath(g: Graph, s: set<nat>, path: seq<nat>)
    requires Closed(g, s) && IsPath(g, path) && path[0] in s
    ensures path[|path| - 1] in s
    decreases |path|
  {
    if |path| > 1 { ClosedPath(g, s, path[1..]); }
  }

  lemma {:induction false} ClosedReaches(g: Graph, s: set<nat>, a: nat, b: nat)
    requires Closed(g, s) && a in s && Reaches(g, a, b)
    ensures b in s
  {
    var path :| IsPath(g, path) && path[0] == a && path[|path| - 1] == b;
    ClosedPath(g, s, path);
  }

  ghost function ReachSet(g: Graph, a: nat): set<nat> {
    set x | 0 <= x < |g| && Reaches(g, a, x)
  }

  lemma {:induction false} ReachSetClosed(g: Graph, a: nat)
    requires WfGraph(g) && a < |g|
    ensures a in ReachSet(g, a) && Closed(g, ReachSet(g, a))
  {
    ReachesSelf(g, a);
    forall x, d | x in ReachSet(g, a) && x < |g| && d in g[x] ensures d in ReachSet(g, a) {
      ReachesEdge(g, a, x, d);
    }
  }

  // ---------- the search state ----------

  // The work stack, top first: each object is the dependency the one below it is waiting for.
  predicate Chain(g: Graph, next: seq<nat>, work: seq<nat>)
    requires |next| == |g|
  {
    && (forall i :: 0 <= i < |work| ==> work[i] < |g| && next[work[i]] <= |g[work[i]]|)
    && forall i :: 1 <= i < |work| ==> next[work[i]] < |g[work[i]]| && g[work[i]][next[work[i]]] == work[i - 1]
  }

  // What lies deeper in the stack reaches what lies above it.
  lemma {:induction false} ChainReaches(g: Graph, next: seq<nat>, work: seq<nat>, k: nat)
    requires WfGraph(g) && |next| == |g| && Chain(g, next, work) && k < |work|
    ensures Reaches(g, work[k], work[0])
    decreases k
  {
    if k == 0 {
      ReachesSelf(g, work[0]);
    } else {
      ChainReaches(g, next, work[1..], k - 1);
      ReachesEdge(g, work[k], work[1], work[0]);
    }
  }

  // Every dependency of a listed object is marked, and listed before it or on a cycle with it.
  ghost predicate InOrder(g: Graph, q: seq<nat>) {
    forall i, d :: 0 <= i < |q| && q[i] < |g| && d in g[q[i]] ==> d in q[..i] || Reaches(g, d, q[i])
  }

  ghost predicate Searching(g: Graph, reach: set<nat>, mark: seq<bool>, next: seq<nat>, q: seq<nat>, work: seq<nat>) {
    && WfGraph(g) && |mark| == |next| == |g| && Closed(g, reach) && (forall x :: x in reach ==> x < |g|)
    && NoDup(q) && NoDup(work) && (forall x :: x in q ==> x !in work)
    && (forall x :: x in reach ==> (mark[x] <==> x in q || x in work))
    && (forall x :: x in q || x in work ==> x in reach)
    && Chain(g, next, work)
    && (forall x, j :: x in work && 0 <= j < next[x] ==> mark[g[x][j]])
    && (forall x, d :: x in q && d in g[x] ==> mark[d])
    && InOrder(g, q)
  }

  // ---------- the three moves of the search ----------

  lemma {:induction false} Skip(g: Graph, reach: set<nat>, mark: seq<bool>, next: seq<nat>, q: seq<nat>, work: seq<nat>)
    requires Searching(g, reach, mark, next, q, work) && |work| > 0
    requires next[work[0]] < |g[work[0]]| && mark[g[work[0]][next[work[0]]]]
    ensures Searching(g, reach, mark, next[work[0] := next[work[0]] + 1], q, work)
  {
  }

  lemma {:induction false} Push(g: Graph, reach: set<nat>, mark: seq<bool>, next: seq<nat>, q: seq<nat>, work: seq<nat>)
    requires Searching(g, reach, mark, next, q, work) && |work| > 0
    requires next[work[0]] < |g[work[0]]| && !mark[g[work[0]][next[work[0]]]]
    ensures var d := g[work[0]][next[work[0]]];
            Searching(g, reach, mark[d := true], next[d := 0], q, [d] + work)
  {
  }

  // When the object on top has no dependency left, each of them is listed or still below it on the stack.
  lemma {:induction false} Settled(g: Graph, reach: set<nat>, mark: seq<bool>, next: seq<nat>, q: seq<nat>,
                                   work: seq<nat>, d: nat)
    requires Searching(g, reach, mark, next, q, work) && |work| > 0
    requires next[work[0]] == |g[work[0]]| && d in g[work[0]]
    ensures d < |g| && mark[d] && (d in q || Reaches(g, d, work[0]))
  {
    var p := work[0];
    assert p in work;
    var j :| 0 <= j < |g[p]| && g[p][j] == d;
    assert mark[g[p][j]];
    assert d in reach;
    if d in work {
      var k :| 0 <= k < |work| && work[k] == d;
      ChainReaches(g, next, work, k);
    }
  }

  lemma {:induction false} InOrderSnoc(g: Graph, q: seq<nat>, p: nat)
    requires InOrder(g, q) && p < |g| && forall d :: d in g[p] ==> d in q || Reaches(g, d, p)
    ensures InOrder(g, q + [p])
  {
    var r := q + [p];
    forall i, d | 0 <= i < |r| && r[i] < |g| && d in g[r[i]] ensures d in r[..i] || Reaches(g, d, r[i]) {
      if i < |q| {
        assert r[i] == q[i] && r[..i] == q[..i];
      } else {
        assert r[..i] == q;
      }
    }
  }

  lemma {:induction false} Finish(g: Graph, reach: set<nat>, mark: seq<bool>, next: seq<nat>, q: seq<nat>,
                                  work: seq<nat>)
    requires Searching(g, reach, mark, next, q, work) && |work| > 0
    requires next[work[0]] == |g[work[0]]|
    ensures Searching(g, reach, mark, next, q + [work[0]], work[1..])
  {
    var p, w := work[0], work[1..];
    forall d | d in g[p] ensures d < |g| && mark[d] && (d in q || Reaches(g, d, p)) {
      Settled(g, reach, mark, next, q, work, d);
    }
    InOrderSnoc(g, q, p);
    assert forall x :: x in work <==> x == p || x in w;
    assert p !in w;
    assert forall i :: 0 <= i < |w| ==> w[i] == work[i + 1];
  }

  // ---------- the end of the search ----------

  lemma {:induction false} NoDupCard(s: seq<nat>, r: set<nat>)
    requires NoDup(s) && forall x :: x in s ==> x in r
    ensures |s| <= |r|
    decreases |s|
  {
    if s != [] {
      var x, t := s[0], s[1..];
      assert forall y :: y in t ==> y in s && y != x;
      NoDupCard(t, r - {x});
    }
  }

  // The list and the stack never hold more than the reachable objects.
  lemma {:induction false} Room(g: Graph, reach: set<nat>, mark: seq<bool>, next: seq<nat>, q: seq<nat>, work: seq<nat>)
    requires Searching(g, reach, mark, next, q, work)
    ensures |q| + |work| <= |reach|
    ensures (exists x :: x in reach && !mark[x]) ==> |q| + |work| < |reach|
  {
    var all := q + work;
    assert NoDup(all);
    assert forall x :: x in all ==> x in reach;
    NoDupCard(all, reach);
    if exists x :: x in reach && !mark[x] {
      var x :| x in reach && !mark[x];
      NoDupCard(all, reach - {x});
    }
  }

  // With an empty stack, the list is all that the root reaches.
  lemma {:induction false} Complete(g: Graph, root: nat, mark: seq<bool>, next: seq<nat>, q: seq<nat>)
    requires root < |g| && Searching(g, ReachSet(g, root), mark, next, q, []) && root in q
    ensures forall x: nat :: x in q <==> x < |g| && Reaches(g, root, x)
  {
    var s := set x | x in q;
    forall x, d | x in s && x < |g| && d in g[x] ensures d in s {
      assert mark[d] && d in ReachSet(g, root);
    }
    forall x: nat | x < |g| && Reaches(g, root, x) ensures x in q {
      ClosedReaches(g, s, root, x);
    }
  }

  lemma {:induction false} Start(g: Graph, root: nat, mark: seq<bool>, next: seq<nat>)
    requires WfGraph(g) && root < |g| && |mark| == |next| == |g| && mark[root] && next[root] == 0
    requires forall x :: x in ReachSet(g, root) && x != root ==> !mark[x]
    ensures Searching(g, ReachSet(g, root), mark, next, [], [root])
  {
    ReachSetClosed(g, root);
  }

  // ---------- the search as a sequence of moves ----------

  datatype Search = Search(mark: seq<bool>, next: seq<nat>, q: seq<nat>, work: seq<nat>)

  predicate CanMove(g: Graph, s: Search) {
    && |s.mark| == |s.next| == |g| && |s.work| > 0 && s.work[0] < |g|
    && (s.next[s.work[0]] < |g[s.work[0]]| ==> g[s.work[0]][s.next[s.work[0]]] < |g|)
  }

  function Move(g: Graph, s: Search): Search {
    if !CanMove(g, s) then s
    else
      var p := s.work[0];
      if s.next[p] >= |g[p]| then Search(s.mark, s.next, s.q + [p], s.work[1..])
      else
        var d := g[p][s.next[p]];
        if s.mark[d] then Search(s.mark, s.next[p := s.next[p] + 1], s.q, s.work)
        else Search(s.mark[d := true], s.next[d := 0], s.q, [d] + s.work)
  }

  ghost predicate IsStart(g: Graph, root: nat, s: Search) {
    && WfGraph(g) && root < |g| && |s.mark| == |s.next| == |g| && s.mark[root] && s.next[root] == 0
    && (forall x :: x in ReachSet(g, root) && x != root ==> !s.mark[x]) && s.q == [] && s.work == [root]
  }

  // A set of states that holds every start and is kept by every move.
  ghost predicate KeptByMoves(g: Graph, root: nat, p: iset<Search>) {
    && (forall s :: IsStart(g, root, s) ==> s in p)
    && (forall s {:trigger Move(g, s)} :: s in p ==> Move(g, s) in p)
  }

  // s is a state of a search from root.
  ghost predicate Visited(g: Graph, root: nat, s: Search) {
    forall p: iset<Search> :: KeptByMoves(g, root, p) ==> s in p
  }

  ghost predicate SearchInv(g: Graph, root: nat, s: Search) {
    Searching(g, ReachSet(g, root), s.mark, s.next, s.q, s.work) && (root in s.q || root in s.work)
  }

  lemma {:induction false} MoveInv(g: Graph, root: nat, s: Search)
    requires SearchInv(g, root, s)
    ensures SearchInv(g, root, Move(g, s))
  {
    var reach := ReachSet(g, root);
    if CanMove(g, s) {
      var p := s.work[0];
      if s.next[p] >= |g[p]| {
        Finish(g, reach, s.mark, s.next, s.q, s.work);
      } else if s.mark[g[p][s.next[p]]] {
        Skip(g, reach, s.mark, s.next, s.q, s.work);
      } else {
        Push(g, reach, s.mark, s.next, s.q, s.work);
      }
    }
  }

  lemma {:induction false} VisitedInv(g: Graph, root: nat, s: Search)
    requires Visited(g, root, s)
    ensures SearchInv(g, root, s)
  {
    var p := iset t | SearchInv(g, root, t);
    forall t | IsStart(g, root, t) ensures t in p { StartInv(g, root, t); }
    forall t | t in p ensures Move(g, t) in p { MoveInv(g, root, t); }
    assert KeptByMoves(g, root, p);
  }

  lemma {:induction false} VisitedMove(g: Graph, root: nat, s: Search)
    requires Visited(g, root, s)
    ensures Visited(g, root, Move(g, s))
  {
  }

  lemma {:induction false} StartVisited(g: Graph, root: nat, s: Search)
    requires IsStart(g, root, s)
    ensures Visited(g, root, s)
  {
  }

  // The top of the stack can be looked at, and list and stack hold no more than the reachable objects.
  lemma {:induction false} VisitedTop(g: Graph, root: nat, s: Search)
    requires Visited(g, root, s)
    ensures |s.mark| == |s.next| == |g| && |s.q| + |s.work| <= |ReachSet(g, root)|
    ensures |s.work| > 0 ==> CanMove(g, s) && s.next[s.work[0]] <= |g[s.work[0]]|
    ensures |s.work| > 0 && s.next[s.work[0]] < |g[s.work[0]]| && !s.mark[g[s.work[0]][s.next[s.work[0]]]]
            ==> |s.q| + |s.work| < |ReachSet(g, root)|
  {
    VisitedInv(g, root, s);
    Room(g, ReachSet(g, root), s.mark, s.next, s.q, s.work);
    if |s.work| > 0 && s.next[s.work[0]] < |g[s.work[0]]| {
      var d := g[s.work[0]][s.next[s.work[0]]];
      assert d in g[s.work[0]] && d in ReachSet(g, root);
    }
  }

  // When the stack is empty: each reachable object once, dependencies first unless on a cycle.
  lemma {:induction false} VisitedAll(g: Graph, root: nat, s: Search)
    requires Visited(g, root, s) && s.work == []
    ensures |s.mark| == |g| && NoDup(s.q) && InOrder(g, s.q)
    ensures forall x: nat :: x in s.q <==> x < |g| && Reaches(g, root, x)
    ensures WfGraph(g) && (root < |g| ==> s.q == PostOrder(g, root))
  {
    VisitedInv(g, root, s);
    Complete(g, root, s.mark, s.next, s.q);
    if root < |g| { VisitedOrder(g, root, s); }
  }

  // ---------- the order ----------

  // The reference: depth first, by recursion. From p, whose first i dependencies are done: each that has not been seen
  // is visited in turn, and then p is listed. The result is what has been seen then and the list.
  function Dfs(g: Graph, seen: set<nat>, q: seq<nat>, p: nat, i: nat): (r: (set<nat>, seq<nat>))
    requires WfGraph(g) && p < |g| && i <= |g[p]|
    ensures seen <= r.0
    decreases Below(|g|) - seen, |g[p]| - i
  {
    if i == |g[p]| then (seen, q + [p])
    else
      var d := g[p][i];
      if d in seen then Dfs(g, seen, q, p, i + 1)
      else
        assert d in Below(|g|) - seen;
        var r := Dfs(g, seen + {d}, q, d, 0);
        Dfs(g, r.0, r.1, p, i + 1)
  }

  function PostOrder(g: Graph, root: nat): seq<nat>
    requires WfGraph(g) && root < |g|
  {
    Dfs(g, {root}, [], root, 0).1
  }

  lemma {:induction false} DfsVisit(g: Graph, seen: set<nat>, q: seq<nat>, p: nat, i: nat)
    requires WfGraph(g) && p < |g| && i < |g[p]| && g[p][i] !in seen
    ensures var r := Dfs(g, seen + {g[p][i]}, q, g[p][i], 0); Dfs(g, seen, q, p, i) == Dfs(g, r.0, r.1, p, i)
  {
  }

  predicate OnStack(g: Graph, next: seq<nat>, work: seq<nat>)
    requires |next| == |g|
  {
    forall k :: 0 <= k < |work| ==> work[k] < |g| && next[work[k]] <= |g[work[k]]|
  }

  // What the list becomes when the objects on the stack are finished by recursion, the top first.
  function Unwind(g: Graph, seen: set<nat>, q: seq<nat>, next: seq<nat>, work: seq<nat>): seq<nat>
    requires WfGraph(g) && |next| == |g| && OnStack(g, next, work)
    decreases work
  {
    if work == [] then q
    else
      var r := Dfs(g, seen, q, work[0], next[work[0]]);
      Unwind(g, r.0, r.1, next, work[1..])
  }

  lemma {:induction false} UnwindSame(g: Graph, seen: set<nat>, q: seq<nat>, next: seq<nat>, next': seq<nat>,
                                      work: seq<nat>)
    requires WfGraph(g) && |next| == |next'| == |g| && OnStack(g, next, work)
    requires forall k :: 0 <= k < |work| ==> next'[work[k]] == next[work[k]]
    ensures Unwind(g, seen, q, next', work) == Unwind(g, seen, q, next, work)
    decreases work
  {
    hide Dfs;
    if work != [] {
      var r := Dfs(g, seen, q, work[0], next[work[0]]);
      UnwindSame(g, r.0, r.1, next, next', work[1..]);
    }
  }

  function Seen(s: Search): set<nat> { set x | x in s.q + s.work }

  // The list that recursion would make of a state of the search.
  ghost predicate LeadsTo(g: Graph, s: Search, order: seq<nat>) {
    && WfGraph(g) && |s.next| == |g| && OnStack(g, s.next, s.work)
    && Unwind(g, Seen(s), s.q, s.next, s.work) == order
  }

  // An object of the search is marked exactly if it is on the list or on the stack.
  lemma {:induction false} SeenIsMarked(g: Graph, root: nat, s: Search)
    requires SearchInv(g, root, s) && CanMove(g, s) && s.next[s.work[0]] < |g[s.work[0]]|
    ensures var d := g[s.work[0]][s.next[s.work[0]]]; s.mark[d] <==> d in Seen(s)
    ensures forall k :: 1 <= k < |s.work| ==> s.work[k] != s.work[0]
  {
    var d := g[s.work[0]][s.next[s.work[0]]];
    assert s.work[0] in s.work && d in g[s.work[0]] && d in ReachSet(g, root);
  }

  lemma {:induction false} FinishOrder(g: Graph, s: Search, order: seq<nat>)
    requires CanMove(g, s) && LeadsTo(g, s, order) && s.next[s.work[0]] == |g[s.work[0]]|
    ensures LeadsTo(g, Move(g, s), order)
  {
    var p, t := s.work[0], Move(g, s);
    assert s.work == [p] + s.work[1..];
    assert Seen(t) == Seen(s);
    assert Dfs(g, Seen(s), s.q, p, s.next[p]) == (Seen(s), s.q + [p]);
  }

  lemma {:induction false} SkipOrder(g: Graph, root: nat, s: Search, order: seq<nat>)
    requires SearchInv(g, root, s) && CanMove(g, s) && LeadsTo(g, s, order) && s.next[s.work[0]] < |g[s.work[0]]|
    requires s.mark[g[s.work[0]][s.next[s.work[0]]]]
    ensures LeadsTo(g, Move(g, s), order)
  {
    hide SearchInv, Seen;
    var p, t, seen := s.work[0], Move(g, s), Seen(s);
    SeenIsMarked(g, root, s);
    assert Dfs(g, seen, s.q, p, s.next[p]) == Dfs(g, seen, s.q, p, s.next[p] + 1);
    var r := Dfs(g, seen, s.q, p, s.next[p]);
    assert Seen(t) == seen by { SeenSame(s, t); }
    hide Dfs;
    UnwindSame(g, r.0, r.1, s.next, t.next, s.work[1..]);
  }

  lemma {:induction false} SeenSame(s: Search, t: Search)
    requires s.q == t.q && s.work == t.work
    ensures Seen(s) == Seen(t)
  {
  }

  lemma {:induction false} PushOrder(g: Graph, root: nat, s: Search, order: seq<nat>)
    requires SearchInv(g, root, s) && CanMove(g, s) && LeadsTo(g, s, order) && s.next[s.work[0]] < |g[s.work[0]]|
    requires !s.mark[g[s.work[0]][s.next[s.work[0]]]]
    ensures LeadsTo(g, Move(g, s), order)
  {
    hide SearchInv, Dfs;
    var p, t := s.work[0], Move(g, s);
    var d := g[p][s.next[p]];
    SeenIsMarked(g, root, s);
    assert Seen(t) == Seen(s) + {d} && t.work[1..] == s.work;
    assert forall k :: 0 <= k < |s.work| ==> s.work[k] in Seen(s);
    var r := Dfs(g, Seen(t), s.q, d, 0);
    DfsVisit(g, Seen(s), s.q, p, s.next[p]);
    UnwindSame(g, r.0, r.1, s.next, t.next, s.work);
  }

  // Every state of the search leads to the reference.
  lemma {:induction false} VisitedOrder(g: Graph, root: nat, s: Search)
    requires WfGraph(g) && root < |g| && Visited(g, root, s)
    ensures LeadsTo(g, s, PostOrder(g, root))
  {
    hide SearchInv, LeadsTo, Move, PostOrder;
    var order := PostOrder(g, root);
    var p := iset t | SearchInv(g, root, t) && LeadsTo(g, t, order);
    forall t | IsStart(g, root, t) ensures t in p {
      StartInv(g, root, t);
      StartOrder(g, root, t);
    }
    forall t | t in p ensures Move(g, t) in p {
      MoveInv(g, root, t);
      MoveOrder(g, root, t, order);
    }
    assert KeptByMoves(g, root, p);
  }

  lemma {:induction false} StartInv(g: Graph, root: nat, s: Search)
    requires IsStart(g, root, s)
    ensures SearchInv(g, root, s)
  {
    Start(g, root, s.mark, s.next);
  }

  lemma {:induction false} StartOrder(g: Graph, root: nat, s: Search)
    requires IsStart(g, root, s)
    ensures LeadsTo(g, s, PostOrder(g, root))
  {
    assert Seen(s) == {root} && s.work[1..] == [];
  }

  lemma {:induction false} MoveOrder(g: Graph, root: nat, s: Search, order: seq<nat>)
    requires SearchInv(g, root, s) && LeadsTo(g, s, order)
    ensures LeadsTo(g, Move(g, s), order)
  {
    hide LeadsTo;
    if CanMove(g, s) {
      var p := s.work[0];
      if s.next[p] == |g[p]| {
        FinishOrder(g, s, order);
      } else if s.mark[g[p][s.next[p]]] {
        SkipOrder(g, root, s, order);
      } else {
        PushOrder(g, root, s, order);
      }
    }
  }

  // ---------- the shared buffer ----------

  // The list fills the buffer from the front, the stack from the back.
  ghost predicate Shared(buf: seq<int>, q: seq<nat>, spos: nat, stack: seq<nat>) {
    && |q| <= spos && spos + |stack| == |buf|
    && (forall i :: 0 <= i < |q| ==> buf[i] == q[i])
    && (forall i :: 0 <= i < |stack| ==> buf[spos + i] == stack[i])
  }

  const NULL: int := -1

  // stack[--spos] = p
  method PushStack(buf: array<int>, spos: nat, p: nat, ghost q: seq<nat>, ghost stack: seq<nat>) returns (spos': nat)
    requires Shared(buf[..], q, spos, stack) && |q| < spos
    modifies buf
    ensures spos' == spos - 1 && Shared(buf[..], q, spos', [p] + stack)
  {
    spos' := spos - 1;
    buf[spos'] := p;
  }

  // p = stack[spos++]
  method PopStack(buf: array<int>, spos: nat, ghost q: seq<nat>, ghost stack: seq<nat>) returns (p: nat, spos': nat)
    requires Shared(buf[..], q, spos, stack) && |stack| > 0
    ensures p == stack[0] && spos' == spos + 1 && Shared(buf[..], q, spos', stack[1..])
  {
    assert buf[..][spos + 0] == stack[0];
    p := buf[spos];
    spos' := spos + 1;
  }

  // queue[qpos++] = p
  method Enqueue(buf: array<int>, qpos: nat, p: nat, ghost q: seq<nat>, ghost spos: nat, ghost stack: seq<nat>)
    returns (qpos': nat)
    requires Shared(buf[..], q, spos, stack) && qpos == |q| < spos
    modifies buf
    ensures qpos' == qpos + 1 && Shared(buf[..], q + [p], spos, stack)
  {
    buf[qpos] := p;
    qpos' := qpos + 1;
  }

  // The fields mark and next_dep of all objects.
  class Linker {
    const g: Graph
    var mark: seq<bool>
    var nextDep: seq<nat>

    ghost function Now(q: seq<nat>, work: seq<nat>): Search
      reads this
    {
      Search(mark, nextDep, q, work)
    }

    // The inner loop of queue_ctors: go down from p as long as there are unmarked dependencies.
    method Descend(root: nat, p0: nat, buf: array<int>, spos0: nat, ghost q: seq<nat>, ghost work0: seq<nat>)
      returns (p: nat, spos: nat, ghost work: seq<nat>)
      requires Visited(g, root, Now(q, work0)) && |work0| > 0 && work0[0] == p0
      requires Shared(buf[..], q, spos0, work0[1..]) && |ReachSet(g, root)| < buf.Length
      modifies this, buf
      ensures Visited(g, root, Now(q, work)) && |work| > 0 && work[0] == p && CanMove(g, Now(q, work))
              && nextDep[p] == |g[p]|
      ensures Shared(buf[..], q, spos, work[1..])
    {
      p, spos, work := p0, spos0, work0;
      VisitedTop(g, root, Now(q, work));
      while nextDep[p] < |g[p]|
        invariant Visited(g, root, Now(q, work)) && |work| > 0 && work[0] == p
        invariant CanMove(g, Now(q, work)) && nextDep[p] <= |g[p]| && |q| + |work| <= |ReachSet(g, root)|
        invariant Shared(buf[..], q, spos, work[1..])
        decreases |ReachSet(g, root)| - |work|, |g[p]| - nextDep[p]
      {
        VisitedTop(g, root, Now(q, work));
        VisitedMove(g, root, Now(q, work));
        if mark[g[p][nextDep[p]]] {
          nextDep := nextDep[p := nextDep[p] + 1];
        } else {
          assert [p] + work[1..] == work;
          spos := PushStack(buf, spos, p, q, work[1..]);
          p := g[p][nextDep[p]];
          work := [p] + work;
          nextDep := nextDep[p := 0];
          mark := mark[p := true];
        }
        VisitedTop(g, root, Now(q, work));
      }
    }

    // The loops of queue_ctors that clear the marks and count; all is the list built by extend_bfs_deps, if it was.
    method ClearMarks(all: Option<seq<nat>>) returns (cnt: nat)
      requires |mark| == |g| && (all.Some? ==> forall i :: 0 <= i < |all.value| ==> all.value[i] < |g|)
      modifies this`mark
      ensures |mark| == |g|
      ensures all.None? ==> cnt == |g| && forall x :: 0 <= x < |g| ==> !mark[x]
      ensures all.Some? ==> cnt == |all.value| + 1 && forall x :: x in all.value ==> !mark[x]
    {
      cnt := 0;
      if all.Some? {
        while cnt < |all.value|
          invariant 0 <= cnt <= |all.value| && |mark| == |g|
          invariant forall i :: 0 <= i < cnt ==> !mark[all.value[i]]
        {
          mark := mark[all.value[cnt] := false];
          cnt := cnt + 1;
        }
        cnt := cnt + 1; // self, not included in deps
      } else {
        while cnt < |g|
          invariant 0 <= cnt <= |g| && |mark| == |g|
          invariant forall x :: 0 <= x < cnt ==> !mark[x]
        {
          mark := mark[cnt := false];
          cnt := cnt + 1;
        }
      }
    }

    // The pseudo-DFS of queue_ctors.
    method Sort(root: nat, buf: array<int>, ghost work0: seq<nat>) returns (qpos: nat, ghost q: seq<nat>)
      requires Visited(g, root, Now([], work0)) && |work0| == 1 && buf.Length > 0
               && Shared(buf[..], [], buf.Length - 1, work0)
      requires |ReachSet(g, root)| < buf.Length
      modifies this, buf
      ensures Visited(g, root, Now(q, [])) && qpos == |q| < buf.Length && forall i :: 0 <= i < |q| ==> buf[i] == q[i]
    {
      var spos: nat := buf.Length - 1;
      qpos, q := 0, [];
      ghost var work := work0;
      VisitedTop(g, root, Now(q, work));
      while spos < buf.Length
        invariant Visited(g, root, Now(q, work)) && Shared(buf[..], q, spos, work) && qpos == |q|
        invariant |q| + |work| <= |ReachSet(g, root)|
        decreases |ReachSet(g, root)| - |q|
      {
        var p;
        p, spos := PopStack(buf, spos, q, work);
        p, spos, work := Descend(root, p, buf, spos, q, work);
        VisitedTop(g, root, Now(q, work));
        VisitedMove(g, root, Now(q, work));
        qpos := Enqueue(buf, qpos, p, q, spos, work[1..]);
        q, work := q + [p], work[1..];
      }
      assert work == [];
    }

    // The loop at the end of queue_ctors that clears the marks again.
    method ClearListed(buf: array<int>, qpos: nat, ghost q: seq<nat>)
      requires |mark| == |g| && qpos == |q| <= buf.Length && forall i :: 0 <= i < |q| ==> buf[i] == q[i] && q[i] < |g|
      modifies this`mark
      ensures |mark| == |g| && forall x :: x in q ==> !mark[x]
    {
      var i := 0;
      while i < qpos
        invariant 0 <= i <= qpos && |mark| == |g|
        invariant forall j :: 0 <= j < i ==> !mark[q[j]]
      {
        mark := mark[buf[i] := false];
        i := i + 1;
      }
    }

    // The first loop of extend_bfs_deps: the direct dependencies are marked.
    method MarkDirect(p: nat)
      requires WfGraph(g) && p < |g| == |mark| && forall x :: 0 <= x < |g| ==> !mark[x]
      modifies this`mark
      ensures |mark| == |g| && forall x :: 0 <= x < |g| ==> (mark[x] <==> x in g[p])
    {
      var i := 0;
      while i < |g[p]|
        invariant 0 <= i <= |g[p]| && |mark| == |g|
        invariant forall x :: 0 <= x < |g| ==> (mark[x] <==> x in g[p][..i])
      {
        assert g[p][..i + 1] == g[p][..i] + [g[p][i]];
        mark := mark[g[p][i] := true];
        i := i + 1;
      }
      assert g[p][..i] == g[p];
    }

    // The first inner loop of a round: how many slots the reallocation must add.
    method CountUnlisted(dep: nat) returns (cnt: nat)
      requires WfGraph(g) && dep < |g| == |mark|
      ensures cnt == Unlisted(mark, g[dep])
    {
      var j := 0;
      cnt := 0;
      while j < |g[dep]|
        invariant 0 <= j <= |g[dep]| && cnt == Unlisted(mark, g[dep][..j])
      {
        assert g[dep][..j + 1][..j] == g[dep][..j];
        if !mark[g[dep][j]] {
          cnt := cnt + 1;
        }
        j := j + 1;
      }
      assert g[dep][..j] == g[dep];
    }

    // One round of the main loop: the unmarked dependencies of dep are counted, room is made, and they are appended.
    method AppendDeps(dep: nat, all0: seq<nat>, ghost p: nat) returns (all: seq<nat>)
      requires WfGraph(g) && dep < |g| == |mark| && p < |g| && Listing(g, p, mark, all0) && ReachesBelow(g, p, dep)
      modifies this`mark
      ensures |mark| == |g| && Listing(g, p, mark, all) && |all0| <= |all| && all[..|all0|] == all0
      ensures forall d :: d in g[dep] ==> d in all
      ensures all == all0 + Fresh(all0, g[dep])
    {
      hide Fresh, ReachesBelow, Unlisted;
      var cnt := CountUnlisted(dep);
      var room := |all0| + cnt + 1; // the slots of the reallocated array
      all := all0;
      var j := 0;
      assert g[dep][j..] == g[dep];
      while j < |g[dep]|
        invariant 0 <= j <= |g[dep]| && |mark| == |g| && Listing(g, p, mark, all) && |all0| <= |all|
                  && all[..|all0|] == all0
        invariant forall d :: d in g[dep][..j] ==> d in all
        invariant all + Fresh(all, g[dep][j..]) == all0 + Fresh(all0, g[dep])
        invariant Unlisted(mark, g[dep][j..]) + |all| < room
      {
        var d := g[dep][j];
        assert g[dep][j..][1..] == g[dep][j + 1..] && g[dep][..j + 1] == g[dep][..j] + [d];
        UnlistedHead(mark, g[dep][j..]);
        FreshStep(all, g[dep], j);
        if !mark[d] {
          assert |all| + 1 < room; // the slot is there, and one for the final NULL
          ListingSnoc(g, p, mark, all, dep, d);
          UnlistedFewer(mark, g[dep][j + 1..], d);
          mark := mark[d := true];
          all := all + [d];
        }
        j := j + 1;
      }
      assert g[dep][..j] == g[dep] && g[dep][j..] == [];
      FreshNone(all);
    }

    // The main loop of extend_bfs_deps, over a list that grows. allocates says in which rounds there is memory for the
    // longer list; without it the round is skipped, or at run time the loop left for good.
    method ListDeps(p: nat, runtime: bool, allocates: nat -> bool) returns (all: seq<nat>, jumps: bool)
      requires WfGraph(g) && p < |g| == |mark| && Listing(g, p, mark, g[p])
      modifies this`mark
      ensures |mark| == |g| && Listing(g, p, mark, all)
      ensures jumps <==> runtime && exists k :: 0 <= k < |all| && !allocates(k)
      ensures !jumps ==> Explored(g, all, |all|, allocates) && all == Bfs(g, g[p], 0, allocates)
    {
      hide Listing, ReachesBelow, Fresh;
      all := g[p];
      var i := 0;
      while i < |all|
        invariant 0 <= i <= |all| && |mark| == |g| && Listing(g, p, mark, all)
        invariant Explored(g, all, i, allocates) && (runtime ==> forall k :: 0 <= k < i ==> allocates(k))
        invariant InGraph(g, all) && Bfs(g, all, i, allocates) == Bfs(g, g[p], 0, allocates)
        decreases |g| + |g[p]| - i
      {
        ListingAt(g, p, mark, all, i);
        ghost var was := all;
        if allocates(i) {
          BfsRound(g, all, i, allocates);
          all := AppendDeps(all[i], all, p);
          ExploredStep(g, was, all, i, allocates);
        } else if runtime {
          return all, true;
        }
        i := i + 1;
      }
      return all, false;
    }

    // extend_bfs_deps: all that p reaches by at least one edge; p itself is among it exactly when p lies on a cycle.
    // Where there is no memory, the dependencies of the object at this place of the list are left out, or at run time
    // the function jumps to the caller of dlopen, with the marks still set.
    method ExtendBfsDeps(p: nat, runtime: bool, allocates: nat -> bool) returns (all: seq<nat>, jumps: bool)
      requires WfGraph(g) && p < |g| == |mark| && forall x :: 0 <= x < |g| ==> !mark[x]
      modifies this`mark
      ensures jumps <==> runtime && exists k :: 0 <= k < |all| && !allocates(k)
      ensures forall x :: x in all ==> x < |g| && ReachesBelow(g, p, x)
      ensures (forall k :: 0 <= k < |all| ==> allocates(k)) ==>
                forall x :: x in all <==> 0 <= x < |g| && ReachesBelow(g, p, x)
      ensures !jumps ==> Explored(g, all, |all|, allocates) && all == Bfs(g, g[p], 0, allocates)
      // The direct dependencies first, as they were; each other object once.
      ensures |all| >= |g[p]| && all[..|g[p]|] == g[p]
      ensures NoDup(all[|g[p]|..]) && forall x :: x in all[|g[p]|..] ==> x !in g[p]
      ensures |mark| == |g| && forall x :: 0 <= x < |g| ==> (mark[x] <==> jumps && x in all)
    {
      MarkDirect(p);
      ListingStart(g, p, mark);
      all, jumps := ListDeps(p, runtime, allocates);
      if forall k :: 0 <= k < |all| ==> allocates(k) { ListingComplete(g, p, mark, all, allocates); }
      if !jumps {
        var _ := ClearMarks(None);
      }
    }

    // queue_ctors once the buffer is there. The list q is in it, followed by NULL.
    method FillQueue(root: nat, all: Option<seq<nat>>, queue: array<int>) returns (qpos: nat, ghost q: seq<nat>)
      requires WfGraph(g) && |mark| == |nextDep| == |g| && root < |g| && ListsBelow(g, root, all)
      requires queue.Length == Slots(g, all)
      requires if all.None? then forall x :: 0 <= x < |g| ==> !mark[x] else forall x :: x in all.value ==> !mark[x]
      modifies this, queue
      ensures qpos == |q| < queue.Length && queue[|q|] == NULL && forall i :: 0 <= i < |q| ==> queue[i] == q[i]
      ensures NoDup(q) && (forall x: nat :: x in q <==> x < |g| && Reaches(g, root, x)) && InOrder(g, q)
      ensures q == PostOrder(g, root)
      ensures |mark| == |g| && forall x :: x in q ==> !mark[x]
    {
      RoomEnough(g, root, all, queue.Length);
      var spos := PushStack(queue, queue.Length, root, [], []);
      nextDep := nextDep[root := 0];
      mark := mark[root := true];
      assert [root] + [] == [root];
      Unmarked(g, root, all, mark);
      StartVisited(g, root, Now([], [root]));
      qpos, q := Sort(root, queue, [root]);
      VisitedAll(g, root, Now(q, []));
      queue[qpos] := NULL;
      assert forall i :: 0 <= i < |q| ==> q[i] in q;
      ClearListed(queue, qpos, q);
    }

    // The last loop of queue_ctors: for each object whose constructor was left by a thread that is gone, the queue is
    // freed; at run time the first such object ends the loop.
    method FreeTorn(queue: array<int>, qpos: nat, torn: seq<bool>, runtime: bool, ghost q: seq<nat>)
      returns (frees: nat)
      requires |torn| == |g| && qpos == |q| <= queue.Length
      requires forall i :: 0 <= i < |q| ==> queue[i] == q[i] && q[i] < |g|
      ensures frees == 0 <==> forall x :: x in q ==> !torn[x]
      ensures frees == if runtime && TornIn(torn, q) > 0 then 1 else TornIn(torn, q)
    {
      var i := 0;
      frees := 0;
      assert q[..0] == [];
      while i < qpos
        invariant 0 <= i <= qpos && frees == TornIn(torn, q[..i]) && (runtime ==> frees == 0)
      {
        assert q[..i + 1][..i] == q[..i];
        if torn[queue[i]] {
          frees := frees + 1;
          if runtime {
            TornMore(torn, q, i + 1);
            TornNone(torn, q);
            return;
          }
        }
        i := i + 1;
      }
      assert q[..i] == q;
      TornNone(torn, q);
    }

    // queue_ctors. Inputs of the environment: whether the linker runs as ldd, whether it is past start-up (failures
    // then jump to the caller of dlopen), whether root is the main program, whether calloc succeeds, and for which
    // objects a constructor was running in a thread that a fork left behind.
    method QueueCtors(root: nat, all: Option<seq<nat>>, lddMode: bool, runtime: bool, isHead: bool, allocates: bool,
                      torn: seq<bool>) returns (out: Outcome, queue: array<int>, ghost q: seq<nat>)
      requires WfGraph(g) && |mark| == |nextDep| == |g| == |torn| && root < |g| && ListsBelow(g, root, all)
      modifies this
      ensures out == if lddMode then NoQueue
                     else if !allocates && !(isHead && Slots(g, all) <= BUILTIN_SLOTS) then Failed(runtime)
                     else if exists x: nat :: x < |g| && Reaches(g, root, x) && torn[x]
                       then Torn(runtime, if runtime then 1 else TornIn(torn, q))
                     else Queued
      ensures !out.NoQueue? && !out.Failed? ==> && |q| < queue.Length && queue[|q|] == NULL
                                                && (forall i :: 0 <= i < |q| ==> queue[i] == q[i])
      // Each object the root reaches, once.
      ensures !out.NoQueue? && !out.Failed? ==>
                NoDup(q) && forall x: nat :: x in q <==> x < |g| && Reaches(g, root, x)
      // In the order in which a recursive search depth first would finish them.
      ensures !out.NoQueue? && !out.Failed? ==> q == PostOrder(g, root)
      // A dependency comes before its dependent, unless the two lie on a cycle.
      ensures !out.NoQueue? && !out.Failed? ==> InOrder(g, q) && |mark| == |g| && forall x :: x in q ==> !mark[x]
    {
      queue, q := new int[0], [];
      if lddMode {
        return NoQueue, queue, q;
      }
      assert all.Some? ==> forall i :: 0 <= i < |all.value| ==> all.value[i] in all.value;
      var cnt := ClearMarks(all);
      cnt := cnt + 1; // termination slot
      if !(isHead && cnt <= BUILTIN_SLOTS) && !allocates {
        return Failed(runtime), queue, q;
      }
      queue := new int[cnt];
      var qpos;
      qpos, q := FillQueue(root, all, queue);
      assert forall i :: 0 <= i < |q| ==> q[i] in q;
      var frees := FreeTorn(queue, qpos, torn, runtime, q);
      out := if frees > 0 then Torn(runtime, frees) else Queued;
    }
  }

  const BUILTIN_SLOTS: nat := 4

  // How queue_ctors ends: no queue in ldd mode; no memory, after which it jumps or returns no queue; a queue with
  // objects whose constructors cannot complete, which it has freed so many times before it jumps or returns it; or the
  // queue.
  datatype Outcome = NoQueue | Failed(jumps: bool) | Torn(jumps: bool, frees: nat) | Queued

  // How many members of q are torn.
  function TornIn(torn: seq<bool>, q: seq<nat>): nat
    decreases q
  {
    if q == [] then 0
    else
      var n := |q| - 1;
      TornIn(torn, q[..n]) + if q[n] < |torn| && torn[q[n]] then 1 else 0
  }

  lemma {:induction false} TornMore(torn: seq<bool>, q: seq<nat>, i: nat)
    requires i <= |q|
    ensures TornIn(torn, q[..i]) <= TornIn(torn, q)
    decreases |q|
  {
    if i == |q| {
      assert q[..i] == q;
    } else {
      TornMore(torn, q[..|q| - 1], i);
      assert q[..|q| - 1][..i] == q[..i];
    }
  }

  lemma {:induction false} TornNone(torn: seq<bool>, q: seq<nat>)
    requires forall i :: 0 <= i < |q| ==> q[i] < |torn|
    ensures TornIn(torn, q) == 0 <==> forall x :: x in q ==> !torn[x]
    decreases q
  {
    if q != [] {
      var n := |q| - 1;
      TornNone(torn, q[..n]);
      assert q == q[..n] + [q[n]];
    }
  }

  // The list built by extend_bfs_deps, if it was.
  ghost predicate ListsBelow(g: Graph, root: nat, all: Option<seq<nat>>)
    requires root < |g|
  {
    all.Some? ==> forall x :: x in all.value <==> 0 <= x < |g| && ReachesBelow(g, root, x)
  }

  function Slots(g: Graph, all: Option<seq<nat>>): nat { if all.Some? then |all.value| + 2 else |g| + 1 }

  // x is reached by at least one edge.
  ghost predicate ReachesBelow(g: Graph, root: nat, x: nat)
    requires root < |g|
  {
    exists d :: d in g[root] && Reaches(g, d, x)
  }

  lemma {:induction false} BelowOrSelf(g: Graph, root: nat, x: nat)
    requires WfGraph(g) && root < |g|
    ensures Reaches(g, root, x) <==> x == root || ReachesBelow(g, root, x)
  {
    ReachesSelf(g, root);
    if Reaches(g, root, x) && x != root {
      var path :| IsPath(g, path) && path[0] == root && path[|path| - 1] == x;
      assert IsPath(g, path[1..]);
      assert path[1] in g[root] && Reaches(g, path[1], x);
    }
    if ReachesBelow(g, root, x) {
      var d :| d in g[root] && Reaches(g, d, x);
      var path :| IsPath(g, path) && path[0] == d && path[|path| - 1] == x;
      assert IsPath(g, [root] + path);
    }
  }

  lemma {:induction false} RoomEnough(g: Graph, root: nat, all: Option<seq<nat>>, cnt: nat)
    requires WfGraph(g) && root < |g| && ListsBelow(g, root, all) && cnt == Slots(g, all)
    ensures |ReachSet(g, root)| < cnt
  {
    var r := ReachSet(g, root);
    if all.Some? {
      forall x | x in r ensures x in [root] + all.value { BelowOrSelf(g, root, x); }
      SetInSeq(r, [root] + all.value);
    } else {
      SubsetCard(r, Below(|g|));
    }
  }

  lemma {:induction false} SetInSeq(r: set<nat>, s: seq<nat>)
    requires forall x :: x in r ==> x in s
    ensures |r| <= |s|
    decreases |s|
  {
    if s != [] {
      SetInSeq(r - {s[0]}, s[1..]);
    } else {
      assert r == {};
    }
  }

  lemma {:induction false} Unmarked(g: Graph, root: nat, all: Option<seq<nat>>, mark: seq<bool>)
    requires WfGraph(g) && root < |g| == |mark| && ListsBelow(g, root, all)
    requires if all.None? then forall x :: 0 <= x < |g| && x != root ==> !mark[x]
             else forall x :: x in all.value && x != root ==> !mark[x]
    ensures forall x :: x in ReachSet(g, root) && x != root ==> !mark[x]
  {
    forall x | x in ReachSet(g, root) && x != root ensures !mark[x] { BelowOrSelf(g, root, x); }
  }

  // ---------- the list built by extend_bfs_deps ----------

  ghost predicate Listing(g: Graph, p: nat, mark: seq<bool>, all: seq<nat>)
    requires p < |g|
  {
    && |mark| == |g| && (forall x :: 0 <= x < |g| ==> (mark[x] <==> x in all))
    && (forall x :: x in all ==> x < |g| && ReachesBelow(g, p, x))
    && |all| >= |g[p]| && all[..|g[p]|] == g[p]
    && NoDup(all[|g[p]|..]) && (forall x :: x in all[|g[p]|..] ==> x !in g[p])
  }

  // The dependencies of the first n members are in the list, but for those there was no memory for.
  predicate Explored(g: Graph, all: seq<nat>, n: nat, allocates: nat -> bool) {
    n <= |all| && forall k, d :: 0 <= k < n && allocates(k) && all[k] < |g| && d in g[all[k]] ==> d in all
  }

  lemma {:induction false} ExploredStep(g: Graph, was: seq<nat>, all: seq<nat>, i: nat, allocates: nat -> bool)
    requires Explored(g, was, i, allocates) && i < |was| <= |all| && all[..|was|] == was && was[i] < |g|
             && forall d :: d in g[was[i]] ==> d in all
    ensures Explored(g, all, i + 1, allocates)
  {
    assert forall k :: 0 <= k < |was| ==> was[k] == all[k];
    assert forall x :: x in was ==> x in all;
  }

  // Those of the dependencies that are not listed yet, once each, in their order.
  function Fresh(all: seq<nat>, deps: seq<nat>): seq<nat>
    decreases deps
  {
    if deps == [] then []
    else if deps[0] in all then Fresh(all, deps[1..])
    else [deps[0]] + Fresh(all + [deps[0]], deps[1..])
  }

  predicate InGraph(g: Graph, all: seq<nat>) { forall k :: 0 <= k < |all| ==> all[k] < |g| }

  function Left(g: Graph, all: seq<nat>): set<nat> { set x | x in Below(|g|) && x !in all }

  lemma {:induction false} FreshNone(all: seq<nat>)
    ensures all + Fresh(all, []) == all
  {
  }

  lemma {:induction false} FreshStep(all: seq<nat>, deps: seq<nat>, j: nat)
    requires j < |deps|
    ensures var rest := deps[j + 1..];
            all + Fresh(all, deps[j..]) ==
            if deps[j] in all then all + Fresh(all, rest) else all + [deps[j]] + Fresh(all + [deps[j]], rest)
  {
    assert deps[j..][1..] == deps[j + 1..];
  }

  lemma {:induction false} FreshNew(g: Graph, all: seq<nat>, deps: seq<nat>)
    requires InGraph(g, deps)
    ensures InGraph(g, Fresh(all, deps)) && forall x :: x in Fresh(all, deps) ==> x !in all
    decreases deps
  {
    if deps != [] {
      FreshNew(g, all, deps[1..]);
      FreshNew(g, all + [deps[0]], deps[1..]);
    }
  }

  // The reference: breadth first. The objects of the list are opened one after the other, where there is memory, and
  // what is new goes to its end.
  ghost function Bfs(g: Graph, all: seq<nat>, i: nat, allocates: nat -> bool): seq<nat>
    requires WfGraph(g) && InGraph(g, all) && i <= |all|
    decreases Left(g, all), |all| - i
  {
    if i == |all| then all
    else if !allocates(i) then Bfs(g, all, i + 1, allocates)
    else
      FreshNew(g, all, g[all[i]]);
      var new_ := Fresh(all, g[all[i]]);
      if new_ == [] then Bfs(g, all, i + 1, allocates)
      else
        assert new_[0] in new_ && new_[0] in Left(g, all) && new_[0] !in Left(g, all + new_);
        Bfs(g, all + new_, i + 1, allocates)
  }

  lemma {:induction false} BfsRound(g: Graph, all: seq<nat>, i: nat, allocates: nat -> bool)
    requires WfGraph(g) && InGraph(g, all) && i < |all| && allocates(i)
    ensures var now := all + Fresh(all, g[all[i]]);
            InGraph(g, now) && Bfs(g, now, i + 1, allocates) == Bfs(g, all, i, allocates)
  {
    FreshNew(g, all, g[all[i]]);
    if Fresh(all, g[all[i]]) == [] { assert all + [] == all; }
  }

  lemma {:induction false} ListingStart(g: Graph, p: nat, mark: seq<bool>)
    requires WfGraph(g) && p < |g| == |mark| && forall x :: 0 <= x < |g| ==> (mark[x] <==> x in g[p])
    ensures Listing(g, p, mark, g[p])
  {
    forall x | x in g[p] ensures x < |g| && ReachesBelow(g, p, x) { ReachesSelf(g, x); }
  }

  lemma {:induction false} BelowEdge(g: Graph, p: nat, dep: nat, d: nat)
    requires WfGraph(g) && p < |g| && ReachesBelow(g, p, dep) && dep < |g| && d in g[dep]
    ensures d < |g| && ReachesBelow(g, p, d)
  {
    var e :| e in g[p] && Reaches(g, e, dep);
    ReachesEdge(g, e, dep, d);
  }

  lemma {:induction false} NoDupSnoc(s: seq<nat>, d: nat)
    requires NoDup(s) && d !in s
    ensures NoDup(s + [d])
  {
  }

  lemma {:induction false} ListingSnoc(g: Graph, p: nat, mark: seq<bool>, all: seq<nat>, dep: nat, d: nat)
    requires WfGraph(g) && p < |g| && Listing(g, p, mark, all) && dep < |g| && ReachesBelow(g, p, dep) && d in g[dep]
             && !mark[d]
    ensures Listing(g, p, mark[d := true], all + [d])
  {
    BelowEdge(g, p, dep, d);
    var n := |g[p]|;
    var rest := all[n..];
    assert all == g[p] + rest;
    assert d !in rest && d !in g[p];
    NoDupSnoc(rest, d);
    assert (all + [d])[n..] == rest + [d] && (all + [d])[..n] == g[p];
    assert forall x :: x in all + [d] <==> x in all || x == d;
  }

  // The numbers below n.
  function Below(n: nat): (s: set<nat>)
    ensures |s| == n && forall x: nat :: x in s <==> x < n
  {
    if n == 0 then {} else Below(n - 1) + {n - 1}
  }

  lemma {:induction false} ListingRoom(g: Graph, p: nat, mark: seq<bool>, all: seq<nat>)
    requires p < |g| && Listing(g, p, mark, all)
    ensures |all| <= |g[p]| + |g|
  {
    var rest := all[|g[p]|..];
    assert forall x :: x in rest ==> x in all;
    NoDupCard(rest, Below(|g|));
  }

  lemma {:induction false} ListingAt(g: Graph, p: nat, mark: seq<bool>, all: seq<nat>, i: nat)
    requires p < |g| && Listing(g, p, mark, all) && i < |all|
    ensures i < |g[p]| + |g| && all[i] < |g| && ReachesBelow(g, p, all[i])
  {
    ListingRoom(g, p, mark, all);
    assert all[i] in all;
  }

  lemma {:induction false} ListingComplete(g: Graph, p: nat, mark: seq<bool>, all: seq<nat>, allocates: nat -> bool)
    requires WfGraph(g) && p < |g| && Listing(g, p, mark, all)
    requires Explored(g, all, |all|, allocates) && forall k :: 0 <= k < |all| ==> allocates(k)
    ensures forall x :: x in all <==> 0 <= x < |g| && ReachesBelow(g, p, x)
  {
    var s := set x | x in all;
    forall x, d | x in s && x < |g| && d in g[x] ensures d in s {
      var k :| 0 <= k < |all| && all[k] == x;
    }
    forall x: nat | x < |g| && ReachesBelow(g, p, x) ensures x in all {
      var d :| d in g[p] && Reaches(g, d, x);
      assert d in all[..|g[p]|];
      ClosedReaches(g, s, d, x);
    }
  }

  // How many members of s are not marked.
  function Unlisted(mark: seq<bool>, s: seq<nat>): nat {
    if s == [] then 0
    else Unlisted(mark, s[..|s| - 1]) + if s[|s| - 1] < |mark| && !mark[s[|s| - 1]] then 1 else 0
  }

  lemma {:induction false} UnlistedHead(mark: seq<bool>, s: seq<nat>)
    requires s != []
    ensures Unlisted(mark, s) == Unlisted(mark, s[1..]) + if s[0] < |mark| && !mark[s[0]] then 1 else 0
    decreases |s|
  {
    if |s| > 1 {
      UnlistedHead(mark, s[..|s| - 1]);
      assert s[..|s| - 1][1..] == s[1..][..|s| - 2];
      assert s[1..][|s| - 2] == s[|s| - 1];
    }
  }

  lemma {:induction false} UnlistedFewer(mark: seq<bool>, s: seq<nat>, d: nat)
    requires d < |mark|
    ensures Unlisted(mark[d := true], s) <= Unlisted(mark, s)
    decreases |s|
  {
    if s != [] { UnlistedFewer(mark, s[..|s| - 1], d); }
  }
}
