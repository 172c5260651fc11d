/** What each case of the insertion fix-up of src/common/rbtree.c does: to the balance of the tree and to the
    tree the arena holds. */
module RbInsert {

  import opened RbShape
  import opened RbSurgery

  // The loop invariant of the fix-up: t is red and fine in itself, the context is fine but for a red parent.
  ghost predicate Pending(c: Ctx, t: Tree, n: nat) {
    t.Node? && !t.black && Bal(t, n) && NoRedRed(t) && CtxBal(c, n) && CtxNoRedRed(c, false)
  }

  lemma {:induction false} RedParentHasBlackParent(c: Ctx)
    requires CtxNoRedRed(c, false) && c.Frame? && !c.black
    ensures c.up.Frame? && c.up.black && c.sib.IsBlack()
  {
  }

  // What the fix-up reads around a red parent.
  lemma {:induction false} Around(m: Arena, root: Ptr, c: Ctx, t: Tree)
    requires Split(m, root, c, t) && c.Frame? && c.up.Frame?
    ensures c.id in m && WordParent(m[c.id].pc) == c.up.id && c.up.id in m && WordBlack(m[c.id].pc) == c.black
    ensures (if c.id != m[c.up.id].right then Left else Right) == c.up.d
    ensures m[c.up.id].Kid(Opp(c.up.d)) == Root(c.up.sib)
    ensures c.up.sib.Node? ==> c.up.sib.id != NULL && c.up.sib.id in m && WordBlack(m[c.up.sib.id].pc) == c.up.sib.black
  {
    assert IsCtx(m, root, c.up, c.id) && IsTree(m, c.up.id, c.up.sib);
  }

  // ---------- the uncle is red: recolour and move up ----------

  function Case1(c: Ctx, t: Tree): Tree
    requires c.Frame? && c.up.Frame?
  {
    Mk(c.up.d, c.up.id, false, Mk(c.d, c.id, true, t, c.sib), Recolour(c.up.sib, true))
  }

  lemma {:induction false} Case1Pending(c: Ctx, t: Tree, n: nat)
    requires Pending(c, t, n) && c.Frame? && !c.black && c.up.Frame? && c.up.black && !c.up.sib.IsBlack()
    ensures Pending(c.up.up, Case1(c, t), n + 1)
  {
    var low := Mk(c.d, c.id, true, t, c.sib);
    var uncle := Recolour(c.up.sib, true);
    assert CtxBal(c.up, n) && CtxNoRedRed(c.up, true);
    assert Bal(low, n + 1) && NoRedRed(low);
    assert Bal(uncle, n + 1) && NoRedRed(uncle);
  }

  lemma {:induction false} Case1InOrder(c: Ctx, t: Tree)
    requires c.Frame? && c.up.Frame?
    ensures InOrder(Plug(c.up.up, Case1(c, t))) == InOrder(Plug(c, t))
  {
    var t1 := Up(c, t);
    var t2 := Up(c.up, t1);
    MkInOrder(c.d, c.id, c.black, t, c.sib);
    MkInOrder(c.d, c.id, true, t, c.sib);
    MkInOrder(c.up.d, c.up.id, c.up.black, t1, c.up.sib);
    MkInOrder(c.up.d, c.up.id, false, Mk(c.d, c.id, true, t, c.sib), Recolour(c.up.sib, true));
    RecolourIds(c.up.sib, true);
    PlugSame(c.up.up, t2, Case1(c, t));
  }

  lemma {:induction false} Case1Ids(c: Ctx, t: Tree)
    requires c.Frame? && c.up.Frame?
    ensures Ids(Case1(c, t)) + CtxIds(c.up.up) == Ids(t) + CtxIds(c)
  {
    MkSep(c.d, c.id, true, t, c.sib);
    MkSep(c.up.d, c.up.id, false, Mk(c.d, c.id, true, t, c.sib), Recolour(c.up.sib, true));
    RecolourIds(c.up.sib, true);
  }

  function Case1Mem(m: Arena, uncle: Ptr, parent: Ptr, gparent: Ptr): Arena
    requires uncle in m && parent in m && gparent in m
  {
    var m1 := SetPc(m, uncle, Word(gparent, true));
    var m2 := SetPc(m1, parent, Word(gparent, true));
    SetPc(m2, gparent, Word(WordParent(m2[gparent].pc), false))
  }

  lemma {:induction false} MkOpp(d: Dir, id: Ptr, black: bool, near: Tree, far: Tree)
    ensures Mk(Opp(d), id, black, far, near) == Mk(d, id, black, near, far)
  {
  }

  // Painting a child of the node in the hole.
  lemma {:induction false} PaintKid(m: Arena, root: Ptr, c: Ctx, d: Dir, id: Ptr, black: bool, near: Tree, far: Tree,
                                    nearBlack: bool)
    requires Split(m, root, c, Mk(d, id, black, near, far)) && near.Node?
    ensures near.id in m
    ensures Split(SetPc(m, near.id, Word(id, nearBlack)), root, c, Mk(d, id, black, Recolour(near, nearBlack), far))
  {
    var t := Mk(d, id, black, near, far);
    var c' := Down(c, t, d);
    DownSplit(m, root, c, t, d);
    Paint(m, root, c', near, nearBlack);
    UpSplit(SetPc(m, near.id, Word(id, nearBlack)), root, c', Recolour(near, nearBlack));
  }

  lemma {:induction false} Case1Split(m: Arena, root: Ptr, c: Ctx, t: Tree)
    requires Split(m, root, c, t) && c.Frame? && c.up.Frame? && c.up.sib.Node?
    ensures c.up.sib.id in m && c.id in m && c.up.id in m
    ensures Split(Case1Mem(m, c.up.sib.id, c.id, c.up.id), root, c.up.up, Case1(c, t))
  {
    var d, g, uncle, up := c.up.d, c.up.id, c.up.sib, c.up.up;
    var low := Up(c, t);
    UpSplit(m, root, c, t);
    UpSplit(m, root, c.up, low);
    MkOpp(d, g, c.up.black, low, uncle);
    PaintKid(m, root, up, Opp(d), g, c.up.black, uncle, low, true);
    var m1 := SetPc(m, uncle.id, Word(g, true));
    MkOpp(d, g, c.up.black, low, Recolour(uncle, true));
    PaintKid(m1, root, up, d, g, c.up.black, low, Recolour(uncle, true), true);
    var m2 := SetPc(m1, c.id, Word(g, true));
    Paint(m2, root, up, Mk(d, g, c.up.black, Recolour(low, true), Recolour(uncle, true)), false);
  }

  // ---------- the uncle is black: one or two rotations end it ----------

  lemma {:induction false} TurnRedBlack(d: Dir, g: Ptr, p: Ptr, near: Tree, mid: Tree, far: Tree, up: Ctx, n: nat)
    requires Bal(near, n) && Bal(mid, n) && Bal(far, n) && NoRedRed(near) && NoRedRed(mid) && NoRedRed(far)
    requires mid.IsBlack() && far.IsBlack() && CtxBal(up, n + 1) && CtxNoRedRed(up, false)
    ensures RedBlack(Plug(up, Rotated(d, g, false, p, true, near, mid, far)))
  {
    var low := Mk(d, g, false, mid, far);
    assert Bal(low, n) && NoRedRed(low);
    var t := Mk(d, p, true, near, low);
    assert Bal(t, n + 1) && NoRedRed(t);
    PlugRedBlack(up, t, n + 1);
  }

  // The new node is the outer grandchild.
  lemma {:induction false} OuterTurn(m: Arena, root: Ptr, c: Ctx, t: Tree, n: nat)
    requires Split(m, root, c, t) && Pending(c, t, n) && c.Frame? && !c.black && c.up.Frame? && c.up.black
    requires c.d == c.up.d && c.up.sib.IsBlack()
    ensures RotateReady(m, c.up.id, c.id, Root(c.sib), NULL)
    ensures var s := RotateMem(m, root, c.up.id, c.id, Root(c.sib), c.d, true, NULL, false);
            var r := Rotated(c.d, c.up.id, false, c.id, true, t, c.sib, c.up.sib);
            && Split(s.nodes, s.root, c.up.up, r) && RedBlack(Plug(c.up.up, r))
            && InOrder(Plug(c.up.up, r)) == InOrder(Plug(c, t))
            && Only(m, s.nodes, Ids(t) + CtxIds(c) + {NULL})
  {
    var d, g, p, up := c.d, c.up.id, c.id, c.up.up;
    var low := Up(c, t);
    UpSplit(m, root, c, t);
    UpSplit(m, root, c.up, low);
    assert CtxBal(c.up, n) && CtxNoRedRed(c.up, true);
    assert Recolour(c.sib, true) == c.sib;
    MkTrees(m, Holder(up), d, g, true, low, c.up.sib);
    MkTrees(m, g, d, p, false, t, c.sib);
    RotateTouches(m, root, g, p, Root(c.sib), d, true, NULL, false, Ids(t) + CtxIds(c) + {NULL});
    RotateCorrect(m, root, g, p, Root(c.sib), d, true, NULL, false, true, false, t, c.sib, c.up.sib, up);
    TurnRedBlack(d, g, p, t, c.sib, c.up.sib, up, n);
    RotateInOrder(d, g, true, false, p, false, true, t, false, c.sib, true, c.up.sib);
    PlugSame(up, Bent(d, g, true, p, false, t, c.sib, c.up.sib), Rotated(d, g, false, p, true, t, c.sib, c.up.sib));
  }

  // The new node is the inner grandchild: the parent goes down first.
  predicate LiftReady(m: Arena, q: Ptr, t: Ptr, tmp: Ptr) {
    q in m && t in m && (tmp != NULL ==> tmp in m)
  }

  function LiftMem(m: Arena, q: Ptr, t: Ptr, tmp: Ptr, d: Dir): Arena
    requires LiftReady(m, q, t, tmp)
  {
    SetPc(Relinked(m, q, t, tmp, Opp(d), true, NULL), q, Word(t, false))
  }

  lemma {:induction false} LiftMemLifted(m: Arena, d: Dir, g: Ptr, q: Ptr, t: Ptr, c: Tree, b: Tree, a: Tree, far: Tree)
    requires g in m && q in m && t in m && (b.Node? ==> b.id in m)
    requires g != q && g != t && q != t && g !in Top1(b) && q !in Top1(b) && t !in Top1(b) && (b.Node? ==> b.id != NULL)
    requires m[g].Kid(Opp(d)) == Root(far) && m[q].Kid(d) == Root(c) && m[t].Kid(Opp(d)) == Root(a)
    ensures var m' := LiftMem(m, q, t, Root(b), d);
            && Lifted(m, m', d, g, q, t, c, b, a, far) && Only(m, m', {q, t} + Top1(b))
            && m'[q].pc == Word(t, false)
  {
  }

  lemma {:induction false} InnerLift(m: Arena, root: Ptr, d: Dir, g: Ptr, q: Ptr, t: Ptr, c: Tree, b: Tree, a: Tree,
                                     far: Tree, up: Ctx)
    requires Split(m, root, up, Zig(d, g, true, q, false, t, false, c, b, a, far)) && b.IsBlack()
    ensures LiftReady(m, q, t, Root(b))
    ensures var m' := LiftMem(m, q, t, Root(b), d);
            var near := Mk(d, q, false, c, b);
            && Pieces(m', d, g, t, near, a, far) && Home(Bent(d, g, true, t, false, near, a, far), up)
            && m'[g].pc == Word(Holder(up), true) && IsCtx(m', root, up, g) && IsTree(m', t, near)
            && Only(m, m', {q, t} + Top1(b))
  {
    hide InOrder, Sorted, Relinked;
    var z := Zig(d, g, true, q, false, t, false, c, b, a, far);
    var near := Mk(d, q, false, c, b);
    assert Recolour(b, true) == b;
    ZigApart(d, g, true, q, false, t, false, c, b, a, far);
    ZigTrees(m, d, g, true, q, false, t, false, c, b, a, far, Holder(up));
    LiftMemLifted(m, d, g, q, t, c, b, a, far);
    var m' := LiftMem(m, q, t, Root(b), d);
    LiftPieces(m, m', d, g, true, q, false, false, t, false, c, b, a, far, Holder(up));
    FrameCtx(m, m', root, up, g);
    ZigInOrder(d, g, true, true, q, false, false, t, false, false, c, b, a, far);
    SepByInOrder(z, Bent(d, g, true, t, false, near, a, far));
  }

  lemma {:induction false} InnerTurn(m: Arena, root: Ptr, c: Ctx, t: Tree, n: nat)
    requires Split(m, root, c, t) && Pending(c, t, n) && c.Frame? && !c.black && c.up.Frame? && c.up.black
    requires c.d == Opp(c.up.d) && c.up.sib.IsBlack()
    ensures LiftReady(m, c.id, t.id, Root(t.Kid(c.up.d)))
    ensures var d := c.up.d;
            var m' := LiftMem(m, c.id, t.id, Root(t.Kid(d)), d);
            && RotateReady(m', c.up.id, t.id, Root(t.Kid(c.d)), NULL)
            && var s := RotateMem(m', root, c.up.id, t.id, Root(t.Kid(c.d)), d, true, NULL, false);
               var r := Rotated(d, c.up.id, false, t.id, true, Mk(d, c.id, false, c.sib, t.Kid(d)), t.Kid(c.d),
                                c.up.sib);
               && Split(s.nodes, s.root, c.up.up, r) && RedBlack(Plug(c.up.up, r))
               && InOrder(Plug(c.up.up, r)) == InOrder(Plug(c, t))
               && Only(m, s.nodes, Ids(t) + CtxIds(c) + {NULL})
  {
    var d, g, q, x, up, far := c.up.d, c.up.id, c.id, t.id, c.up.up, c.up.sib;
    var a, b := t.Kid(c.d), t.Kid(d);
    var low := Up(c, t);
    UpSplit(m, root, c, t);
    UpSplit(m, root, c.up, low);
    MkOpp(d, q, false, c.sib, t);
    assert t == Mk(d, x, false, b, a);
    InnerLift(m, root, d, g, q, x, c.sib, b, a, far, up);
    var m', near := LiftMem(m, q, x, Root(b), d), Mk(d, q, false, c.sib, b);
    assert Recolour(a, true) == a;
    RotateCorrect(m', root, g, x, Root(a), d, true, NULL, false, true, false, near, a, far, up);
    RotateTouches(m', root, g, x, Root(a), d, true, NULL, false, Ids(t) + CtxIds(c) + {NULL});
    InnerTurnShape(c, t, n);
  }

  lemma {:induction false} InnerTurnShape(c: Ctx, t: Tree, n: nat)
    requires Pending(c, t, n) && c.Frame? && !c.black && c.up.Frame? && c.up.black && c.d == Opp(c.up.d)
             && c.up.sib.IsBlack()
    ensures var d := c.up.d;
            var r := Rotated(d, c.up.id, false, t.id, true, Mk(d, c.id, false, c.sib, t.Kid(d)), t.Kid(c.d), c.up.sib);
            RedBlack(Plug(c.up.up, r)) && InOrder(Plug(c.up.up, r)) == InOrder(Plug(c, t))
  {
    var d, g, q, x, up, far := c.up.d, c.up.id, c.id, t.id, c.up.up, c.up.sib;
    var a, b := t.Kid(c.d), t.Kid(d);
    var near := Mk(d, q, false, c.sib, b);
    assert CtxBal(c.up, n) && CtxNoRedRed(c.up, true);
    assert Bal(near, n) && NoRedRed(near);
    TurnRedBlack(d, g, x, near, a, far, up, n);
    MkOpp(d, q, false, c.sib, t);
    assert Recolour(a, true) == a && Recolour(b, true) == b && Recolour(near, false) == near;
    ZigInOrder(d, g, true, true, q, false, false, x, false, false, c.sib, b, a, far);
    RotateInOrder(d, g, true, false, x, false, true, near, false, a, true, far);
    PlugSame(up, Zig(d, g, true, q, false, x, false, c.sib, b, a, far), Rotated(d, g, false, x, true, near, a, far));
  }

  // ---------- the two ways to stop ----------

  lemma {:induction false} RootStop(m: Arena, t: Tree, n: nat)
    requires IsTree(m, NULL, t) && Sep(t) && Pending(Top, t, n)
    ensures t.id in m
    ensures var t' := Recolour(t, true);
            IsTree(SetPc(m, t.id, Word(NULL, true)), NULL, t') && Sep(t') && RedBlack(t') && InOrder(t') == InOrder(t)
  {
    RecolourIds(t, true);
    Reparent(m, SetPc(m, t.id, Word(NULL, true)), NULL, t, true);
    assert Bal(Recolour(t, true), n + 1);
  }

  lemma {:induction false} BlackStop(m: Arena, root: Ptr, c: Ctx, t: Tree, n: nat)
    requires Split(m, root, c, t) && Pending(c, t, n) && c.Frame? && c.black
    ensures var w := Plug(c, t); IsTree(m, NULL, w) && root == Root(w) && Sep(w) && RedBlack(w)
  {
    PlugIsTree(m, root, c, t);
    PlugRedBlack(c, t, n);
  }

  // ---------- order ----------

  // A strict order of these nodes.
  predicate StrictOrder(less: (Ptr, Ptr) -> bool, s: set<Ptr>) {
    && (forall x :: x in s ==> !less(x, x))
    && (forall x, y, z :: x in s && y in s && z in s && less(x, y) && less(y, z) ==> less(x, z))
  }

  predicate Sorted(s: seq<Ptr>, less: (Ptr, Ptr) -> bool) {
    forall i, j :: 0 <= i < j < |s| ==> less(s[i], s[j])
  }

  // x lies between what comes before the hole of c and what comes after it.
  ghost predicate Between(c: Ctx, x: Ptr, less: (Ptr, Ptr) -> bool) {
    (forall y :: y in Before(c) ==> less(y, x)) && (forall y :: y in After(c) ==> less(x, y))
  }

  lemma {:induction false} SortedParts(a: seq<Ptr>, x: Ptr, b: seq<Ptr>, less: (Ptr, Ptr) -> bool)
    requires Sorted(a + [x] + b, less)
    ensures forall y :: y in a ==> less(y, x)
    ensures forall y :: y in b ==> less(x, y)
  {
    var s := a + [x] + b;
    forall y | y in a ensures less(y, x) {
      var i :| 0 <= i < |a| && a[i] == y;
      assert s[i] == y && s[|a|] == x;
    }
    forall y | y in b ensures less(x, y) {
      var i :| 0 <= i < |b| && b[i] == y;
      assert s[|a| + 1 + i] == y && s[|a|] == x;
    }
  }

  lemma {:induction false} SortedInsert(a: seq<Ptr>, x: Ptr, b: seq<Ptr>, less: (Ptr, Ptr) -> bool)
    requires Sorted(a + b, less)
    requires (forall y :: y in a ==> less(y, x)) && (forall y :: y in b ==> less(x, y))
    ensures Sorted(a + [x] + b, less)
  {
    var s, o := a + [x] + b, a + b;
    assert forall i :: 0 <= i < |a| ==> s[i] == o[i] && s[i] in a;
    assert forall i :: |a| < i < |s| ==> s[i] == o[i - 1] && s[i] == b[i - |a| - 1] && s[i] in b;
  }

  lemma {:induction false} FoundIn(c: Ctx, t: Tree)
    requires t.Node?
    ensures t.id in Ids(Plug(c, t))
  {
    PlugIds(c, t);
  }

  // One step of the search keeps the sought node between the two sides.
  lemma {:induction false} SearchStep(c: Ctx, t: Tree, x: Ptr, d: Dir, less: (Ptr, Ptr) -> bool)
    requires t.Node? && Sorted(InOrder(Plug(c, t)), less) && Between(c, x, less)
    requires StrictOrder(less, Ids(Plug(c, t)) + {x})
    requires if d == Left then less(x, t.id) else less(t.id, x)
    ensures Between(Down(c, t, d), x, less)
  {
    PlugInOrder(c, t);
    var b, l, r, a := Before(c), InOrder(t.l), InOrder(t.r), After(c);
    SeqSplit(b, l, t.id, r, a);
    SortedParts(b + l, t.id, r + a, less);
    InOrderIds(Plug(c, t));
    FoundIn(c, t);
    if d == Left {
      forall y | y in After(Down(c, t, d)) ensures less(x, y) { assert y == t.id || y in r + a; }
    } else {
      forall y | y in Before(Down(c, t, d)) ensures less(y, x) { assert y == t.id || y in b + l; }
    }
  }

  lemma {:induction false} SeqSplit(b: seq<Ptr>, l: seq<Ptr>, x: Ptr, r: seq<Ptr>, a: seq<Ptr>)
    ensures b + (l + [x] + r) + a == (b + l) + [x] + (r + a)
  {
  }

  // The state of a search: the subtree in the hole is the part of w that may still hold x.
  ghost predicate Searching(m: Arena, root: Ptr, w: Tree, c: Ctx, t: Tree, n: nat, x: Ptr, less: (Ptr, Ptr) -> bool) {
    && Plug(c, t) == w && Split(m, root, c, t) && Between(c, x, less)
    && Bal(t, n) && CtxBal(c, n) && NoRedRed(t) && CtxNoRedRed(c, !t.IsBlack())
  }

  lemma {:induction false} StartSearch(m: Arena, root: Ptr, w: Tree, x: Ptr, less: (Ptr, Ptr) -> bool) returns (n: nat)
    requires IsTree(m, NULL, w) && root == Root(w) && Sep(w) && RedBlack(w)
    ensures Searching(m, root, w, Top, w, n, x, less)
  {
    n :| Bal(w, n);
  }

  lemma {:induction false} StepSearch(m: Arena, root: Ptr, w: Tree, c: Ctx, t: Tree, n: nat, x: Ptr, d: Dir,
                                      less: (Ptr, Ptr) -> bool) returns (n': nat)
    requires Searching(m, root, w, c, t, n, x, less) && t.Node? && Sorted(InOrder(w), less)
    requires StrictOrder(less, Ids(w) + {x})
    requires if d == Left then less(x, t.id) else less(t.id, x)
    ensures Searching(m, root, w, Down(c, t, d), t.Kid(d), n', x, less)
  {
    DownSplit(m, root, c, t, d);
    DownBal(c, t, d, n);
    SearchStep(c, t, x, d, less);
    n' := if t.black then n - 1 else n;
  }

  // The search ends at a leaf: nothing equals x.
  lemma {:induction false} NotFound(w: Tree, c: Ctx, x: Ptr, less: (Ptr, Ptr) -> bool)
    requires Plug(c, Leaf) == w && Between(c, x, less)
    ensures forall y :: y in Ids(w) ==> less(x, y) || less(y, x)
  {
    PlugInOrder(c, Leaf);
    InOrderIds(w);
  }

  // The new node, put in the leaf where the search ended.
  lemma {:induction false} InsertedOrder(c: Ctx, x: Ptr)
    ensures InOrder(Plug(c, Leaf)) == Before(c) + After(c)
    ensures InOrder(Plug(c, Node(x, false, Leaf, Leaf))) == Before(c) + [x] + After(c)
  {
    PlugInOrder(c, Leaf);
    PlugInOrder(c, Node(x, false, Leaf, Leaf));
    assert Before(c) + [] == Before(c);
    assert InOrder(Node(x, false, Leaf, Leaf)) == [x];
  }

  lemma {:induction false} Inserted(w: Tree, c: Ctx, x: Ptr, less: (Ptr, Ptr) -> bool)
    requires Plug(c, Leaf) == w && Between(c, x, less) && Sorted(InOrder(w), less)
    ensures var w' := Plug(c, Node(x, false, Leaf, Leaf));
            Sorted(InOrder(w'), less) && (forall y :: y in InOrder(w') <==> y in Ids(w) || y == x)
    ensures Ids(w) == CtxIds(c)
  {
    InsertedOrder(c, x);
    PlugIds(c, Leaf);
    InOrderIds(w);
    SortedInsert(Before(c), x, After(c), less);
  }
}
