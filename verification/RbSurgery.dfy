/** The pointer surgery of src/common/rbtree.c as functions on arenas, and what each does to the tree
    the arena holds: painting a node, rotating a node up, and lifting an inner grandchild first. */
module RbSurgery {

  import opened RbShape

  // The memory a tree lives in: the node records and the rb_root pointer.
  datatype Mem = Mem(nodes: Arena, root: Ptr)

  function SetPc(m: Arena, x: Ptr, pc: nat): Arena
    requires x in m
  {
    m[x := m[x].(pc := pc)]
  }

  function SetKid(m: Arena, x: Ptr, d: Dir, p: Ptr): Arena
    requires x in m
  {
    m[x := m[x].SetKid(d, p)]
  }

  // m' differs from m only on touched.
  ghost predicate Only(m: Arena, m': Arena, touched: set<Ptr>) {
    m'.Keys == m.Keys && forall x :: x in m && x !in touched ==> m'[x] == m[x]
  }

  function Top1(t: Tree): set<Ptr> { if t.Leaf? then {} else {t.id} }

  // ---------- painting ----------

  lemma {:induction false} Paint(m: Arena, root: Ptr, c: Ctx, t: Tree, black: bool)
    requires Split(m, root, c, t) && t.Node?
    ensures Split(SetPc(m, t.id, Word(Holder(c), black)), root, c, Recolour(t, black))
  {
    var m' := SetPc(m, t.id, Word(Holder(c), black));
    RecolourIds(t, black);
    Reparent(m, m', Holder(c), t, black);
    FrameCtx(m, m', root, c, t.id);
  }

  // ---------- __rb_change_child ----------

  function ChangedChild(m: Arena, root: Ptr, was: Ptr, now: Ptr, parent: Ptr): Mem
    requires parent != NULL ==> parent in m
  {
    if parent == NULL then Mem(m, now)
    else if m[parent].left == was then Mem(SetKid(m, parent, Left, now), root)
    else Mem(SetKid(m, parent, Right, now), root)
  }

  lemma {:induction false} ChangedChildCtx(m: Arena, root: Ptr, was: Ptr, now: Ptr, c: Ctx)
    requires IsCtx(m, root, c, was) && CtxSep(c) && was != NULL && was !in CtxIds(c)
    ensures var s := ChangedChild(m, root, was, now, Holder(c));
            IsCtx(s.nodes, s.root, c, now) && Only(m, s.nodes, CtxIds(c))
  {
    var s := ChangedChild(m, root, was, now, Holder(c));
    if c.Frame? {
      FrameTree(m, s.nodes, c.id, c.sib);
      FrameCtx(m, s.nodes, s.root, c.up, c.id);
    }
  }

  // ---------- one rotation ----------

  // p above near and mid, g above p and far: before and after p takes g's place. The rotation is at side d.
  function Bent(d: Dir, g: Ptr, gBlack: bool, p: Ptr, pBlack: bool, near: Tree, mid: Tree, far: Tree): Tree {
    Mk(d, g, gBlack, Mk(d, p, pBlack, near, mid), far)
  }

  function Rotated(d: Dir, g: Ptr, gBlack: bool, p: Ptr, pBlack: bool, near: Tree, mid: Tree, far: Tree): Tree {
    Mk(d, p, pBlack, near, Mk(d, g, gBlack, mid, far))
  }

  lemma {:induction false} BentApart(d: Dir, g: Ptr, gBlack: bool, p: Ptr, pBlack: bool, near: Tree, mid: Tree,
                                     far: Tree)
    requires Sep(Bent(d, g, gBlack, p, pBlack, near, mid, far))
    ensures g != NULL && p != NULL && g != p && Sep(near) && Sep(mid) && Sep(far)
    ensures Ids(near) !! Ids(mid) && Ids(near) !! Ids(far) && Ids(mid) !! Ids(far)
    ensures g !in Ids(near) && g !in Ids(mid) && g !in Ids(far)
    ensures p !in Ids(near) && p !in Ids(mid) && p !in Ids(far)
    ensures Ids(Bent(d, g, gBlack, p, pBlack, near, mid, far)) == Ids(near) + Ids(mid) + Ids(far) + {g, p}
  {
    MkSep(d, p, pBlack, near, mid);
    MkSep(d, g, gBlack, Mk(d, p, pBlack, near, mid), far);
  }

  lemma {:induction false} RotateInOrder(d: Dir, g: Ptr, g1: bool, g2: bool, p: Ptr, p1: bool, p2: bool, near: Tree,
                                         nearBlack: bool, mid: Tree, midBlack: bool, far: Tree)
    ensures InOrder(Rotated(d, g, g2, p, p2, Recolour(near, nearBlack), Recolour(mid, midBlack), far))
         == InOrder(Bent(d, g, g1, p, p1, near, mid, far))
  {
    var near', mid' := Recolour(near, nearBlack), Recolour(mid, midBlack);
    RecolourIds(near, nearBlack);
    RecolourIds(mid, midBlack);
    var n, m, f := InOrder(near), InOrder(mid), InOrder(far);
    SeqAssoc(n, p, m, g, f);
    SeqAssoc(f, g, m, p, n);
    MkInOrder(d, g, g2, mid', far);
    MkInOrder(d, p, p1, near, mid);
    MkInOrder(d, p, p2, near', Mk(d, g, g2, mid', far));
    MkInOrder(d, g, g1, Mk(d, p, p1, near, mid), far);
  }

  // What a rotation needs of the arena: the words and pointers it overwrites need not be right yet.
  ghost predicate Pieces(m: Arena, d: Dir, g: Ptr, p: Ptr, near: Tree, mid: Tree, far: Tree)
  {
    && g in m && p in m
    && m[g].Kid(Opp(d)) == Root(far)
    && m[p].Kid(d) == Root(near) && m[p].Kid(Opp(d)) == Root(mid)
    && IsTree(m, g, far) && IsBelow(m, near) && IsBelow(m, mid)
  }

  // The subtree t and its context have each node once and none in common.
  ghost predicate Home(t: Tree, up: Ctx) { Sep(t) && CtxSep(up) && Ids(t) !! CtxIds(up) }

  // tmp moves from p to the child d of g, g becomes a child of p, and sib, if any, is painted black under p.
  function Relinked(m: Arena, g: Ptr, p: Ptr, tmp: Ptr, d: Dir, black: bool, sib: Ptr): Arena
    requires g in m && p in m && (tmp != NULL ==> tmp in m) && (sib != NULL ==> sib in m)
  {
    var m1 := SetKid(m, g, d, tmp);
    var m2 := if tmp != NULL then SetPc(m1, tmp, Word(g, black)) else m1;
    var m3 := SetKid(m2, p, Opp(d), g);
    if sib != NULL then SetPc(m3, sib, Word(p, true)) else m3
  }

  // __rb_rotate_set_parents, up to the change of child.
  function ParentsSet(m: Arena, g: Ptr, p: Ptr, black: bool): Arena
    requires g in m && p in m
  {
    SetPc(SetPc(m, p, m[g].pc), g, Word(p, black))
  }

  predicate RotateReady(m: Arena, g: Ptr, p: Ptr, tmp: Ptr, sib: Ptr) {
    && g in m && p in m && (tmp != NULL ==> tmp in m) && (sib != NULL ==> sib in m)
    && (WordParent(m[g].pc) != NULL ==> WordParent(m[g].pc) in m)
    && g != p && tmp != g && sib != g
  }

  function RotateMem(m: Arena, root: Ptr, g: Ptr, p: Ptr, tmp: Ptr, d: Dir, black: bool, sib: Ptr, gBlack: bool): Mem
    requires RotateReady(m, g, p, tmp, sib)
  {
    var m1 := Relinked(m, g, p, tmp, d, black, sib);
    ChangedChild(ParentsSet(m1, g, p, gBlack), root, g, p, WordParent(m1[g].pc))
  }

  lemma {:induction false} ChangedChildTouches(m: Arena, root: Ptr, was: Ptr, now: Ptr, parent: Ptr)
    requires parent != NULL ==> parent in m
    ensures Only(m, ChangedChild(m, root, was, now, parent).nodes, {parent})
  {
  }

  lemma {:induction false} RelinkedTouches(m: Arena, g: Ptr, p: Ptr, tmp: Ptr, d: Dir, black: bool, sib: Ptr,
                                           s: set<Ptr>)
    requires g in m && p in m && (tmp != NULL ==> tmp in m) && (sib != NULL ==> sib in m)
    requires g != p && tmp != g && sib != g && g in s && p in s && tmp in s && sib in s
    ensures Only(m, Relinked(m, g, p, tmp, d, black, sib), s) && Relinked(m, g, p, tmp, d, black, sib)[g].pc == m[g].pc
  {
  }

  lemma {:induction false} RotateTouches(m: Arena, root: Ptr, g: Ptr, p: Ptr, tmp: Ptr, d: Dir, black: bool, sib: Ptr,
                                         gBlack: bool, s: set<Ptr>)
    requires RotateReady(m, g, p, tmp, sib)
    requires g in s && p in s && tmp in s && sib in s && WordParent(m[g].pc) in s
    ensures Only(m, RotateMem(m, root, g, p, tmp, d, black, sib, gBlack).nodes, s)
  {
    var m1 := Relinked(m, g, p, tmp, d, black, sib);
    RelinkedTouches(m, g, p, tmp, d, black, sib, s);
    var m2 := ParentsSet(m1, g, p, gBlack);
    assert Only(m1, m2, {g, p});
    ChangedChildTouches(m2, root, g, p, WordParent(m[g].pc));
  }

  lemma {:induction false} RelinkedFacts(m: Arena, g: Ptr, p: Ptr, tmp: Ptr, d: Dir, black: bool, sib: Ptr,
                                         gBlack: bool)
    requires g in m && p in m && (tmp != NULL ==> tmp in m) && (sib != NULL ==> sib in m)
    requires g != p && tmp != g && tmp != p && sib != g && sib != p && (sib != NULL ==> sib != tmp)
    ensures var m2 := ParentsSet(Relinked(m, g, p, tmp, d, black, sib), g, p, gBlack);
            && m2.Keys == m.Keys
            && m2[p] == m[p].SetKid(Opp(d), g).(pc := m[g].pc)
            && m2[g] == m[g].SetKid(d, tmp).(pc := Word(p, gBlack))
            && (tmp != NULL ==> m2[tmp] == m[tmp].(pc := Word(g, black)))
            && (sib != NULL ==> m2[sib] == m[sib].(pc := Word(p, true)))
            && (forall x :: x in m && x != g && x != p && (x != tmp || x == NULL) && (x != sib || x == NULL) ==>
                  m2[x] == m[x])
  {
  }

  lemma {:induction false} RotateMemFacts(m: Arena, root: Ptr, g: Ptr, p: Ptr, tmp: Ptr, d: Dir, black: bool, sib: Ptr,
                                          gBlack: bool, g1: bool, up: Ctx)
    requires g in m && p in m && (tmp != NULL ==> tmp in m) && (sib != NULL ==> sib in m)
    requires g != p && tmp != g && tmp != p && sib != g && sib != p && (sib != NULL ==> sib != tmp)
    requires g != NULL && g !in CtxIds(up) && p !in CtxIds(up) && tmp !in CtxIds(up) && sib !in CtxIds(up)
    requires m[g].pc == Word(Holder(up), g1) && IsCtx(m, root, up, g) && CtxSep(up)
    ensures RotateReady(m, g, p, tmp, sib)
    ensures var s := RotateMem(m, root, g, p, tmp, d, black, sib, gBlack);
            && IsCtx(s.nodes, s.root, up, p) && s.nodes.Keys == m.Keys
            && s.nodes[p] == m[p].SetKid(Opp(d), g).(pc := m[g].pc)
            && s.nodes[g] == m[g].SetKid(d, tmp).(pc := Word(p, gBlack))
            && (tmp != NULL ==> s.nodes[tmp] == m[tmp].(pc := Word(g, black)))
            && (sib != NULL ==> s.nodes[sib] == m[sib].(pc := Word(p, true)))
            && (forall x ::
                  x in m && x !in CtxIds(up) && x != g && x != p && (x != tmp || x == NULL) && (x != sib || x == NULL)
                  ==> s.nodes[x] == m[x])
  {
    var m2 := ParentsSet(Relinked(m, g, p, tmp, d, black, sib), g, p, gBlack);
    RelinkedFacts(m, g, p, tmp, d, black, sib, gBlack);
    FrameCtx(m, m2, root, up, g);
    ChangedChildCtx(m2, root, g, p, up);
  }

  lemma {:induction false} RotateIsTree(m: Arena, m': Arena, parent: Ptr, d: Dir, g: Ptr, gBlack: bool, p: Ptr,
                                        pBlack: bool, near: Tree, nearBlack: bool, mid: Tree, midBlack: bool, far: Tree)
    requires Pieces(m, d, g, p, near, mid, far) && g != NULL && p != NULL && Sep(near) && Sep(mid)
    requires g in m' && m'[g] == MkRec(Word(p, gBlack), d, Root(mid), Root(far))
    requires p in m' && m'[p] == MkRec(Word(parent, pBlack), d, Root(near), g)
    requires near.Node? ==> near.id in m' && m'[near.id] == m[near.id].(pc := Word(p, nearBlack))
    requires mid.Node? ==> mid.id in m' && m'[mid.id] == m[mid.id].(pc := Word(g, midBlack))
    requires Agree(m, m', Ids(near) - {Root(near)}) && Agree(m, m', Ids(mid) - {Root(mid)}) && Agree(m, m', Ids(far))
    ensures IsTree(m', parent,
                   Rotated(d, g, gBlack, p, pBlack, Recolour(near, nearBlack), Recolour(mid, midBlack), far))
  {
    var near', mid' := Recolour(near, nearBlack), Recolour(mid, midBlack);
    Reparent(m, m', p, near, nearBlack);
    Reparent(m, m', g, mid, midBlack);
    FrameTree(m, m', g, far);
    MkIsTree(m', p, d, g, gBlack, mid', far);
    MkIsTree(m', parent, d, p, pBlack, near', Mk(d, g, gBlack, mid', far));
  }

  lemma {:induction false} RotateHome(d: Dir, g: Ptr, g1: bool, g2: bool, p: Ptr, p1: bool, p2: bool, near: Tree,
                                      nearBlack: bool, mid: Tree, midBlack: bool, far: Tree, up: Ctx)
    requires Home(Bent(d, g, g1, p, p1, near, mid, far), up)
    ensures Home(Rotated(d, g, g2, p, p2, Recolour(near, nearBlack), Recolour(mid, midBlack), far), up)
  {
    RotateInOrder(d, g, g1, g2, p, p1, p2, near, nearBlack, mid, midBlack, far);
    SepByInOrder(Rotated(d, g, g2, p, p2, Recolour(near, nearBlack), Recolour(mid, midBlack), far),
                 Bent(d, g, g1, p, p1, near, mid, far));
  }

  lemma {:induction false} RotateAgree(m: Arena, m': Arena, g: Ptr, p: Ptr, near: Tree, mid: Tree, far: Tree,
                                       ids: set<Ptr>)
    requires g !in Ids(near) + Ids(mid) + Ids(far) && p !in Ids(near) + Ids(mid) + Ids(far)
    requires Ids(near) !! Ids(mid) && Ids(near) !! Ids(far) && Ids(mid) !! Ids(far)
    requires ids !! Ids(near) + Ids(mid) + Ids(far)
    requires forall x :: x in m && x !in ids && x != g && x != p && x !in Top1(near) && x !in Top1(mid) ==>
               x in m' && m'[x] == m[x]
    ensures Agree(m, m', Ids(near) - {Root(near)}) && Agree(m, m', Ids(mid) - {Root(mid)}) && Agree(m, m', Ids(far))
  {
  }

  lemma {:induction false} RotateSplit(m: Arena, m': Arena, root: Ptr, d: Dir, g: Ptr, g1: bool, g2: bool, p: Ptr,
                                       p1: bool, p2: bool, near: Tree, nearBlack: bool, mid: Tree, midBlack: bool,
                                       far: Tree, up: Ctx)
    requires Pieces(m, d, g, p, near, mid, far) && Home(Bent(d, g, g1, p, p1, near, mid, far), up)
    requires g in m' && m'[g] == MkRec(Word(p, g2), d, Root(mid), Root(far))
    requires p in m' && m'[p] == MkRec(Word(Holder(up), p2), d, Root(near), g)
    requires near.Node? ==> near.id in m' && m'[near.id] == m[near.id].(pc := Word(p, nearBlack))
    requires mid.Node? ==> mid.id in m' && m'[mid.id] == m[mid.id].(pc := Word(g, midBlack))
    requires forall x :: x in m && x !in CtxIds(up) && x != g && x != p && x !in Top1(near) && x !in Top1(mid) ==>
               x in m' && m'[x] == m[x]
    requires IsCtx(m', root, up, p)
    ensures Split(m', root, up, Rotated(d, g, g2, p, p2, Recolour(near, nearBlack), Recolour(mid, midBlack), far))
  {
    BentApart(d, g, g1, p, p1, near, mid, far);
    RotateAgree(m, m', g, p, near, mid, far, CtxIds(up));
    RotateIsTree(m, m', Holder(up), d, g, g2, p, p2, near, nearBlack, mid, midBlack, far);
    RotateHome(d, g, g1, g2, p, p1, p2, near, nearBlack, mid, midBlack, far, up);
  }

  // The rotation turns the bent subtree into the rotated one. Either near is painted black (sib is its root)
  // or its root was already right.
  lemma {:induction false} RotateCorrect(m: Arena, root: Ptr, g: Ptr, p: Ptr, tmp: Ptr, d: Dir, black: bool, sib: Ptr,
                                         gBlack: bool, g1: bool, p1: bool, near: Tree, mid: Tree, far: Tree, up: Ctx)
    requires Pieces(m, d, g, p, near, mid, far) && Home(Bent(d, g, g1, p, p1, near, mid, far), up)
    requires m[g].pc == Word(Holder(up), g1) && IsCtx(m, root, up, g) && tmp == Root(mid)
    requires if sib != NULL then sib == Root(near) else IsTree(m, p, near)
    ensures RotateReady(m, g, p, tmp, sib)
    ensures var s := RotateMem(m, root, g, p, tmp, d, black, sib, gBlack);
            Split(s.nodes, s.root, up, Rotated(d, g, gBlack, p, g1,
                  if sib != NULL then Recolour(near, true) else near, Recolour(mid, black), far))
  {
    BentApart(d, g, g1, p, p1, near, mid, far);
    var nearBlack := sib != NULL || (near.Node? && near.black);
    NotNull(up);
    RotateMemFacts(m, root, g, p, tmp, d, black, sib, gBlack, g1, up);
    var s := RotateMem(m, root, g, p, tmp, d, black, sib, gBlack);
    assert s.nodes[g] == MkRec(Word(p, gBlack), d, Root(mid), Root(far));
    assert s.nodes[p] == MkRec(Word(Holder(up), g1), d, Root(near), g);
    RotateSplit(m, s.nodes, s.root, d, g, g1, gBlack, p, p1, g1, near, nearBlack, mid, black, far, up);
  }

  lemma {:induction false} NotNull(c: Ctx)
    requires CtxSep(c)
    ensures NULL !in CtxIds(c)
  {
    if c.Frame? { NotNullTree(c.sib); NotNull(c.up); }
  }

  lemma {:induction false} NotNullTree(t: Tree)
    requires Sep(t)
    ensures NULL !in Ids(t)
  {
    if t.Node? { NotNullTree(t.l); NotNullTree(t.r); }
  }

  // ---------- an inner grandchild first ----------

  // t, the inner child of q, itself the child d of g; and the same with t lifted over q.
  function Zig(d: Dir, g: Ptr, gBlack: bool, q: Ptr, qBlack: bool, t: Ptr, tBlack: bool, c: Tree, b: Tree, a: Tree,
               far: Tree): Tree {
    Mk(d, g, gBlack, Mk(d, q, qBlack, c, Mk(d, t, tBlack, b, a)), far)
  }

  lemma {:induction false} ZigApart(d: Dir, g: Ptr, g1: bool, q: Ptr, q1: bool, t: Ptr, t1: bool, c: Tree, b: Tree,
                                    a: Tree, far: Tree)
    requires Sep(Zig(d, g, g1, q, q1, t, t1, c, b, a, far))
    ensures g != NULL && q != NULL && t != NULL && g != q && g != t && q != t
    ensures Sep(a) && Sep(b) && Sep(c) && Sep(far)
    ensures Ids(a) !! Ids(b) && Ids(a) !! Ids(c) && Ids(b) !! Ids(c)
    ensures Ids(a) !! Ids(far) && Ids(b) !! Ids(far) && Ids(c) !! Ids(far)
    ensures g !in Ids(a) && g !in Ids(b) && g !in Ids(c) && g !in Ids(far)
    ensures q !in Ids(a) && q !in Ids(b) && q !in Ids(c) && q !in Ids(far)
    ensures t !in Ids(a) && t !in Ids(b) && t !in Ids(c) && t !in Ids(far)
    ensures Ids(Zig(d, g, g1, q, q1, t, t1, c, b, a, far)) == Ids(a) + Ids(b) + Ids(c) + Ids(far) + {g, q, t}
  {
    hide Sep, Ids, Mk;
    var tt := Mk(d, t, t1, b, a);
    MkSep(d, t, t1, b, a);
    MkSep(d, q, q1, c, tt);
    MkSep(d, g, g1, Mk(d, q, q1, c, tt), far);
  }

  lemma {:induction false} ZigInOrder(d: Dir, g: Ptr, g1: bool, g2: bool, q: Ptr, q1: bool, q2: bool, t: Ptr, t1: bool,
                                      t2: bool, c: Tree, b: Tree, a: Tree, far: Tree)
    ensures InOrder(Bent(d, g, g2, t, t2, Mk(d, q, q2, c, Recolour(b, true)), a, far))
         == InOrder(Zig(d, g, g1, q, q1, t, t1, c, b, a, far))
  {
    RecolourIds(b, true);
    var b' := Recolour(b, true);
    MkInOrder(d, t, t1, b, a);
    MkInOrder(d, q, q1, c, Mk(d, t, t1, b, a));
    MkInOrder(d, g, g1, Mk(d, q, q1, c, Mk(d, t, t1, b, a)), far);
    MkInOrder(d, q, q2, c, b');
    MkInOrder(d, t, t2, Mk(d, q, q2, c, b'), a);
    MkInOrder(d, g, g2, Mk(d, t, t2, Mk(d, q, q2, c, b'), a), far);
    SeqAssoc(InOrder(c), q, InOrder(b), t, InOrder(a));
    SeqAssoc(InOrder(a), t, InOrder(b), q, InOrder(c));
  }

  // m' is m with t lifted over q; it may also differ in q's word and in the child d of g.
  ghost predicate Lifted(m: Arena, m': Arena, d: Dir, g: Ptr, q: Ptr, t: Ptr, c: Tree, b: Tree, a: Tree, far: Tree) {
    && g in m' && q in m' && t in m'
    && m'[g].Kid(Opp(d)) == Root(far) && m'[t].Kid(d) == q && m'[t].Kid(Opp(d)) == Root(a)
    && m'[q].Kid(d) == Root(c) && m'[q].Kid(Opp(d)) == Root(b)
    && (b.Node? ==> b.id in m' && b.id in m && m'[b.id] == m[b.id].(pc := Word(q, true)))
    && (forall x :: x in m && x != g && x != q && x != t && x !in Top1(b) ==> x in m' && m'[x] == m[x])
  }

  lemma {:induction false} LiftTrees(m: Arena, m': Arena, d: Dir, g: Ptr, q: Ptr, t: Ptr, c: Tree, b: Tree, a: Tree,
                                     far: Tree)
    requires Lifted(m, m', d, g, q, t, c, b, a, far)
    requires IsTree(m, q, c) && IsTree(m, t, b) && IsTree(m, t, a) && IsTree(m, g, far) && Sep(b)
    requires {g, q, t} !! Ids(a) && {g, q, t} !! Ids(b) && {g, q, t} !! Ids(c) && {g, q, t} !! Ids(far)
    requires Ids(b) !! Ids(a) && Ids(b) !! Ids(c) && Ids(b) !! Ids(far)
    ensures IsTree(m', q, Recolour(b, true)) && IsTree(m', q, c) && IsTree(m', t, a) && IsTree(m', g, far)
  {
    Reparent(m, m', q, b, true);
    FrameTree(m, m', q, c);
    FrameTree(m, m', t, a);
    FrameTree(m, m', g, far);
  }

  lemma {:induction false} LiftZigTrees(m: Arena, m': Arena, d: Dir, g: Ptr, g1: bool, q: Ptr, q1: bool, t: Ptr,
                                        t1: bool, c: Tree, b: Tree, a: Tree, far: Tree, parent: Ptr)
    requires IsTree(m, parent, Zig(d, g, g1, q, q1, t, t1, c, b, a, far))
             && Sep(Zig(d, g, g1, q, q1, t, t1, c, b, a, far))
    requires Lifted(m, m', d, g, q, t, c, b, a, far)
    ensures q != NULL
    ensures IsTree(m', q, Recolour(b, true)) && IsTree(m', q, c) && IsTree(m', t, a) && IsTree(m', g, far)
  {
    hide Sep, Ids, IsTree, Zig, Lifted, Recolour;
    ZigApart(d, g, g1, q, q1, t, t1, c, b, a, far);
    ZigTrees(m, d, g, g1, q, q1, t, t1, c, b, a, far, parent);
    LiftTrees(m, m', d, g, q, t, c, b, a, far);
  }

  // Lifting t over q leaves the pieces of a rotation that brings t over g.
  lemma {:induction false} LiftPieces(m: Arena, m': Arena, d: Dir, g: Ptr, g1: bool, q: Ptr, q1: bool, q2: bool, t: Ptr,
                                      t1: bool, c: Tree, b: Tree, a: Tree, far: Tree, parent: Ptr)
    requires IsTree(m, parent, Zig(d, g, g1, q, q1, t, t1, c, b, a, far))
             && Sep(Zig(d, g, g1, q, q1, t, t1, c, b, a, far))
    requires Lifted(m, m', d, g, q, t, c, b, a, far)
    ensures Pieces(m', d, g, t, Mk(d, q, q2, c, Recolour(b, true)), a, far)
  {
    LiftZigTrees(m, m', d, g, g1, q, q1, t, t1, c, b, a, far, parent);
    RecolourIds(b, true);
    MkBelow(m', d, q, q2, c, Recolour(b, true));
  }

  lemma {:induction false} MkBelow(m: Arena, d: Dir, id: Ptr, black: bool, near: Tree, far: Tree)
    requires id != NULL && id in m && m[id].Kid(d) == Root(near) && m[id].Kid(Opp(d)) == Root(far)
    requires IsTree(m, id, near) && IsTree(m, id, far)
    ensures IsBelow(m, Mk(d, id, black, near, far))
  {
  }

  lemma {:induction false} ZigTrees(m: Arena, d: Dir, g: Ptr, g1: bool, q: Ptr, q1: bool, t: Ptr, t1: bool, c: Tree,
                                    b: Tree, a: Tree, far: Tree, parent: Ptr)
    requires IsTree(m, parent, Zig(d, g, g1, q, q1, t, t1, c, b, a, far))
    ensures g in m && q in m && t in m
    ensures IsTree(m, q, c) && IsTree(m, t, b) && IsTree(m, t, a) && IsTree(m, g, far)
    ensures m[g] == MkRec(Word(parent, g1), d, q, Root(far)) && m[q] == MkRec(Word(g, q1), d, Root(c), t)
    ensures m[t] == MkRec(Word(q, t1), d, Root(b), Root(a))
  {
    hide IsTree, Mk;
    var tt := Mk(d, t, t1, b, a);
    MkTrees(m, parent, d, g, g1, Mk(d, q, q1, c, tt), far);
    MkTrees(m, g, d, q, q1, c, tt);
    MkTrees(m, q, d, t, t1, b, a);
  }
}
