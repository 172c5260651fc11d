/** What each case of the erasure fix-up of src/common/rbtree.c does, and what unlinking a node does: to the
    balance of the tree and to the tree the arena holds. */
module RbErase {

  import opened RbShape
  import opened RbSurgery
  import RbInsert

  // The loop invariant of the fix-up: the subtree in the hole is one black node short, all else is fine.
  ghost predicate Short(c: Ctx, t: Tree, n: nat) {
    c.Frame? && t.IsBlack() && Bal(t, n) && NoRedRed(t) && CtxBal(c, n + 1) && CtxNoRedRed(c, false)
  }

  lemma {:induction false} ShortSibling(c: Ctx, t: Tree, n: nat)
    requires Short(c, t, n)
    ensures c.sib.Node? && NoRedRed(c.sib) && Bal(c.sib, n + 1)
    ensures !c.sib.black ==> c.black && c.sib.l.Node? && c.sib.r.Node? && c.sib.l.black && c.sib.r.black
  {
    assert Bal(c.sib, n + 1);
    if !c.sib.black { assert Bal(c.sib.l, n + 1) && Bal(c.sib.r, n + 1); }
  }

  // What the fix-up reads around the parent.
  lemma {:induction false} Around(m: Arena, root: Ptr, c: Ctx, t: Tree, d: Dir)
    requires Split(m, root, c, t) && c.Frame? && c.sib.Node?
    ensures c.id in m && WordBlack(m[c.id].pc) == c.black && WordParent(m[c.id].pc) == Holder(c.up)
    ensures (if Root(t) != m[c.id].right then Left else Right) == c.d
    ensures m[c.id].Kid(Opp(c.d)) == c.sib.id && c.sib.id in m && c.sib.id != NULL
            && WordBlack(m[c.sib.id].pc) == c.sib.black
    ensures m[c.sib.id].Kid(d) == Root(c.sib.Kid(d))
    ensures c.sib.Kid(d).Node? ==>
              Root(c.sib.Kid(d)) in m && Root(c.sib.Kid(d)) != NULL
                && WordBlack(m[Root(c.sib.Kid(d))].pc) == c.sib.Kid(d).black
  {
    assert IsTree(m, c.id, c.sib) && IsTree(m, c.sib.id, c.sib.l) && IsTree(m, c.sib.id, c.sib.r);
  }

  // ---------- the sibling is red: rotate it up; the new sibling is black ----------

  function Case1Ctx(c: Ctx): Ctx
    requires c.Frame? && c.sib.Node?
  {
    Frame(c.d, c.id, false, c.sib.Kid(c.d), Frame(c.d, c.sib.id, c.black, c.sib.Kid(Opp(c.d)), c.up))
  }

  lemma {:induction false} Case1Short(c: Ctx, t: Tree, n: nat)
    requires Short(c, t, n) && c.sib.Node? && !c.sib.black
    ensures Short(Case1Ctx(c), t, n)
  {
    ShortSibling(c, t, n);
    var s := c.sib;
    assert Bal(s.Kid(c.d), n + 1) && Bal(s.Kid(Opp(c.d)), n + 1);
    assert NoRedRed(s.Kid(c.d)) && NoRedRed(s.Kid(Opp(c.d)));
    var c1 := Case1Ctx(c);
    assert CtxBal(c1.up, n + 1) && CtxNoRedRed(c1.up, true);
  }

  lemma {:induction false} Case1Split(m: Arena, root: Ptr, c: Ctx, t: Tree, n: nat)
    requires Split(m, root, c, t) && Short(c, t, n) && c.sib.Node? && !c.sib.black
    ensures var tmp := Root(c.sib.Kid(c.d)); var e := Opp(c.d);
            && RotateReady(m, c.id, c.sib.id, tmp, NULL)
            && var s := RotateMem(m, root, c.id, c.sib.id, tmp, e, true, NULL, false);
               Split(s.nodes, s.root, Case1Ctx(c), t) && Only(m, s.nodes, Ids(t) + CtxIds(c) + {NULL})
  {
    var e, g, p, up := Opp(c.d), c.id, c.sib.id, c.up;
    var near, mid := c.sib.Kid(e), c.sib.Kid(c.d);
    ShortSibling(c, t, n);
    UpSplit(m, root, c, t);
    RbInsert.MkOpp(c.d, g, c.black, t, c.sib);
    assert c.sib == Mk(e, p, false, near, mid);
    MkTrees(m, Holder(up), e, g, c.black, c.sib, t);
    MkTrees(m, g, e, p, false, near, mid);
    assert Recolour(mid, true) == mid;
    RotateCorrect(m, root, g, p, Root(mid), e, true, NULL, false, c.black, false, near, mid, t, up);
    RotateTouches(m, root, g, p, Root(mid), e, true, NULL, false, Ids(t) + CtxIds(c) + {NULL});
    var s := RotateMem(m, root, g, p, Root(mid), e, true, NULL, false);
    var r := Rotated(e, g, false, p, c.black, near, mid, t);
    var low := Mk(e, g, false, mid, t);
    DownSplit(s.nodes, s.root, up, r, c.d);
    DownSplit(s.nodes, s.root, Down(up, r, c.d), low, c.d);
  }

  lemma {:induction false} Case1InOrder(c: Ctx, t: Tree)
    requires c.Frame? && c.sib.Node?
    ensures InOrder(Plug(Case1Ctx(c), t)) == InOrder(Plug(c, t)) && CtxIds(Case1Ctx(c)) == CtxIds(c)
  {
    var e, g, p, up := Opp(c.d), c.id, c.sib.id, c.up;
    var near, mid := c.sib.Kid(e), c.sib.Kid(c.d);
    RbInsert.MkOpp(c.d, g, c.black, t, c.sib);
    assert c.sib == Mk(e, p, c.sib.black, near, mid);
    var r := Rotated(e, g, false, p, c.black, near, mid, t);
    RotateInOrder(e, g, c.black, false, p, c.sib.black, c.black, near, near.Node? && near.black, mid,
                  mid.Node? && mid.black, t);
    PlugSame(up, Bent(e, g, c.black, p, c.sib.black, near, mid, t), r);
  }

  // ---------- a black sibling with black children ----------

  function Case2(c: Ctx, t: Tree, black: bool): Tree
    requires c.Frame?
  {
    Mk(c.d, c.id, black, t, Recolour(c.sib, false))
  }

  lemma {:induction false} Case2Split(m: Arena, root: Ptr, c: Ctx, t: Tree)
    requires Split(m, root, c, t) && c.Frame? && c.sib.Node?
    ensures c.sib.id in m
    ensures var m' := SetPc(m, c.sib.id, Word(c.id, false));
            Split(m', root, c.up, Case2(c, t, c.black))
              && InOrder(Plug(c.up, Case2(c, t, c.black))) == InOrder(Plug(c, t))
            && Ids(Case2(c, t, c.black)) + CtxIds(c.up) == Ids(t) + CtxIds(c)
  {
    var e, g := Opp(c.d), c.id;
    UpSplit(m, root, c, t);
    RbInsert.MkOpp(c.d, g, c.black, t, c.sib);
    RbInsert.PaintKid(m, root, c.up, e, g, c.black, c.sib, t, false);
    RbInsert.MkOpp(c.d, g, c.black, t, Recolour(c.sib, false));
    RecolourIds(c.sib, false);
    MkInOrder(c.d, g, c.black, t, c.sib);
    MkInOrder(c.d, g, c.black, t, Recolour(c.sib, false));
    PlugSame(c.up, Up(c, t), Case2(c, t, c.black));
    MkSep(c.d, g, c.black, t, Recolour(c.sib, false));
  }

  // rb_set_black on the red parent.
  lemma {:induction false} Case2Paint(m: Arena, root: Ptr, c: Ctx, t: Tree)
    requires c.Frame? && !c.black && Split(m, root, c.up, Case2(c, t, false))
    ensures c.id in m && m[c.id].pc + 1 == Word(Holder(c.up), true)
    ensures Split(SetPc(m, c.id, m[c.id].pc + 1), root, c.up, Case2(c, t, true))
    ensures InOrder(Plug(c.up, Case2(c, t, true))) == InOrder(Plug(c.up, Case2(c, t, false)))
  {
    Paint(m, root, c.up, Case2(c, t, false), true);
    RecolourIds(Case2(c, t, false), true);
    PlugSame(c.up, Case2(c, t, false), Case2(c, t, true));
  }

  lemma {:induction false} Case2Bal(c: Ctx, t: Tree, n: nat)
    requires Short(c, t, n) && c.sib.Node? && c.sib.black && c.sib.l.IsBlack() && c.sib.r.IsBlack()
    ensures !c.black ==> RedBlack(Plug(c.up, Case2(c, t, true)))
    ensures c.black && c.up.Top? ==> RedBlack(Plug(c.up, Case2(c, t, true)))
    ensures c.black && c.up.Frame? ==> Short(c.up, Case2(c, t, true), n + 1)
  {
    var s := Recolour(c.sib, false);
    assert Bal(s, n) && NoRedRed(s);
    var r := Case2(c, t, true);
    assert Bal(r, n + 1) && NoRedRed(r);
    if !c.black || c.up.Top? {
      assert CtxNoRedRed(c.up, true) ==> CtxNoRedRed(c.up, false);
      PlugRedBlack(c.up, r, n + 1);
    }
  }

  // ---------- a black sibling with a red child: one or two rotations end it ----------

  lemma {:induction false} TurnRedBlack(e: Dir, g: Ptr, p: Ptr, black: bool, near: Tree, mid: Tree, t: Tree, up: Ctx,
                                        n: nat)
    requires Bal(near, n + 1) && Bal(mid, n) && Bal(t, n) && NoRedRed(near) && NoRedRed(mid) && NoRedRed(t)
    requires near.IsBlack() && CtxBal(up, if black then n + 2 else n + 1) && CtxNoRedRed(up, !black)
    ensures RedBlack(Plug(up, Rotated(e, g, true, p, black, near, mid, t)))
  {
    var low := Mk(e, g, true, mid, t);
    assert Bal(low, n + 1) && NoRedRed(low);
    var r := Mk(e, p, black, near, low);
    var k := if black then n + 2 else n + 1;
    assert Bal(r, k) && NoRedRed(r);
    PlugRedBlack(up, r, k);
  }

  // The outer nephew is red.
  lemma {:induction false} OuterTurn(m: Arena, root: Ptr, c: Ctx, t: Tree, n: nat, e: Dir)
    requires Split(m, root, c, t) && Short(c, t, n) && e == Opp(c.d) && c.sib.Node? && c.sib.black
             && !c.sib.Kid(e).IsBlack()
    ensures var near, mid := c.sib.Kid(e), c.sib.Kid(c.d);
            var black := mid.Node? && mid.black;
            && RotateReady(m, c.id, c.sib.id, Root(mid), near.id)
            && m[c.sib.id].Kid(c.d) == Root(mid)
            && (mid.Node? ==> Root(mid) != NULL && WordBlack(m[Root(mid)].pc) == mid.black)
            && var s := RotateMem(m, root, c.id, c.sib.id, Root(mid), e, black, near.id, true);
               var r := Rotated(e, c.id, true, c.sib.id, c.black, Recolour(near, true), mid, t);
               Split(s.nodes, s.root, c.up, r) && Only(m, s.nodes, Ids(t) + CtxIds(c) + {NULL})
  {
    var g, p, up := c.id, c.sib.id, c.up;
    var near, mid := c.sib.Kid(e), c.sib.Kid(c.d);
    var black := mid.Node? && mid.black;
    UpSplit(m, root, c, t);
    RbInsert.MkOpp(c.d, g, c.black, t, c.sib);
    assert c.sib == Mk(e, p, true, near, mid);
    MkTrees(m, Holder(up), e, g, c.black, c.sib, t);
    MkTrees(m, g, e, p, true, near, mid);
    assert Recolour(mid, black) == mid;
    RotateCorrect(m, root, g, p, Root(mid), e, black, near.id, true, c.black, true, near, mid, t, up);
    RotateTouches(m, root, g, p, Root(mid), e, black, near.id, true, Ids(t) + CtxIds(c) + {NULL});
  }

  lemma {:induction false} OuterTurnShape(c: Ctx, t: Tree, n: nat, e: Dir)
    requires Short(c, t, n) && e == Opp(c.d) && c.sib.Node? && c.sib.black && !c.sib.Kid(e).IsBlack()
    ensures var near, mid := c.sib.Kid(e), c.sib.Kid(c.d);
            var r := Rotated(e, c.id, true, c.sib.id, c.black, Recolour(near, true), mid, t);
            RedBlack(Plug(c.up, r)) && InOrder(Plug(c.up, r)) == InOrder(Plug(c, t))
  {
    var g, p, up := c.id, c.sib.id, c.up;
    var near, mid := c.sib.Kid(e), c.sib.Kid(c.d);
    var near' := Recolour(near, true);
    assert Bal(near, n) && Bal(mid, n) && Bal(near', n + 1) && NoRedRed(near) && NoRedRed(near');
    TurnRedBlack(e, g, p, c.black, near', mid, t, up, n);
    RbInsert.MkOpp(c.d, g, c.black, t, c.sib);
    assert c.sib == Mk(e, p, true, near, mid);
    RotateInOrder(e, g, c.black, true, p, true, c.black, near, true, mid, mid.Node? && mid.black, t);
    PlugSame(up, Bent(e, g, c.black, p, true, near, mid, t), Rotated(e, g, true, p, c.black, near', mid, t));
  }

  // Only the inner nephew is red: it goes over the sibling first.
  function LiftMem(m: Arena, g: Ptr, q: Ptr, t: Ptr, tmp: Ptr, e: Dir): Arena
    requires RbInsert.LiftReady(m, q, t, tmp) && g in m
  {
    SetKid(Relinked(m, q, t, tmp, Opp(e), true, NULL), g, e, t)
  }

  lemma {:induction false} LiftMemLifted(m: Arena, d: Dir, g: Ptr, q: Ptr, t: Ptr, c: Tree, b: Tree, a: Tree, far: Tree)
    requires g in m && q in m && t in m && (b.Node? ==> b.id in m)
    requires g != q && g != t && q != t && g !in Top1(b) && q !in Top1(b) && t !in Top1(b) && (b.Node? ==> b.id != NULL)
    requires m[g].Kid(Opp(d)) == Root(far) && m[q].Kid(d) == Root(c) && m[t].Kid(Opp(d)) == Root(a)
    ensures var m' := LiftMem(m, g, q, t, Root(b), d);
            && Lifted(m, m', d, g, q, t, c, b, a, far) && Only(m, m', {g, q, t} + Top1(b))
            && m'[g].pc == m[g].pc
  {
  }

  lemma {:induction false} InnerLift(m: Arena, root: Ptr, d: Dir, g: Ptr, black: bool, q: Ptr, t: Ptr, c: Tree, b: Tree,
                                     a: Tree, far: Tree, up: Ctx)
    requires Split(m, root, up, Zig(d, g, black, q, true, t, false, c, b, a, far)) && b.IsBlack()
    ensures RbInsert.LiftReady(m, q, t, Root(b)) && g in m
    ensures var m' := LiftMem(m, g, q, t, Root(b), d);
            var near := Mk(d, q, true, c, b);
            && Pieces(m', d, g, t, near, a, far) && Home(Bent(d, g, black, t, false, near, a, far), up)
            && m'[g].pc == Word(Holder(up), black) && IsCtx(m', root, up, g)
            && Only(m, m', {g, q, t} + Top1(b))
  {
    var z := Zig(d, g, black, q, true, t, false, c, b, a, far);
    var near := Mk(d, q, true, c, b);
    assert Recolour(b, true) == b;
    ZigApart(d, g, black, q, true, t, false, c, b, a, far);
    ZigTrees(m, d, g, black, q, true, t, false, c, b, a, far, Holder(up));
    LiftMemLifted(m, d, g, q, t, c, b, a, far);
    var m' := LiftMem(m, g, q, t, Root(b), d);
    LiftPieces(m, m', d, g, black, q, true, true, t, false, c, b, a, far, Holder(up));
    FrameCtx(m, m', root, up, g);
    ZigInOrder(d, g, black, black, q, true, true, t, false, false, c, b, a, far);
    SepByInOrder(z, Bent(d, g, black, t, false, near, a, far));
  }

  // The second rotation, once the inner nephew t is the root of the sibling's place.
  lemma {:induction false} LiftedTurn(m: Arena, root: Ptr, e: Dir, g: Ptr, black: bool, t: Ptr, near: Tree, mid: Tree,
                                      far: Tree, up: Ctx, s: set<Ptr>)
    requires Pieces(m, e, g, t, near, mid, far) && Home(Bent(e, g, black, t, false, near, mid, far), up) && near.Node?
             && near.black
    requires m[g].pc == Word(Holder(up), black) && IsCtx(m, root, up, g)
    requires g in s && t in s && Root(mid) in s && Root(near) in s && Holder(up) in s
    ensures var midBlack := mid.Node? && mid.black;
            && RotateReady(m, g, t, Root(mid), Root(near))
            && var r := RotateMem(m, root, g, t, Root(mid), e, midBlack, Root(near), true);
               Split(r.nodes, r.root, up, Rotated(e, g, true, t, black, near, mid, far)) && Only(m, r.nodes, s)
  {
    var midBlack := mid.Node? && mid.black;
    BentApart(e, g, black, t, false, near, mid, far);
    NotNullTree(near);
    assert Recolour(mid, midBlack) == mid && Recolour(near, true) == near;
    RotateCorrect(m, root, g, t, Root(mid), e, midBlack, Root(near), true, black, false, near, mid, far, up);
    RotateTouches(m, root, g, t, Root(mid), e, midBlack, Root(near), true, s);
  }

  lemma {:induction false} RootIn(t: Tree)
    ensures Root(t) in Ids(t) + {NULL}
  {
  }

  // Both rotations, on the pieces.
  lemma {:induction false} ZigTurn(m: Arena, root: Ptr, e: Dir, g: Ptr, black: bool, q: Ptr, x: Ptr, cc: Tree, b: Tree,
                                   mid: Tree, far: Tree, up: Ctx, s: set<Ptr>)
    requires Split(m, root, up, Zig(e, g, black, q, true, x, false, cc, b, mid, far)) && b.IsBlack()
    requires {g, q, x, Root(b), Root(mid), Holder(up)} <= s
    ensures var midBlack := mid.Node? && mid.black;
            && RbInsert.LiftReady(m, q, x, Root(b)) && g in m && m[x].Kid(e) == Root(b)
            && var m' := LiftMem(m, g, q, x, Root(b), e);
               && RotateReady(m', g, x, Root(mid), q)
               && (mid.Node? ==> Root(mid) != NULL && Root(mid) in m' && WordBlack(m'[Root(mid)].pc) == mid.black)
               && x in m' && m'[x].Kid(Opp(e)) == Root(mid)
               && var r := RotateMem(m', root, g, x, Root(mid), e, midBlack, q, true);
                  Split(r.nodes, r.root, up, Rotated(e, g, true, x, black, Mk(e, q, true, cc, b), mid, far))
                    && Only(m, r.nodes, s)
  {
    InnerLift(m, root, e, g, black, q, x, cc, b, mid, far, up);
    ZigApart(e, g, black, q, true, x, false, cc, b, mid, far);
    ZigTrees(m, e, g, black, q, true, x, false, cc, b, mid, far, Holder(up));
    LiftedTurn(LiftMem(m, g, q, x, Root(b), e), root, e, g, black, x, Mk(e, q, true, cc, b), mid, far, up, s);
  }

  lemma {:induction false} InnerTurn(m: Arena, root: Ptr, c: Ctx, t: Tree, e: Dir)
    requires Split(m, root, c, t) && c.Frame? && NoRedRed(c.sib) && e == Opp(c.d) && c.sib.Node? && c.sib.black
             && !c.sib.Kid(c.d).IsBlack()
    ensures var x := c.sib.Kid(c.d);
            var mid := x.Kid(c.d);
            var black := mid.Node? && mid.black;
            && RbInsert.LiftReady(m, c.sib.id, x.id, Root(x.Kid(e))) && c.id in m && m[x.id].Kid(e) == Root(x.Kid(e))
            && var m' := LiftMem(m, c.id, c.sib.id, x.id, Root(x.Kid(e)), e);
               && RotateReady(m', c.id, x.id, Root(mid), c.sib.id)
               && (mid.Node? ==> Root(mid) != NULL && Root(mid) in m' && WordBlack(m'[Root(mid)].pc) == mid.black)
               && x.id in m' && m'[x.id].Kid(c.d) == Root(mid)
               && var s := RotateMem(m', root, c.id, x.id, Root(mid), e, black, c.sib.id, true);
                  var r := Rotated(e, c.id, true, x.id, c.black, Mk(e, c.sib.id, true, c.sib.Kid(e), x.Kid(e)), mid, t);
                  Split(s.nodes, s.root, c.up, r) && Only(m, s.nodes, Ids(t) + CtxIds(c) + {NULL})
  {
    var g, q, up, x := c.id, c.sib.id, c.up, c.sib.Kid(c.d);
    var mid, b, cc := x.Kid(c.d), x.Kid(e), c.sib.Kid(e);
    var black := mid.Node? && mid.black;
    UpSplit(m, root, c, t);
    RbInsert.MkOpp(c.d, g, c.black, t, c.sib);
    assert c.sib == Mk(e, q, true, cc, x) && x == Mk(e, x.id, false, b, mid);
    assert NoRedRed(c.sib) && NoRedRed(x);
    var s := Ids(t) + CtxIds(c) + {NULL};
    assert g in s && q in s && Ids(c.sib) <= s;
    assert x.id in Ids(c.sib) && Ids(x) <= Ids(c.sib) && Ids(b) <= Ids(x) && Ids(mid) <= Ids(x);
    RootIn(b);
    RootIn(mid);
    assert Holder(up) in s;
    ZigTurn(m, root, e, g, c.black, q, x.id, cc, b, mid, t, up, s);
  }

  lemma {:induction false} InnerTurnShape(c: Ctx, t: Tree, n: nat, e: Dir)
    requires Short(c, t, n) && e == Opp(c.d) && c.sib.Node? && c.sib.black && !c.sib.Kid(c.d).IsBlack()
             && c.sib.Kid(e).IsBlack()
    ensures var x := c.sib.Kid(c.d);
            var r := Rotated(e, c.id, true, x.id, c.black, Mk(e, c.sib.id, true, c.sib.Kid(e), x.Kid(e)), x.Kid(c.d),
                             t);
            RedBlack(Plug(c.up, r)) && InOrder(Plug(c.up, r)) == InOrder(Plug(c, t))
  {
    var g, q, up, x := c.id, c.sib.id, c.up, c.sib.Kid(c.d);
    var mid, b, cc := x.Kid(c.d), x.Kid(e), c.sib.Kid(e);
    var near := Mk(e, q, true, cc, b);
    assert Bal(x, n) && Bal(cc, n) && NoRedRed(x) && NoRedRed(cc);
    assert Bal(b, n) && Bal(mid, n) && Bal(near, n + 1) && NoRedRed(near);
    TurnRedBlack(e, g, x.id, c.black, near, mid, t, up, n);
    RbInsert.MkOpp(c.d, g, c.black, t, c.sib);
    assert c.sib == Mk(e, q, true, cc, x) && x == Mk(e, x.id, false, b, mid);
    assert Recolour(b, true) == b && Recolour(near, true) == near;
    ZigInOrder(e, g, c.black, c.black, q, true, true, x.id, false, false, cc, b, mid, t);
    RotateInOrder(e, g, c.black, true, x.id, false, c.black, near, true, mid, mid.Node? && mid.black, t);
    PlugSame(up, Zig(e, g, c.black, q, true, x.id, false, cc, b, mid, t),
             Rotated(e, g, true, x.id, c.black, near, mid, t));
  }
}
