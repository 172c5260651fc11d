/** What __rb_erase of src/common/rbtree.c does before any rebalancing: it hangs an only child in the place of
    the erased node, or takes the successor out of the right subtree and puts it there. */
module RbUnlink {

  import opened Basics
  import opened RbShape
  import opened RbSurgery
  import RbErase
  import RbInsert

  // s' is s without its one occurrence of x.
  ghost predicate Removed(s: seq<Ptr>, x: Ptr, s': seq<Ptr>) {
    exists k :: 0 <= k < |s| && s[k] == x && s' == s[..k] + s[k + 1..]
  }

  lemma {:induction false} RemovedFrom(a: seq<Ptr>, x: Ptr, b: seq<Ptr>)
    ensures Removed(a + [x] + b, x, a + b)
  {
    var s := a + [x] + b;
    assert s[|a|] == x && s[..|a|] == a && s[|a| + 1..] == b;
  }

  // A place in the tree together with all that is known of it.
  ghost predicate Placed(m: Arena, root: Ptr, c: Ctx, t: Tree, n: nat) {
    Split(m, root, c, t) && Bal(t, n) && CtxBal(c, n) && NoRedRed(t) && CtxNoRedRed(c, !t.IsBlack())
  }

  lemma {:induction false} PlacedDown(m: Arena, root: Ptr, c: Ctx, t: Tree, n: nat, d: Dir) returns (n': nat)
    requires Placed(m, root, c, t, n) && t.Node?
    ensures Placed(m, root, Down(c, t, d), t.Kid(d), n')
  {
    DownSplit(m, root, c, t, d);
    DownBal(c, t, d, n);
    n' := if t.black then n - 1 else n;
  }

  lemma {:induction false} Locate(m: Arena, root: Ptr, c: Ctx, t: Tree, n: nat, x: Ptr)
    returns (c': Ctx, t': Tree, n': nat)
    requires Placed(m, root, c, t, n) && x in Ids(t)
    ensures Placed(m, root, c', t', n') && t'.Node? && t'.id == x && Plug(c', t') == Plug(c, t)
    decreases t
  {
    if t.id == x {
      c', t', n' := c, t, n;
    } else {
      var d := if x in Ids(t.l) then Left else Right;
      var k := PlacedDown(m, root, c, t, n, d);
      c', t', n' := Locate(m, root, Down(c, t, d), t.Kid(d), k, x);
    }
  }

  // ---------- a node with an empty side ----------

  // The node Mk(d, x, black, Leaf, r) goes and r takes its place, black.
  lemma {:induction false} OneSided(c: Ctx, d: Dir, x: Ptr, black: bool, r: Tree, n: nat)
    requires Bal(Mk(d, x, black, Leaf, r), n) && CtxBal(c, n) && NoRedRed(Mk(d, x, black, Leaf, r))
             && CtxNoRedRed(c, !black)
    ensures r.Node? ==> black && RedBlack(Plug(c, Recolour(r, true)))
    ensures r.Leaf? && (!black || c.Top?) ==> RedBlack(Plug(c, Leaf))
    ensures r.Leaf? && black && c.Frame? ==> RbErase.Short(c, Leaf, 0)
  {
    var k := if black then n - 1 else n;
    assert Bal(Leaf, k) && Bal(r, 0) && NoRedRed(r);
    assert CtxNoRedRed(c, false);
    if r.Node? {
      assert Bal(Recolour(r, true), 1) && NoRedRed(Recolour(r, true));
      PlugRedBlack(c, Recolour(r, true), 1);
    } else if !black || c.Top? {
      assert Bal(Leaf, 0) && CtxBal(c, 0);
      PlugRedBlack(c, Leaf, 0);
    }
  }

  lemma {:induction false} OneSidedInOrder(c: Ctx, d: Dir, x: Ptr, black: bool, r: Tree, black': bool)
    ensures Removed(InOrder(Plug(c, Mk(d, x, black, Leaf, r))), x, InOrder(Plug(c, Recolour(r, black'))))
  {
    var t := Mk(d, x, black, Leaf, r);
    MkInOrder(d, x, black, Leaf, r);
    RecolourIds(r, black');
    PlugInOrder(c, t);
    PlugInOrder(c, Recolour(r, black'));
    var b, i, a := Before(c), InOrder(r), After(c);
    RemovedFrom(b, x, i + a);
    RemovedFrom(b + i, x, a);
    SeqOneSided(b, i, x, a);
  }

  lemma {:induction false} SeqOneSided(b: seq<Ptr>, i: seq<Ptr>, x: Ptr, a: seq<Ptr>)
    ensures b + ([] + [x] + i) + a == b + [x] + (i + a) && b + i + a == b + (i + a)
    ensures b + (i + [x] + []) + a == (b + i) + [x] + a
  {
  }

  // The only child r of the node in the hole hangs in its place, with the word of the node.
  lemma {:induction false} HangSplit(m: Arena, m': Arena, root: Ptr, root': Ptr, c: Ctx, d: Dir, x: Ptr, black: bool,
                                     r: Tree)
    requires Split(m, root, c, Mk(d, x, black, Leaf, r))
    requires IsCtx(m', root', c, Root(r))
    requires r.Node? ==> r.id in m && r.id in m' && m'[r.id] == m[r.id].(pc := Word(Holder(c), black))
    requires forall y :: y in m && y !in CtxIds(c) && y !in Top1(r) ==> y in m' && m'[y] == m[y]
    ensures Split(m', root', c, Recolour(r, black))
  {
    MkSep(d, x, black, Leaf, r);
    MkTrees(m, Holder(c), d, x, black, Leaf, r);
    RecolourIds(r, black);
    Reparent(m, m', Holder(c), r, black);
  }

  function HangMem(m: Arena, root: Ptr, x: Ptr, child: Ptr): Mem
    requires x in m && (child != NULL ==> child in m) && (WordParent(m[x].pc) != NULL ==> WordParent(m[x].pc) in m)
  {
    var s := ChangedChild(m, root, x, child, WordParent(m[x].pc));
    if child != NULL then s.(nodes := SetPc(s.nodes, child, m[x].pc)) else s
  }

  lemma {:induction false} HangCorrect(m: Arena, root: Ptr, c: Ctx, d: Dir, x: Ptr, black: bool, r: Tree)
    requires Split(m, root, c, Mk(d, x, black, Leaf, r))
    ensures x in m && m[x].pc == Word(Holder(c), black) && (Root(r) != NULL ==> Root(r) in m)
            && (Holder(c) != NULL ==> Holder(c) in m)
    ensures var s := HangMem(m, root, x, Root(r));
            Split(s.nodes, s.root, c, Recolour(r, black)) && Only(m, s.nodes, CtxIds(c) + Top1(r))
  {
    MkSep(d, x, black, Leaf, r);
    MkTrees(m, Holder(c), d, x, black, Leaf, r);
    var s := ChangedChild(m, root, x, Root(r), Holder(c));
    ChangedChildCtx(m, root, x, Root(r), c);
    var s' := HangMem(m, root, x, Root(r));
    FrameCtx(s.nodes, s'.nodes, s'.root, c, Root(r));
    HangSplit(m, s'.nodes, root, s'.root, c, d, x, black, r);
  }

  // ---------- a context inside a context ----------

  function Over(inner: Ctx, c: Ctx): Ctx {
    match inner
    case Top => c
    case Frame(d, id, black, sib, up) => Frame(d, id, black, sib, Over(up, c))
  }

  predicate AllLeft(inner: Ctx) { inner.Top? || (inner.d == Left && AllLeft(inner.up)) }

  function Outermost(inner: Ctx): (o: Ctx)
    requires inner.Frame?
    ensures o.Frame?
  {
    if inner.up.Top? then inner else Outermost(inner.up)
  }

  lemma {:induction false} PlugOver(inner: Ctx, c: Ctx, t: Tree)
    ensures Plug(Over(inner, c), t) == Plug(c, Plug(inner, t))
    decreases inner
  {
    if inner.Frame? { PlugOver(inner.up, c, Up(inner, t)); }
  }

  lemma {:induction false} OverIds(inner: Ctx, c: Ctx)
    ensures CtxIds(Over(inner, c)) == CtxIds(inner) + CtxIds(c)
  {
    if inner.Frame? { OverIds(inner.up, c); }
  }

  lemma {:induction false} BeforeAllLeft(inner: Ctx)
    requires AllLeft(inner)
    ensures Before(inner) == []
  {
    if inner.Frame? { BeforeAllLeft(inner.up); }
  }

  // Only the colours and the subtrees of a context count for balance.
  lemma {:induction false} OverBal(inner: Ctx, d: Dir, x: Ptr, y: Ptr, black: bool, sib: Tree, up: Ctx, n: nat,
                                   red: bool)
    requires CtxBal(Over(inner, Frame(d, x, black, sib, up)), n)
             && CtxNoRedRed(Over(inner, Frame(d, x, black, sib, up)), red)
    ensures CtxBal(Over(inner, Frame(d, y, black, sib, up)), n)
            && CtxNoRedRed(Over(inner, Frame(d, y, black, sib, up)), red)
    decreases inner
  {
    if inner.Frame? { OverBal(inner.up, d, x, y, black, sib, up, if inner.black then n + 1 else n, !inner.black); }
  }

  // The nodes of inner in the arena: outer is the parent of the outermost one, top the pointer to it.
  ghost predicate IsSeg(m: Arena, inner: Ctx, outer: Ptr, hole: Ptr, top: Ptr) {
    match inner
    case Top => hole == top
    case Frame(d, id, black, sib, up) =>
      && id != NULL && id in m
      && m[id] == MkRec(Word(if up.Top? then outer else up.id, black), d, hole, Root(sib))
      && IsTree(m, id, sib) && IsSeg(m, up, outer, id, top)
  }

  lemma {:induction false} SegOfCtx(m: Arena, root: Ptr, inner: Ctx, c: Ctx, hole: Ptr) returns (top: Ptr)
    requires IsCtx(m, root, Over(inner, c), hole)
    ensures IsSeg(m, inner, Holder(c), hole, top) && IsCtx(m, root, c, top)
    ensures top == if inner.Top? then hole else Outermost(inner).id
    decreases inner
  {
    if inner.Top? {
      top := hole;
    } else {
      top := SegOfCtx(m, root, inner.up, c, inner.id);
    }
  }

  lemma {:induction false} CtxOfSeg(m: Arena, root: Ptr, inner: Ctx, c: Ctx, hole: Ptr, top: Ptr)
    requires IsSeg(m, inner, Holder(c), hole, top) && IsCtx(m, root, c, top)
    ensures IsCtx(m, root, Over(inner, c), hole)
    decreases inner
  {
    if inner.Frame? { CtxOfSeg(m, root, inner.up, c, inner.id, top); }
  }

  lemma {:induction false} FrameSeg(m: Arena, m': Arena, inner: Ctx, outer: Ptr, hole: Ptr, top: Ptr)
    requires IsSeg(m, inner, outer, hole, top) && Agree(m, m', CtxIds(inner))
    ensures IsSeg(m', inner, outer, hole, top)
    decreases inner
  {
    if inner.Frame? {
      FrameTree(m, m', inner.id, inner.sib);
      FrameSeg(m, m', inner.up, outer, inner.id, top);
    }
  }

  lemma {:induction false} SegHole(m: Arena, inner: Ctx, outer: Ptr, hole: Ptr, hole': Ptr, top: Ptr)
    requires IsSeg(m, inner, outer, hole, top) && inner.Frame? && CtxSep(inner)
    ensures IsSeg(SetKid(m, inner.id, inner.d, hole'), inner, outer, hole', top)
  {
    var m' := SetKid(m, inner.id, inner.d, hole');
    FrameTree(m, m', inner.id, inner.sib);
    FrameSeg(m, m', inner.up, outer, inner.id, top);
  }

  lemma {:induction false} SegOuter(m: Arena, inner: Ctx, outer: Ptr, outer': Ptr, hole: Ptr, top: Ptr)
    requires IsSeg(m, inner, outer, hole, top) && inner.Frame? && CtxSep(inner)
    ensures Outermost(inner).id in m && Outermost(inner).id in CtxIds(inner)
            && WordBlack(m[Outermost(inner).id].pc) == Outermost(inner).black
    ensures IsSeg(SetPc(m, Outermost(inner).id, Word(outer', Outermost(inner).black)), inner, outer', hole, top)
    decreases inner
  {
    if inner.up.Frame? {
      SegOuter(m, inner.up, outer, outer', inner.id, top);
    }
    var m' := SetPc(m, Outermost(inner).id, Word(outer', Outermost(inner).black));
    FrameTree(m, m', inner.id, inner.sib);
  }

  // ---------- separation of a plugged tree ----------

  lemma {:induction false} HomePlug(c: Ctx, t: Tree)
    ensures Home(t, c) <==> Sep(Plug(c, t))
    decreases c
  {
    if c.Frame? {
      HomePlug(c.up, Up(c, t));
      MkSep(c.d, c.id, c.black, t, c.sib);
    }
  }

  // Where the members of s without its k-th come from.
  lemma {:induction false} DropAt(s: seq<Ptr>, k: nat, i: nat)
    requires k < |s| && i + 1 < |s|
    ensures (s[..k] + s[k + 1..])[i] == s[if i < k then i else i + 1]
  {
  }

  lemma {:induction false} RemovedPairs(s: seq<Ptr>, x: Ptr, s': seq<Ptr>, i: nat, j: nat) returns (i': nat, j': nat)
    requires Removed(s, x, s') && i < j < |s'|
    ensures i' < j' < |s| && s'[i] == s[i'] && s'[j] == s[j']
  {
    var k :| 0 <= k < |s| && s[k] == x && s' == s[..k] + s[k + 1..];
    DropAt(s, k, i);
    DropAt(s, k, j);
    i', j' := if i < k then i else i + 1, if j < k then j else j + 1;
  }

  lemma {:induction false} RemovedMembers(s: seq<Ptr>, x: Ptr, s': seq<Ptr>)
    requires Removed(s, x, s') && NoDup(s)
    ensures forall y :: y in s' <==> y in s && y != x
  {
    var k :| 0 <= k < |s| && s[k] == x && s' == s[..k] + s[k + 1..];
    assert s == s[..k] + [x] + s[k + 1..];
    NoDupAround(s[..k], x, s[k + 1..]);
  }

  lemma {:induction false} RemovedNoDup(s: seq<Ptr>, x: Ptr, s': seq<Ptr>)
    requires Removed(s, x, s') && NoDup(s)
    ensures NoDup(s')
  {
    forall i, j | 0 <= i < j < |s'| ensures s'[i] != s'[j] {
      var i', j' := RemovedPairs(s, x, s', i, j);
    }
  }

  // ---------- the successor ----------

  // x, with two children, is the node in the hole of c; its successor s sits in the hole of inner, below the right
  // child of x, with c2 as its only possible child.
  ghost predicate AtSuccessor(m: Arena, root: Ptr, c: Ctx, x: Ptr, black: bool, l: Tree, r: Tree, inner: Ctx, s: Ptr,
                              sBlack: bool, c2: Tree, n: nat) {
    && Placed(m, root, Over(inner, Frame(Right, x, black, l, c)), Node(s, sBlack, Leaf, c2), n)
    && AllLeft(inner) && Plug(inner, Node(s, sBlack, Leaf, c2)) == r && l.Node?
  }

  lemma {:induction false} SuccessorInOrder(c: Ctx, x: Ptr, black: bool, l: Tree, inner: Ctx, s: Ptr, sBlack: bool,
                                            c2: Tree)
    requires AllLeft(inner)
    ensures Removed(InOrder(Plug(c, Node(x, black, l, Plug(inner, Node(s, sBlack, Leaf, c2))))), x,
                    InOrder(Plug(Over(inner, Frame(Right, s, black, l, c)), Recolour(c2, true))))
  {
    var r, r' := Plug(inner, Node(s, sBlack, Leaf, c2)), Plug(inner, Recolour(c2, true));
    RecolourIds(c2, true);
    BeforeAllLeft(inner);
    PlugInOrder(inner, Node(s, sBlack, Leaf, c2));
    PlugInOrder(inner, Recolour(c2, true));
    SeqHead(s, InOrder(c2), After(inner));
    assert InOrder(r) == [s] + InOrder(r');
    PlugOver(inner, Frame(Right, s, black, l, c), Recolour(c2, true));
    PlugInOrder(c, Node(x, black, l, r));
    PlugInOrder(c, Node(s, black, l, r'));
    SeqRemove(Before(c), InOrder(l), x, s, InOrder(r'), After(c));
    RemovedFrom(Before(c) + InOrder(l), x, [s] + InOrder(r') + After(c));
  }

  lemma {:induction false} SeqHead(s: Ptr, i: seq<Ptr>, a: seq<Ptr>)
    ensures [] + ([] + [s] + i) + a == [s] + ([] + i + a)
  {
  }

  lemma {:induction false} SeqRemove(b: seq<Ptr>, l: seq<Ptr>, x: Ptr, s: Ptr, r: seq<Ptr>, a: seq<Ptr>)
    ensures b + (l + [x] + ([s] + r)) + a == (b + l) + [x] + ([s] + r + a)
    ensures b + (l + [s] + r) + a == (b + l) + ([s] + r + a)
  {
  }

  lemma {:induction false} SuccessorHome(m: Arena, root: Ptr, c: Ctx, x: Ptr, black: bool, l: Tree, r: Tree, inner: Ctx,
                                         s: Ptr, sBlack: bool, c2: Tree, n: nat)
    requires AtSuccessor(m, root, c, x, black, l, r, inner, s, sBlack, c2, n)
    ensures Home(Recolour(c2, true), Over(inner, Frame(Right, s, black, l, c)))
  {
    var st, base, base' := Node(s, sBlack, Leaf, c2), Frame(Right, x, black, l, c), Frame(Right, s, black, l, c);
    HomePlug(Over(inner, base), st);
    PlugOver(inner, base, st);
    var w, w' := Plug(Over(inner, base), st), Plug(Over(inner, base'), Recolour(c2, true));
    SuccessorInOrder(c, x, black, l, inner, s, sBlack, c2);
    SepNoDup(w);
    RemovedNoDup(InOrder(w), x, InOrder(w'));
    SepNoDup(w');
    HomePlug(Over(inner, base'), Recolour(c2, true));
  }

  // What is known around the successor before anything moves: its neighbours are apart ...
  lemma {:induction false} SuccessorSep(inner: Ctx, x: Ptr, black: bool, l: Tree, c: Ctx, s: Ptr, sBlack: bool,
                                        c2: Tree)
    requires Home(Node(s, sBlack, Leaf, c2), Over(inner, Frame(Right, x, black, l, c)))
    ensures Sep(l) && Sep(c2) && CtxSep(inner) && CtxSep(c) && CtxIds(inner) !! CtxIds(c)
    ensures Ids(l) !! Ids(c2) && Ids(l) !! CtxIds(c) && Ids(l) !! CtxIds(inner) && Ids(c2) !! CtxIds(c)
            && Ids(c2) !! CtxIds(inner)
    ensures x != s && s !in Ids(l) && s !in Ids(c2) && s !in CtxIds(c) && s !in CtxIds(inner)
    ensures x !in Ids(l) && x !in Ids(c2) && x !in CtxIds(c) && x !in CtxIds(inner)
  {
    var base := Frame(Right, x, black, l, c);
    OverIds(inner, base);
    CtxSepOver(inner, base);
    assert CtxIds(base) == {x} + Ids(l) + CtxIds(c);
  }

  // ... and the records are these.
  lemma {:induction false} SuccessorReads(m: Arena, root: Ptr, c: Ctx, x: Ptr, black: bool, l: Tree, r: Tree,
                                          inner: Ctx, s: Ptr, sBlack: bool, c2: Tree, n: nat)
    requires AtSuccessor(m, root, c, x, black, l, r, inner, s, sBlack, c2, n)
    ensures IsBelow(m, l) && IsBelow(m, c2) && x in m && s in m && l.id in m && x != NULL && s != NULL
    ensures m[x] == Rec(Word(Holder(c), black), Root(r), l.id) && m[s] == Rec(m[s].pc, Root(c2), NULL)
            && WordBlack(m[s].pc) == sBlack
    ensures c2.Node? ==> c2.id in m && c2.id != NULL
    ensures IsSeg(m, inner, x, s, Root(r)) && IsCtx(m, root, c, x) && m[l.id].pc == Word(x, l.black)
    ensures Root(r) == if inner.Top? then s else Outermost(inner).id
  {
    var st, base := Node(s, sBlack, Leaf, c2), Frame(Right, x, black, l, c);
    PlugRoot(inner, st);
    assert IsTree(m, Holder(Over(inner, base)), st) && IsTree(m, s, c2);
    var top := SegOfCtx(m, root, inner, base, s);
    assert IsCtx(m, root, base, top) && IsTree(m, x, l);
  }

  lemma {:induction false} PlugRoot(inner: Ctx, t: Tree)
    ensures Root(Plug(inner, t)) == if inner.Top? then Root(t) else Outermost(inner).id
    decreases inner
  {
    if inner.Frame? { PlugRoot(inner.up, Up(inner, t)); }
  }

  // The records once the successor s is in its new place, and c2 in its old one.
  ghost predicate Adopted(m: Arena, m': Arena, root': Ptr, c: Ctx, black: bool, l: Tree, inner: Ctx, s: Ptr, c2: Tree,
                          top: Ptr)
    requires l.Node?
  {
    && s in m' && m'[s] == Rec(Word(Holder(c), black), top, Root(l))
    && l.id in m && l.id in m' && m'[l.id] == m[l.id].(pc := Word(s, l.black))
    && (c2.Node? ==> && c2.id in m && c2.id in m'
                     && m'[c2.id] == m[c2.id].(pc := Word(if inner.Top? then s else inner.id, true)))
    && (if inner.Frame? then IsSeg(m', inner, s, Root(c2), top) else top == Root(c2))
    && IsCtx(m', root', c, s)
  }

  lemma {:induction false} SuccessorTrees(m: Arena, m': Arena, root': Ptr, c: Ctx, black: bool, l: Tree, inner: Ctx,
                                          s: Ptr, c2: Tree, top: Ptr)
    requires IsBelow(m, l) && IsBelow(m, c2) && Sep(l) && Sep(c2) && l.Node? && s != NULL
    requires Adopted(m, m', root', c, black, l, inner, s, c2, top)
    requires Agree(m, m', Ids(l) - {l.id}) && Agree(m, m', Ids(c2) - {Root(c2)})
    ensures var c' := Over(inner, Frame(Right, s, black, l, c));
            IsTree(m', Holder(c'), Recolour(c2, true)) && IsCtx(m', root', c', Root(c2))
  {
    Reparent(m, m', s, l, l.black);
    assert Recolour(l, l.black) == l;
    Reparent(m, m', if inner.Top? then s else inner.id, c2, true);
    CtxOfSeg(m', root', inner, Frame(Right, s, black, l, c), Root(c2), top);
  }

  lemma {:induction false} CtxSepOver(inner: Ctx, c: Ctx)
    requires CtxSep(Over(inner, c))
    ensures CtxSep(inner) && CtxSep(c) && CtxIds(inner) !! CtxIds(c)
  {
    if inner.Frame? {
      CtxSepOver(inner.up, c);
      OverIds(inner.up, c);
    }
  }

  // The successor s, further down than the right child of x, leaves its parent and takes child, that right child.
  function SpliceMem(m: Arena, parent: Ptr, s: Ptr, child: Ptr): Arena
    requires parent in m && s in m && child in m
  {
    var m1 := SetKid(m, parent, Left, m[s].right);
    var m2 := SetKid(m1, s, Right, child);
    SetPc(m2, child, Word(s, WordBlack(m2[child].pc)))
  }

  lemma {:induction false} SpliceFacts(m: Arena, inner: Ctx, x: Ptr, s: Ptr, c2: Ptr)
    requires inner.Frame? && AllLeft(inner) && CtxSep(inner) && IsSeg(m, inner, x, s, Outermost(inner).id)
    requires s in m && s !in CtxIds(inner) && m[s].right == c2
    ensures inner.id in m && Outermost(inner).id in m
    ensures var m' := SpliceMem(m, inner.id, s, Outermost(inner).id);
            && IsSeg(m', inner, s, c2, Outermost(inner).id) && m'.Keys == m.Keys
            && m'[s] == m[s].(right := Outermost(inner).id)
            && forall y :: y in m && y !in CtxIds(inner) && y != s ==> m'[y] == m[y]
  {
    var child := Outermost(inner).id;
    var m1 := SetKid(m, inner.id, Left, c2);
    SegHole(m, inner, x, s, c2, child);
    var m2 := SetKid(m1, s, Right, child);
    FrameSeg(m1, m2, inner, x, c2, child);
    SegOuter(m2, inner, x, s, c2, child);
  }

  // s takes the left child of x and the place of x under its parent.
  function TakePlaceMem(m: Arena, root: Ptr, x: Ptr, s: Ptr): Mem
    requires TakeReady(m, x, s)
  {
    var lp := m[x].left;
    var m4 := SetKid(m, s, Left, lp);
    var m5 := SetPc(m4, lp, Word(s, WordBlack(m4[lp].pc)));
    ChangedChild(m5, root, x, s, WordParent(m5[x].pc))
  }

  lemma {:induction false} TakePlaceFacts(m: Arena, root: Ptr, c: Ctx, x: Ptr, black: bool, s: Ptr, lp: Ptr,
                                          lBlack: bool)
    requires x in m && s in m && lp in m && x != s && lp != x && lp != s && x != NULL
    requires m[x].left == lp && m[x].pc == Word(Holder(c), black) && m[lp].pc == Word(x, lBlack)
    requires IsCtx(m, root, c, x) && CtxSep(c) && x !in CtxIds(c) && s !in CtxIds(c) && lp !in CtxIds(c)
    ensures Holder(c) != NULL ==> Holder(c) in m
    ensures var t := TakePlaceMem(m, root, x, s);
            && IsCtx(t.nodes, t.root, c, s) && t.nodes.Keys == m.Keys && t.nodes[x] == m[x]
            && t.nodes[s] == m[s].(left := lp) && t.nodes[lp] == m[lp].(pc := Word(s, lBlack))
            && forall y :: y in m && y !in CtxIds(c) && y != s && y != lp ==> t.nodes[y] == m[y]
  {
    var m5 := SetPc(SetKid(m, s, Left, lp), lp, Word(s, lBlack));
    FrameCtx(m, m5, root, c, x);
    ChangedChildCtx(m5, root, x, s, c);
  }

  // s takes the word of x; its former right child, if any, becomes a black child of parent.
  function AdoptMem(m: Arena, x: Ptr, s: Ptr, c2: Ptr, parent: Ptr): Arena
    requires x in m && s in m && (c2 != NULL ==> c2 in m)
  {
    var m7 := SetPc(m, s, m[x].pc);
    if c2 != NULL then SetPc(m7, c2, Word(parent, true)) else m7
  }

  // m3 is m after the splice, if there was one.
  ghost predicate Spliced(m: Arena, m3: Arena, inner: Ctx, s: Ptr, r: Tree) {
    if inner.Top? then m3 == m else inner.id in m && s in m && Root(r) in m && m3 == SpliceMem(m, inner.id, s, Root(r))
  }

  predicate TakeReady(m: Arena, x: Ptr, s: Ptr) {
    && x in m && s in m && m[x].left in m && x != s && m[x].left != x
    && (WordParent(m[x].pc) != NULL ==> WordParent(m[x].pc) in m)
  }

  // The records that TakePlace reads are as before the splice.
  lemma {:induction false} SplicedReads(m: Arena, m3: Arena, root: Ptr, c: Ctx, x: Ptr, black: bool, l: Tree, r: Tree,
                                        inner: Ctx, s: Ptr, sBlack: bool, c2: Tree, n: nat)
    requires AtSuccessor(m, root, c, x, black, l, r, inner, s, sBlack, c2, n) && Spliced(m, m3, inner, s, r)
    ensures m3.Keys == m.Keys && x in m && s in m && l.id in m && x != NULL && x != s
    ensures m3[x] == m[x] == Rec(Word(Holder(c), black), Root(r), l.id) && m3[l.id] == m[l.id]
    ensures m[l.id].pc == Word(x, l.black) && IsCtx(m3, root, c, x)
    ensures m3[s] == Rec(m[s].pc, if inner.Top? then Root(c2) else Root(r), NULL)
    ensures inner.Frame? ==> IsSeg(m3, inner, s, Root(c2), Root(r))
    ensures forall y :: y in m && y !in CtxIds(inner) && y != s ==> m3[y] == m[y]
  {
    SuccessorReads(m, root, c, x, black, l, r, inner, s, sBlack, c2, n);
    SuccessorSep(inner, x, black, l, c, s, sBlack, c2);
    if inner.Frame? { SpliceFacts(m, inner, x, s, Root(c2)); }
    FrameCtx(m, m3, root, c, x);
  }

  lemma {:induction false} SuccessorMoved(m: Arena, m3: Arena, root: Ptr, c: Ctx, x: Ptr, black: bool, l: Tree, r: Tree,
                                          inner: Ctx, s: Ptr, sBlack: bool, c2: Tree, n: nat)
    requires AtSuccessor(m, root, c, x, black, l, r, inner, s, sBlack, c2, n) && Spliced(m, m3, inner, s, r)
    ensures TakeReady(m3, x, s)
    ensures var t := TakePlaceMem(m3, root, x, s); Moved(m, t.nodes, t.root, c, x, black, l, r, inner, s, c2)
  {
    SplicedReads(m, m3, root, c, x, black, l, r, inner, s, sBlack, c2, n);
    SuccessorSep(inner, x, black, l, c, s, sBlack, c2);
    TakePlaceFacts(m3, root, c, x, black, s, l.id, l.black);
    var t := TakePlaceMem(m3, root, x, s);
    if inner.Frame? { FrameSeg(m3, t.nodes, inner, s, Root(c2), Root(r)); }
  }

  // The arena after the successor has moved; only words are still to be written.
  ghost predicate Moved(m: Arena, m6: Arena, root': Ptr, c: Ctx, x: Ptr, black: bool, l: Tree, r: Tree, inner: Ctx,
                        s: Ptr, c2: Tree)
    requires l.Node?
  {
    && m6.Keys == m.Keys && x in m && s in m && l.id in m && m6[x] == m[x] && m[x].pc == Word(Holder(c), black)
    && m6[s] == Rec(m[s].pc, if inner.Top? then Root(c2) else Root(r), l.id)
    && m6[l.id] == m[l.id].(pc := Word(s, l.black))
    && IsCtx(m6, root', c, s) && (inner.Frame? ==> IsSeg(m6, inner, s, Root(c2), Root(r)))
    && forall y :: y in m && y !in CtxIds(c) && y !in CtxIds(inner) && y != s && y != l.id ==> m6[y] == m[y]
  }

  lemma {:induction false} AdoptReads(m: Arena, x: Ptr, s: Ptr, c2: Tree, parent: Ptr)
    requires x in m && s in m && (c2.Node? ==> c2.id in m && c2.id != NULL && c2.id != s)
    ensures var m' := AdoptMem(m, x, s, Root(c2), parent);
            && m'.Keys == m.Keys && m'[s] == m[s].(pc := m[x].pc)
            && (c2.Node? ==> m'[c2.id] == m[c2.id].(pc := Word(parent, true)))
            && forall y :: y in m && y != s && y !in Top1(c2) ==> m'[y] == m[y]
  {
  }

  lemma {:induction false} AdoptFacts(m: Arena, m6: Arena, root': Ptr, c: Ctx, x: Ptr, black: bool, l: Tree, r: Tree,
                                      inner: Ctx, s: Ptr, c2: Tree, top: Ptr)
    requires l.Node? && Moved(m, m6, root', c, x, black, l, r, inner, s, c2)
             && top == if inner.Top? then Root(c2) else Root(r)
    requires x != s && l.id != s && l.id !in Ids(c2) && l.id !in CtxIds(c) && l.id !in CtxIds(inner)
    requires Ids(c2) !! CtxIds(c) && Ids(c2) !! CtxIds(inner) && s !in Ids(c2) && s !in CtxIds(c) && s !in CtxIds(inner)
    requires c2.Node? ==> c2.id in m && c2.id != NULL
    ensures var m' := AdoptMem(m6, x, s, Root(c2), if inner.Top? then s else inner.id);
            && m'.Keys == m.Keys && Adopted(m, m', root', c, black, l, inner, s, c2, top)
            && Only(m, m', CtxIds(c) + CtxIds(inner) + {s, l.id} + Top1(c2))
  {
    hide IsCtx, IsSeg, AdoptMem, CtxIds;
    var m' := AdoptMem(m6, x, s, Root(c2), if inner.Top? then s else inner.id);
    AdoptReads(m6, x, s, c2, if inner.Top? then s else inner.id);
    FrameCtx(m6, m', root', c, s);
    if inner.Frame? { FrameSeg(m6, m', inner, s, Root(c2), Root(r)); }
  }

  lemma {:induction false} OnlyAgree(m: Arena, m': Arena, touched: set<Ptr>, s: set<Ptr>)
    requires Only(m, m', touched) && s !! touched
    ensures Agree(m, m', s)
  {
  }

  lemma {:induction false} AdoptedTrees(m: Arena, m': Arena, root': Ptr, c: Ctx, black: bool, l: Tree, inner: Ctx,
                                        s: Ptr, c2: Tree, top: Ptr)
    requires l.Node? && Adopted(m, m', root', c, black, l, inner, s, c2, top)
    requires Only(m, m', CtxIds(c) + CtxIds(inner) + {s, l.id} + Top1(c2))
    requires IsBelow(m, l) && IsBelow(m, c2) && Sep(l) && Sep(c2) && s != NULL && s !in Ids(l) && s !in Ids(c2)
    requires Ids(l) !! Ids(c2) && Ids(l) !! CtxIds(c) && Ids(l) !! CtxIds(inner)
    requires Ids(c2) !! CtxIds(c) && Ids(c2) !! CtxIds(inner)
    ensures var c' := Over(inner, Frame(Right, s, black, l, c));
            IsTree(m', Holder(c'), Recolour(c2, true)) && IsCtx(m', root', c', Root(c2))
  {
    var touched := CtxIds(c) + CtxIds(inner) + {s, l.id} + Top1(c2);
    OnlyAgree(m, m', touched, Ids(l) - {l.id});
    OnlyAgree(m, m', touched, Ids(c2) - {Root(c2)});
    SuccessorTrees(m, m', root', c, black, l, inner, s, c2, top);
  }

  lemma {:induction false} AdoptTrees(m: Arena, m6: Arena, root': Ptr, c: Ctx, x: Ptr, black: bool, l: Tree, r: Tree,
                                      inner: Ctx, s: Ptr, c2: Tree)
    requires l.Node? && Moved(m, m6, root', c, x, black, l, r, inner, s, c2)
    requires IsBelow(m, l) && IsBelow(m, c2) && Sep(l) && Sep(c2) && s != NULL && x != s
    requires Ids(l) !! Ids(c2) && Ids(l) !! CtxIds(c) && Ids(l) !! CtxIds(inner) && Ids(c2) !! CtxIds(c)
             && Ids(c2) !! CtxIds(inner)
    requires s !in Ids(l) && s !in Ids(c2) && s !in CtxIds(c) && s !in CtxIds(inner)
    ensures Root(c2) != NULL ==> Root(c2) in m
    ensures var m' := AdoptMem(m6, x, s, Root(c2), if inner.Top? then s else inner.id);
            var c' := Over(inner, Frame(Right, s, black, l, c));
            && IsTree(m', Holder(c'), Recolour(c2, true)) && IsCtx(m', root', c', Root(c2))
            && Only(m, m', CtxIds(c) + CtxIds(inner) + {s, l.id} + Top1(c2))
  {
    var top := if inner.Top? then Root(c2) else Root(r);
    AdoptFacts(m, m6, root', c, x, black, l, r, inner, s, c2, top);
    var m' := AdoptMem(m6, x, s, Root(c2), if inner.Top? then s else inner.id);
    AdoptedTrees(m, m', root', c, black, l, inner, s, c2, top);
  }

  lemma {:induction false} AdoptSplit(m: Arena, m6: Arena, root: Ptr, root': Ptr, c: Ctx, x: Ptr, black: bool, l: Tree,
                                      r: Tree, inner: Ctx, s: Ptr, sBlack: bool, c2: Tree, n: nat)
    requires AtSuccessor(m, root, c, x, black, l, r, inner, s, sBlack, c2, n)
             && Moved(m, m6, root', c, x, black, l, r, inner, s, c2)
    ensures (Root(c2) != NULL ==> Root(c2) in m) && WordBlack(m[s].pc) == sBlack
    ensures var m' := AdoptMem(m6, x, s, Root(c2), if inner.Top? then s else inner.id);
            && Split(m', root', Over(inner, Frame(Right, s, black, l, c)), Recolour(c2, true))
            && Only(m, m', CtxIds(c) + CtxIds(inner) + {s, l.id} + Top1(c2))
  {
    SuccessorReads(m, root, c, x, black, l, r, inner, s, sBlack, c2, n);
    SuccessorSep(inner, x, black, l, c, s, sBlack, c2);
    AdoptTrees(m, m6, root', c, x, black, l, r, inner, s, c2);
    SuccessorHome(m, root, c, x, black, l, r, inner, s, sBlack, c2, n);
    RecolourIds(c2, true);
  }

  // The balance once the successor is out of its old place.
  lemma {:induction false} SuccessorBal(m: Arena, root: Ptr, c: Ctx, x: Ptr, black: bool, l: Tree, r: Tree, inner: Ctx,
                                        s: Ptr, sBlack: bool, c2: Tree, n: nat)
    requires AtSuccessor(m, root, c, x, black, l, r, inner, s, sBlack, c2, n)
    ensures var c' := Over(inner, Frame(Right, s, black, l, c));
            && c'.Frame? && (c2.Node? ==> RedBlack(Plug(c', Recolour(c2, true))))
            && (c2.Leaf? && !sBlack ==> RedBlack(Plug(c', Leaf))) && (c2.Leaf? && sBlack ==> RbErase.Short(c', Leaf, 0))
  {
    OverBal(inner, Right, x, s, black, l, c, n, !sBlack);
    OneSided(Over(inner, Frame(Right, s, black, l, c)), Left, s, sBlack, c2, n);
  }

  // Erasure keeps the search order and takes out exactly the erased node.
  lemma {:induction false} RemovedSorted(s: seq<Ptr>, x: Ptr, s': seq<Ptr>, less: (Ptr, Ptr) -> bool)
    requires Removed(s, x, s') && RbInsert.Sorted(s, less)
    ensures RbInsert.Sorted(s', less)
  {
    forall i, j | 0 <= i < j < |s'| ensures less(s'[i], s'[j]) {
      var i', j' := RemovedPairs(s, x, s', i, j);
    }
  }

  lemma {:induction false} RemovedIds(w: Tree, x: Ptr, w': Tree)
    requires Removed(InOrder(w), x, InOrder(w')) && Sep(w)
    ensures Ids(w') == Ids(w) - {x}
  {
    SepNoDup(w);
    RemovedMembers(InOrder(w), x, InOrder(w'));
    InOrderIds(w);
    InOrderIds(w');
  }
}
