/** The shape theory behind src/common/rbtree.c: the packed parent/colour word, node records in an
    arena, the tree and the one-hole context they stand for, and what separates and balances them. */
module RbShape {

  import opened Basics

  // A node address divided by 4; 0 is NULL. Nodes are aligned, so the two low bits of an address are always 0.
  type Ptr = nat

  const NULL: Ptr := 0

  datatype Dir = Left | Right

  function Opp(d: Dir): Dir { if d == Left then Right else Left }

  // One rb_node: the word __rb_parent_color and the two child pointers.
  datatype Rec = Rec(pc: nat, right: Ptr, left: Ptr) {
    function Kid(d: Dir): Ptr { if d == Left then left else right }

    function SetKid(d: Dir, p: Ptr): Rec {
      if d == Left then this.(left := p) else this.(right := p)
    }
  }

  type Arena = map<Ptr, Rec>

  // The accessors of the packed word: the low bit is the colour, all but the two low bits the parent.
  function WordParent(pc: nat): Ptr { pc / 4 }

  predicate WordBlack(pc: nat) { pc % 4 % 2 == 1 }

  function Word(p: Ptr, black: bool): (pc: nat)
    ensures WordParent(pc) == p && WordBlack(pc) == black
    ensures !black ==> pc == 4 * p
  {
    4 * p + (if black then 1 else 0)
  }

  function MkRec(pc: nat, d: Dir, near: Ptr, far: Ptr): (r: Rec)
    ensures r.Kid(d) == near && r.Kid(Opp(d)) == far && r.pc == pc
  {
    if d == Left then Rec(pc, far, near) else Rec(pc, near, far)
  }

  // ---------- trees and contexts ----------

  datatype Tree = Leaf | Node(id: Ptr, black: bool, l: Tree, r: Tree) {
    function Kid(d: Dir): Tree
      requires Node?
    {
      if d == Left then l else r
    }

    predicate IsBlack() { Leaf? || black }
  }

  function Mk(d: Dir, id: Ptr, black: bool, near: Tree, far: Tree): (t: Tree)
    ensures t.Node? && t.id == id && t.black == black && t.Kid(d) == near && t.Kid(Opp(d)) == far
  {
    if d == Left then Node(id, black, near, far) else Node(id, black, far, near)
  }

  function Root(t: Tree): Ptr { if t.Leaf? then NULL else t.id }

  // A tree with one subtree missing, seen from the hole upwards: the hole is child d of id.
  datatype Ctx = Top | Frame(d: Dir, id: Ptr, black: bool, sib: Tree, up: Ctx)

  function Holder(c: Ctx): Ptr { if c.Top? then NULL else c.id }

  function Plug(c: Ctx, t: Tree): Tree
    decreases c
  {
    match c
    case Top => t
    case Frame(d, id, black, sib, up) => Plug(up, Mk(d, id, black, t, sib))
  }

  function Ids(t: Tree): set<Ptr> {
    if t.Leaf? then {} else {t.id} + Ids(t.l) + Ids(t.r)
  }

  function CtxIds(c: Ctx): set<Ptr> {
    if c.Top? then {} else {c.id} + Ids(c.sib) + CtxIds(c.up)
  }

  function InOrder(t: Tree): seq<Ptr> {
    if t.Leaf? then [] else InOrder(t.l) + [t.id] + InOrder(t.r)
  }

  // What an in-order walk visits before and after the hole.
  function Before(c: Ctx): seq<Ptr> {
    match c
    case Top => []
    case Frame(d, id, _, sib, up) => if d == Left then Before(up) else Before(up) + InOrder(sib) + [id]
  }

  function After(c: Ctx): seq<Ptr> {
    match c
    case Top => []
    case Frame(d, id, _, sib, up) => if d == Left then [id] + InOrder(sib) + After(up) else After(up)
  }

  // ---------- separation: every node occurs once ----------

  predicate Sep(t: Tree) {
    t.Leaf? || (t.id != NULL && t.id !in Ids(t.l) && t.id !in Ids(t.r) && Ids(t.l) !! Ids(t.r) && Sep(t.l) && Sep(t.r))
  }

  predicate CtxSep(c: Ctx) {
    c.Top? || (c.id != NULL && c.id !in Ids(c.sib) && c.id !in CtxIds(c.up) && Ids(c.sib) !! CtxIds(c.up)
               && Sep(c.sib) && CtxSep(c.up))
  }

  // ---------- balance ----------

  // Every path from the root of t to a leaf meets n black nodes.
  predicate Bal(t: Tree, n: nat) {
    match t
    case Leaf => n == 0
    case Node(_, black, l, r) => if black then n > 0 && Bal(l, n - 1) && Bal(r, n - 1) else Bal(l, n) && Bal(r, n)
  }

  predicate NoRedRed(t: Tree) {
    t.Leaf? || (NoRedRed(t.l) && NoRedRed(t.r) && (t.black || (t.l.IsBlack() && t.r.IsBlack())))
  }

  // The hole takes a subtree of black height n.
  predicate CtxBal(c: Ctx, n: nat) {
    match c
    case Top => true
    case Frame(_, _, black, sib, up) => Bal(sib, n) && CtxBal(up, if black then n + 1 else n)
  }

  // The hole takes a subtree with no red root; with redOk it may also take one with a red root.
  predicate CtxNoRedRed(c: Ctx, redOk: bool) {
    match c
    case Top => !redOk
    case Frame(_, _, black, sib, up) =>
      NoRedRed(sib) && (black || (sib.IsBlack() && !redOk)) && CtxNoRedRed(up, !black)
  }

  ghost predicate RedBlack(t: Tree) {
    t.IsBlack() && NoRedRed(t) && exists n: nat :: Bal(t, n)
  }

  // ---------- what the arena holds ----------

  ghost predicate IsTree(mem: Arena, parent: Ptr, t: Tree)
    decreases t
  {
    match t
    case Leaf => true
    case Node(id, black, l, r) =>
      && id != NULL && id in mem
      && mem[id] == Rec(Word(parent, black), Root(r), Root(l))
      && IsTree(mem, id, l) && IsTree(mem, id, r)
  }

  // The nodes around the hole, the hole itself holding the pointer hole.
  ghost predicate IsCtx(mem: Arena, root: Ptr, c: Ctx, hole: Ptr) {
    match c
    case Top => root == hole
    case Frame(d, id, black, sib, up) =>
      && id != NULL && id in mem
      && mem[id] == MkRec(Word(Holder(up), black), d, hole, Root(sib))
      && IsTree(mem, id, sib) && IsCtx(mem, root, up, id)
  }

  ghost predicate Agree(m: Arena, m': Arena, s: set<Ptr>) {
    forall x :: x in s && x in m ==> x in m' && m'[x] == m[x]
  }

  // A subtree t in its context c, as the arena holds them.
  ghost predicate Split(mem: Arena, root: Ptr, c: Ctx, t: Tree) {
    && IsTree(mem, Holder(c), t) && IsCtx(mem, root, c, Root(t))
    && Sep(t) && CtxSep(c) && Ids(t) !! CtxIds(c)
  }

  // ---------- frame lemmas ----------

  lemma {:induction false} FrameTree(m: Arena, m': Arena, parent: Ptr, t: Tree)
    requires IsTree(m, parent, t) && Agree(m, m', Ids(t))
    ensures IsTree(m', parent, t)
    decreases t
  {
    if t.Node? {
      FrameTree(m, m', t.id, t.l);
      FrameTree(m, m', t.id, t.r);
    }
  }

  lemma {:induction false} FrameCtx(m: Arena, m': Arena, root: Ptr, c: Ctx, hole: Ptr)
    requires IsCtx(m, root, c, hole) && Agree(m, m', CtxIds(c))
    ensures IsCtx(m', root, c, hole)
  {
    if c.Frame? {
      FrameTree(m, m', c.id, c.sib);
      FrameCtx(m, m', root, c.up, c.id);
    }
  }

  lemma {:induction false} TreeInArena(m: Arena, parent: Ptr, t: Tree)
    requires IsTree(m, parent, t)
    ensures forall x :: x in Ids(t) ==> x in m && x != NULL
    decreases t
  {
    if t.Node? {
      TreeInArena(m, t.id, t.l);
      TreeInArena(m, t.id, t.r);
    }
  }

  // Everything about t but the word of its root.
  ghost predicate IsBelow(m: Arena, t: Tree) {
    match t
    case Leaf => true
    case Node(id, _, l, r) =>
      id != NULL && id in m && m[id].left == Root(l) && m[id].right == Root(r) && IsTree(m, id, l) && IsTree(m, id, r)
  }

  function Recolour(t: Tree, black: bool): Tree { if t.Leaf? then Leaf else t.(black := black) }

  // The root of t moves under another parent, perhaps in another colour; the rest stays.
  lemma {:induction false} Reparent(m: Arena, m': Arena, p: Ptr, t: Tree, black: bool)
    requires IsBelow(m, t) && Sep(t)
    requires t.Node? ==> t.id in m' && m'[t.id] == m[t.id].(pc := Word(p, black))
    requires Agree(m, m', Ids(t) - {Root(t)})
    ensures IsTree(m', p, Recolour(t, black))
  {
    if t.Node? {
      FrameTree(m, m', t.id, t.l);
      FrameTree(m, m', t.id, t.r);
    }
  }

  // ---------- plugging ----------

  lemma {:induction false} PlugIds(c: Ctx, t: Tree)
    ensures Ids(Plug(c, t)) == Ids(t) + CtxIds(c)
    decreases c
  {
    if c.Frame? { PlugIds(c.up, Mk(c.d, c.id, c.black, t, c.sib)); }
  }

  lemma {:induction false} PlugInOrder(c: Ctx, t: Tree)
    ensures InOrder(Plug(c, t)) == Before(c) + InOrder(t) + After(c)
    decreases c
  {
    if c.Frame? {
      MkInOrder(c.d, c.id, c.black, t, c.sib);
      PlugInOrder(c.up, Mk(c.d, c.id, c.black, t, c.sib));
      SeqAround(Before(c.up), InOrder(t), c.id, InOrder(c.sib), After(c.up));
      SeqAround(Before(c.up), InOrder(c.sib), c.id, InOrder(t), After(c.up));
    }
  }

  lemma {:induction false} SeqAround(b: seq<Ptr>, i: seq<Ptr>, x: Ptr, s: seq<Ptr>, a: seq<Ptr>)
    ensures b + (i + [x] + s) + a == b + i + ([x] + s + a) == (b + i + [x]) + s + a
  {
  }

  lemma {:induction false} PlugIsTree(mem: Arena, root: Ptr, c: Ctx, t: Tree)
    requires Split(mem, root, c, t)
    ensures IsTree(mem, NULL, Plug(c, t)) && root == Root(Plug(c, t)) && Sep(Plug(c, t))
    decreases c
  {
    if c.Frame? { PlugIsTree(mem, root, c.up, Mk(c.d, c.id, c.black, t, c.sib)); }
  }

  lemma {:induction false} PlugRedBlack(c: Ctx, t: Tree, n: nat)
    requires Bal(t, n) && CtxBal(c, n) && NoRedRed(t)
    requires CtxNoRedRed(c, !t.IsBlack())
    ensures RedBlack(Plug(c, t))
    decreases c
  {
    if c.Frame? {
      var up := Mk(c.d, c.id, c.black, t, c.sib);
      PlugRedBlack(c.up, up, if c.black then n + 1 else n);
    }
  }

  // ---------- unplugging: the context of a node ----------

  // One step down: the child d of the subtree in the hole becomes the subtree in the hole.
  function Down(c: Ctx, t: Tree, d: Dir): (c': Ctx)
    requires t.Node?
    ensures Plug(c', t.Kid(d)) == Plug(c, t)
  {
    Frame(d, t.id, t.black, t.Kid(Opp(d)), c)
  }

  lemma {:induction false} DownSplit(mem: Arena, root: Ptr, c: Ctx, t: Tree, d: Dir)
    requires Split(mem, root, c, t) && t.Node?
    ensures Split(mem, root, Down(c, t, d), t.Kid(d))
  {
  }

  function Up(c: Ctx, t: Tree): (t': Tree)
    requires c.Frame?
    ensures Plug(c.up, t') == Plug(c, t)
  {
    Mk(c.d, c.id, c.black, t, c.sib)
  }

  lemma {:induction false} UpSplit(mem: Arena, root: Ptr, c: Ctx, t: Tree)
    requires Split(mem, root, c, t) && c.Frame?
    ensures Split(mem, root, c.up, Up(c, t))
  {
  }

  lemma {:induction false} DownBal(c: Ctx, t: Tree, d: Dir, n: nat)
    requires t.Node? && Bal(t, n) && CtxBal(c, n) && NoRedRed(t) && CtxNoRedRed(c, !t.IsBlack())
    ensures var m := if t.black then n - 1 else n;
            m >= 0 && Bal(t.Kid(d), m) && CtxBal(Down(c, t, d), m)
    ensures NoRedRed(t.Kid(d)) && CtxNoRedRed(Down(c, t, d), !t.Kid(d).IsBlack())
  {
  }

  // ---------- building a node from a side and two subtrees ----------

  lemma {:induction false} RecolourIds(t: Tree, black: bool)
    ensures Ids(Recolour(t, black)) == Ids(t) && InOrder(Recolour(t, black)) == InOrder(t)
    ensures Sep(t) ==> Sep(Recolour(t, black))
    ensures Root(Recolour(t, black)) == Root(t)
  {
  }

  lemma {:induction false} MkSep(d: Dir, id: Ptr, black: bool, near: Tree, far: Tree)
    ensures Ids(Mk(d, id, black, near, far)) == Ids(near) + Ids(far) + {id}
    ensures id != NULL && id !in Ids(near) && id !in Ids(far) && Ids(near) !! Ids(far) && Sep(near) && Sep(far)
            <==> Sep(Mk(d, id, black, near, far))
  {
  }

  lemma {:induction false} MkInOrder(d: Dir, id: Ptr, black: bool, near: Tree, far: Tree)
    ensures InOrder(Mk(d, id, black, near, far))
         == if d == Left then InOrder(near) + [id] + InOrder(far) else InOrder(far) + [id] + InOrder(near)
  {
  }

  lemma {:induction false} MkIsTree(m: Arena, parent: Ptr, d: Dir, id: Ptr, black: bool, near: Tree, far: Tree)
    requires id != NULL && id in m && m[id] == MkRec(Word(parent, black), d, Root(near), Root(far))
    requires IsTree(m, id, near) && IsTree(m, id, far)
    ensures IsTree(m, parent, Mk(d, id, black, near, far))
  {
  }

  lemma {:induction false} MkTrees(m: Arena, parent: Ptr, d: Dir, id: Ptr, black: bool, near: Tree, far: Tree)
    requires IsTree(m, parent, Mk(d, id, black, near, far))
    ensures id != NULL && id in m && m[id] == MkRec(Word(parent, black), d, Root(near), Root(far))
    ensures IsTree(m, id, near) && IsTree(m, id, far)
  {
  }

  lemma {:induction false} SeqAssoc(a: seq<Ptr>, x: Ptr, b: seq<Ptr>, y: Ptr, c: seq<Ptr>)
    ensures a + [x] + (b + [y] + c) == (a + [x] + b) + [y] + c
  {
  }

  lemma {:induction false} PlugSame(c: Ctx, t: Tree, t': Tree)
    requires InOrder(t) == InOrder(t')
    ensures InOrder(Plug(c, t)) == InOrder(Plug(c, t'))
  {
    PlugInOrder(c, t);
    PlugInOrder(c, t');
  }

  // ---------- separation read off the in-order walk ----------

  lemma {:induction false} NoDupAround(a: seq<Ptr>, x: Ptr, b: seq<Ptr>)
    ensures NoDup(a + [x] + b)
       <==> NoDup(a) && NoDup(b) && x !in a && x !in b && (forall y :: y in a ==> y !in b)
  {
    var s := a + [x] + b;
    assert forall i :: 0 <= i < |a| ==> s[i] == a[i];
    assert s[|a|] == x;
    assert forall i :: 0 <= i < |b| ==> s[|a| + 1 + i] == b[i];
    if NoDup(a) && NoDup(b) && x !in a && x !in b && (forall y :: y in a ==> y !in b) {
      forall i, j | 0 <= i < j < |s| ensures s[i] != s[j] {
        if i < |a| { assert s[i] in a; }
        if j > |a| { assert s[j] == b[j - |a| - 1] && s[j] in b; }
        if i > |a| { assert s[i] == b[i - |a| - 1]; }
      }
    }
  }

  lemma {:induction false} InOrderIds(t: Tree)
    ensures forall x :: x in Ids(t) <==> x in InOrder(t)
  {
    if t.Node? {
      InOrderIds(t.l);
      InOrderIds(t.r);
    }
  }

  lemma {:induction false} SepNoDup(t: Tree)
    ensures Sep(t) <==> NoDup(InOrder(t)) && NULL !in InOrder(t)
  {
    if t.Node? {
      SepNoDup(t.l);
      SepNoDup(t.r);
      InOrderIds(t.l);
      InOrderIds(t.r);
      NoDupAround(InOrder(t.l), t.id, InOrder(t.r));
    }
  }

  lemma {:induction false} SepByInOrder(t: Tree, t': Tree)
    requires InOrder(t) == InOrder(t')
    ensures Ids(t) == Ids(t') && Sep(t) == Sep(t')
  {
    SepNoDup(t);
    SepNoDup(t');
    InOrderIds(t);
    InOrderIds(t');
  }
}
