/** src/common/rbtree.c: insertion, erasure and search, in place on an arena of node records. The C code
    writes out each case twice, once for each side; here the side is a parameter. */
module RedBlackTree {

  import opened RbShape
  import opened RbSurgery
  import opened RbInsert
  import E = RbErase
  import opened RbUnlink

  class RbRoot {
    var mem: Arena
    var root: Ptr
    ghost var tree: Tree

    ghost predicate Valid()
      reads this
    {
      IsTree(mem, NULL, tree) && root == Root(tree) && Sep(tree) && RedBlack(tree)
    }

    // __rb_change_child
    method ChangeChild(was: Ptr, now: Ptr, parent: Ptr)
      requires parent != NULL ==> parent in mem
      modifies this`mem, this`root
      ensures Mem(mem, root) == ChangedChild(old(mem), old(root), was, now, parent)
    {
      if parent != NULL {
        if mem[parent].left == was {
          mem := SetKid(mem, parent, Left, now);
        } else {
          mem := SetKid(mem, parent, Right, now);
        }
      } else {
        root := now;
      }
    }

    // __rb_rotate_set_parents
    method RotateSetParents(g: Ptr, p: Ptr, black: bool)
      requires g in mem && p in mem && (WordParent(mem[g].pc) != NULL ==> WordParent(mem[g].pc) in mem)
      modifies this`mem, this`root
      ensures Mem(mem, root)
           == ChangedChild(ParentsSet(old(mem), g, p, black), old(root), g, p, WordParent(old(mem)[g].pc))
    {
      var parent := WordParent(mem[g].pc);
      mem := SetPc(mem, p, mem[g].pc);
      mem := SetPc(mem, g, Word(p, black));
      ChangeChild(g, p, parent);
    }

    // A rotation that brings p, the child d of g, over g; tmp is the inner child of p.
    method RotateUp(g: Ptr, p: Ptr, tmp: Ptr, d: Dir, black: bool, sib: Ptr, gBlack: bool)
      requires RotateReady(mem, g, p, tmp, sib)
      modifies this`mem, this`root
      ensures Mem(mem, root) == RotateMem(old(mem), old(root), g, p, tmp, d, black, sib, gBlack)
    {
      mem := SetKid(mem, g, d, tmp);
      if tmp != NULL {
        mem := SetPc(mem, tmp, Word(g, black));
      }
      mem := SetKid(mem, p, Opp(d), g);
      if sib != NULL {
        mem := SetPc(mem, sib, Word(p, true));
      }
      RotateSetParents(g, p, gBlack);
    }

    // ---------- insertion ----------

    // The plugged tree becomes the tree of this root.
    ghost method Settle(c: Ctx, t: Tree)
      requires Split(mem, root, c, t) && RedBlack(Plug(c, t))
      modifies this`tree
      ensures Valid() && tree == Plug(c, t)
    {
      PlugIsTree(mem, root, c, t);
      tree := Plug(c, t);
    }

    // Lines 73-79: t, the inner child of q, goes over q; tmp is the child of t that q takes.
    method LiftInner(q: Ptr, t: Ptr, d: Dir, tmp: Ptr)
      requires LiftReady(mem, q, t, tmp)
      modifies this`mem
      ensures mem == LiftMem(old(mem), q, t, tmp, d)
    {
      mem := SetKid(mem, q, Opp(d), tmp);
      if tmp != NULL {
        mem := SetPc(mem, tmp, Word(q, true));
      }
      mem := SetKid(mem, t, d, q);
      mem := SetPc(mem, q, Word(t, false));
    }

    // node is the red inner grandchild, with a black uncle: two rotations.
    method InsertInner(node: Ptr, parent: Ptr, gparent: Ptr, d: Dir, ghost c: Ctx, ghost t: Tree, ghost n: nat)
      requires Split(mem, root, c, t) && Pending(c, t, n) && c.Frame? && !c.black && c.up.Frame? && c.up.black
      requires c.up.sib.IsBlack() && d == c.up.d && node == t.id && parent == c.id && gparent == c.up.id
      requires parent in mem && node == mem[parent].Kid(Opp(d))
      modifies this
      ensures Valid() && InOrder(tree) == InOrder(Plug(c, t))
      ensures Only(old(mem), mem, Ids(t) + CtxIds(c) + {NULL})
    {
      hide InOrder, Sorted, Bal, CtxBal;
      InnerTurn(mem, root, c, t, n);
      var tmp := mem[node].Kid(d);
      LiftInner(parent, node, d, tmp);
      tmp := mem[node].Kid(Opp(d));
      RotateUp(gparent, node, tmp, d, true, NULL, false);
      Settle(c.up.up, Rotated(d, gparent, false, node, true, Mk(d, parent, false, c.sib, t.Kid(d)), t.Kid(c.d),
                              c.up.sib));
    }

    // node is the outer grandchild: one rotation.
    method InsertOuter(node: Ptr, parent: Ptr, gparent: Ptr, d: Dir, ghost c: Ctx, ghost t: Tree, ghost n: nat)
      requires Split(mem, root, c, t) && Pending(c, t, n) && c.Frame? && !c.black && c.up.Frame? && c.up.black
      requires c.up.sib.IsBlack() && d == c.up.d && node == t.id && parent == c.id && gparent == c.up.id
      requires parent in mem && node != mem[parent].Kid(Opp(d))
      modifies this
      ensures Valid() && InOrder(tree) == InOrder(Plug(c, t))
      ensures Only(old(mem), mem, Ids(t) + CtxIds(c) + {NULL})
    {
      OuterTurn(mem, root, c, t, n);
      var tmp := mem[parent].Kid(Opp(d));
      RotateUp(gparent, parent, tmp, d, true, NULL, false);
      Settle(c.up.up, Rotated(d, gparent, false, parent, true, t, c.sib, c.up.sib));
    }

    // The rotations of __rb_insert_fix, with a black uncle.
    method InsertTurn(node: Ptr, parent: Ptr, gparent: Ptr, d: Dir, ghost c: Ctx, ghost t: Tree, ghost n: nat)
      requires Split(mem, root, c, t) && Pending(c, t, n) && c.Frame? && !c.black && c.up.Frame? && c.up.black
      requires c.up.sib.IsBlack() && d == c.up.d && node == t.id && parent == c.id && gparent == c.up.id
      modifies this
      ensures Valid() && InOrder(tree) == InOrder(Plug(c, t))
      ensures Only(old(mem), mem, Ids(t) + CtxIds(c) + {NULL})
    {
      if node == mem[parent].Kid(Opp(d)) {
        InsertInner(node, parent, gparent, d, c, t, n);
      } else {
        InsertOuter(node, parent, gparent, d, c, t, n);
      }
    }

    // Case 1 of __rb_insert_fix: the uncle is red.
    method InsertRecolour(uncle: Ptr, parent: Ptr, gparent: Ptr, ghost c: Ctx, ghost t: Tree)
      requires Split(mem, root, c, t) && c.Frame? && c.up.Frame? && c.up.sib.Node?
      requires uncle == c.up.sib.id && parent == c.id && gparent == c.up.id
      modifies this`mem
      ensures Split(mem, root, c.up.up, Case1(c, t)) && gparent in mem && WordParent(mem[gparent].pc) == Holder(c.up.up)
      ensures Only(old(mem), mem, CtxIds(c))
    {
      Case1Split(mem, root, c, t);
      mem := SetPc(mem, uncle, Word(gparent, true));
      mem := SetPc(mem, parent, Word(gparent, true));
      var up := WordParent(mem[gparent].pc);
      mem := SetPc(mem, gparent, Word(up, false));
    }

    // The state of the __rb_insert_fix loop: the red node hangs in the hole of c, or, with c at the top, nowhere yet.
    ghost predicate Fixing(node: Ptr, c: Ctx, t: Tree, n: nat)
      reads this
    {
      && Pending(c, t, n) && node == t.id && IsTree(mem, Holder(c), t) && (c.Frame? ==> IsCtx(mem, root, c, node))
      && Home(t, c)
    }

    // One round of the loop: node and parent move up, or the loop is done.
    method InsertFixRound(node: Ptr, parent: Ptr, ghost c: Ctx, ghost t: Tree, ghost n: nat)
      returns (done: bool, node': Ptr, parent': Ptr, ghost t': Tree)
      requires Fixing(node, c, t, n) && parent == Holder(c) && c.Frame?
      modifies this
      ensures Only(old(mem), mem, Ids(t) + CtxIds(c) + {NULL})
      ensures done ==> Valid() && InOrder(tree) == InOrder(Plug(c, t))
      ensures !done ==> c.up.Frame? && Fixing(node', c.up.up, t', n + 1) && parent' == Holder(c.up.up)
                        && InOrder(Plug(c.up.up, t')) == InOrder(Plug(c, t))
                        && Ids(t') + CtxIds(c.up.up) == Ids(t) + CtxIds(c)
    {
      done, node', parent', t' := true, node, parent, t;
      if WordBlack(mem[parent].pc) {
        BlackStop(mem, root, c, t, n);
        tree := Plug(c, t);
        return;
      }
      RedParentHasBlackParent(c);
      Around(mem, root, c, t);
      var gparent := WordParent(mem[parent].pc);
      var d := if parent != mem[gparent].right then Left else Right;
      var uncle := mem[gparent].Kid(Opp(d));
      if uncle != NULL && !WordBlack(mem[uncle].pc) {
        InsertRecolour(uncle, parent, gparent, c, t);
        Case1Pending(c, t, n);
        Case1InOrder(c, t);
        Case1Ids(c, t);
        done, node', parent', t' := false, gparent, WordParent(mem[gparent].pc), Case1(c, t);
      } else {
        InsertTurn(node, parent, gparent, d, c, t, n);
      }
    }

    // The exit of the loop at the top: the node becomes a black root.
    method InsertRoot(node: Ptr, ghost t: Tree, ghost n: nat)
      requires Fixing(node, Top, t, n)
      modifies this
      ensures Valid() && InOrder(tree) == InOrder(t) && Only(old(mem), mem, Ids(t))
    {
      RootStop(mem, t, n);
      mem := SetPc(mem, node, Word(NULL, true));
      root := node;
      tree := Recolour(t, true);
    }

    // Where the loop stands: done, or fixing a tree with this order and these nodes.
    ghost predicate FixLoop(done: bool, node: Ptr, parent: Ptr, c: Ctx, t: Tree, n: nat, order: seq<Ptr>, ids: set<Ptr>)
      reads this
    {
      if done then Valid() && InOrder(tree) == order
      else && Fixing(node, c, t, n) && parent == Holder(c) && InOrder(Plug(c, t)) == order
           && Ids(t) + CtxIds(c) == ids
    }

    // One round, the exit at the top included.
    method InsertFixTurn(node: Ptr, parent: Ptr, ghost c: Ctx, ghost t: Tree, ghost n: nat, ghost order: seq<Ptr>,
                         ghost ids: set<Ptr>)
      returns (done: bool, node': Ptr, parent': Ptr, ghost c': Ctx, ghost t': Tree, ghost n': nat)
      requires FixLoop(false, node, parent, c, t, n, order, ids)
      modifies this
      ensures FixLoop(done, node', parent', c', t', n', order, ids) && Only(old(mem), mem, ids + {NULL})
      ensures !done ==> c' < c
    {
      c', n' := c, n;
      if parent == NULL {
        InsertRoot(node, t, n);
        done, node', parent', t' := true, node, parent, t;
      } else {
        done, node', parent', t' := InsertFixRound(node, parent, c, t, n);
        if !done { c', n' := c.up.up, n + 1; }
      }
    }

    // __rb_insert_fix
    method InsertFix(x: Ptr, ghost c0: Ctx, ghost t0: Tree, ghost n0: nat)
      requires Fixing(x, c0, t0, n0)
      modifies this
      ensures Valid() && InOrder(tree) == InOrder(Plug(c0, t0))
      ensures Only(old(mem), mem, Ids(t0) + CtxIds(c0) + {NULL})
    {
      var node := x;
      var parent := WordParent(mem[node].pc);
      ghost var c, t, n := c0, t0, n0;
      ghost var order, ids := InOrder(Plug(c0, t0)), Ids(t0) + CtxIds(c0);
      var done := false;
      while !done
        invariant FixLoop(done, node, parent, c, t, n, order, ids) && Only(old(mem), mem, ids + {NULL})
        decreases !done, c
      {
        done, node, parent, c, t, n := InsertFixTurn(node, parent, c, t, n, order, ids);
      }
    }

    // The child d of parent, so far empty, becomes node.
    method Attach(node: Ptr, parent: Ptr, d: Dir, ghost c: Ctx)
      requires Split(mem, root, c, Leaf) && c.Frame? && parent == c.id && d == c.d
      requires node in mem && node != NULL && mem[node] == Rec(0, NULL, NULL) && node !in CtxIds(c)
      requires CtxBal(c, 0) && CtxNoRedRed(c, false)
      modifies this`mem
      ensures Fixing(node, c, Node(node, false, Leaf, Leaf), 0)
      ensures Only(old(mem), mem, CtxIds(c) + {node})
    {
      mem := SetKid(mem, parent, d, node);
      mem := SetPc(mem, node, Word(parent, false));
      FrameTree(old(mem), mem, c.id, c.sib);
      FrameCtx(old(mem), mem, root, c.up, c.id);
      assert Bal(Leaf, 0) && Bal(Node(node, false, Leaf, Leaf), 0) && NoRedRed(Leaf)
             && NoRedRed(Node(node, false, Leaf, Leaf));
    }

    // In an empty tree there is no parent to attach to.
    lemma AttachAtTop(node: Ptr)
      requires node in mem && node != NULL && mem[node] == Rec(0, NULL, NULL)
      ensures Fixing(node, Top, Node(node, false, Leaf, Leaf), 0)
    {
      assert Bal(Leaf, 0) && Bal(Node(node, false, Leaf, Leaf), 0) && NoRedRed(Leaf)
             && NoRedRed(Node(node, false, Leaf, Leaf));
      assert Sep(Leaf) && Sep(Node(node, false, Leaf, Leaf));
    }

    // The state of the descent of _rb_insert: still searching in w, or attached below the last node seen.
    ghost predicate Descending(w: Tree, c: Ctx, t: Tree, n: nat, node: Ptr, less: (Ptr, Ptr) -> bool)
      reads this
    {
      if t.Node? || c.Top? then
        node in mem && mem[node] == Rec(0, NULL, NULL) && Searching(mem, root, w, c, t, n, node, less)
      else
        t == Leaf && Plug(c, Leaf) == w && Between(c, node, less) && Fixing(node, c, Node(node, false, Leaf, Leaf), 0)
    }

    // One step of the descent, to side d.
    method Descend(node: Ptr, nw: Ptr, d: Dir,
                   less: (Ptr, Ptr) -> bool, ghost w: Tree, ghost c: Ctx, ghost t: Tree, ghost n: nat)
      returns (nw': Ptr, ghost n': nat)
      requires Descending(w, c, t, n, node, less) && t.Node? && nw == t.id && node != NULL && node !in Ids(w)
      requires StrictOrder(less, Ids(w) + {node}) && Sorted(InOrder(w), less)
      requires if d == Left then less(node, nw) else less(nw, node)
      modifies this`mem
      ensures Descending(w, Down(c, t, d), t.Kid(d), n', node, less) && nw' == Root(t.Kid(d))
      ensures if nw' == NULL then Only(old(mem), mem, Ids(w) + {node}) else mem == old(mem)
    {
      n' := StepSearch(mem, root, w, c, t, n, node, d, less);
      nw' := mem[nw].Kid(d);
      if nw' == NULL {
        assert IsTree(mem, t.id, t.Kid(d));
        PlugIds(Down(c, t, d), Leaf);
        Attach(node, nw, d, Down(c, t, d));
      }
    }

    // The loop of _rb_insert: it meets a node equal to the new one or attaches the new one below the last node seen.
    method FindPlace(node: Ptr, less: (Ptr, Ptr) -> bool) returns (equal: bool, ghost c: Ctx)
      requires Valid() && node != NULL && node in mem && node !in Ids(tree) && mem[node] == Rec(0, NULL, NULL)
      requires StrictOrder(less, Ids(tree) + {node}) && Sorted(InOrder(tree), less)
      modifies this`mem
      ensures equal ==> mem == old(mem) && exists y :: y in Ids(tree) && !less(node, y) && !less(y, node)
      ensures !equal ==> && Fixing(node, c, Node(node, false, Leaf, Leaf), 0) && Plug(c, Leaf) == tree
                         && Between(c, node, less)
                         && Only(old(mem), mem, Ids(tree) + {node})
    {
      var nw := root;
      ghost var t := tree;
      c := Top;
      ghost var n := StartSearch(mem, root, tree, node, less);
      while nw != NULL
        invariant nw == Root(t) && Descending(tree, c, t, n, node, less)
        invariant if t.Node? then mem == old(mem) else Only(old(mem), mem, Ids(tree) + {node})
        decreases t
      {
        var d;
        if less(node, nw) {
          d := Left;
        } else if less(nw, node) {
          d := Right;
        } else {
          FoundIn(c, t);
          return true, c;
        }
        nw, n := Descend(node, nw, d, less, tree, c, t, n);
        c, t := Down(c, t, d), t.Kid(d);
      }
      if c.Top? {
        AttachAtTop(node);
      }
      return false, c;
    }

    // The three fields of a node that is not yet in the tree.
    method ClearNode(node: Ptr)
      requires Valid() && node in mem && node !in Ids(tree)
      modifies this`mem
      ensures Valid() && mem == old(mem)[node := Rec(0, NULL, NULL)]
    {
      mem := mem[node := Rec(0, NULL, NULL)];
      FrameTree(old(mem), mem, NULL, tree);
    }

    // _rb_insert
    method Insert(node: Ptr, less: (Ptr, Ptr) -> bool) returns (ret: int)
      requires Valid() && node != NULL && node in mem && node !in Ids(tree)
      requires StrictOrder(less, Ids(tree) + {node}) && Sorted(InOrder(tree), less)
      modifies this
      ensures Valid() && Sorted(InOrder(tree), less) && ret in {0, -1}
      ensures ret == -1 <==> exists y :: y in old(Ids(tree)) && !less(node, y) && !less(y, node)
      ensures ret == -1 ==> tree == old(tree) && Only(old(mem), mem, {node})
      ensures ret == 0 ==> Ids(tree) == old(Ids(tree)) + {node}
      ensures Only(old(mem), mem, old(Ids(tree)) + {node, NULL})
    {
      ClearNode(node);
      ghost var w := tree;
      var equal;
      ghost var c;
      equal, c := FindPlace(node, less);
      if equal {
        return -1;
      }
      NotFound(w, c, node, less);
      Inserted(w, c, node, less);
      InsertFix(node, c, Node(node, false, Leaf, Leaf), 0);
      InOrderIds(tree);
      return 0;
    }

    // ---------- erasure ----------

    // Case 3 of __rb_erase_fix: the inner nephew goes over the sibling.
    method LiftNephew(parent: Ptr, sibling: Ptr, nephew: Ptr, d: Dir)
      requires parent in mem && nephew in mem && LiftReady(mem, sibling, nephew, mem[nephew].Kid(Opp(d)))
      modifies this`mem
      ensures mem == E.LiftMem(old(mem), parent, sibling, nephew, old(mem)[nephew].Kid(Opp(d)), Opp(d))
    {
      var tmp1 := mem[nephew].Kid(Opp(d));
      mem := SetKid(mem, sibling, d, tmp1);
      if tmp1 != NULL {
        mem := SetPc(mem, tmp1, Word(sibling, true));
      }
      mem := SetKid(mem, nephew, Opp(d), sibling);
      mem := SetKid(mem, parent, Opp(d), nephew);
    }

    // The last lines of __rb_erase_fix: the sibling goes over the parent, and tmp1 is painted black.
    method EraseRotate(parent: Ptr, sibling: Ptr, tmp1: Ptr, d: Dir)
      requires sibling in mem && RotateReady(mem, parent, sibling, mem[sibling].Kid(d), tmp1)
      modifies this`mem, this`root
      ensures var tmp2 := old(mem)[sibling].Kid(d);
              Mem(mem, root) == RotateMem(old(mem), old(root), parent, sibling, tmp2, Opp(d),
                                          tmp2 != NULL && WordBlack(old(mem)[tmp2].pc), tmp1, true)
    {
      var tmp2 := mem[sibling].Kid(d);
      RotateUp(parent, sibling, tmp2, Opp(d), tmp2 != NULL && WordBlack(mem[tmp2].pc), tmp1, true);
    }

    // The rotations of __rb_erase_fix: the sibling is black and has a red child, on the outside ...
    method EraseOuter(parent: Ptr, sibling: Ptr, tmp1: Ptr, d: Dir, ghost c: Ctx, ghost t: Tree, ghost n: nat)
      requires Split(mem, root, c, t) && E.Short(c, t, n) && c.sib.Node? && c.sib.black && !c.sib.Kid(Opp(d)).IsBlack()
      requires parent == c.id && sibling == c.sib.id && d == c.d && tmp1 == c.sib.Kid(Opp(d)).id
      modifies this
      ensures Valid() && InOrder(tree) == InOrder(Plug(c, t))
      ensures Only(old(mem), mem, Ids(t) + CtxIds(c) + {NULL})
    {
      E.OuterTurn(mem, root, c, t, n, Opp(d));
      EraseRotate(parent, sibling, tmp1, d);
      E.OuterTurnShape(c, t, n, Opp(d));
      ghost var e := Opp(d);
      Settle(c.up, Rotated(e, c.id, true, c.sib.id, c.black, Recolour(c.sib.Kid(e), true), c.sib.Kid(d), t));
    }

    // ... or only on the inside.
    method EraseInner(parent: Ptr, sibling: Ptr, tmp2: Ptr, d: Dir, ghost c: Ctx, ghost t: Tree, ghost n: nat)
      requires Split(mem, root, c, t) && E.Short(c, t, n) && c.sib.Node? && c.sib.black
      requires c.sib.Kid(Opp(d)).IsBlack() && !c.sib.Kid(d).IsBlack()
      requires parent == c.id && sibling == c.sib.id && d == c.d && tmp2 == c.sib.Kid(d).id
      modifies this
      ensures Valid() && InOrder(tree) == InOrder(Plug(c, t))
      ensures Only(old(mem), mem, Ids(t) + CtxIds(c) + {NULL})
    {
      hide InOrder, Sorted, Bal, CtxBal, Plug, RedBlack;
      E.InnerTurn(mem, root, c, t, Opp(d));
      LiftNephew(parent, sibling, tmp2, d);
      EraseRotate(parent, tmp2, sibling, d);
      E.InnerTurnShape(c, t, n, Opp(d));
      ghost var e, x := Opp(d), c.sib.Kid(d);
      Settle(c.up, Rotated(e, c.id, true, x.id, c.black, Mk(e, c.sib.id, true, c.sib.Kid(e), x.Kid(e)), x.Kid(d), t));
    }

    // Case 1 of __rb_erase_fix: a red sibling goes over the parent.
    method EraseRedSibling(parent: Ptr, sibling: Ptr, d: Dir, ghost c: Ctx, ghost t: Tree, ghost n: nat)
      returns (tmp1: Ptr)
      requires Split(mem, root, c, t) && E.Short(c, t, n) && c.sib.Node? && !c.sib.black
      requires parent == c.id && sibling == c.sib.id && d == c.d
      modifies this`mem, this`root
      ensures Split(mem, root, E.Case1Ctx(c), t) && E.Short(E.Case1Ctx(c), t, n) && tmp1 == Root(c.sib.Kid(d))
      ensures c.sib.Kid(d).Node? && c.sib.Kid(d).black
      ensures Only(old(mem), mem, Ids(t) + CtxIds(c) + {NULL})
    {
      E.Around(mem, root, c, t, d);
      E.ShortSibling(c, t, n);
      E.Case1Split(mem, root, c, t, n);
      E.Case1Short(c, t, n);
      tmp1 := mem[sibling].Kid(d);
      RotateUp(parent, sibling, tmp1, Opp(d), true, NULL, false);
    }

    // The sibling turns red.
    method ReddenSibling(parent: Ptr, sibling: Ptr, ghost c: Ctx, ghost t: Tree)
      requires Split(mem, root, c, t) && c.Frame? && c.sib.Node? && parent == c.id && sibling == c.sib.id
      modifies this`mem
      ensures Split(mem, root, c.up, E.Case2(c, t, c.black)) && Only(old(mem), mem, CtxIds(c))
      ensures InOrder(Plug(c.up, E.Case2(c, t, c.black))) == InOrder(Plug(c, t))
      ensures Ids(E.Case2(c, t, c.black)) + CtxIds(c.up) == Ids(t) + CtxIds(c)
      ensures parent in mem && WordBlack(mem[parent].pc) == c.black && WordParent(mem[parent].pc) == Holder(c.up)
    {
      E.Around(mem, root, c, t, c.d);
      E.Case2Split(mem, root, c, t);
      mem := SetPc(mem, sibling, Word(parent, false));
    }

    // Case 2 of __rb_erase_fix: both nephews are black, so the sibling turns red.
    method EraseRecolour(parent: Ptr, sibling: Ptr, ghost c: Ctx, ghost t: Tree, ghost n: nat)
      returns (done: bool, parent': Ptr)
      requires Split(mem, root, c, t) && E.Short(c, t, n) && c.sib.Node? && c.sib.black && c.sib.l.IsBlack()
               && c.sib.r.IsBlack()
      requires parent == c.id && sibling == c.sib.id
      modifies this
      ensures done ==> Valid() && InOrder(tree) == InOrder(Plug(c, t))
      ensures !done ==> && c.black && Split(mem, root, c.up, E.Case2(c, t, true))
                        && E.Short(c.up, E.Case2(c, t, true), n + 1)
      ensures !done ==> && parent' == Holder(c.up) && parent' != NULL
                        && InOrder(Plug(c.up, E.Case2(c, t, true))) == InOrder(Plug(c, t))
                        && Ids(E.Case2(c, t, true)) + CtxIds(c.up) == Ids(t) + CtxIds(c)
      ensures Only(old(mem), mem, CtxIds(c))
    {
      ReddenSibling(parent, sibling, c, t);
      E.Case2Bal(c, t, n);
      done, parent' := true, parent;
      if !WordBlack(mem[parent].pc) {
        E.Case2Paint(mem, root, c, t);
        mem := SetPc(mem, parent, mem[parent].pc + 1);
      } else {
        parent' := WordParent(mem[parent].pc);
        done := parent' == NULL;
      }
      if done {
        Settle(c.up, E.Case2(c, t, true));
      }
    }

    // A round of __rb_erase_fix once the sibling is black.
    method EraseBlackSibling(parent: Ptr, sibling: Ptr, d: Dir, ghost c: Ctx, ghost t: Tree, ghost n: nat)
      returns (done: bool, parent': Ptr)
      requires Split(mem, root, c, t) && E.Short(c, t, n) && c.sib.Node? && c.sib.black
      requires parent == c.id && sibling == c.sib.id && d == c.d
      modifies this
      ensures done ==> Valid() && InOrder(tree) == InOrder(Plug(c, t))
      ensures !done ==> && c.black && Split(mem, root, c.up, E.Case2(c, t, true))
                        && E.Short(c.up, E.Case2(c, t, true), n + 1)
      ensures !done ==> && parent' == Holder(c.up) && parent' != NULL
                        && InOrder(Plug(c.up, E.Case2(c, t, true))) == InOrder(Plug(c, t))
                        && Ids(E.Case2(c, t, true)) + CtxIds(c.up) == Ids(t) + CtxIds(c)
      ensures Only(old(mem), mem, Ids(t) + CtxIds(c) + {NULL})
    {
      E.Around(mem, root, c, t, d);
      E.Around(mem, root, c, t, Opp(d));
      var tmp1 := mem[sibling].Kid(Opp(d));
      done, parent' := true, parent;
      if tmp1 == NULL || WordBlack(mem[tmp1].pc) {
        var tmp2 := mem[sibling].Kid(d);
        if tmp2 == NULL || WordBlack(mem[tmp2].pc) {
          done, parent' := EraseRecolour(parent, sibling, c, t, n);
        } else {
          EraseInner(parent, sibling, tmp2, d, c, t, n);
        }
      } else {
        EraseOuter(parent, sibling, tmp1, d, c, t, n);
      }
    }

    // __rb_erase_fix
    method EraseFix(parent0: Ptr, ghost c0: Ctx, ghost n0: nat)
      requires Split(mem, root, c0, Leaf) && E.Short(c0, Leaf, n0) && parent0 == c0.id
      modifies this
      ensures Valid() && InOrder(tree) == InOrder(Plug(c0, Leaf))
      ensures Only(old(mem), mem, CtxIds(c0) + {NULL})
    {
      var node, parent := NULL, parent0;
      ghost var c, t, n := c0, Leaf, n0;
      var done := false;
      while !done
        invariant if done then Valid() && InOrder(tree) == InOrder(Plug(c0, Leaf))
                  else Split(mem, root, c, t) && E.Short(c, t, n) && parent == c.id && node == Root(t)
                       && InOrder(Plug(c, t)) == InOrder(Plug(c0, Leaf))
        invariant Ids(t) + CtxIds(c) == CtxIds(c0)
        invariant Only(old(mem), mem, CtxIds(c0) + {NULL})
        decreases !done, c
      {
        E.ShortSibling(c, t, n);
        E.Around(mem, root, c, t, Left);
        var d := if node != mem[parent].right then Left else Right;
        var sibling := mem[parent].Kid(Opp(d));
        if !WordBlack(mem[sibling].pc) {
          E.Case1InOrder(c, t);
          sibling := EraseRedSibling(parent, sibling, d, c, t, n);
          done, parent := EraseBlackSibling(parent, sibling, d, E.Case1Ctx(c), t, n);
        } else {
          node := parent;
          done, parent := EraseBlackSibling(parent, sibling, d, c, t, n);
          if !done {
            c, t, n := c.up, E.Case2(c, t, true), n + 1;
          }
        }
      }
    }

    // What __rb_erase leaves: a valid tree, or one that is one black node short below rebalance.
    ghost predicate Unlinked(rebalance: Ptr, c: Ctx)
      reads this
    {
      if rebalance == NULL then Valid() else Split(mem, root, c, Leaf) && E.Short(c, Leaf, 0) && rebalance == c.id
    }

    // The first two branches of __rb_erase: one side of the node, d, is empty.
    method UnlinkOneSided(node: Ptr, child: Ptr, d: Dir, ghost c: Ctx, ghost black: bool, ghost r: Tree, ghost n: nat)
      returns (rebalance: Ptr)
      requires Placed(mem, root, c, Mk(d, node, black, Leaf, r), n) && child == Root(r)
      modifies this
      ensures Unlinked(rebalance, c)
      ensures Removed(InOrder(Plug(c, Mk(d, node, black, Leaf, r))), node,
                      InOrder(if rebalance == NULL then tree else Plug(c, Leaf)))
      ensures Only(old(mem), mem, CtxIds(c) + Ids(Mk(d, node, black, Leaf, r)))
    {
      HangCorrect(mem, root, c, d, node, black, r);
      OneSided(c, d, node, black, r, n);
      OneSidedInOrder(c, d, node, black, r, black);
      var pc := mem[node].pc;
      var parent := WordParent(pc);
      ChangeChild(node, child, parent);
      if child != NULL {
        mem := SetPc(mem, child, pc);
        rebalance := NULL;
      } else {
        rebalance := if WordBlack(pc) then parent else NULL;
      }
      if rebalance == NULL {
        PlugIsTree(mem, root, c, Recolour(r, black));
        tree := Plug(c, Recolour(r, black));
      }
    }

    // The walk to the successor, the leftmost node below the right child of x.
    method FindSuccessor(child: Ptr, ghost c: Ctx, ghost x: Ptr, ghost black: bool, ghost l: Tree, ghost r: Tree,
                         ghost n0: nat)
      returns (parent: Ptr, successor: Ptr, ghost inner: Ctx, ghost sBlack: bool, ghost c2: Tree, ghost n: nat)
      requires Placed(mem, root, Frame(Right, x, black, l, c), r, n0) && r.Node? && l.Node? && child == r.id
      ensures AtSuccessor(mem, root, c, x, black, l, r, inner, successor, sBlack, c2, n)
      ensures parent == (if inner.Top? then successor else inner.id)
      ensures child in mem && (mem[child].left != NULL <==> inner.Frame?)
    {
      successor := child;
      parent := successor;
      inner := Top;
      ghost var st := r;
      n := n0;
      var tmp := mem[successor].left;
      while tmp != NULL
        invariant Placed(mem, root, Over(inner, Frame(Right, x, black, l, c)), st, n)
        invariant st.Node? && successor == st.id && tmp == Root(st.l) && AllLeft(inner) && Plug(inner, st) == r
        invariant parent == (if inner.Top? then successor else inner.id)
        invariant if inner.Top? then st == r else mem[child].left != NULL
        invariant child in mem
        decreases st
      {
        n := PlacedDown(mem, root, Over(inner, Frame(Right, x, black, l, c)), st, n, Left);
        inner := Down(inner, st, Left);
        st := st.l;
        parent := successor;
        successor := tmp;
        tmp := mem[successor].left;
      }
      assert IsTree(mem, st.id, st.l);
      assert st == Node(successor, st.black, Leaf, st.r);
      sBlack, c2 := st.black, st.r;
    }

    // Lines 150-152: the successor leaves its parent and takes the right child of the erased node.
    method Splice(parent: Ptr, successor: Ptr, child: Ptr)
      requires parent in mem && successor in mem && child in mem
      modifies this`mem
      ensures mem == SpliceMem(old(mem), parent, successor, child)
    {
      mem := SetKid(mem, parent, Left, mem[successor].right);
      mem := SetKid(mem, successor, Right, child);
      mem := SetPc(mem, child, Word(successor, WordBlack(mem[child].pc)));
    }

    // Lines 154-158: the successor takes the left child and the place of the erased node.
    method TakePlace(node: Ptr, successor: Ptr)
      requires TakeReady(mem, node, successor)
      modifies this`mem, this`root
      ensures Mem(mem, root) == TakePlaceMem(old(mem), old(root), node, successor)
    {
      var tmp := mem[node].left;
      mem := SetKid(mem, successor, Left, tmp);
      mem := SetPc(mem, tmp, Word(successor, WordBlack(mem[tmp].pc)));
      ChangeChild(node, successor, WordParent(mem[node].pc));
    }

    // The successor goes to the place of a node with two children; the words are still to be written.
    method MoveSuccessor(node: Ptr, child: Ptr, ghost c: Ctx, ghost black: bool, ghost l: Tree, ghost r: Tree,
                         ghost n0: nat)
      returns (parent: Ptr, successor: Ptr, child2: Ptr, ghost inner: Ctx, ghost sBlack: bool, ghost c2: Tree,
               ghost n: nat)
      requires Placed(mem, root, c, Node(node, black, l, r), n0) && l.Node? && r.Node? && child == r.id
      modifies this`mem, this`root
      ensures AtSuccessor(old(mem), old(root), c, node, black, l, r, inner, successor, sBlack, c2, n)
      ensures Moved(old(mem), mem, root, c, node, black, l, r, inner, successor, c2)
      ensures child2 == Root(c2) && parent == (if inner.Top? then successor else inner.id)
    {
      ghost var m0 := mem;
      ghost var n1 := PlacedDown(mem, root, c, Node(node, black, l, r), n0, Right);
      parent, successor, inner, sBlack, c2, n := FindSuccessor(child, c, node, black, l, r, n1);
      SuccessorReads(mem, root, c, node, black, l, r, inner, successor, sBlack, c2, n);
      child2 := mem[successor].right;
      if mem[child].left != NULL {
        Splice(parent, successor, child);
      }
      SuccessorMoved(m0, mem, root, c, node, black, l, r, inner, successor, sBlack, c2, n);
      TakePlace(node, successor);
    }

    // Lines 159-167: the successor takes the word of the erased node, its old right child goes under parent.
    method Adopt(node: Ptr, successor: Ptr, child2: Ptr, parent: Ptr) returns (rebalance: Ptr)
      requires node in mem && successor in mem && (child2 != NULL ==> child2 in mem)
      modifies this`mem
      ensures mem == AdoptMem(old(mem), node, successor, child2, parent)
      ensures rebalance == if child2 == NULL && WordBlack(old(mem)[successor].pc) then parent else NULL
    {
      var pc, pc2 := mem[node].pc, mem[successor].pc;
      mem := SetPc(mem, successor, pc);
      if child2 != NULL {
        mem := SetPc(mem, child2, Word(parent, true));
        rebalance := NULL;
      } else {
        rebalance := if WordBlack(pc2) then parent else NULL;
      }
    }

    // The last branch of __rb_erase: the successor replaces a node with two children.
    method UnlinkBetween(node: Ptr, child: Ptr, ghost c: Ctx, ghost black: bool, ghost l: Tree, ghost r: Tree,
                         ghost n0: nat)
      returns (rebalance: Ptr, ghost c': Ctx)
      requires Placed(mem, root, c, Node(node, black, l, r), n0) && l.Node? && r.Node? && child == r.id
      modifies this
      ensures Unlinked(rebalance, c')
      ensures Removed(InOrder(Plug(c, Node(node, black, l, r))), node,
                      InOrder(if rebalance == NULL then tree else Plug(c', Leaf)))
      ensures Only(old(mem), mem, CtxIds(c) + Ids(Node(node, black, l, r)))
    {
      hide InOrder, Plug;
      ghost var m0, root0 := mem, root;
      var parent, successor, child2;
      ghost var inner, sBlack, c2, n;
      parent, successor, child2, inner, sBlack, c2, n := MoveSuccessor(node, child, c, black, l, r, n0);
      AdoptSplit(m0, mem, root0, root, c, node, black, l, r, inner, successor, sBlack, c2, n);
      rebalance := Adopt(node, successor, child2, parent);
      c' := Over(inner, Frame(Right, successor, black, l, c));
      SuccessorBal(m0, root0, c, node, black, l, r, inner, successor, sBlack, c2, n);
      SuccessorInOrder(c, node, black, l, inner, successor, sBlack, c2);
      PlugIds(inner, Node(successor, sBlack, Leaf, c2));
      if rebalance == NULL {
        Settle(c', Recolour(c2, true));
      }
    }

    // __rb_erase
    method Unlink(node: Ptr) returns (rebalance: Ptr, ghost c': Ctx)
      requires Valid() && node in Ids(tree)
      modifies this
      ensures Unlinked(rebalance, c')
      ensures Removed(old(InOrder(tree)), node, InOrder(if rebalance == NULL then tree else Plug(c', Leaf)))
      ensures Only(old(mem), mem, old(Ids(tree)))
    {
      ghost var n0: nat :| Bal(tree, n0);
      ghost var c, t, n := Locate(mem, root, Top, tree, n0, node);
      PlugIds(c, t);
      assert IsTree(mem, node, t.l) && IsTree(mem, node, t.r);
      var child, tmp := mem[node].right, mem[node].left;
      c' := c;
      if tmp == NULL {
        assert t == Mk(Left, node, t.black, Leaf, t.r);
        rebalance := UnlinkOneSided(node, child, Left, c, t.black, t.r, n);
      } else if child == NULL {
        assert t == Mk(Right, node, t.black, Leaf, t.l);
        rebalance := UnlinkOneSided(node, tmp, Right, c, t.black, t.l, n);
      } else {
        rebalance, c' := UnlinkBetween(node, child, c, t.black, t.l, t.r, n);
      }
    }

    // _rb_erase
    method Erase(node: Ptr, ghost less: (Ptr, Ptr) -> bool)
      requires Valid() && node in Ids(tree)
      modifies this
      ensures Valid() && Removed(old(InOrder(tree)), node, InOrder(tree))
      ensures old(Sorted(InOrder(tree), less)) ==> Sorted(InOrder(tree), less)
      ensures Ids(tree) == old(Ids(tree)) - {node}
      ensures Only(old(mem), mem, old(Ids(tree)) + {NULL})
    {
      ghost var w := tree;
      var rebalance;
      ghost var c;
      rebalance, c := Unlink(node);
      if rebalance != NULL {
        RemovedIds(w, node, Plug(c, Leaf));
        PlugIds(c, Leaf);
        EraseFix(rebalance, c, 0);
      }
      RemovedIds(w, node, tree);
      if Sorted(InOrder(w), less) { RemovedSorted(InOrder(w), node, InOrder(tree), less); }
    }

    // ---------- search ----------

    // _rb_lookup
    method Lookup(node: Ptr, less: (Ptr, Ptr) -> bool) returns (found: Ptr)
      requires Valid() && StrictOrder(less, Ids(tree) + {node}) && Sorted(InOrder(tree), less)
      ensures found != NULL ==> found in Ids(tree) && !less(node, found) && !less(found, node)
      ensures found == NULL ==> forall y :: y in Ids(tree) ==> less(node, y) || less(y, node)
    {
      var nw := root;
      ghost var c, t := Top, tree;
      ghost var n := StartSearch(mem, root, tree, node, less);
      while nw != NULL
        invariant nw == Root(t) && Searching(mem, root, tree, c, t, n, node, less)
        decreases t
      {
        var d;
        if less(node, nw) {
          d := Left;
        } else if less(nw, node) {
          d := Right;
        } else {
          FoundIn(c, t);
          return nw;
        }
        n := StepSearch(mem, root, tree, c, t, n, node, d, less);
        nw := mem[nw].Kid(d);
        c, t := Down(c, t, d), t.Kid(d);
      }
      NotFound(tree, c, node, less);
      return NULL;
    }

    // _rb_first
    method First(ghost less: (Ptr, Ptr) -> bool) returns (first: Ptr)
      requires Valid()
      ensures first == if InOrder(tree) == [] then NULL else InOrder(tree)[0]
      ensures first == NULL <==> Ids(tree) == {}
      ensures Sorted(InOrder(tree), less) ==> forall y :: y in Ids(tree) && y != first ==> less(first, y)
    {
      var n := root;
      InOrderIds(tree);
      NotNullTree(tree);
      if n == NULL {
        return NULL;
      }
      ghost var c, t := Top, tree;
      while mem[n].left != NULL
        invariant t.Node? && n == t.id && AllLeft(c) && Plug(c, t) == tree && Split(mem, root, c, t)
        decreases t
      {
        DownSplit(mem, root, c, t, Left);
        n := mem[n].left;
        c, t := Down(c, t, Left), t.l;
      }
      assert IsTree(mem, t.id, t.l);
      PlugInOrder(c, t);
      BeforeAllLeft(c);
      return n;
    }
  }
}
