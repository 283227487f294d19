/**
 Red-black trees updated in place (shared/lk/rbtree.c, shared/lk/rbtree_augmented.h:203-306). The
 nodes are in memory at their addresses, and each branch of the code that comes in two mirror images
 is one with a side.
 */
module Rbtree {
  import opened RbShape
  import opened RbMemory
  import opened RbSteps
  import opened Wrappers

  class RbTree {
    var nodes: Mem
    var root: Ptr
    ghost var t: Tree

    ghost predicate Valid()
      reads this
    {
      Holds(nodes, root, Top, t) && IsRb(t)
    }

    constructor ()
      ensures Valid() && InOrder(t) == []
    {
      nodes, root, t := map[], 0, Leaf;
    }

    // -------------------------------------------------------------- Insertion

    /** rb_link_node: the node becomes a red leaf where the search for its place ended. */
    method LinkNode(node: Ptr, parent: Ptr, d: Side, ghost path: Path)
      requires Holds(nodes, root, path, Leaf) && node != 0 && node !in PathPtrs(path)
      requires parent == PP(path) && (path.Step? ==> path.d == d)
      modifies this`nodes, this`root
      ensures Holds(nodes, root, path, Fork(Leaf, node, RED, Leaf))
    {
      ghost var m, r := nodes, root;
      nodes := nodes[node := Node(parent, RED, 0, 0)];
      if parent == 0 {
        root := node;
      } else {
        nodes := SetChild(nodes, parent, d, node);
      }
      TopIn(Leaf, path);
      LinkHeld(m, r, nodes, root, path, node);
    }

    /** The red node's uncle is red: flip the colors of uncle, parent and grandparent. */
    method FlipColors(uncle: Ptr, parent: Ptr, gparent: Ptr, ghost path: Path, ghost sub: Tree) returns (up: Ptr, ghost sub': Tree)
      requires Holds(nodes, root, path, sub) && Reddish(path, sub)
      requires path.Step? && path.color == RED && path.up.Step? && Red(path.up.far)
      requires parent == path.p && gparent == path.up.p && uncle == path.up.far.p
      modifies this`nodes
      ensures Holds(nodes, root, path.up.up, sub') && Reddish(path.up.up, sub') && sub'.p == gparent && up == PP(path.up.up)
      ensures InOrder(Plug(path.up.up, sub')) == InOrder(Plug(path, sub))
    {
      FlipHeld(nodes, root, path, sub);
      nodes := SetParentColor(nodes, uncle, gparent, BLACK);
      nodes := SetParentColor(nodes, parent, gparent, BLACK);
      up := nodes[gparent].parent;
      nodes := SetParentColor(nodes, gparent, up, RED);
      sub' := FlipKeeps(path, sub);
    }

    /** The node is its parent's inner child: turn the two. What refers to them from above is set by what follows. */
    method TurnInner(node: Ptr, parent: Ptr, ghost gparent: Ptr, d: Side, ghost up: Path, ghost s: Tree, ghost l: Tree, ghost r: Tree, ghost u: Tree)
        returns (ghost m1: Mem)
      requires Holds(nodes, root, Step(up, gparent, BLACK, d, u), Mk(d, s, parent, RED, Mk(d, l, node, RED, r)))
      requires !Red(l)
      modifies this`nodes
      ensures Holds(m1, root, Step(up, gparent, BLACK, d, u), Mk(d, Mk(d, s, parent, RED, l), node, RED, r))
      ensures Stale(m1, nodes, gparent, node, d)
    {
      ghost var m := nodes;
      TurnParts(m, root, Step(up, gparent, BLACK, d, u), d, s, parent, l, node, r, RED, RED);
      var tmp := nodes[node].Child(d);
      nodes := SetChild(nodes, parent, d.Other(), tmp);
      nodes := SetChild(nodes, node, d, parent);
      if tmp != 0 {
        nodes := SetParentColor(nodes, tmp, parent, BLACK);
      }
      nodes := SetParentColor(nodes, parent, node, RED);
      m1 := InnerTurned(m, nodes, root, up, gparent, d, s, parent, l, node, r, u);
    }

    /** The node is its parent's outer child: turn parent and grandparent. */
    method TurnOuter(parent: Ptr, gparent: Ptr, tmp: Ptr, d: Side, ghost m1: Mem, ghost up: Path, ghost n: Tree, ghost s: Tree, ghost u: Tree)
      requires Holds(m1, root, up, Mk(d, Mk(d, n, parent, RED, s), gparent, BLACK, u)) && Stale(m1, nodes, gparent, parent, d)
      requires tmp == P(s) && !Red(s)
      modifies this`nodes, this`root
      ensures Holds(nodes, root, up, Mk(d, n, parent, BLACK, Mk(d, s, gparent, RED, u)))
    {
      ghost var m, e := nodes, d.Other();
      OuterTurned(m1, m, root, up, d, n, parent, s, gparent, u);
      nodes := SetChild(nodes, gparent, d, tmp);
      nodes := SetChild(nodes, parent, d.Other(), gparent);
      if tmp != 0 {
        nodes := SetParentColor(nodes, tmp, gparent, BLACK);
      }
      assert nodes == TurnChildren(m, e, gparent, parent, P(s));
      TurnLinks(gparent, parent, RED);
    }

    /** __rb_insert: repairs the tree after a red node, or a subtree with a red top, has got a red parent or become the root. */
    method InsertColor(start: Ptr, ghost path0: Path, ghost sub0: Tree) returns (ghost t': Tree)
      requires Holds(nodes, root, path0, sub0) && Reddish(path0, sub0) && start == sub0.p
      modifies this`nodes, this`root
      ensures Holds(nodes, root, Top, t') && IsRb(t') && InOrder(t') == InOrder(Plug(path0, sub0))
    {
      ghost var path, sub := path0, sub0;
      var node, parent := start, nodes[start].parent;
      while true
        invariant Holds(nodes, root, path, sub) && Reddish(path, sub) && node == sub.p && parent == PP(path)
        invariant InOrder(Plug(path, sub)) == InOrder(Plug(path0, sub0))
        decreases path
      {
        if parent == 0 {
          t' := PaintRoot(node, path, sub);
          return;
        }
        PathFacts(nodes, root, path, sub);
        if nodes[parent].color == BLACK {
          Fill(path, sub);
          HoldsPlugged(nodes, root, path, sub);
          return Plug(path, sub);
        }
        var gparent := nodes[parent].parent;
        GrandparentFacts(nodes, root, path, sub);
        var tmp := nodes[gparent].right;
        var d := if parent != tmp then LEFT else RIGHT;
        tmp := nodes[gparent].Child(d.Other());
        if tmp != 0 && nodes[tmp].color == RED {
          node := gparent;
          parent, sub := FlipColors(tmp, parent, gparent, path, sub);
          path := path.up.up;
        } else {
          t' := TurnBoth(node, parent, gparent, d, path, sub);
          return;
        }
      }
    }

    /** The root becomes black. */
    method PaintRoot(node: Ptr, ghost path: Path, ghost sub: Tree) returns (ghost t': Tree)
      requires Holds(nodes, root, path, sub) && Reddish(path, sub) && node == sub.p && PP(path) == 0
      modifies this`nodes
      ensures Holds(nodes, root, Top, t') && IsRb(t') && InOrder(t') == InOrder(Plug(path, sub))
    {
      assert path.Top?;
      PaintHeld(nodes, root, path, sub, BLACK);
      nodes := SetParentColor(nodes, node, 0, BLACK);
      t' := Paint(sub, BLACK);
      PaintBlack(sub);
    }

    /** Cases 2 and 3: the uncle is black. */
    method TurnBoth(node: Ptr, parent0: Ptr, gparent: Ptr, d: Side, ghost path: Path, ghost sub: Tree) returns (ghost t': Tree)
      requires Holds(nodes, root, path, sub) && Reddish(path, sub) && node == sub.p
      requires path.Step? && path.color == RED && path.up.Step? && !Red(path.up.far)
      requires parent0 == path.p && gparent == path.up.p && d == path.up.d && parent0 in nodes
      modifies this`nodes, this`root
      ensures Holds(nodes, root, Top, t') && IsRb(t') && InOrder(t') == InOrder(Plug(path, sub))
    {
      ghost var up, s, u, n, m1 := path.up.up, path.far, path.up.far, sub, nodes;
      CrookedIf(path, sub);
      PathFacts(nodes, root, path, sub);
      Zoom(nodes, root, path.up, parent0, RED, path.d, s, sub);
      var parent := parent0;
      var tmp := nodes[parent].Child(d.Other());
      if node == tmp {
        ghost var l, r := Kid(sub, d), Kid(sub, d.Other());
        InnerSide(nodes, root, path, sub, d);
        m1 := TurnInner(node, parent, gparent, d, up, s, l, r, u);
        InnerKeeps(up, d, s, parent, l, node, r, gparent, u);
        n, s := Mk(d, s, parent, RED, l), r;
        parent := node;
        StaleChild(m1, nodes, root, Step(up, gparent, BLACK, d, u), d, n, node, s, gparent);
        tmp := nodes[node].Child(d.Other());
      } else {
        OuterSide(nodes, root, path, sub, d);
      }
      Zoom(m1, root, up, gparent, BLACK, d, u, Mk(d, n, parent, RED, s));
      TurnOuter(parent, gparent, tmp, d, m1, up, n, s, u);
      OuterKeeps(up, d, n, parent, s, gparent, u);
      t' := Plug(up, Mk(d, n, parent, BLACK, Mk(d, s, gparent, RED, u)));
      HoldsPlugged(nodes, root, up, Mk(d, n, parent, BLACK, Mk(d, s, gparent, RED, u)));
    }

    /** Places a new node next to its parent, on whose side d there is none yet; or makes it the root. */
    method Insert(node: Ptr, parent: Ptr, d: Side) returns (ghost before: seq<Ptr>, ghost after: seq<Ptr>)
      requires Valid() && node != 0 && node !in InOrder(t)
      requires if parent == 0 then root == 0 else parent in InOrder(t) && parent in nodes && nodes[parent].Child(d) == 0
      modifies this
      ensures Valid() && InOrder(t) == before + [node] + after && old(InOrder(t)) == before + after
      ensures parent == 0 ==> before == after == []
      ensures parent != 0 && d == LEFT ==> after != [] && after[0] == parent
      ensures parent != 0 && d == RIGHT ==> before != [] && before[|before| - 1] == parent
    {
      ghost var path := FindPlace(nodes, root, t, node, parent, d);
      LinkNode(node, parent, d, path);
      RedLeaf(path, node);
      PathWas(t, path, node);
      before, after := Before(path), After(path);
      t := InsertColor(node, path, Fork(Leaf, node, RED, Leaf));
    }

    // -------------------------------------------------------------- Removal

    /** The sibling is red: turn parent and sibling. */
    method TurnRedSibling(parent: Ptr, sibling: Ptr, d: Side, ghost up: Path, ghost c: Color, ghost far: Tree, ghost sub: Tree)
        returns (tmp: Ptr, ghost path: Path)
      requires Holds(nodes, root, Step(up, parent, c, d, far), sub) && Deficient(Step(up, parent, c, d, far), sub)
      requires Red(far) && sibling == far.p
      modifies this`nodes, this`root
      ensures Holds(nodes, root, path, sub) && Deficient(path, sub)
      ensures path.p == parent && path.color == RED && path.d == d && path.far.Fork? && path.far.color == BLACK && tmp == path.far.p
      ensures InOrder(Plug(path, sub)) == InOrder(Plug(Step(up, parent, c, d, far), sub))
    {
      ghost var l, r, m := Kid(far, d), Kid(far, d.Other()), nodes;
      Parts(far, d);
      RedSiblingKeeps(up, parent, c, d, l, sibling, r, sub);
      Zoom(m, root, up, parent, c, d, far, sub);
      TurnParts(m, root, up, d, sub, parent, l, sibling, r, c, RED);
      TurnHeld(m, m, root, up, d, sub, parent, l, sibling, r, c, RED, RED);
      tmp := nodes[sibling].Child(d);
      nodes := SetChild(nodes, parent, d.Other(), tmp);
      nodes := SetChild(nodes, sibling, d, parent);
      nodes := SetParentColor(nodes, tmp, parent, BLACK);
      assert nodes == TurnChildren(m, d, parent, sibling, P(l));
      TurnLinks(parent, sibling, RED);
      path := Step(Step(up, sibling, BLACK, d, r), parent, RED, d, l);
      Zoom(nodes, root, up, sibling, BLACK, d, r, Mk(d, sub, parent, RED, l));
      Zoom(nodes, root, Step(up, sibling, BLACK, d, r), parent, RED, d, l, sub);
    }

    /** The sibling is black, and so are its children: it becomes red, and a red parent black. */
    method FadeSibling(parent: Ptr, sibling: Ptr, ghost path: Path, ghost sub: Tree) returns (done: bool, ghost t': Tree)
      requires Holds(nodes, root, path, sub) && Deficient(path, sub) && parent == path.p
      requires path.far.Fork? && path.far.color == BLACK && !Red(path.far.l) && !Red(path.far.r) && sibling == path.far.p
      modifies this`nodes
      ensures Holds(nodes, root, path.up, t') && InOrder(Plug(path.up, t')) == InOrder(Plug(path, sub)) && t'.Fork? && t'.p == parent
      ensures (done <==> path.color == RED) && (done ==> IsRb(Plug(path.up, t')))
      ensures !done ==> if path.up.Top? then IsRb(Plug(path.up, t')) else Deficient(path.up, t')
    {
      PaleSiblingKeeps(path.up, path.p, path.color, path.d, path.far, sub);
      FadeHeld(nodes, root, path, sub);
      nodes := SetParentColor(nodes, sibling, parent, RED);
      t' := Mk(path.d, sub, parent, path.color, Paint(path.far, RED));
      done := nodes[parent].color == RED;
      if done {
        PaintHeld(nodes, root, path.up, t', BLACK);
        nodes := nodes[parent := nodes[parent].(color := BLACK)];
        t' := Paint(t', BLACK);
      }
    }

    /** The sibling's near child is red, its far one is not: turn the two. What refers to them from above is set by what follows. */
    method TurnNear(parent: Ptr, sibling: Ptr, tmp2: Ptr, d: Side, ghost up: Path, ghost c: Color,
        ghost a: Tree, ghost b: Tree, ghost f: Tree, ghost sub: Tree) returns (ghost m1: Mem)
      requires Holds(nodes, root, Step(up, parent, c, d, Mk(d, Mk(d, a, tmp2, RED, b), sibling, BLACK, f)), sub) && !Red(b)
      modifies this`nodes
      ensures Holds(m1, root, Step(up, parent, c, d, Mk(d, a, tmp2, RED, Mk(d, b, sibling, BLACK, f))), sub)
      ensures Loose(m1, nodes, parent, tmp2, sibling, d.Other())
    {
      ghost var m := nodes;
      NearParts(m, root, up, parent, c, d, a, tmp2, b, sibling, f, sub);
      var tmp1 := nodes[tmp2].Child(d.Other());
      nodes := SetChild(nodes, sibling, d, tmp1);
      nodes := SetChild(nodes, tmp2, d.Other(), sibling);
      nodes := SetChild(nodes, parent, d.Other(), tmp2);
      if tmp1 != 0 {
        nodes := SetParentColor(nodes, tmp1, sibling, BLACK);
      }
      m1 := NearTurned(m, nodes, root, up, parent, c, d, a, tmp2, b, sibling, f, sub);
    }

    /** The sibling's far child will be black: turn parent and sibling. */
    method TurnLend(parent: Ptr, sibling: Ptr, tmp1: Ptr, d: Side, ghost m1: Mem, ghost up: Path, ghost c: Color,
        ghost b: Tree, ghost cs: Color, ghost f: Tree, ghost sub: Tree)
      requires Holds(m1, root, Step(up, parent, c, d, Mk(d, b, sibling, cs, f)), sub) && f.Fork? && tmp1 == f.p
      requires Loose(m1, nodes, parent, sibling, tmp1, d.Other())
      modifies this`nodes, this`root
      ensures Holds(nodes, root, up, Mk(d, Mk(d, sub, parent, BLACK, b), sibling, c, Paint(f, BLACK)))
    {
      ghost var m := nodes;
      LendTurned(m1, m, root, up, parent, c, d, b, sibling, cs, f, sub);
      var tmp2 := nodes[sibling].Child(d);
      nodes := SetChild(nodes, parent, d.Other(), tmp2);
      nodes := SetChild(nodes, sibling, d, parent);
      nodes := SetParentColor(nodes, tmp1, sibling, BLACK);
      if tmp2 != 0 {
        nodes := nodes[tmp2 := nodes[tmp2].(parent := parent)];
      }
      PaintFirst(m, d, parent, sibling, tmp1, tmp2);
      TurnLinks(parent, sibling, BLACK);
    }

    /** ____rb_erase_color: repairs a tree that lacks a black node where the parent's child was taken out. */
    method EraseColor(parent0: Ptr, ghost path0: Path) returns (ghost t': Tree)
      requires Holds(nodes, root, path0, Leaf) && Deficient(path0, Leaf) && parent0 == path0.p
      modifies this`nodes, this`root
      ensures Holds(nodes, root, Top, t') && IsRb(t') && InOrder(t') == InOrder(Plug(path0, Leaf))
    {
      ghost var path, sub := path0, Leaf;
      var node, parent := 0, parent0;
      while true
        invariant Holds(nodes, root, path, sub) && Deficient(path, sub) && node == P(sub) && parent == path.p
        invariant InOrder(Plug(path, sub)) == InOrder(Plug(path0, Leaf))
        decreases path
      {
        ghost var at := path;
        SiblingThere(path, sub);
        PathFacts(nodes, root, path, sub);
        var sibling := nodes[parent].right;
        var d := if node != sibling then LEFT else RIGHT;
        sibling := nodes[parent].Child(d.Other());
        if nodes[sibling].color == RED {
          sibling, at := TurnRedSibling(parent, sibling, d, path.up, path.color, path.far, sub);
        }
        var done;
        done, t' := MendSibling(parent, sibling, d, at, sub);
        if done {
          return;
        }
        path, sub := at.up, t';
        PathFacts(nodes, root, path, sub);
        node := parent;
        parent := nodes[node].parent;
        if parent == 0 {
          HoldsPlugged(nodes, root, path, sub);
          return Plug(path, sub);
        }
      }
    }

    /** Cases 2 to 4, for a black sibling. */
    method MendSibling(parent: Ptr, sibling: Ptr, d: Side, ghost path: Path, ghost sub: Tree) returns (done: bool, ghost t': Tree)
      requires Holds(nodes, root, path, sub) && Deficient(path, sub) && parent == path.p && d == path.d
      requires path.far.Fork? && path.far.color == BLACK && sibling == path.far.p
      modifies this`nodes, this`root
      ensures done ==> Holds(nodes, root, Top, t') && IsRb(t') && InOrder(t') == InOrder(Plug(path, sub))
      ensures !done ==> Holds(nodes, root, path.up, t') && InOrder(Plug(path.up, t')) == InOrder(Plug(path, sub)) && t'.Fork? && t'.p == parent
      ensures !done ==> path.color == BLACK && if path.up.Top? then IsRb(Plug(path.up, t')) else Deficient(path.up, t')
    {
      ghost var up, c, far := path.up, path.color, path.far;
      Parts(far, d);
      FarFacts(nodes, root, path, sub);
      var tmp1 := nodes[sibling].Child(d.Other());
      if tmp1 == 0 || nodes[tmp1].color == BLACK {
        var tmp2 := nodes[sibling].Child(d);
        if tmp2 == 0 || nodes[tmp2].color == BLACK {
          done, t' := FadeSibling(parent, sibling, path, sub);
          if done {
            HoldsPlugged(nodes, root, up, t');
            t' := Plug(up, t');
          }
          return;
        }
        ghost var l, f := Kid(far, d), Kid(far, d.Other());
        ghost var a, b := Kid(l, d), Kid(l, d.Other());
        Parts(l, d);
        NearRedKeeps(up, parent, c, d, a, tmp2, b, sibling, f, sub);
        NearIsBlack(up, parent, c, d, a, tmp2, b, sibling, f, sub);
        ghost var m1 := TurnNear(parent, sibling, tmp2, d, up, c, a, b, f, sub);
        t' := Lend(parent, tmp2, sibling, d, m1, up, c, a, RED, Mk(d, b, sibling, BLACK, f), sub);
      } else {
        LendableIf(up, parent, c, d, far, sub);
        t' := Lend(parent, sibling, tmp1, d, nodes, up, c, Kid(far, d), BLACK, Kid(far, d.Other()), sub);
      }
      done := true;
    }

    method Lend(parent: Ptr, sibling: Ptr, tmp1: Ptr, d: Side, ghost m1: Mem, ghost up: Path, ghost c: Color,
        ghost b: Tree, ghost cs: Color, ghost f: Tree, ghost sub: Tree) returns (ghost t': Tree)
      requires Holds(m1, root, Step(up, parent, c, d, Mk(d, b, sibling, cs, f)), sub) && f.Fork? && tmp1 == f.p
      requires Loose(m1, nodes, parent, sibling, tmp1, d.Other()) && Lendable(up, c, sub, b, f)
      modifies this`nodes, this`root
      ensures Holds(nodes, root, Top, t') && IsRb(t')
      ensures InOrder(t') == InOrder(Plug(Step(up, parent, c, d, Mk(d, b, sibling, cs, f)), sub))
    {
      TurnLend(parent, sibling, tmp1, d, m1, up, c, b, cs, f, sub);
      LendKeeps(up, parent, c, d, b, sibling, cs, f, sub);
      HoldsPlugged(nodes, root, up, Mk(d, Mk(d, sub, parent, BLACK, b), sibling, c, Paint(f, BLACK)));
      t' := Plug(up, Mk(d, Mk(d, sub, parent, BLACK, b), sibling, c, Paint(f, BLACK)));
    }

    /** Takes a node with one child at most out of the tree; where that leaves a black node lacking the parent is returned. */
    method EraseShort(node: Ptr, ghost path: Path, ghost sub: Tree) returns (rebalance: Ptr, ghost path': Path, ghost sub': Tree)
      requires Holds(nodes, root, path, sub) && IsRb(Plug(path, sub)) && sub.Fork? && sub.p == node && (sub.l.Leaf? || sub.r.Leaf?)
      modifies this`nodes, this`root
      ensures Holds(nodes, root, path', sub') && Erased(rebalance, path', sub')
      ensures InOrder(Plug(path', sub')) == Before(path) + (InOrder(sub.l) + InOrder(sub.r)) + After(path)
    {
      ghost var m, r, kid := nodes, root, if sub.l.Leaf? then sub.r else sub.l;
      PathFacts(m, r, path, sub);
      KidFacts(m, r, path, sub, kid);
      SpliceKeeps(path, sub, kid);
      ShortKeeps(path, sub, kid);
      ShortOrder(path, sub, kid);
      var child, tmp := nodes[node].right, nodes[node].left;
      var parent, color := nodes[node].parent, nodes[node].color;
      rebalance := 0;
      if tmp == 0 {
        LinkChild(node, child, parent);
        if child != 0 {
          nodes := SetParentColor(nodes, child, parent, color);
        } else if color == BLACK {
          rebalance := parent;
        }
      } else {
        nodes := SetParentColor(nodes, tmp, parent, color);
        LinkChild(node, tmp, parent);
      }
      SpliceHeld(m, r, nodes, root, path, sub, kid, sub.color);
      path', sub' := path, Paint(kid, sub.color);
    }

    /** The leftmost node below child, and the parent that it is the left child of; or child itself, twice. */
    method FindSuccessor(child: Ptr, ghost base: Path, ghost right: Tree) returns (successor: Ptr, parent: Ptr, ghost inner: Path, ghost s: Tree)
      requires Holds(nodes, root, base, right) && right.Fork? && child == right.p
      ensures Holds(nodes, root, Under(inner, base), s) && AllLeft(inner) && Plug(inner, s) == right
      ensures s.Fork? && s.l.Leaf? && successor == s.p && parent == (if inner.Top? then successor else inner.p)
    {
      successor, parent, inner, s := child, child, Top, right;
      PathFacts(nodes, root, base, right);
      var tmp := nodes[child].left;
      while tmp != 0
        invariant Holds(nodes, root, Under(inner, base), s) && AllLeft(inner) && Plug(inner, s) == right
        invariant s.Fork? && successor == s.p && tmp == P(s.l) && parent == (if inner.Top? then successor else inner.p)
        decreases s
      {
        Zoom(nodes, root, Under(inner, base), s.p, s.color, LEFT, s.r, s.l);
        inner, s := Step(inner, s.p, s.color, LEFT, s.r), s.l;
        PathFacts(nodes, root, Under(inner, base), s);
        parent := successor;
        successor := tmp;
        tmp := nodes[tmp].left;
      }
      PathFacts(nodes, root, Under(inner, base), s);
      NullIsLeaf(nodes, s.l, s.p);
    }

    /** The node's right child has no left one and takes its place. */
    method EraseNext(node: Ptr, successor: Ptr, ghost path: Path, ghost l: Tree, ghost c: Color, ghost s: Tree) returns (rebalance: Ptr)
      requires Holds(nodes, root, path, Fork(l, node, c, s)) && l.Fork? && s.Fork? && s.l.Leaf? && successor == s.p
      modifies this`nodes, this`root
      ensures Holds(nodes, root, Step(path, successor, c, RIGHT, l), Paint(s.r, BLACK))
      ensures rebalance == if s.r.Leaf? && s.color == BLACK then successor else 0
    {
      ghost var m, r := nodes, root;
      NextParts(m, r, path, l, node, c, s);
      var child2 := nodes[successor].right;
      rebalance := TakePlace(node, successor, successor, child2);
      NextHeld(m, r, nodes, root, path, l, node, c, s);
    }

    /** A node below the right child has no left child and takes the node's place; its own right child takes its place. */
    method EraseFar(node: Ptr, child: Ptr, parent: Ptr, successor: Ptr, ghost path: Path, ghost l: Tree, ghost c: Color, ghost inner: Path, ghost s: Tree)
        returns (rebalance: Ptr)
      requires Holds(nodes, root, Under(inner, Step(path, node, c, RIGHT, l)), s)
      requires l.Fork? && s.Fork? && s.l.Leaf? && successor == s.p && inner.Step? && inner.d == LEFT && parent == inner.p && child == TopOf(inner)
      modifies this`nodes, this`root
      ensures Holds(nodes, root, Under(inner, Step(path, successor, c, RIGHT, l)), Paint(s.r, BLACK))
      ensures rebalance == if s.r.Leaf? && s.color == BLACK then parent else 0
    {
      ghost var m, r := nodes, root;
      SuccessorFacts(m, r, inner, Step(path, node, c, RIGHT, l), s);
      FarNode(m, r, path, l, node, c, inner, s);
      FarDistinctHere(m, r, path, l, node, c, inner, s);
      var child2 := nodes[successor].right;
      nodes := SetChild(nodes, parent, LEFT, child2);
      nodes := SetChild(nodes, successor, RIGHT, child);
      nodes := nodes[child := nodes[child].(parent := successor)];
      rebalance := TakePlace(node, successor, parent, child2);
      FarHeld(m, r, nodes, root, path, l, node, c, inner, s);
      assert Look(0);
    }

    /** The successor takes over the node's left child, parent and color; its former right child turns black. */
    method TakePlace(node: Ptr, successor: Ptr, parent: Ptr, child2: Ptr) returns (rebalance: Ptr)
      requires node in nodes && successor in nodes && node != successor && nodes[node].left != 0 && nodes[node].left in nodes
      requires nodes[node].left != node && nodes[node].left != successor
      requires nodes[node].parent != 0 ==> nodes[node].parent in nodes
      requires child2 != 0 ==> child2 in nodes && child2 != successor
      modifies this`nodes, this`root
      ensures nodes == Placed(old(nodes), node, successor, parent, child2)
      ensures root == NewRoot(old(root), successor, old(nodes)[node].parent)
      ensures rebalance == if child2 == 0 && old(nodes)[successor].color == BLACK then parent else 0
    {
      var tmp := nodes[node].left;
      nodes := SetChild(nodes, successor, LEFT, tmp);
      nodes := nodes[tmp := nodes[tmp].(parent := successor)];
      var up, color := nodes[node].parent, nodes[node].color;
      LinkChild(node, successor, up);
      rebalance := 0;
      if child2 != 0 {
        nodes := SetParentColor(nodes, child2, parent, BLACK);
      } else if nodes[successor].color == BLACK {
        rebalance := parent;
      }
      nodes := SetParentColor(nodes, successor, up, color);
    }

    /** __rb_erase_augmented */
    method EraseNode(node: Ptr, ghost path: Path, ghost sub: Tree) returns (rebalance: Ptr, ghost path': Path, ghost sub': Tree)
      requires Holds(nodes, root, path, sub) && IsRb(Plug(path, sub)) && sub.Fork? && sub.p == node
      modifies this`nodes, this`root
      ensures Holds(nodes, root, path', sub') && Erased(rebalance, path', sub')
      ensures InOrder(Plug(path', sub')) == Before(path) + (InOrder(sub.l) + InOrder(sub.r)) + After(path)
    {
      PathFacts(nodes, root, path, sub);
      LeafIsNull(nodes, sub);
      var child, tmp := nodes[node].right, nodes[node].left;
      if tmp == 0 || child == 0 {
        rebalance, path', sub' := EraseShort(node, path, sub);
      } else {
        ghost var l, c := sub.l, sub.color;
        ghost var base := Step(path, node, c, RIGHT, l);
        ghost var inner, s;
        Zoom(nodes, root, path, node, c, RIGHT, l, sub.r);
        var successor, parent;
        successor, parent, inner, s := FindSuccessor(child, base, sub.r);
        PlugUnder(inner, base, s);
        SuccessorKeeps(path, l, node, c, inner, s);
        path', sub' := Under(inner, Step(path, s.p, c, RIGHT, l)), Paint(s.r, BLACK);
        if successor == child {
          OnlyTop(inner, s, nodes, root, base);
          rebalance := EraseNext(node, successor, path, l, c, s);
        } else {
          PlugTop(inner, s);
          rebalance := EraseFar(node, child, parent, successor, path, l, c, inner, s);
        }
      }
    }

    /** Removes a node. */
    method Erase(node: Ptr) returns (ghost before: seq<Ptr>, ghost after: seq<Ptr>)
      requires Valid() && node in InOrder(t)
      modifies this
      ensures Valid() && old(InOrder(t)) == before + [node] + after && InOrder(t) == before + after
    {
      InOrderPtrs(t, node);
      ghost var path, sub := Locate(Top, t, node);
      HoldsPlugged(nodes, root, path, sub);
      before, after := Before(path) + InOrder(sub.l), InOrder(sub.r) + After(path);
      SplitOrder(path, sub);
      var rebalance;
      rebalance, path, sub := EraseNode(node, path, sub);
      if rebalance != 0 {
        t := EraseColor(rebalance, path);
      } else {
        HoldsPlugged(nodes, root, path, sub);
        t := Plug(path, sub);
      }
    }

    // -------------------------------------------------------------- Traversal

    /** The first node in order. */
    method First() returns (x: Ptr)
      requires Valid()
      ensures x == if InOrder(t) == [] then 0 else InOrder(t)[0]
    {
      x := root;
      if x != 0 {
        var above;
        ghost var path, s;
        x, above, path, s := FindSuccessor(root, Top, t);
        FirstIs(path, s);
      }
    }

    /** The node that follows x in order. */
    method Next(x: Ptr) returns (y: Ptr, ghost before: seq<Ptr>, ghost after: seq<Ptr>)
      requires Valid() && x in InOrder(t)
      ensures InOrder(t) == before + [x] + after && y == if after == [] then 0 else after[0]
    {
      InOrderPtrs(t, x);
      ghost var path, sub := Locate(Top, t, x);
      HoldsPlugged(nodes, root, path, sub);
      PathFacts(nodes, root, path, sub);
      before, after := Before(path) + InOrder(sub.l), InOrder(sub.r) + After(path);
      SplitOrder(path, sub);
      var right := nodes[x].right;
      if right != 0 {
        ghost var inner, s;
        Zoom(nodes, root, path, x, sub.color, RIGHT, sub.l, sub.r);
        var above;
        y, above, inner, s := FindSuccessor(right, Step(path, x, sub.color, RIGHT, sub.l), sub.r);
        FirstIs(inner, s);
        assert after[0] == InOrder(sub.r)[0];
        return;
      }
      NullIsLeaf(nodes, sub.r, x);
      assert after == After(path);
      y := Climb(x, path, sub);
    }

    /** The parent of the first ancestor that is a left child. */
    method Climb(x: Ptr, ghost path0: Path, ghost sub0: Tree) returns (y: Ptr)
      requires Holds(nodes, root, path0, sub0) && sub0.Fork? && x == sub0.p
      ensures y == if After(path0) == [] then 0 else After(path0)[0]
    {
      ghost var path, sub := path0, sub0;
      PathFacts(nodes, root, path, sub);
      var node := x;
      y := nodes[node].parent;
      while y != 0 && node == nodes[y].right
        invariant Holds(nodes, root, path, sub) && sub.Fork? && node == sub.p && y == PP(path) && After(path) == After(path0)
        invariant y != 0 ==> y in nodes
        decreases path
      {
        PathFacts(nodes, root, path, sub);
        Zoom(nodes, root, path.up, path.p, path.color, path.d, path.far, sub);
        path, sub := path.up, Mk(path.d, sub, path.p, path.color, path.far);
        PathFacts(nodes, root, path, sub);
        node := y;
        y := nodes[node].parent;
      }
      PathFacts(nodes, root, path, sub);
    }

    /** __rb_rotate_set_parents */
    method TurnLinks(was: Ptr, now: Ptr, c: Color)
      requires was in nodes && now in nodes && (nodes[was].parent != 0 ==> nodes[was].parent in nodes)
      modifies this`nodes, this`root
      ensures nodes == RotateSetParents(old(nodes), was, now, c) && root == NewRoot(old(root), now, old(nodes)[was].parent)
    {
      var parent := nodes[was].parent;
      nodes := SetParentColor(nodes, now, parent, nodes[was].color);
      nodes := SetParentColor(nodes, was, now, c);
      LinkChild(was, now, parent);
    }

    /** __rb_change_child */
    method LinkChild(was: Ptr, now: Ptr, parent: Ptr)
      requires parent != 0 ==> parent in nodes
      modifies this`nodes, this`root
      ensures nodes == ChangeChild(old(nodes), was, now, parent) && root == NewRoot(old(root), now, parent)
    {
      if parent != 0 {
        if nodes[parent].left == was {
          nodes := SetChild(nodes, parent, LEFT, now);
        } else {
          nodes := SetChild(nodes, parent, RIGHT, now);
        }
      } else {
        root := now;
      }
    }
  }

  /** What memory says of a node and its parent. */
  lemma PathFacts(m: Mem, root: Ptr, path: Path, t: Tree)
    requires Holds(m, root, path, t)
    ensures path.Step? ==> path.p != 0 && path.p in m && m[path.p] == NodeOf(path.d, PP(path.up), path.color, P(t), P(path.far))
    ensures path.Step? && path.far.Fork? ==> path.far.p != 0 && path.far.p in m && m[path.far.p].color == path.far.color && path.far.p != P(t)
    ensures t.Fork? ==> t.p != 0 && t.p in m && m[t.p] == Node(PP(path), t.color, P(t.l), P(t.r))
  {
    if path.Step? {
      TopIn(path.far, path);
      TopIn(t, path);
    }
  }

  /** ... and of its grandparent and uncle. */
  lemma GrandparentFacts(m: Mem, root: Ptr, path: Path, t: Tree)
    requires Holds(m, root, path, t) && path.Step? && path.up.Step?
    ensures var up := path.up; up.p != 0 && up.p in m && m[up.p] == NodeOf(up.d, PP(up.up), up.color, path.p, P(up.far))
    ensures var up := path.up; up.far.Fork? ==> up.far.p != 0 && up.far.p in m && m[up.far.p].color == up.far.color && up.far.p != path.p
  {
    var sub := Mk(path.d, t, path.p, path.color, path.far);
    Zoom(m, root, path.up, path.p, path.color, path.d, path.far, t);
    PathFacts(m, root, path.up, sub);
  }

  /** The node is on the other side of its parent than the parent of the grandparent. */
  lemma InnerSide(m: Mem, root: Ptr, path: Path, t: Tree, d: Side)
    requires Holds(m, root, path, t) && t.Fork? && path.Step? && path.up.Step? && path.p in m && m[path.p].Child(d.Other()) == t.p
    ensures path.d == d.Other() && t == Mk(d, Kid(t, d), t.p, t.color, Kid(t, d.Other()))
    ensures Mk(path.d, t, path.p, path.color, path.far) == Mk(d, path.far, path.p, path.color, t)
  {
    PathFacts(m, root, path, t);
    TopIn(path.far, path);
  }

  lemma OuterSide(m: Mem, root: Ptr, path: Path, t: Tree, d: Side)
    requires Holds(m, root, path, t) && t.Fork? && path.Step? && path.up.Step? && path.p in m && m[path.p].Child(d.Other()) != t.p
    ensures path.d == d && m[path.p].Child(d.Other()) == P(path.far)
  {
    PathFacts(m, root, path, t);
  }

  /** After the first turn the node's outer child is known. */
  lemma StaleChild(m1: Mem, m: Mem, root: Ptr, path: Path, d: Side, n: Tree, p: Ptr, s: Tree, g: Ptr)
    requires Holds(m1, root, path, Mk(d, n, p, RED, s)) && Stale(m1, m, g, p, d)
    ensures p in m && m[p].Child(d.Other()) == P(s)
  {
    HeldMk(m1, d, n, p, RED, s, PP(path));
  }

  lemma LinkHeld(m: Mem, root: Ptr, m': Mem, root': Ptr, path: Path, node: Ptr)
    requires Holds(m, root, path, Leaf) && node != 0 && node !in PathPtrs(path)
    requires node in m' && m'[node] == Node(PP(path), RED, 0, 0)
    requires Changed(m, m', {node, PP(path)})
    requires path.Top? ==> root' == node
    requires path.Step? ==> root' == root && path.p in m && path.p in m' && m'[path.p] == m[path.p].SetChild(path.d, node)
    ensures Holds(m', root', path, Fork(Leaf, node, RED, Leaf))
  {
    PathNotNull(m, root, path, 0);
    SameIf(m, m', {node, PP(path)}, PathPtrs(path) - {PP(path)});
    PathRedirected(m, root, m', root', path, 0, node);
  }

  /** What flipping colors does to the tree. */
  lemma FlipHeld(m: Mem, root: Ptr, path: Path, t: Tree)
    requires Holds(m, root, path, t) && path.Step? && path.color == RED && path.up.Step? && path.up.color == BLACK && path.up.far.Fork?
    ensures path.p in m && path.up.p in m && path.up.far.p in m
    ensures path.up.p != path.p && path.up.p != path.up.far.p
    ensures m[path.up.p].parent == PP(path.up.up)
    ensures var m1 := SetParentColor(SetParentColor(m, path.up.far.p, path.up.p, BLACK), path.p, path.up.p, BLACK);
      Holds(SetParentColor(m1, path.up.p, PP(path.up.up), RED), root, path.up.up,
        Mk(path.up.d, Mk(path.d, t, path.p, BLACK, path.far), path.up.p, RED, Paint(path.up.far, BLACK)))
  {
    var up, p, g, u, dg := path.up.up, path.p, path.up.p, path.up.far, path.up.d;
    var sub, sub' := Mk(path.d, t, p, RED, path.far), Mk(path.d, t, p, BLACK, path.far);
    Zoom(m, root, path.up, p, RED, path.d, path.far, t);
    ZoomFar(m, root, up, g, BLACK, dg, u, sub);
    PaintHeld(m, root, Step(up, g, BLACK, dg.Other(), sub), u, BLACK);
    var m1 := SetParentColor(m, u.p, g, BLACK);
    ZoomFar(m1, root, up, g, BLACK, dg, Paint(u, BLACK), sub);
    PaintHeld(m1, root, Step(up, g, BLACK, dg, Paint(u, BLACK)), sub, BLACK);
    var m2 := SetParentColor(m1, p, g, BLACK);
    assert Paint(sub, BLACK) == sub';
    Zoom(m2, root, up, g, BLACK, dg, Paint(u, BLACK), sub');
    PaintHeld(m2, root, up, Mk(dg, sub', g, BLACK, Paint(u, BLACK)), RED);
    GrandparentApart(m, root, path, t);
  }

  lemma GrandparentApart(m: Mem, root: Ptr, path: Path, t: Tree)
    requires Holds(m, root, path, t) && path.Step? && path.up.Step?
    ensures path.up.p != path.p && (path.up.far.Fork? ==> path.up.p != path.up.far.p && path.p != path.up.far.p)
    ensures path.up.p in m && m[path.up.p].parent == PP(path.up.up) && path.p in m
  {
    var up := path.up;
    assert HeldPath(m, root, up, path.p) && DistinctPath(up);
    assert PathPtrs(up) == PathPtrs(up.up) + {up.p} + Ptrs(up.far);
    TopIn(up.far, up);
  }

  lemma OuterTurned(m1: Mem, m: Mem, root: Ptr, up: Path, d: Side, n: Tree, p: Ptr, s: Tree, g: Ptr, u: Tree)
    requires Holds(m1, root, up, Mk(d, Mk(d, n, p, RED, s), g, BLACK, u)) && Stale(m1, m, g, p, d) && !Red(s)
    ensures P(s) != 0 ==> P(s) in m && P(s) != g && P(s) != p && m[P(s)].color == BLACK
    ensures g != p
    ensures var m2 := TurnChildren(m, d.Other(), g, p, P(s));
      && g in m2 && p in m2 && m2[g].parent == PP(up) && (PP(up) != 0 ==> PP(up) in m2)
      && Holds(RotateSetParents(m2, g, p, RED), NewRoot(root, p, PP(up)), up, Mk(d, n, p, BLACK, Mk(d, s, g, RED, u)))
  {
    var e := d.Other();
    MkOther(d, n, p, RED, s);
    MkOther(d, Mk(d, n, p, RED, s), g, BLACK, u);
    TurnParts(m1, root, up, e, u, g, s, p, n, BLACK, RED);
    TurnHeld(m1, m, root, up, e, u, g, s, p, n, BLACK, RED, RED);
    MkOther(d, s, g, RED, u);
    MkOther(d, n, p, BLACK, Mk(d, s, g, RED, u));
  }

  lemma Parts(t: Tree, d: Side)
    requires t.Fork?
    ensures t == Mk(d, Kid(t, d), t.p, t.color, Kid(t, d.Other()))
  {
  }

  lemma PathWas(t: Tree, path: Path, node: Ptr)
    requires t == Plug(path, Leaf)
    ensures InOrder(t) == Before(path) + After(path)
    ensures InOrder(Plug(path, Fork(Leaf, node, RED, Leaf))) == Before(path) + [node] + After(path)
    ensures path.Step? && path.d == LEFT ==> After(path) != [] && After(path)[0] == path.p
    ensures path.Step? && path.d == RIGHT ==> Before(path) != [] && Before(path)[|Before(path)| - 1] == path.p
    ensures path.Top? ==> Before(path) == After(path) == []
  {
    PlugInOrder(path, Leaf);
    PlugInOrder(path, Fork(Leaf, node, RED, Leaf));
    assert Before(path) + [] + After(path) == Before(path) + After(path);
  }

  /** Where a new node goes: the end of a path. */
  lemma FindPlace(m: Mem, root: Ptr, t: Tree, node: Ptr, parent: Ptr, d: Side) returns (path: Path)
    requires Holds(m, root, Top, t) && node !in InOrder(t)
    requires if parent == 0 then root == 0 else parent in InOrder(t) && parent in m && m[parent].Child(d) == 0
    ensures Plug(path, Leaf) == t && Holds(m, root, path, Leaf) && node !in PathPtrs(path)
    ensures parent == PP(path) && (path.Step? ==> path.d == d)
  {
    if parent == 0 {
      path := Top;
    } else {
      InOrderPtrs(t, parent);
      var up, sub := Locate(Top, t, parent);
      HoldsPlugged(m, root, up, sub);
      PathFacts(m, root, up, sub);
      Parts(sub, d);
      NullIsLeaf(m, Kid(sub, d), parent);
      path := Step(up, parent, sub.color, d, Kid(sub, d.Other()));
      HoldsPlugged(m, root, path, Leaf);
    }
    InOrderPtrs(t, node);
    PlugPtrs(path, Leaf);
  }

  lemma NullIsLeaf(m: Mem, t: Tree, parent: Ptr)
    requires Held(m, t, parent) && P(t) == 0
    ensures t.Leaf?
  {
  }

  lemma FadeHeld(m: Mem, root: Ptr, path: Path, t: Tree)
    requires Holds(m, root, path, t) && path.Step? && path.far.Fork?
    ensures path.far.p in m
    ensures Holds(SetParentColor(m, path.far.p, path.p, RED), root, path.up, Mk(path.d, t, path.p, path.color, Paint(path.far, RED)))
    ensures var m1 := SetParentColor(m, path.far.p, path.p, RED); path.p in m1 && m1[path.p].color == path.color && m1[path.p].parent == PP(path.up)
  {
    var up, p, c, d, far := path.up, path.p, path.color, path.d, path.far;
    ZoomFar(m, root, up, p, c, d, far, t);
    PaintHeld(m, root, Step(up, p, c, d.Other(), t), far, RED);
    var m1 := SetParentColor(m, far.p, p, RED);
    ZoomFar(m1, root, up, p, c, d, Paint(far, RED), t);
    Zoom(m1, root, up, p, c, d, Paint(far, RED), t);
    PathFacts(m1, root, Step(up, p, c, d, Paint(far, RED)), t);
  }

  /** m is m1 but for x's child on side o and the parents of y and z, which are about to be set. */
  ghost predicate Loose(m1: Mem, m: Mem, x: Ptr, y: Ptr, z: Ptr, o: Side) {
    && x in m1 && x in m && y in m1 && y in m && z in m1 && z in m
    && m[x] == m1[x].SetChild(o, m[x].Child(o)) && m[y] == m1[y].(parent := m[y].parent) && m[z] == m1[z].(parent := m[z].parent)
    && Changed(m1, m, {x, y, z})
  }

  /** The sibling, seen from its parent. */
  lemma NearParts(m: Mem, root: Ptr, up: Path, p: Ptr, c: Color, d: Side, a: Tree, q: Ptr, b: Tree, s: Ptr, f: Tree, t: Tree)
    requires Holds(m, root, Step(up, p, c, d, Mk(d, Mk(d, a, q, RED, b), s, BLACK, f)), t)
    ensures Holds(m, root, Step(up, p, c, d.Other(), t), Mk(d.Other(), f, s, BLACK, Mk(d.Other(), b, q, RED, a)))
    ensures p in m && s in m && q in m && p != s && p != q && s != q && p != 0 && s != 0 && q != 0
    ensures m[p].Child(d.Other()) == s && m[s].parent == p
    ensures m[s] == NodeOf(d, p, BLACK, q, P(f)) && m[q] == NodeOf(d, s, RED, P(a), P(b))
    ensures b.Fork? ==> b.p in m && b.p != 0 && b.p != p && b.p != s && b.p != q && m[b.p].parent == q && m[b.p].color == b.color
  {
    var o := d.Other();
    ZoomFar(m, root, up, p, c, d, Mk(d, Mk(d, a, q, RED, b), s, BLACK, f), t);
    MkOther(d, a, q, RED, b);
    MkOther(d, Mk(d, a, q, RED, b), s, BLACK, f);
    TurnParts(m, root, Step(up, p, c, o, t), o, f, s, b, q, a, BLACK, RED);
  }

  /** What turning the sibling and its near child stores, before what refers to them is set. */
  function NearStored(m: Mem, p: Ptr, s: Ptr, q: Ptr, d: Side, b: Ptr): Mem
    requires p in m && s in m && q in m && (b != 0 ==> b in m)
  {
    var m1 := SetChild(SetChild(SetChild(m, s, d, b), q, d.Other(), s), p, d.Other(), q);
    if b == 0 then m1 else SetParentColor(m1, b, s, BLACK)
  }

  lemma NearTurned(m: Mem, m': Mem, root: Ptr, up: Path, p: Ptr, c: Color, d: Side, a: Tree, q: Ptr, b: Tree, s: Ptr, f: Tree, t: Tree)
      returns (m1: Mem)
    requires Holds(m, root, Step(up, p, c, d, Mk(d, Mk(d, a, q, RED, b), s, BLACK, f)), t) && !Red(b)
    requires p in m && s in m && q in m && (P(b) != 0 ==> P(b) in m) && m' == NearStored(m, p, s, q, d, P(b))
    ensures Holds(m1, root, Step(up, p, c, d, Mk(d, a, q, RED, Mk(d, b, s, BLACK, f))), t) && Loose(m1, m', p, q, s, d.Other())
  {
    var o := d.Other();
    NearParts(m, root, up, p, c, d, a, q, b, s, f, t);
    m1 := m'[s := m'[s].(parent := q)];
    m1 := m1[q := m1[q].(parent := p)];
    RotateHeld(m, root, m1, root, Step(up, p, c, o, t), o, f, s, b, q, a, BLACK, RED, BLACK, RED);
    NearAgain(m1, root, up, p, c, d, a, q, b, s, f, t);
  }

  lemma NearAgain(m: Mem, root: Ptr, up: Path, p: Ptr, c: Color, d: Side, a: Tree, q: Ptr, b: Tree, s: Ptr, f: Tree, t: Tree)
    requires Holds(m, root, Step(up, p, c, d.Other(), t), Mk(d.Other(), Mk(d.Other(), f, s, BLACK, b), q, RED, a))
    ensures Holds(m, root, Step(up, p, c, d, Mk(d, a, q, RED, Mk(d, b, s, BLACK, f))), t)
  {
    MkOther(d, b, s, BLACK, f);
    MkOther(d, a, q, RED, Mk(d, b, s, BLACK, f));
    ZoomFar(m, root, up, p, c, d, Mk(d, a, q, RED, Mk(d, b, s, BLACK, f)), t);
  }

  /** What turning the node and its parent stores, before what refers to them is set. */
  function InnerStored(m: Mem, p: Ptr, n: Ptr, d: Side, l: Ptr): Mem
    requires p in m && n in m && (l != 0 ==> l in m)
  {
    var m1 := SetChild(SetChild(m, p, d.Other(), l), n, d, p);
    SetParentColor(if l == 0 then m1 else SetParentColor(m1, l, p, BLACK), p, n, RED)
  }

  lemma InnerTurned(m: Mem, m': Mem, root: Ptr, up: Path, g: Ptr, d: Side, s: Tree, p: Ptr, l: Tree, n: Ptr, r: Tree, u: Tree) returns (m1: Mem)
    requires Holds(m, root, Step(up, g, BLACK, d, u), Mk(d, s, p, RED, Mk(d, l, n, RED, r))) && !Red(l)
    requires p in m && n in m && (P(l) != 0 ==> P(l) in m) && m' == InnerStored(m, p, n, d, P(l))
    ensures Holds(m1, root, Step(up, g, BLACK, d, u), Mk(d, Mk(d, s, p, RED, l), n, RED, r)) && Stale(m1, m', g, n, d)
  {
    TurnParts(m, root, Step(up, g, BLACK, d, u), d, s, p, l, n, r, RED, RED);
    m1 := m'[n := m'[n].(parent := g)];
    m1 := SetChild(m1, g, d, n);
    RotateHeld(m, root, m1, root, Step(up, g, BLACK, d, u), d, s, p, l, n, r, RED, RED, RED, RED);
  }

  lemma LendTurned(m1: Mem, m: Mem, root: Ptr, up: Path, p: Ptr, c: Color, d: Side, b: Tree, s: Ptr, cs: Color, f: Tree, t: Tree)
    requires Holds(m1, root, Step(up, p, c, d, Mk(d, b, s, cs, f)), t) && f.Fork? && Loose(m1, m, p, s, f.p, d.Other())
    ensures m[s].Child(d) == P(b) && p != s && f.p != p && f.p != s
    ensures b.Fork? ==> b.p != 0 && b.p in m && b.p != p && b.p != s && b.p != f.p
    ensures var m2 := TurnChildren(SetParentColor(m, f.p, s, BLACK), d, p, s, P(b));
      && p in m2 && s in m2 && m2[p].parent == PP(up) && (PP(up) != 0 ==> PP(up) in m2)
      && Holds(RotateSetParents(m2, p, s, BLACK), NewRoot(root, s, PP(up)), up, Mk(d, Mk(d, t, p, BLACK, b), s, c, Paint(f, BLACK)))
  {
    Zoom(m1, root, up, p, c, d, Mk(d, b, s, cs, f), t);
    TurnParts(m1, root, up, d, t, p, b, s, f, c, cs);
    RotateParts(up, d, t, p, b, s, f, c, cs);
    TopIn(b, up);
    TopIn(f, up);
    PaintFar(m1, root, up, p, c, d, b, s, cs, f, t);
    var m1' := SetParentColor(m1, f.p, s, BLACK);
    Zoom(m1', root, up, p, c, d, Mk(d, b, s, cs, Paint(f, BLACK)), t);
    TurnHeld(m1', SetParentColor(m, f.p, s, BLACK), root, up, d, t, p, b, s, Paint(f, BLACK), c, cs, BLACK);
  }

  lemma PaintFar(m: Mem, root: Ptr, up: Path, p: Ptr, c: Color, d: Side, b: Tree, s: Ptr, cs: Color, f: Tree, t: Tree)
    requires Holds(m, root, Step(up, p, c, d, Mk(d, b, s, cs, f)), t) && f.Fork?
    ensures f.p in m
    ensures Holds(SetParentColor(m, f.p, s, BLACK), root, Step(up, p, c, d, Mk(d, b, s, cs, Paint(f, BLACK))), t)
  {
    var o := d.Other();
    var base := Step(up, p, c, o, t);
    ZoomFar(m, root, up, p, c, d, Mk(d, b, s, cs, f), t);
    MkOther(d, b, s, cs, f);
    Zoom(m, root, base, s, cs, o, b, f);
    PaintHeld(m, root, Step(base, s, cs, o, b), f, BLACK);
    var m' := SetParentColor(m, f.p, s, BLACK);
    Zoom(m', root, base, s, cs, o, b, Paint(f, BLACK));
    MkOther(d, b, s, cs, Paint(f, BLACK));
    ZoomFar(m', root, up, p, c, d, Mk(d, b, s, cs, Paint(f, BLACK)), t);
  }

  lemma RedLeaf(path: Path, node: Ptr)
    requires IsRb(Plug(path, Leaf))
    ensures Reddish(path, Fork(Leaf, node, RED, Leaf))
  {
    Open(path, Leaf);
  }

  /** It does not matter whether the far child is painted before or after the children are exchanged. */
  lemma PaintFirst(m: Mem, d: Side, x: Ptr, y: Ptr, z: Ptr, pb: Ptr)
    requires x in m && y in m && z in m && x != y && z != x && z != y && (pb != 0 ==> pb in m && pb != x && pb != y && pb != z)
    ensures var m1 := SetParentColor(SetChild(SetChild(m, x, d.Other(), pb), y, d, x), z, y, BLACK);
      TurnChildren(SetParentColor(m, z, y, BLACK), d, x, y, pb) == if pb == 0 then m1 else m1[pb := m1[pb].(parent := x)]
  {
  }

  /** Where a black node is lacking there is a sibling. */
  lemma SiblingThere(path: Path, t: Tree)
    requires Deficient(path, t)
    ensures path.far.Fork?
  {
  }

  /** What memory says of the sibling and its children. */
  lemma FarFacts(m: Mem, root: Ptr, path: Path, t: Tree)
    requires Holds(m, root, path, t) && path.Step? && path.far.Fork?
    ensures var far := path.far;
      && far.p in m && m[far.p].left == P(far.l) && m[far.p].right == P(far.r)
      && (far.l.Fork? ==> far.l.p != 0 && far.l.p in m && m[far.l.p].color == far.l.color)
      && (far.r.Fork? ==> far.r.p != 0 && far.r.p in m && m[far.r.p].color == far.r.color)
    ensures path.p in m && m[path.p].color == path.color
  {
    assert Held(m, path.far, path.p);
    assert Held(m, path.far.l, path.far.p) && Held(m, path.far.r, path.far.p);
  }

  lemma NearIsBlack(up: Path, p: Ptr, c: Color, d: Side, a: Tree, q: Ptr, b: Tree, s: Ptr, f: Tree, t: Tree)
    requires Deficient(Step(up, p, c, d, Mk(d, Mk(d, a, q, RED, b), s, BLACK, f)), t)
    ensures !Red(b)
  {
    BalancedMk(d, Mk(d, a, q, RED, b), s, BLACK, f);
    BalancedMk(d, a, q, RED, b);
  }

  lemma FirstIs(inner: Path, s: Tree)
    requires AllLeft(inner) && s.Fork? && s.l.Leaf?
    ensures InOrder(Plug(inner, s)) != [] && InOrder(Plug(inner, s))[0] == s.p
  {
    PlugInOrder(inner, s);
    LeftmostFirst(inner);
    InOrderShort(s);
  }

  lemma SplitOrder(path: Path, t: Tree)
    requires t.Fork?
    ensures InOrder(Plug(path, t)) == (Before(path) + InOrder(t.l)) + [t.p] + (InOrder(t.r) + After(path))
    ensures Before(path) + (InOrder(t.l) + InOrder(t.r)) + After(path) == (Before(path) + InOrder(t.l)) + (InOrder(t.r) + After(path))
  {
    PlugInOrder(path, t);
    Regroup(Before(path), InOrder(t.l), t.p, InOrder(t.r), After(path));
  }

  lemma Regroup(a: seq<Ptr>, b: seq<Ptr>, x: Ptr, c: seq<Ptr>, d: seq<Ptr>)
    ensures a + (b + [x] + c) + d == (a + b) + [x] + (c + d)
    ensures a + (b + c) + d == (a + b) + (c + d)
  {
  }

  /** What taking a node out leaves: a tree in order, or one that lacks a black node below rebalance. */
  ghost predicate Erased(rebalance: Ptr, path: Path, t: Tree) {
    if rebalance == 0 then IsRb(Plug(path, t)) else Deficient(path, t) && t.Leaf? && rebalance == path.p
  }

  lemma KidFacts(m: Mem, root: Ptr, path: Path, t: Tree, kid: Tree)
    requires Holds(m, root, path, t) && t.Fork? && (kid == t.l || kid == t.r)
    ensures kid.Fork? ==> kid.p != 0 && kid.p in m && kid.p != t.p && kid.p != PP(path)
    ensures path.Step? ==> path.p != t.p
    ensures kid.Leaf? <==> P(kid) == 0
  {
    assert Held(m, kid, t.p);
    TopIn(kid, path);
  }

  lemma ShortOrder(path: Path, t: Tree, kid: Tree)
    requires t.Fork? && ((t.l.Leaf? && kid == t.r) || (t.r.Leaf? && kid == t.l))
    ensures InOrder(Plug(path, Paint(kid, t.color))) == Before(path) + (InOrder(t.l) + InOrder(t.r)) + After(path)
  {
    PlugInOrder(path, Paint(kid, t.color));
    assert InOrder(t.l) + InOrder(t.r) == InOrder(kid);
  }

  lemma LeafIsNull(m: Mem, t: Tree)
    requires t.Fork? && Held(m, t.l, t.p) && Held(m, t.r, t.p)
    ensures (P(t.l) == 0 <==> t.l.Leaf?) && (P(t.r) == 0 <==> t.r.Leaf?)
  {
  }

  /** If the successor is the right child itself the search went nowhere. */
  lemma OnlyTop(inner: Path, s: Tree, m: Mem, root: Ptr, base: Path)
    requires Holds(m, root, Under(inner, base), s) && s.Fork? && P(Plug(inner, s)) == s.p
    ensures inner.Top?
  {
    if inner.Step? {
      PlugTop(inner, s);
      UnderPtrs(inner, base);
    }
  }

  /** What the successor's taking the node's place stores. */
  function Placed(m: Mem, node: Ptr, s: Ptr, parent: Ptr, child2: Ptr): Mem
    requires node in m && s in m && m[node].left in m && (m[node].parent != 0 ==> m[node].parent in m) && (child2 != 0 ==> child2 in m)
  {
    var m1 := SetChild(m, s, LEFT, m[node].left);
    var m2 := m1[m[node].left := m1[m[node].left].(parent := s)];
    var m3 := ChangeChild(m2, node, s, m[node].parent);
    var m4 := if child2 == 0 then m3 else SetParentColor(m3, child2, parent, BLACK);
    SetParentColor(m4, s, m[node].parent, m[node].color)
  }

  lemma NextParts(m: Mem, root: Ptr, path: Path, l: Tree, node: Ptr, c: Color, s: Tree)
    requires Holds(m, root, path, Fork(l, node, c, s)) && l.Fork? && s.Fork? && s.l.Leaf?
    ensures node in m && m[node] == Node(PP(path), c, l.p, s.p) && s.p in m && m[s.p] == Node(node, s.color, 0, P(s.r))
    ensures node != 0 && s.p != 0 && l.p != 0 && l.p in m && node != s.p && l.p != node && l.p != s.p
    ensures s.r.Fork? ==> s.r.p != 0 && s.r.p in m && s.r.p != s.p && s.r.p != node && s.r.p != l.p
    ensures s.r.Leaf? <==> P(s.r) == 0
    ensures path.Step? ==> path.p != 0 && path.p in m && path.p != node && path.p != s.p && path.p != l.p && path.p != P(s.r)
    ensures path.Step? ==> m[path.p] == NodeOf(path.d, PP(path.up), path.color, node, P(path.far)) && P(path.far) != node
  {
    var t := Fork(l, node, c, s);
    PathFacts(m, root, path, t);
    KidFacts(m, root, path, t, l);
    KidFacts(m, root, path, t, s);
    Zoom(m, root, path, node, c, RIGHT, l, s);
    KidFacts(m, root, Step(path, node, c, RIGHT, l), s, s.r);
    TopIn(s.r, path);
    TopIn(l, path);
  }

  lemma NextHeld(m: Mem, root: Ptr, m': Mem, root': Ptr, path: Path, l: Tree, node: Ptr, c: Color, s: Tree)
    requires Holds(m, root, path, Fork(l, node, c, s)) && l.Fork? && s.Fork? && s.l.Leaf?
    requires node in m && s.p in m && m[node].left in m && (m[node].parent != 0 ==> m[node].parent in m) && (P(s.r) != 0 ==> P(s.r) in m)
    requires m' == Placed(m, node, s.p, s.p, P(s.r)) && root' == NewRoot(root, s.p, m[node].parent)
    ensures Holds(m', root', Step(path, s.p, c, RIGHT, l), Paint(s.r, BLACK))
  {
    NextParts(m, root, path, l, node, c, s);
    var kid, base := Paint(s.r, BLACK), Step(path, node, c, RIGHT, l);
    var m0 := SetChild(m, node, RIGHT, P(s.r));
    var m1 := if s.r.Leaf? then m0 else SetParentColor(m0, s.r.p, node, BLACK);
    Zoom(m, root, path, node, c, RIGHT, l, s);
    SpliceHeld(m, root, m1, root, base, s, s.r, BLACK);
    Zoom(m1, root, path, node, c, RIGHT, l, kid);
    SpliceApart(base, s, s.r, BLACK);
    ReplaceHeld(m1, root, m', root', path, l, node, c, kid, s.p);
    Zoom(m', root', path, s.p, c, RIGHT, l, kid);
  }

  /** A node that has been taken out is nowhere else. */
  lemma SpliceApart(path: Path, t: Tree, kid: Tree, c: Color)
    requires Apart(path, t) && t.Fork? && (kid == t.l || kid == t.r)
    ensures t.p !in PathPtrs(path) && t.p !in Ptrs(kid) && Ptrs(Paint(kid, c)) == Ptrs(kid)
    ensures path.Step? ==> t.p !in PathPtrs(path.up) && t.p !in Ptrs(path.far) && t.p != path.p
  {
    assert t.p in Ptrs(t);
    assert Ptrs(Paint(kid, c)) == Ptrs(kid);
  }

  /** Both ways to look at a tree with a node and its successor. */
  lemma FarBoth(m: Mem, root: Ptr, path: Path, l: Tree, node: Ptr, c: Color, inner: Path, s: Tree)
    ensures Holds(m, root, Under(inner, Step(path, node, c, RIGHT, l)), s) <==> Holds(m, root, path, Fork(l, node, c, Plug(inner, s)))
    ensures Holds(m, root, Under(inner, Step(path, node, c, RIGHT, l)), s) <==> Holds(m, root, Step(path, node, c, RIGHT, l), Plug(inner, s))
  {
    var base := Step(path, node, c, RIGHT, l);
    HoldsPlugged(m, root, Under(inner, base), s);
    PlugUnder(inner, base, s);
    HoldsPlugged(m, root, base, Plug(inner, s));
    Zoom(m, root, path, node, c, RIGHT, l, Plug(inner, s));
  }

  /** Different nodes of those that are changed. */
  ghost predicate FarDistinct(path: Path, l: Tree, node: Ptr, child: Ptr, parent: Ptr, s: Tree)
    requires l.Fork? && s.Fork?
  {
    && node != s.p && l.p != node && l.p != s.p && child != s.p && child != node && child != l.p
    && parent != s.p && parent != node && parent != l.p
    && (s.r.Fork? ==> s.r.p != s.p && s.r.p != node && s.r.p != l.p && s.r.p != child && s.r.p != parent)
    && (path.Step? ==> path.p != node && path.p != s.p && path.p != l.p && path.p != P(s.r) && path.p != child && path.p != parent)
  }

  lemma FarDistinctIf(path: Path, l: Tree, node: Ptr, inner: Path, s: Tree)
    requires s.Fork? && l.Fork? && inner.Step? && AroundBoth(path, l, node, inner, s)
    requires 0 !in PathPtrs(path)
    ensures FarDistinct(path, l, node, TopOf(inner), inner.p, s)
  {
    PlugTop(inner, s);
    TopIn(s.r, path);
    TopIn(l, inner);
    assert inner.p in PathPtrs(inner) && l.p in Ptrs(l) && (path.Step? ==> path.p in PathPtrs(path)) && (s.r.Fork? ==> s.r.p in Ptrs(s.r));
  }

  /** What memory says of the nodes that are changed: the node with its children, and the successor. */
  ghost predicate NodeThere(m: Mem, path: Path, l: Tree, node: Ptr, c: Color, child: Ptr)
    requires l.Fork?
  {
    && node != 0 && node in m && m[node] == Node(PP(path), c, l.p, child) && l.p != 0 && l.p in m && child != 0 && child in m
    && (path.Step? ==> path.p != 0 && path.p in m && m[path.p] == NodeOf(path.d, PP(path.up), path.color, node, P(path.far)) && P(path.far) != node)
  }

  ghost predicate SuccessorThere(m: Mem, parent: Ptr, s: Tree)
    requires s.Fork?
  {
    && s.p != 0 && s.p in m && m[s.p] == Node(parent, s.color, 0, P(s.r)) && parent != 0 && parent in m
    && (s.r.Leaf? <==> P(s.r) == 0) && (s.r.Fork? ==> s.r.p in m)
  }

  lemma FarDistinctHere(m: Mem, root: Ptr, path: Path, l: Tree, node: Ptr, c: Color, inner: Path, s: Tree)
    requires Keeps(m, root, Under(inner, Step(path, node, c, RIGHT, l)), s) && l.Fork? && s.Fork? && inner.Step?
    ensures FarDistinct(path, l, node, TopOf(inner), inner.p, s)
  {
    FarApartHere(m, root, path, l, node, c, inner, s);
    FarDistinctIf(path, l, node, inner, s);
  }

  lemma FarApartHere(m: Mem, root: Ptr, path: Path, l: Tree, node: Ptr, c: Color, inner: Path, s: Tree)
    requires Keeps(m, root, Under(inner, Step(path, node, c, RIGHT, l)), s) && s.Fork? && inner.Step?
    ensures AroundBoth(path, l, node, inner, s) && 0 !in PathPtrs(path)
    ensures Ptrs(Plug(inner, Paint(s.r, BLACK))) == PathPtrs(inner) + Ptrs(s.r)
  {
    assert Look(0);
    FarBoth(m, root, path, l, node, c, inner, s);
    PathNotNull(m, root, path, node);
    FarApart(path, l, node, c, inner, s);
  }

  lemma FarNode(m: Mem, root: Ptr, path: Path, l: Tree, node: Ptr, c: Color, inner: Path, s: Tree)
    requires Keeps(m, root, Under(inner, Step(path, node, c, RIGHT, l)), s) && l.Fork? && inner.Step?
    ensures NodeThere(m, path, l, node, c, TopOf(inner))
  {
    assert Look(0);
    FarBoth(m, root, path, l, node, c, inner, s);
    PlugTop(inner, s);
    NodeAndKids(m, root, path, l, node, c, Plug(inner, s));
  }

  lemma SuccessorFacts(m: Mem, root: Ptr, inner: Path, base: Path, s: Tree)
    requires Keeps(m, root, Under(inner, base), s) && s.Fork? && s.l.Leaf? && inner.Step?
    ensures SuccessorThere(m, inner.p, s)
  {
    assert Look(0);
    PathFacts(m, root, Under(inner, base), s);
    KidFacts(m, root, Under(inner, base), s, s.r);
  }

  lemma NodeAndKids(m: Mem, root: Ptr, path: Path, l: Tree, node: Ptr, c: Color, r: Tree)
    requires Holds(m, root, path, Fork(l, node, c, r)) && l.Fork? && r.Fork?
    ensures node != 0 && node in m && m[node] == Node(PP(path), c, l.p, r.p) && l.p != 0 && l.p in m && r.p != 0 && r.p in m
    ensures path.Step? ==> path.p != 0 && path.p in m && m[path.p] == NodeOf(path.d, PP(path.up), path.color, node, P(path.far)) && P(path.far) != node
  {
    var t := Fork(l, node, c, r);
    PathFacts(m, root, path, t);
    KidFacts(m, root, path, t, l);
    KidFacts(m, root, path, t, r);
  }

  /** The parts of a tree around a node and its successor. */
  ghost predicate AroundBoth(path: Path, l: Tree, node: Ptr, inner: Path, s: Tree)
    requires s.Fork?
  {
    var (I, L, U, C) := (PathPtrs(inner), Ptrs(l), PathPtrs(path), Ptrs(s.r));
    && node !in I && node !in L && node !in U && node !in C && node != s.p
    && s.p !in I && s.p !in L && s.p !in U && s.p !in C
    && I !! L && I !! U && I !! C && L !! U && L !! C && U !! C
  }

  lemma FarApart(path: Path, l: Tree, node: Ptr, c: Color, inner: Path, s: Tree)
    requires Apart(Under(inner, Step(path, node, c, RIGHT, l)), s) && s.Fork? && inner.Step?
    requires Apart(Step(path, node, c, RIGHT, l), Plug(inner, s))
    ensures AroundBoth(path, l, node, inner, s)
    ensures Ptrs(Plug(inner, Paint(s.r, BLACK))) == PathPtrs(inner) + Ptrs(s.r)
  {
    var base := Step(path, node, c, RIGHT, l);
    UnderPtrs(inner, base);
    PlugPtrs(inner, s);
    PlugPtrs(inner, Paint(s.r, BLACK));
    SpliceApart(Under(inner, base), s, s.r, BLACK);
    assert Ptrs(s.r) <= Ptrs(s) && s.p in Ptrs(s) && DistinctPath(base);
    SetsApart(PathPtrs(inner), Ptrs(l), PathPtrs(path), Ptrs(s.r), Ptrs(s), node, s.p);
  }

  lemma SetsApart(I: set<Ptr>, L: set<Ptr>, U: set<Ptr>, C: set<Ptr>, S: set<Ptr>, node: Ptr, s: Ptr)
    requires C <= S && s in S && s !in C && S !! (I + (U + {node} + L)) && (I + S) !! (U + {node} + L)
    requires node !in U && node !in L && U !! L
    ensures node !in I && node !in C && node != s && s !in I && s !in L && s !in U
    ensures I !! L && I !! U && I !! C && L !! C && U !! C
  {
    assert S !! I && S !! U && S !! L && I !! U && I !! L;
  }

  /** The successor's place goes to its right child. */
  function Vacated(m: Mem, s: Tree, parent: Ptr): Mem
    requires s.Fork? && parent in m && (s.r.Fork? ==> s.r.p in m)
  {
    var m0 := SetChild(m, parent, LEFT, P(s.r));
    if s.r.Leaf? then m0 else SetParentColor(m0, s.r.p, parent, BLACK)
  }

  lemma FarSpliced(m: Mem, root: Ptr, path: Path, l: Tree, node: Ptr, c: Color, inner: Path, s: Tree)
    requires Keeps(m, root, Under(inner, Step(path, node, c, RIGHT, l)), s) && l.Fork? && s.Fork? && s.l.Leaf? && inner.Step? && inner.d == LEFT
    requires inner.p in m && (s.r.Fork? ==> s.r.p in m && s.r.p != inner.p && s.r.p != 0)
    ensures Keeps(Vacated(m, s, inner.p), root, path, Fork(l, node, c, Plug(inner, Paint(s.r, BLACK))))
  {
    assert Look(0);
    var m1 := Vacated(m, s, inner.p);
    SpliceHeld(m, root, m1, root, Under(inner, Step(path, node, c, RIGHT, l)), s, s.r, BLACK);
    FarBoth(m1, root, path, l, node, c, inner, Paint(s.r, BLACK));
  }

  /** What is stored when a node below the right child takes the node's place. */
  ghost predicate Moves(m: Mem, root: Ptr, m': Mem, root': Ptr, node: Ptr, child: Ptr, parent: Ptr, s: Ptr, child2: Ptr) {
    && node in m && s in m && parent in m && child in m && m[node].left in m
    && (m[node].parent != 0 ==> m[node].parent in m) && (child2 != 0 ==> child2 in m)
    && var m2 := SetChild(SetChild(m, parent, LEFT, child2), s, RIGHT, child);
      var m3 := m2[child := m2[child].(parent := s)];
      && m3[node].left in m3 && (m3[node].parent != 0 ==> m3[node].parent in m3)
      && m' == Placed(m3, node, s, parent, child2) && root' == NewRoot(root, s, m3[node].parent)
  }

  lemma FarHeld(m: Mem, root: Ptr, m': Mem, root': Ptr, path: Path, l: Tree, node: Ptr, c: Color, inner: Path, s: Tree)
    requires Keeps(m, root, Under(inner, Step(path, node, c, RIGHT, l)), s) && l.Fork? && s.Fork? && s.l.Leaf? && inner.Step? && inner.d == LEFT
    requires Moves(m, root, m', root', node, TopOf(inner), inner.p, s.p, P(s.r))
    ensures Keeps(m', root', Under(inner, Step(path, s.p, c, RIGHT, l)), Paint(s.r, BLACK))
  {
    SuccessorFacts(m, root, inner, Step(path, node, c, RIGHT, l), s);
    FarNode(m, root, path, l, node, c, inner, s);
    FarDistinctHere(m, root, path, l, node, c, inner, s);
    FarApartHere(m, root, path, l, node, c, inner, s);
    FarSpliced(m, root, path, l, node, c, inner, s);
    var kid := Paint(s.r, BLACK);
    PlugTop(inner, kid);
    PlaceHeld(m, root, m', root', path, l, node, c, Plug(inner, kid), TopOf(inner), inner.p, s);
    FarBack(m', root', path, l, s.p, c, inner, kid);
  }

  lemma FarBack(m: Mem, root: Ptr, path: Path, l: Tree, node: Ptr, c: Color, inner: Path, s: Tree)
    requires Keeps(m, root, path, Fork(l, node, c, Plug(inner, s)))
    ensures Keeps(m, root, Under(inner, Step(path, node, c, RIGHT, l)), s)
  {
    assert Look(0);
    FarBoth(m, root, path, l, node, c, inner, s);
  }

  /** The successor takes the node's place, its own having gone to its right child. */
  lemma PlaceHeld(m: Mem, root: Ptr, m': Mem, root': Ptr, path: Path, l: Tree, node: Ptr, c: Color, r1: Tree, child: Ptr, parent: Ptr, s: Tree)
    requires l.Fork? && r1.Fork? && s.Fork? && child == r1.p && FarDistinct(path, l, node, child, parent, s)
    requires NodeThere(m, path, l, node, c, child) && SuccessorThere(m, parent, s)
    requires Keeps(Vacated(m, s, parent), root, path, Fork(l, node, c, r1))
    requires s.p !in PathPtrs(path) && s.p !in Ptrs(l) && s.p !in Ptrs(r1)
    requires Moves(m, root, m', root', node, child, parent, s.p, P(s.r))
    ensures Keeps(m', root', path, Fork(l, s.p, c, r1))
  {
    assert Look(0);
    ReplaceHeld(Vacated(m, s, parent), root, m', root', path, l, node, c, r1, s.p);
  }
}
