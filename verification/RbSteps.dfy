/**
 The cases of red-black insertion and removal (shared/lk/rbtree.c:87-410) on values: what each does
 to the colors and the order, wherever in the tree it happens.
 */
module RbSteps {
  import opened RbShape

  lemma PlugSame(path: Path, t: Tree, t': Tree)
    requires InOrder(t) == InOrder(t')
    ensures InOrder(Plug(path, t)) == InOrder(Plug(path, t'))
  {
    PlugInOrder(path, t);
    PlugInOrder(path, t');
  }

  lemma RotateKeepsOrder(up: Path, d: Side, a: Tree, x: Ptr, b: Tree, y: Ptr, c: Tree, cx: Color, cy: Color, cx': Color, cy': Color)
    ensures InOrder(Plug(up, Mk(d, a, x, cx, Mk(d, b, y, cy, c)))) == InOrder(Plug(up, Mk(d, Mk(d, a, x, cx', b), y, cy', c)))
  {
    InOrderMk(d, b, y, cy, c);
    InOrderMk(d, a, x, cx, Mk(d, b, y, cy, c));
    InOrderMk(d, a, x, cx', b);
    InOrderMk(d, Mk(d, a, x, cx', b), y, cy', c);
    RotateOrder(d, InOrder(a), x, InOrder(b), y, InOrder(c));
    PlugSame(up, Mk(d, a, x, cx, Mk(d, b, y, cy, c)), Mk(d, Mk(d, a, x, cx', b), y, cy', c));
  }

  // ---------------------------------------------------------------- Insertion

  /** The only thing wrong with the tree may be that a red node is the root, or has a red parent. */
  predicate Reddish(path: Path, t: Tree) {
    Red(t) && Balanced(t) && PathOk(path, Bh(t))
  }

  /** Case 1: the uncle is red as well. Its and the parent's color go up. */
  lemma FlipKeeps(path: Path, t: Tree) returns (t': Tree)
    requires Reddish(path, t) && path.Step? && path.color == RED && path.up.Step? && Red(path.up.far)
    ensures t' == Mk(path.up.d, Mk(path.d, t, path.p, BLACK, path.far), path.up.p, RED, Paint(path.up.far, BLACK))
    ensures Reddish(path.up.up, t') && InOrder(Plug(path.up.up, t')) == InOrder(Plug(path, t))
  {
    var up := path.up;
    var p, u := Mk(path.d, t, path.p, BLACK, path.far), Paint(up.far, BLACK);
    t' := Mk(up.d, p, up.p, RED, u);
    var was := Mk(up.d, Mk(path.d, t, path.p, RED, path.far), up.p, BLACK, up.far);
    InOrderMk(path.d, t, path.p, BLACK, path.far);
    InOrderMk(path.d, t, path.p, RED, path.far);
    InOrderMk(up.d, p, up.p, RED, u);
    InOrderMk(up.d, Mk(path.d, t, path.p, RED, path.far), up.p, BLACK, up.far);
    PlugSame(up.up, was, t');
    assert PathOk(up, Bh(t)) && PathOk(up.up, Bh(t) + 1);
    BalancedMk(path.d, t, path.p, BLACK, path.far);
    BalancedMk(up.d, p, up.p, RED, u);
    assert Balanced(u) && Bh(u) == Bh(t) + 1;
  }

  /** Red node n with its red parent p, on the same side of both, below g with a black uncle. */
  predicate Crooked(up: Path, n: Tree, s: Tree, u: Tree) {
    && Balanced(n) && Balanced(s) && Balanced(u) && Red(n) && !Red(s) && !Red(u)
    && Bh(n) == Bh(s) == Bh(u) && PathOk(up, Bh(n) + 1)
  }

  /** Case 2: turning the node and its parent leads to case 3. */
  lemma InnerKeeps(up: Path, d: Side, s: Tree, p: Ptr, l: Tree, n: Ptr, r: Tree, g: Ptr, u: Tree)
    requires Crooked(up, Mk(d, l, n, RED, r), s, u)
    ensures Crooked(up, Mk(d, s, p, RED, l), r, u)
    ensures InOrder(Plug(up, Mk(d, Mk(d, Mk(d, s, p, RED, l), n, RED, r), g, BLACK, u)))
      == InOrder(Plug(up, Mk(d, Mk(d, s, p, RED, Mk(d, l, n, RED, r)), g, BLACK, u)))
  {
    RotateKeepsOrder(Step(up, g, BLACK, d, u), d, s, p, l, n, r, RED, RED, RED, RED);
  }

  /** Case 3: turning the parent and the grandparent restores the properties. */
  lemma OuterKeeps(up: Path, d: Side, n: Tree, p: Ptr, s: Tree, g: Ptr, u: Tree)
    requires Crooked(up, n, s, u)
    ensures IsRb(Plug(up, Mk(d, n, p, BLACK, Mk(d, s, g, RED, u))))
    ensures InOrder(Plug(up, Mk(d, n, p, BLACK, Mk(d, s, g, RED, u)))) == InOrder(Plug(up, Mk(d, Mk(d, n, p, RED, s), g, BLACK, u)))
  {
    RotateKeepsOrder(up, d, n, p, s, g, u, BLACK, RED, RED, BLACK);
    Fill(up, Mk(d, n, p, BLACK, Mk(d, s, g, RED, u)));
  }

  /** An uncle that is not red, seen from a node and its parent that are. */
  lemma CrookedIf(path: Path, t: Tree)
    requires Reddish(path, t) && path.Step? && path.color == RED && path.up.Step? && !Red(path.up.far)
    ensures Crooked(path.up.up, t, path.far, path.up.far) && path.up.color == BLACK
  {
    assert PathOk(path.up, Bh(t)) && PathOk(path.up.up, Bh(t) + 1);
  }

  // ---------------------------------------------------------------- Removal

  /** The only thing wrong with the tree is that the ways through t have one black node less than the others. */
  predicate Deficient(path: Path, t: Tree) {
    path.Step? && Balanced(t) && !Red(t) && PathOk(path, Bh(t) + 1)
  }

  /** Case 1: a red sibling is turned with the parent; the new sibling is black. */
  lemma RedSiblingKeeps(up: Path, p: Ptr, c: Color, d: Side, l: Tree, s: Ptr, r: Tree, t: Tree)
    requires Deficient(Step(up, p, c, d, Mk(d, l, s, RED, r)), t)
    ensures Deficient(Step(Step(up, s, BLACK, d, r), p, RED, d, l), t) && l.Fork? && !Red(l) && c == BLACK
    ensures InOrder(Plug(Step(Step(up, s, BLACK, d, r), p, RED, d, l), t)) == InOrder(Plug(Step(up, p, c, d, Mk(d, l, s, RED, r)), t))
  {
    RotateKeepsOrder(up, d, t, p, l, s, r, c, RED, RED, BLACK);
  }

  /** Case 2: a black sibling without red children becomes red. */
  lemma PaleSiblingKeeps(up: Path, p: Ptr, c: Color, d: Side, far: Tree, t: Tree)
    requires Deficient(Step(up, p, c, d, far), t) && far.Fork? && far.color == BLACK && !Red(far.l) && !Red(far.r)
    ensures var t' := Mk(d, t, p, BLACK, Paint(far, RED));
      && InOrder(Plug(up, t')) == InOrder(Plug(Step(up, p, c, d, far), t))
      && if c == RED || up.Top? then IsRb(Plug(up, t')) else Deficient(up, t')
  {
    var t' := Mk(d, t, p, BLACK, Paint(far, RED));
    assert Balanced(Paint(far, RED)) && Bh(Paint(far, RED)) == Bh(t);
    BalancedMk(d, t, p, BLACK, Paint(far, RED));
    InOrderMk(d, t, p, c, far);
    InOrderMk(d, t, p, BLACK, Paint(far, RED));
    PlugSame(up, Mk(d, t, p, c, far), t');
    if c == RED || up.Top? {
      Fill(up, t');
    }
  }

  /** What case 4 works on: sibling s with children b and f, which will be black. */
  predicate Lendable(up: Path, c: Color, t: Tree, b: Tree, f: Tree) {
    && Balanced(t) && !Red(t) && Balanced(b) && Bh(b) == Bh(t)
    && f.Fork? && Balanced(Paint(f, BLACK)) && Bh(Paint(f, BLACK)) == Bh(t) + 1
    && PathOk(up, Bh(t) + 1 + Black(c)) && (c == RED ==> up.Step? && up.color == BLACK)
  }

  lemma LendableIf(up: Path, p: Ptr, c: Color, d: Side, far: Tree, t: Tree)
    requires Deficient(Step(up, p, c, d, far), t) && far.Fork? && far.color == BLACK && Red(Kid(far, d.Other()))
    ensures Lendable(up, c, t, Kid(far, d), Kid(far, d.Other()))
  {
    PaintBlack(Kid(far, d.Other()));
  }

  /** Case 3: the sibling and its red near child are turned, which leads to case 4. */
  lemma NearRedKeeps(up: Path, p: Ptr, c: Color, d: Side, a: Tree, q: Ptr, b: Tree, s: Ptr, f: Tree, t: Tree)
    requires Deficient(Step(up, p, c, d, Mk(d, Mk(d, a, q, RED, b), s, BLACK, f)), t) && !Red(f)
    ensures Lendable(up, c, t, a, Mk(d, b, s, BLACK, f))
    ensures InOrder(Plug(Step(up, p, c, d, Mk(d, a, q, RED, Mk(d, b, s, BLACK, f))), t))
      == InOrder(Plug(Step(up, p, c, d, Mk(d, Mk(d, a, q, RED, b), s, BLACK, f)), t))
  {
    RotateOrder(d, InOrder(a), q, InOrder(b), s, InOrder(f));
    var far, far' := Mk(d, Mk(d, a, q, RED, b), s, BLACK, f), Mk(d, a, q, RED, Mk(d, b, s, BLACK, f));
    NearRedLends(up, p, c, d, a, q, b, s, f, t);
    InOrderMk(d, a, q, RED, b);
    InOrderMk(d, Mk(d, a, q, RED, b), s, BLACK, f);
    InOrderMk(d, b, s, BLACK, f);
    InOrderMk(d, a, q, RED, Mk(d, b, s, BLACK, f));
    InOrderMk(d, t, p, c, far);
    InOrderMk(d, t, p, c, far');
    PlugSame(up, Mk(d, t, p, c, far), Mk(d, t, p, c, far'));
  }

  lemma NearRedLends(up: Path, p: Ptr, c: Color, d: Side, a: Tree, q: Ptr, b: Tree, s: Ptr, f: Tree, t: Tree)
    requires Deficient(Step(up, p, c, d, Mk(d, Mk(d, a, q, RED, b), s, BLACK, f)), t) && !Red(f)
    ensures Lendable(up, c, t, a, Mk(d, b, s, BLACK, f))
  {
    BalancedMk(d, Mk(d, a, q, RED, b), s, BLACK, f);
    BalancedMk(d, a, q, RED, b);
    BalancedMk(d, b, s, BLACK, f);
  }

  /** Case 4: the sibling takes the parent's place, and its far child turns black. */
  lemma LendKeeps(up: Path, p: Ptr, c: Color, d: Side, b: Tree, s: Ptr, cs: Color, f: Tree, t: Tree)
    requires Lendable(up, c, t, b, f)
    ensures IsRb(Plug(up, Mk(d, Mk(d, t, p, BLACK, b), s, c, Paint(f, BLACK))))
    ensures InOrder(Plug(up, Mk(d, Mk(d, t, p, BLACK, b), s, c, Paint(f, BLACK))))
      == InOrder(Plug(Step(up, p, c, d, Mk(d, b, s, cs, f)), t))
  {
    var f' := Paint(f, BLACK);
    Fill(up, Mk(d, Mk(d, t, p, BLACK, b), s, c, f'));
    RotateKeepsOrder(up, d, t, p, b, s, f', c, cs, BLACK, c);
    InOrderMk(d, b, s, cs, f);
    InOrderMk(d, b, s, cs, f');
    InOrderMk(d, t, p, c, Mk(d, b, s, cs, f));
    InOrderMk(d, t, p, c, Mk(d, b, s, cs, f'));
    PlugSame(up, Mk(d, t, p, c, Mk(d, b, s, cs, f)), Mk(d, t, p, c, Mk(d, b, s, cs, f')));
  }

  /** A node without a left, or without a right child has no other, or a red one and is black itself. */
  lemma ShortKeeps(path: Path, t: Tree, kid: Tree)
    requires IsRb(Plug(path, t)) && t.Fork? && ((t.l.Leaf? && kid == t.r) || (t.r.Leaf? && kid == t.l))
    ensures kid.Fork? ==> t.color == BLACK && IsRb(Paint(kid, BLACK)) && Bh(Paint(kid, BLACK)) == Bh(t)
    ensures kid.Leaf? ==> Bh(t) == Black(t.color)
    ensures PathOk(path, Bh(t)) && (Red(t) ==> path.Step? && path.color == BLACK)
  {
    Open(path, t);
    if kid.Fork? {
      var bl, br := Bh(t.l), Bh(t.r);
      assert bl == br && (bl == 0 || br == 0);
      assert Balanced(kid) && Bh(kid) == 0 && Bh(kid.l) >= 0;
      PaintBlack(kid);
    }
  }

  /** What is left when such a node is taken out: the tree is in order, or lacks a black node where the node was. */
  lemma SpliceKeeps(path: Path, t: Tree, kid: Tree)
    requires IsRb(Plug(path, t)) && t.Fork? && ((t.l.Leaf? && kid == t.r) || (t.r.Leaf? && kid == t.l))
    ensures kid.Leaf? && t.color == BLACK && path.Step? ==> Deficient(path, kid)
    ensures kid.Fork? || t.color == RED || path.Top? ==> IsRb(Plug(path, Paint(kid, t.color)))
  {
    ShortKeeps(path, t, kid);
    if kid.Fork? || t.color == RED || path.Top? {
      Fill(path, Paint(kid, t.color));
    }
  }

  /** The successor s, leftmost below the node's right child, takes the node's place; its own place goes to its child. */
  lemma SuccessorKeeps(path: Path, l: Tree, node: Ptr, c: Color, inner: Path, s: Tree)
    requires s.Fork? && s.l.Leaf? && AllLeft(inner)
    requires IsRb(Plug(Under(inner, Step(path, node, c, RIGHT, l)), s))
    ensures var path', kid := Under(inner, Step(path, s.p, c, RIGHT, l)), Paint(s.r, BLACK);
      && path'.Step?
      && (if s.r.Leaf? && s.color == BLACK then Deficient(path', kid) else IsRb(Plug(path', kid)))
      && InOrder(Plug(path', kid)) == Before(path) + (InOrder(l) + InOrder(Plug(inner, s))) + After(path)
  {
    var base, base' := Step(path, node, c, RIGHT, l), Step(path, s.p, c, RIGHT, l);
    var path', kid := Under(inner, base'), Paint(s.r, BLACK);
    ShortKeeps(Under(inner, base), s, s.r);
    UnderPathOk(inner, base, base', Bh(s));
    if s.r.Fork? || s.color == RED {
      Fill(path', kid);
    }
    SuccessorOrder(path, l, node, c, inner, s);
  }

  lemma SuccessorOrder(path: Path, l: Tree, node: Ptr, c: Color, inner: Path, s: Tree)
    requires s.Fork? && s.l.Leaf? && AllLeft(inner)
    ensures var path', kid := Under(inner, Step(path, s.p, c, RIGHT, l)), Paint(s.r, BLACK);
      InOrder(Plug(path', kid)) == Before(path) + (InOrder(l) + InOrder(Plug(inner, s))) + After(path)
  {
    var kid := Paint(s.r, BLACK);
    var r1 := Plug(inner, kid);
    PlugUnder(inner, Step(path, s.p, c, RIGHT, l), kid);
    PlugInOrder(path, Fork(l, s.p, c, r1));
    FirstOut(inner, s, kid);
    assert InOrder(l) + [s.p] + InOrder(r1) == InOrder(l) + ([s.p] + InOrder(r1));
  }

  lemma FirstOut(inner: Path, s: Tree, kid: Tree)
    requires s.Fork? && s.l.Leaf? && AllLeft(inner) && InOrder(kid) == InOrder(s.r)
    ensures InOrder(Plug(inner, s)) == [s.p] + InOrder(Plug(inner, kid))
  {
    PlugInOrder(inner, kid);
    PlugInOrder(inner, s);
    LeftmostFirst(inner);
    InOrderShort(s);
    FirstSplits(s.p, InOrder(s.r), After(inner));
  }

  lemma InOrderShort(s: Tree)
    requires s.Fork? && s.l.Leaf?
    ensures InOrder(s) == [s.p] + InOrder(s.r)
  {
    assert InOrder(s.l) == [];
  }

  lemma FirstSplits(p: Ptr, x: seq<Ptr>, y: seq<Ptr>)
    ensures [] + ([p] + x) + y == [p] + ([] + x + y)
  {
  }
}
