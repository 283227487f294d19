/**
 Red-black trees in memory (shared/lk/rbtree.h, shared/lk/rbtree_augmented.h:167-201): nodes that
 hold the addresses of their children and their parent. Which memory holds which tree, and what of
 that a change to some nodes leaves as it was.
 */
module RbMemory {
  import opened RbShape
  import opened Wrappers

  datatype Node = Node(parent: Ptr, color: Color, left: Ptr, right: Ptr) {
    function Child(d: Side): Ptr { if d == LEFT then left else right }

    function SetChild(d: Side, x: Ptr): Node { if d == LEFT then this.(left := x) else this.(right := x) }
  }

  type Mem = map<Ptr, Node>

  function NodeOf(d: Side, parent: Ptr, c: Color, near: Ptr, far: Ptr): Node {
    if d == LEFT then Node(parent, c, near, far) else Node(parent, c, far, near)
  }

  // ---------------------------------------------------------------- Memory that holds a tree

  /** The nodes of a tree are in memory, each with its children's addresses and its parent's. */
  ghost predicate Held(m: Mem, t: Tree, parent: Ptr) {
    t.Fork? ==>
      && t.p != 0 && t.p in m && m[t.p] == Node(parent, t.color, P(t.l), P(t.r))
      && Held(m, t.l, t.p) && Held(m, t.r, t.p)
  }

  lemma MkOther(d: Side, near: Tree, p: Ptr, c: Color, far: Tree)
    ensures Mk(d, near, p, c, far) == Mk(d.Other(), far, p, c, near)
  {
  }

  lemma HeldMk(m: Mem, d: Side, near: Tree, p: Ptr, c: Color, far: Tree, parent: Ptr)
    ensures Held(m, Mk(d, near, p, c, far), parent) <==>
      p != 0 && p in m && m[p] == NodeOf(d, parent, c, P(near), P(far)) && Held(m, near, p) && Held(m, far, p)
  {
  }

  /** So are those of a path, whose last node leads to hole; the root pointer leads to the first. */
  ghost predicate HeldPath(m: Mem, root: Ptr, path: Path, hole: Ptr)
    decreases path
  {
    match path
    case Top => root == hole
    case Step(up, p, c, d, far) =>
      && p != 0 && p in m && m[p] == NodeOf(d, PP(up), c, hole, P(far))
      && Held(m, far, p) && HeldPath(m, root, up, p)
  }

  /** Memory holds the tree that consists of a path and a subtree. */
  ghost predicate Holds(m: Mem, root: Ptr, path: Path, t: Tree) {
    Apart(path, t) && Held(m, t, PP(path)) && HeldPath(m, root, path, P(t))
  }

  /** The same, for proofs that do not look into it. */
  ghost predicate Keeps(m: Mem, root: Ptr, path: Path, t: Tree) {
    forall u {:trigger Look(u)} :: Look(u) ==> Holds(m, root, path, t)
  }

  lemma Zoom(m: Mem, root: Ptr, up: Path, p: Ptr, c: Color, d: Side, far: Tree, t: Tree)
    ensures Holds(m, root, Step(up, p, c, d, far), t) <==> Holds(m, root, up, Mk(d, t, p, c, far))
  {
    ApartMk(up, p, c, d, far, t);
  }

  /** It does not matter where the tree is taken apart. */
  lemma {:induction false} HoldsPlugged(m: Mem, root: Ptr, path: Path, t: Tree)
    ensures Holds(m, root, path, t) <==> Holds(m, root, Top, Plug(path, t))
    decreases path
  {
    if path.Step? {
      Zoom(m, root, path.up, path.p, path.color, path.d, path.far, t);
      HoldsPlugged(m, root, path.up, Mk(path.d, t, path.p, path.color, path.far));
    }
  }

  // ---------------------------------------------------------------- Changes

  /** Nodes of the set are as they were. */
  ghost predicate Same(m: Mem, m': Mem, s: set<Ptr>) {
    forall x {:trigger m'[x]} {:trigger x in s} :: x in s && x in m ==> x in m' && m'[x] == m[x]
  }

  /** Only these nodes may have changed. */
  ghost predicate Changed(m: Mem, m': Mem, s: set<Ptr>) {
    forall x {:trigger m'[x]} {:trigger m[x]} :: x in m && x !in s ==> x in m' && m'[x] == m[x]
  }

  lemma SameIf(m: Mem, m': Mem, s: set<Ptr>, s': set<Ptr>)
    requires Changed(m, m', s) && s !! s'
    ensures Same(m, m', s')
  {
  }

  lemma SameLess(m: Mem, m': Mem, s: set<Ptr>, s': set<Ptr>)
    requires Same(m, m', s) && s' <= s
    ensures Same(m, m', s')
  {
  }

  lemma {:induction false} HeldKept(m: Mem, m': Mem, t: Tree, parent: Ptr)
    requires Held(m, t, parent) && Same(m, m', Ptrs(t))
    ensures Held(m', t, parent)
    decreases t
  {
    if t.Fork? {
      assert Ptrs(t) == Ptrs(t.l) + {t.p} + Ptrs(t.r);
      SameLess(m, m', Ptrs(t), Ptrs(t.l));
      SameLess(m, m', Ptrs(t), Ptrs(t.r));
      HeldKept(m, m', t.l, t.p);
      HeldKept(m, m', t.r, t.p);
    }
  }

  /** A subtree gets another parent, and its top node another color. */
  lemma HeldMoved(m: Mem, m': Mem, t: Tree, parent: Ptr, parent': Ptr, c: Color)
    requires Held(m, t, parent) && Distinct(t) && Same(m, m', Ptrs(t) - {P(t)})
    requires t.Fork? ==> t.p in m' && m'[t.p] == m[t.p].(parent := parent', color := c)
    ensures Held(m', Paint(t, c), parent')
  {
    if t.Fork? {
      assert Ptrs(t) == Ptrs(t.l) + {t.p} + Ptrs(t.r);
      SameLess(m, m', Ptrs(t) - {t.p}, Ptrs(t.l));
      SameLess(m, m', Ptrs(t) - {t.p}, Ptrs(t.r));
      HeldKept(m, m', t.l, t.p);
      HeldKept(m, m', t.r, t.p);
    }
  }

  lemma {:induction false} PathKept(m: Mem, m': Mem, root: Ptr, path: Path, hole: Ptr)
    requires HeldPath(m, root, path, hole) && Same(m, m', PathPtrs(path))
    ensures HeldPath(m', root, path, hole)
    decreases path
  {
    if path.Step? {
      assert PathPtrs(path) == PathPtrs(path.up) + {path.p} + Ptrs(path.far);
      SameLess(m, m', PathPtrs(path), Ptrs(path.far));
      SameLess(m, m', PathPtrs(path), PathPtrs(path.up));
      HeldKept(m, m', path.far, path.p);
      PathKept(m, m', root, path.up, path.p);
    }
  }

  /** What leads to the subtree leads to another one. */
  ghost predicate Redirected(m: Mem, root: Ptr, m': Mem, root': Ptr, path: Path, hole': Ptr) {
    && Same(m, m', PathPtrs(path) - {PP(path)})
    && (path.Top? ==> root' == hole')
    && (path.Step? ==> root' == root && path.p in m && path.p in m' && m'[path.p] == m[path.p].SetChild(path.d, hole'))
  }

  lemma PathRedirected(m: Mem, root: Ptr, m': Mem, root': Ptr, path: Path, hole: Ptr, hole': Ptr)
    requires HeldPath(m, root, path, hole) && DistinctPath(path) && Redirected(m, root, m', root', path, hole')
    ensures HeldPath(m', root', path, hole')
  {
    if path.Step? {
      assert PathPtrs(path) == PathPtrs(path.up) + {path.p} + Ptrs(path.far);
      SameLess(m, m', PathPtrs(path) - {path.p}, Ptrs(path.far));
      SameLess(m, m', PathPtrs(path) - {path.p}, PathPtrs(path.up));
      HeldKept(m, m', path.far, path.p);
      PathKept(m, m', root, path.up, path.p);
    }
  }

  // ---------------------------------------------------------------- Rotations

  /** What a rotation of x and its child y stores: y takes x's place, and the subtree between them changes its parent. */
  ghost predicate Rotates(m: Mem, root: Ptr, m': Mem, root': Ptr, up: Path, e: Side,
      a: Tree, x: Ptr, b: Tree, y: Ptr, c: Tree, cx: Color, cy: Color)
  {
    && x in m' && m'[x] == NodeOf(e, y, cx, P(a), P(b))
    && y in m' && m'[y] == NodeOf(e, PP(up), cy, x, P(c))
    && (b.Fork? ==> b.p in m && b.p in m' && m'[b.p] == m[b.p].(parent := x))
    && (up.Top? ==> root' == y)
    && (up.Step? ==> root' == root && up.p in m && up.p in m' && m'[up.p] == m[up.p].SetChild(up.d, y))
    && Changed(m, m', {x, y, P(b), PP(up)})
  }

  /** Addresses of nodes are not NULL. */
  lemma {:induction false} HeldNotNull(m: Mem, t: Tree, parent: Ptr)
    requires Held(m, t, parent)
    ensures 0 !in Ptrs(t)
  {
    if t.Fork? {
      HeldNotNull(m, t.l, t.p);
      HeldNotNull(m, t.r, t.p);
    }
  }

  lemma {:induction false} PathNotNull(m: Mem, root: Ptr, path: Path, hole: Ptr)
    requires HeldPath(m, root, path, hole)
    ensures 0 !in PathPtrs(path)
    decreases path
  {
    if path.Step? {
      HeldNotNull(m, path.far, path.p);
      PathNotNull(m, root, path.up, path.p);
    }
  }

  lemma TopIn(t: Tree, path: Path)
    ensures P(t) == 0 || P(t) in Ptrs(t)
    ensures PP(path) == 0 || PP(path) in PathPtrs(path)
  {
  }

  lemma FourApart(a: set<Ptr>, b: set<Ptr>, c: set<Ptr>, u: set<Ptr>, x: Ptr, y: Ptr, pb: Ptr, pu: Ptr)
    requires 0 !in a && 0 !in b && 0 !in c && 0 !in u && (pb == 0 || pb in b) && (pu == 0 || pu in u)
    requires a !! b && a !! c && a !! u && b !! c && b !! u && c !! u
    requires x !in a && x !in b && x !in c && x !in u && y !in a && y !in b && y !in c && y !in u
    ensures {x, y, pb, pu} !! a && {x, y, pb, pu} !! (b - {pb}) && {x, y, pb, pu} !! c && {x, y, pb, pu} !! (u - {pu})
  {
  }

  /** The nodes and subtrees that a rotation moves are different ones. */
  lemma RotateParts(up: Path, e: Side, a: Tree, x: Ptr, b: Tree, y: Ptr, c: Tree, cx: Color, cy: Color)
    requires Apart(up, Mk(e, a, x, cx, Mk(e, b, y, cy, c)))
    ensures var (A, B, C, U) := (Ptrs(a), Ptrs(b), Ptrs(c), PathPtrs(up));
      && A !! B && A !! C && A !! U && B !! C && B !! U && C !! U && x != y
      && x !in A && x !in B && x !in C && x !in U && y !in A && y !in B && y !in C && y !in U
      && Ptrs(Mk(e, a, x, cx, Mk(e, b, y, cy, c))) == A + {x} + (B + {y} + C)
  {
    DistinctMk(e, a, x, cx, Mk(e, b, y, cy, c));
    DistinctMk(e, b, y, cy, c);
  }

  /** A rotation leaves the parts of the tree as they were. */
  lemma RotateSame(m: Mem, root: Ptr, m': Mem, up: Path, e: Side,
      a: Tree, x: Ptr, b: Tree, y: Ptr, c: Tree, cx: Color, cy: Color)
    requires Holds(m, root, up, Mk(e, a, x, cx, Mk(e, b, y, cy, c)))
    requires Changed(m, m', {x, y, P(b), PP(up)})
    ensures Same(m, m', Ptrs(a)) && Same(m, m', Ptrs(b) - {P(b)}) && Same(m, m', Ptrs(c)) && Same(m, m', PathPtrs(up) - {PP(up)})
  {
    var t := Mk(e, a, x, cx, Mk(e, b, y, cy, c));
    assert 0 !in Ptrs(t) by { HeldNotNull(m, t, PP(up)); }
    assert 0 !in PathPtrs(up) by { PathNotNull(m, root, up, x); }
    RotateParts(up, e, a, x, b, y, c, cx, cy);
    TopIn(b, up);
    var s, pb, pu := {x, y, P(b), PP(up)}, P(b), PP(up);
    FourApart(Ptrs(a), Ptrs(b), Ptrs(c), PathPtrs(up), x, y, pb, pu);
    SameIf(m, m', s, Ptrs(a));
    SameIf(m, m', s, Ptrs(b) - {pb});
    SameIf(m, m', s, Ptrs(c));
    SameIf(m, m', s, PathPtrs(up) - {pu});
  }

  lemma RotateApart(up: Path, e: Side, a: Tree, x: Ptr, b: Tree, y: Ptr, c: Tree, cx: Color, cy: Color, cx': Color, cy': Color)
    requires Apart(up, Mk(e, a, x, cx, Mk(e, b, y, cy, c)))
    ensures Apart(up, Mk(e, Mk(e, a, x, cx', b), y, cy', c))
  {
    DistinctMk(e, b, y, cy, c);
    DistinctMk(e, a, x, cx, Mk(e, b, y, cy, c));
    DistinctMk(e, a, x, cx', b);
    DistinctMk(e, Mk(e, a, x, cx', b), y, cy', c);
  }

  /** A rotation in memory is one of the tree. */
  lemma RotateHeld(m: Mem, root: Ptr, m': Mem, root': Ptr, up: Path, e: Side,
      a: Tree, x: Ptr, b: Tree, y: Ptr, c: Tree, cx: Color, cy: Color, cx': Color, cy': Color)
    requires Holds(m, root, up, Mk(e, a, x, cx, Mk(e, b, y, cy, c)))
    requires Rotates(m, root, m', root', up, e, a, x, b, y, c, cx', cy')
    ensures Holds(m', root', up, Mk(e, Mk(e, a, x, cx', b), y, cy', c))
  {
    RotateApart(up, e, a, x, b, y, c, cx, cy, cx', cy');
    RotateSame(m, root, m', up, e, a, x, b, y, c, cx, cy);
    RotateBelow(m, m', PP(up), e, a, x, b, y, c, cx, cy, cx', cy');
    PathRedirected(m, root, m', root', up, x, y);
  }

  lemma RotateBelow(m: Mem, m': Mem, parent: Ptr, e: Side,
      a: Tree, x: Ptr, b: Tree, y: Ptr, c: Tree, cx: Color, cy: Color, cx': Color, cy': Color)
    requires Held(m, Mk(e, a, x, cx, Mk(e, b, y, cy, c)), parent) && Distinct(Mk(e, a, x, cx, Mk(e, b, y, cy, c)))
    requires x in m' && m'[x] == NodeOf(e, y, cx', P(a), P(b)) && y in m' && m'[y] == NodeOf(e, parent, cy', x, P(c))
    requires b.Fork? ==> b.p in m && b.p in m' && m'[b.p] == m[b.p].(parent := x)
    requires Same(m, m', Ptrs(a)) && Same(m, m', Ptrs(b) - {P(b)}) && Same(m, m', Ptrs(c))
    ensures Held(m', Mk(e, Mk(e, a, x, cx', b), y, cy', c), parent)
  {
    DistinctMk(e, a, x, cx, Mk(e, b, y, cy, c));
    DistinctMk(e, b, y, cy, c);
    HeldMk(m, e, a, x, cx, Mk(e, b, y, cy, c), parent);
    HeldMk(m, e, b, y, cy, c, x);
    HeldKept(m, m', a, x);
    if b.Fork? {
      HeldMoved(m, m', b, y, x, b.color);
    }
    HeldKept(m, m', c, y);
    HeldMk(m', e, a, x, cx', b, y);
    HeldMk(m', e, Mk(e, a, x, cx', b), y, cy', c, parent);
  }

  // ---------------------------------------------------------------- Rotations as the code does them

  /** __rb_change_child, and where it leaves the root pointer. */
  function ChangeChild(m: Mem, was: Ptr, now: Ptr, parent: Ptr): Mem
    requires parent != 0 ==> parent in m
  {
    if parent == 0 then m else m[parent := m[parent].SetChild(if m[parent].left == was then LEFT else RIGHT, now)]
  }

  function NewRoot(root: Ptr, now: Ptr, parent: Ptr): Ptr {
    if parent == 0 then now else root
  }

  function SetParentColor(m: Mem, x: Ptr, parent: Ptr, c: Color): Mem
    requires x in m
  {
    m[x := m[x].(parent := parent, color := c)]
  }

  function SetChild(m: Mem, x: Ptr, d: Side, y: Ptr): Mem
    requires x in m
  {
    m[x := m[x].SetChild(d, y)]
  }

  /** __rb_rotate_set_parents */
  function RotateSetParents(m: Mem, was: Ptr, now: Ptr, c: Color): Mem
    requires was in m && now in m && (m[was].parent != 0 ==> m[was].parent in m)
  {
    ChangeChild(SetParentColor(SetParentColor(m, now, m[was].parent, m[was].color), was, now, c), was, now, m[was].parent)
  }

  /** The children that a rotation of x and y exchanges; pb is the address of the subtree between them. */
  function TurnChildren(m: Mem, e: Side, x: Ptr, y: Ptr, pb: Ptr): Mem
    requires x in m && y in m && (pb != 0 ==> pb in m)
  {
    var m1 := SetChild(SetChild(m, x, e.Other(), pb), y, e, x);
    if pb == 0 then m1 else m1[pb := m1[pb].(parent := x)]
  }

  /** m is m1 but for x's child on side o and y's parent, which are about to be set. */
  ghost predicate Stale(m1: Mem, m: Mem, x: Ptr, y: Ptr, o: Side) {
    && x in m1 && x in m && y in m1 && y in m
    && m[x] == m1[x].SetChild(o, m[x].Child(o)) && m[y] == m1[y].(parent := m[y].parent)
    && Changed(m1, m, {x, y})
  }

  /** The parts of a tree that memory holds, before a rotation. */
  lemma TurnParts(m: Mem, root: Ptr, up: Path, e: Side, a: Tree, x: Ptr, b: Tree, y: Ptr, c: Tree, cx: Color, cy: Color)
    requires Holds(m, root, up, Mk(e, a, x, cx, Mk(e, b, y, cy, c)))
    ensures x != 0 && y != 0 && x != y && x in m && y in m && (b.Fork? ==> b.p != 0 && b.p in m && b.p != x && b.p != y)
    ensures m[x] == NodeOf(e, PP(up), cx, P(a), y) && m[y] == NodeOf(e, x, cy, P(b), P(c))
    ensures b.Fork? ==> m[b.p].parent == y && m[b.p].color == b.color
    ensures up.Step? ==> up.p != 0 && up.p in m && up.p != x && up.p != y && up.p != P(b) && m[up.p].Child(up.d) == x && m[up.p].Child(up.d.Other()) != x
  {
    RotateParts(up, e, a, x, b, y, c, cx, cy);
    HeldMk(m, e, a, x, cx, Mk(e, b, y, cy, c), PP(up));
    HeldMk(m, e, b, y, cy, c, x);
    TopIn(b, up);
    if up.Step? {
      TurnAbove(m, root, up, Mk(e, a, x, cx, Mk(e, b, y, cy, c)));
    }
  }

  lemma TurnAbove(m: Mem, root: Ptr, up: Path, t: Tree)
    requires Holds(m, root, up, t) && up.Step? && t.Fork?
    ensures up.p != 0 && up.p in m && m[up.p].Child(up.d) == t.p && m[up.p].Child(up.d.Other()) == P(up.far) != t.p
  {
    TopIn(up.far, up);
    assert PathPtrs(up) == PathPtrs(up.up) + {up.p} + Ptrs(up.far) && t.p in Ptrs(t);
  }

  /** The rotation that the code does is one of the tree: y gets x's place and color. */
  lemma TurnHeld(m1: Mem, m: Mem, root: Ptr, up: Path, e: Side,
      a: Tree, x: Ptr, b: Tree, y: Ptr, c: Tree, cx: Color, cy: Color, cx': Color)
    requires Holds(m1, root, up, Mk(e, a, x, cx, Mk(e, b, y, cy, c))) && Stale(m1, m, x, y, e.Other())
    ensures P(b) != 0 ==> P(b) in m
    ensures var m2 := TurnChildren(m, e, x, y, P(b));
      && x in m2 && y in m2 && m2[x].parent == PP(up) && (PP(up) != 0 ==> PP(up) in m2)
      && Holds(RotateSetParents(m2, x, y, cx'), NewRoot(root, y, PP(up)), up, Mk(e, Mk(e, a, x, cx', b), y, cx, c))
  {
    TurnParts(m1, root, up, e, a, x, b, y, c, cx, cy);
    var m2 := TurnChildren(m, e, x, y, P(b));
    var m' := RotateSetParents(m2, x, y, cx');
    RotateHeld(m1, root, m', NewRoot(root, y, PP(up)), up, e, a, x, b, y, c, cx, cy, cx', cx);
  }

  // ---------------------------------------------------------------- Colors

  /** A node gets another color. */
  lemma PaintHeld(m: Mem, root: Ptr, path: Path, t: Tree, c: Color)
    requires Holds(m, root, path, t) && t.Fork?
    ensures t.p in m && m[t.p].parent == PP(path)
    ensures Holds(SetParentColor(m, t.p, PP(path), c), root, path, Paint(t, c))
  {
    var m' := SetParentColor(m, t.p, PP(path), c);
    assert t.p in Ptrs(t);
    HeldMoved(m, m', t, PP(path), PP(path), c);
    PathKept(m, m', root, path, t.p);
    assert Ptrs(Paint(t, c)) == Ptrs(t);
  }

  lemma ZoomFar(m: Mem, root: Ptr, up: Path, p: Ptr, c: Color, d: Side, far: Tree, t: Tree)
    ensures Holds(m, root, Step(up, p, c, d, far), t) <==> Holds(m, root, Step(up, p, c, d.Other(), t), far)
  {
    Zoom(m, root, up, p, c, d, far, t);
    Zoom(m, root, up, p, c, d.Other(), t, far);
    MkOther(d, t, p, c, far);
  }

  // ---------------------------------------------------------------- Taking nodes out

  /** A node with one child at most is taken out: the child takes its place, with the given color. */
  lemma SpliceHeld(m: Mem, root: Ptr, m': Mem, root': Ptr, path: Path, t: Tree, kid: Tree, c: Color)
    requires Holds(m, root, path, t) && t.Fork? && (kid == t.l || kid == t.r)
    requires Changed(m, m', {P(kid), PP(path)})
    requires kid.Fork? ==> kid.p in m && kid.p in m' && m'[kid.p] == m[kid.p].(parent := PP(path), color := c)
    requires path.Top? ==> root' == P(kid)
    requires path.Step? ==> root' == root && path.p in m && path.p in m' && m'[path.p] == m[path.p].SetChild(path.d, P(kid))
    ensures Holds(m', root', path, Paint(kid, c))
  {
    HeldNotNull(m, t, PP(path));
    PathNotNull(m, root, path, t.p);
    TopIn(kid, path);
    var s, pk, pp := {P(kid), PP(path)}, P(kid), PP(path);
    assert Ptrs(kid) <= Ptrs(t);
    SameIf(m, m', s, Ptrs(kid) - {pk});
    SameIf(m, m', s, PathPtrs(path) - {pp});
    if kid.Fork? {
      HeldMoved(m, m', kid, t.p, PP(path), c);
      assert Ptrs(Paint(kid, c)) == Ptrs(kid);
    }
    PathRedirected(m, root, m', root', path, t.p, P(kid));
  }

  /** Node s, which is not in the tree, takes the place of another one. */
  lemma ReplaceHeld(m: Mem, root: Ptr, m': Mem, root': Ptr, path: Path, l: Tree, node: Ptr, c: Color, r: Tree, s: Ptr)
    requires Holds(m, root, path, Fork(l, node, c, r)) && s != 0 && s !in PathPtrs(path) && s !in Ptrs(l) && s !in Ptrs(r)
    requires s in m' && m'[s] == Node(PP(path), c, P(l), P(r))
    requires Changed(m, m', {node, s, P(l), P(r), PP(path)})
    requires l.Fork? ==> l.p in m && l.p in m' && m'[l.p] == m[l.p].(parent := s)
    requires r.Fork? ==> r.p in m && r.p in m' && m'[r.p] == m[r.p].(parent := s)
    requires path.Top? ==> root' == s
    requires path.Step? ==> root' == root && path.p in m && path.p in m' && m'[path.p] == m[path.p].SetChild(path.d, s)
    ensures Holds(m', root', path, Fork(l, s, c, r))
  {
    ReplaceSame(m, root, m', path, l, node, c, r, s);
    if l.Fork? {
      HeldMoved(m, m', l, node, s, l.color);
    }
    if r.Fork? {
      HeldMoved(m, m', r, node, s, r.color);
    }
    PathRedirected(m, root, m', root', path, node, s);
    assert Ptrs(Fork(l, s, c, r)) == Ptrs(l) + {s} + Ptrs(r);
    assert Ptrs(Fork(l, node, c, r)) == Ptrs(l) + {node} + Ptrs(r);
  }

  lemma ReplaceSame(m: Mem, root: Ptr, m': Mem, path: Path, l: Tree, node: Ptr, c: Color, r: Tree, s: Ptr)
    requires Holds(m, root, path, Fork(l, node, c, r)) && s != 0 && s !in PathPtrs(path) && s !in Ptrs(l) && s !in Ptrs(r)
    requires Changed(m, m', {node, s, P(l), P(r), PP(path)})
    ensures Same(m, m', Ptrs(l) - {P(l)}) && Same(m, m', Ptrs(r) - {P(r)}) && Same(m, m', PathPtrs(path) - {PP(path)})
  {
    HeldNotNull(m, Fork(l, node, c, r), PP(path));
    PathNotNull(m, root, path, node);
    assert Ptrs(Fork(l, node, c, r)) == Ptrs(l) + {node} + Ptrs(r);
    TopIn(l, path);
    TopIn(r, path);
    var five, pl, pr, pp := {node, s, P(l), P(r), PP(path)}, P(l), P(r), PP(path);
    SameIf(m, m', five, Ptrs(l) - {pl});
    SameIf(m, m', five, Ptrs(r) - {pr});
    SameIf(m, m', five, PathPtrs(path) - {pp});
  }
}
