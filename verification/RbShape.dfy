/**
 Red-black trees (shared/lk/rbtree.c:18-60) as values: what the five properties are, what order the
 nodes are in, and what a part of a tree says of the whole. A tree that is being worked on is taken
 apart into the subtree of interest and the path from there to the root.
 */
module RbShape {
  /** The address of a node; 0 is NULL. */
  type Ptr = nat

  datatype Color = RED | BLACK

  datatype Side = LEFT | RIGHT {
    function Other(): Side { if this == LEFT then RIGHT else LEFT }
  }

  datatype Tree = Leaf | Fork(l: Tree, p: Ptr, color: Color, r: Tree)

  /** The tree with the given subtrees: near is on side d. */
  function Mk(d: Side, near: Tree, p: Ptr, c: Color, far: Tree): Tree {
    if d == LEFT then Fork(near, p, c, far) else Fork(far, p, c, near)
  }

  function Kid(t: Tree, d: Side): Tree
    requires t.Fork?
  {
    if d == LEFT then t.l else t.r
  }

  function P(t: Tree): Ptr {
    if t.Leaf? then 0 else t.p
  }

  function Paint(t: Tree, c: Color): Tree {
    if t.Leaf? then t else t.(color := c)
  }

  /** From a subtree to the root: each step's node has the subtree on side d, and another one on the other side. */
  datatype Path = Top | Step(up: Path, p: Ptr, color: Color, d: Side, far: Tree)

  function PP(path: Path): Ptr {
    if path.Top? then 0 else path.p
  }

  /** The whole tree. */
  function Plug(path: Path, t: Tree): Tree {
    match path
    case Top => t
    case Step(up, p, c, d, far) => Plug(up, Mk(d, t, p, c, far))
  }

  // ---------------------------------------------------------------- The order of nodes

  function InOrder(t: Tree): seq<Ptr> {
    if t.Leaf? then [] else InOrder(t.l) + [t.p] + InOrder(t.r)
  }

  /** p between what is on its side d and what is on its other side. */
  function Between(d: Side, near: seq<Ptr>, p: Ptr, far: seq<Ptr>): seq<Ptr> {
    if d == LEFT then near + [p] + far else far + [p] + near
  }

  lemma InOrderMk(d: Side, near: Tree, p: Ptr, c: Color, far: Tree)
    ensures InOrder(Mk(d, near, p, c, far)) == Between(d, InOrder(near), p, InOrder(far))
  {
  }

  /** What comes before and after a subtree's nodes. */
  function Before(path: Path): seq<Ptr> {
    match path
    case Top => []
    case Step(up, p, c, d, far) => if d == LEFT then Before(up) else Before(up) + InOrder(far) + [p]
  }

  function After(path: Path): seq<Ptr> {
    match path
    case Top => []
    case Step(up, p, c, d, far) => if d == LEFT then [p] + InOrder(far) + After(up) else After(up)
  }

  lemma {:induction false} PlugInOrder(path: Path, t: Tree)
    ensures InOrder(Plug(path, t)) == Before(path) + InOrder(t) + After(path)
    decreases path
  {
    if path.Step? {
      var t' := Mk(path.d, t, path.p, path.color, path.far);
      PlugInOrder(path.up, t');
      InOrderMk(path.d, t, path.p, path.color, path.far);
      if path.d == LEFT {
        assert Before(path) + InOrder(t) + After(path) == Before(path.up) + InOrder(t') + After(path.up);
      } else {
        assert Before(path) + InOrder(t) + After(path) == Before(path.up) + InOrder(t') + After(path.up);
      }
    } else {
      assert Before(path) + InOrder(t) + After(path) == InOrder(t);
    }
  }

  /** A rotation does not change the order. */
  lemma RotateOrder(d: Side, a: seq<Ptr>, x: Ptr, b: seq<Ptr>, y: Ptr, c: seq<Ptr>)
    ensures Between(d, a, x, Between(d, b, y, c)) == Between(d, Between(d, a, x, b), y, c)
  {
    if d == LEFT {
      assert a + [x] + (b + [y] + c) == a + [x] + b + [y] + c;
    } else {
      assert c + [y] + b + [x] + a == c + [y] + (b + [x] + a);
    }
  }

  // ---------------------------------------------------------------- The five properties

  predicate Red(t: Tree) {
    t.Fork? && t.color == RED
  }

  function Black(c: Color): nat {
    if c == BLACK then 1 else 0
  }

  /** The number of black nodes on every way down, or -1 if it is not the same on all. */
  function Bh(t: Tree): int {
    if t.Leaf? then 0
    else if Bh(t.l) == Bh(t.r) && Bh(t.l) >= 0 then Bh(t.l) + Black(t.color) else -1
  }

  /** Red nodes have black children. */
  predicate NoRedRed(t: Tree) {
    t.Fork? ==> NoRedRed(t.l) && NoRedRed(t.r) && (t.color == RED ==> !Red(t.l) && !Red(t.r))
  }

  predicate Balanced(t: Tree) {
    Bh(t) >= 0 && NoRedRed(t)
  }

  lemma BalancedMk(d: Side, near: Tree, p: Ptr, c: Color, far: Tree)
    ensures Balanced(Mk(d, near, p, c, far)) <==>
      Balanced(near) && Balanced(far) && Bh(near) == Bh(far) && (c == RED ==> !Red(near) && !Red(far))
    ensures Bh(near) == Bh(far) >= 0 ==> Bh(Mk(d, near, p, c, far)) == Bh(near) + Black(c)
  {
  }

  lemma PaintBlack(t: Tree)
    requires Balanced(t) && Red(t)
    ensures Balanced(Paint(t, BLACK)) && Bh(Paint(t, BLACK)) == Bh(t) + 1
  {
  }

  predicate IsRb(t: Tree) {
    Balanced(t) && !Red(t)
  }

  /** With a balanced subtree of k black nodes on each way down the tree is in order, but for the subtree's own color. */
  predicate PathOk(path: Path, k: int) {
    match path
    case Top => true
    case Step(up, p, c, d, far) =>
      && Balanced(far) && Bh(far) == k
      && (c == RED ==> !Red(far) && up.Step? && up.color == BLACK)
      && PathOk(up, k + Black(c))
  }

  lemma {:induction false} Fill(path: Path, t: Tree)
    requires Balanced(t) && PathOk(path, Bh(t)) && (Red(t) ==> path.Step? && path.color == BLACK)
    ensures IsRb(Plug(path, t))
    decreases path
  {
    if path.Step? {
      Fill(path.up, Mk(path.d, t, path.p, path.color, path.far));
    }
  }

  lemma {:induction false} Open(path: Path, t: Tree)
    requires IsRb(Plug(path, t))
    ensures Balanced(t) && PathOk(path, Bh(t)) && (Red(t) ==> path.Step? && path.color == BLACK)
    decreases path
  {
    if path.Step? {
      Open(path.up, Mk(path.d, t, path.p, path.color, path.far));
    }
  }

  // ---------------------------------------------------------------- Height

  function Max(a: nat, b: nat): nat {
    if a > b then a else b
  }

  function Height(t: Tree): nat {
    if t.Leaf? then 0 else 1 + Max(Height(t.l), Height(t.r))
  }

  function Pow2(n: nat): nat {
    if n == 0 then 1 else 2 * Pow2(n - 1)
  }

  lemma {:induction false} BlackHeightBounds(t: Tree)
    requires Balanced(t)
    ensures Height(t) <= 2 * Bh(t) + (if Red(t) then 1 else 0)
    ensures Pow2(Bh(t)) <= |InOrder(t)| + 1
  {
    if t.Fork? {
      BlackHeightBounds(t.l);
      BlackHeightBounds(t.r);
    }
  }

  /** A red-black tree of n nodes is at most 2 * log2(n + 1) high. */
  lemma HeightBound(t: Tree) returns (k: nat)
    requires IsRb(t)
    ensures Height(t) <= 2 * k && Pow2(k) <= |InOrder(t)| + 1
  {
    BlackHeightBounds(t);
    k := Bh(t);
  }

  // ---------------------------------------------------------------- Different nodes

  function Ptrs(t: Tree): set<Ptr> {
    if t.Leaf? then {} else Ptrs(t.l) + {t.p} + Ptrs(t.r)
  }

  function PathPtrs(path: Path): set<Ptr> {
    if path.Top? then {} else PathPtrs(path.up) + {path.p} + Ptrs(path.far)
  }

  predicate Distinct(t: Tree) {
    t.Fork? ==>
      && Distinct(t.l) && Distinct(t.r)
      && t.p !in Ptrs(t.l) && t.p !in Ptrs(t.r) && Ptrs(t.l) !! Ptrs(t.r)
  }

  predicate DistinctPath(path: Path) {
    path.Step? ==>
      && DistinctPath(path.up) && Distinct(path.far)
      && path.p !in PathPtrs(path.up) && path.p !in Ptrs(path.far) && PathPtrs(path.up) !! Ptrs(path.far)
  }

  predicate Apart(path: Path, t: Tree) {
    Distinct(t) && DistinctPath(path) && Ptrs(t) !! PathPtrs(path)
  }

  lemma DistinctMk(d: Side, near: Tree, p: Ptr, c: Color, far: Tree)
    ensures Ptrs(Mk(d, near, p, c, far)) == Ptrs(near) + {p} + Ptrs(far)
    ensures Distinct(Mk(d, near, p, c, far)) <==>
      Distinct(near) && Distinct(far) && p !in Ptrs(near) && p !in Ptrs(far) && Ptrs(near) !! Ptrs(far)
  {
  }

  lemma ApartMk(up: Path, p: Ptr, c: Color, d: Side, far: Tree, t: Tree)
    ensures Apart(Step(up, p, c, d, far), t) <==> Apart(up, Mk(d, t, p, c, far))
  {
    assert Ptrs(Mk(d, t, p, c, far)) == Ptrs(t) + {p} + Ptrs(far);
    assert PathPtrs(Step(up, p, c, d, far)) == PathPtrs(up) + {p} + Ptrs(far);
  }

  lemma {:induction false} InOrderPtrs(t: Tree, x: Ptr)
    ensures x in InOrder(t) <==> x in Ptrs(t)
  {
    if t.Fork? {
      InOrderPtrs(t.l, x);
      InOrderPtrs(t.r, x);
    }
  }

  /** A node's subtree, and the path from there. */
  lemma {:induction false} Locate(path: Path, t: Tree, x: Ptr) returns (path': Path, t': Tree)
    requires x in Ptrs(t)
    ensures Plug(path', t') == Plug(path, t) && t'.Fork? && t'.p == x
    decreases t
  {
    if t.p == x {
      path', t' := path, t;
    } else if x in Ptrs(t.l) {
      path', t' := Locate(Step(path, t.p, t.color, LEFT, t.r), t.l, x);
    } else {
      path', t' := Locate(Step(path, t.p, t.color, RIGHT, t.l), t.r, x);
    }
  }

  // ---------------------------------------------------------------- Paths below paths

  /** The path that goes on from base. */
  function Under(path: Path, base: Path): Path {
    if path.Top? then base else Step(Under(path.up, base), path.p, path.color, path.d, path.far)
  }

  lemma {:induction false} PlugUnder(path: Path, base: Path, t: Tree)
    ensures Plug(Under(path, base), t) == Plug(base, Plug(path, t))
    decreases path
  {
    if path.Step? {
      PlugUnder(path.up, base, Mk(path.d, t, path.p, path.color, path.far));
    }
  }

  /** A path that goes left only. */
  predicate AllLeft(path: Path) {
    path.Step? ==> path.d == LEFT && AllLeft(path.up)
  }

  lemma {:induction false} LeftmostFirst(path: Path)
    requires AllLeft(path)
    ensures Before(path) == []
    decreases path
  {
    if path.Step? {
      LeftmostFirst(path.up);
    }
  }

  /** The topmost node of a path. */
  function TopOf(path: Path): Ptr {
    if path.Top? then 0 else if path.up.Top? then path.p else TopOf(path.up)
  }

  lemma {:induction false} PlugTop(path: Path, t: Tree)
    requires path.Step?
    ensures Plug(path, t).Fork? && Plug(path, t).p == TopOf(path) && TopOf(path) in PathPtrs(path)
    decreases path
  {
    if path.up.Step? {
      PlugTop(path.up, Mk(path.d, t, path.p, path.color, path.far));
    }
  }

  /** Colors on a path do not depend on whose they are. */
  lemma {:induction false} UnderPathOk(path: Path, base: Path, base': Path, k: int)
    requires base.Step? && base'.Step? && base' == base.(p := base'.p) && PathOk(Under(path, base), k)
    ensures PathOk(Under(path, base'), k) && Under(path, base').Step? && Under(path, base').color == Under(path, base).color
    decreases path
  {
    if path.Step? {
      UnderPathOk(path.up, base, base', k + Black(path.color));
    }
  }

  lemma {:induction false} UnderPtrs(path: Path, base: Path)
    ensures PathPtrs(Under(path, base)) == PathPtrs(path) + PathPtrs(base)
    decreases path
  {
    if path.Step? {
      UnderPtrs(path.up, base);
    }
  }

  lemma {:induction false} PlugPtrs(path: Path, t: Tree)
    ensures Ptrs(Plug(path, t)) == PathPtrs(path) + Ptrs(t)
    decreases path
  {
    if path.Step? {
      PlugPtrs(path.up, Mk(path.d, t, path.p, path.color, path.far));
      DistinctMk(path.d, t, path.p, path.color, path.far);
    }
  }
}
