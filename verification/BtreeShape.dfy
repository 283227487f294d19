/**
 The shape of a B-tree of blocks (devd/btree.c) as an invariant over addresses. Every block
 of the tree is annotated with its level and the interval of keys (lo, hi] it is responsible
 for; the invariant relates each block only to its own children, to the blocks of its level,
 and to the map of keys to values that the tree stands for.
 */
module BtreeShape {
  import opened BtreeFormat

  type Addr = nat

  datatype Node = Node(level: nat, items: seq<Item>)

  /** The level of a block and the keys it is responsible for: lo < key <= hi. */
  datatype Span = Span(level: nat, lo: int, hi: Key) {
    predicate Has(k: Key) { lo < k <= hi }
  }

  datatype Tree = Tree(
    view: map<Addr, Node>, root: Addr, height: nat,
    spans: map<Addr, Span>, contents: map<Key, seq<bv8>>,
    leafMax: nat, refMax: nat, vs: nat)
  {
    function Max(level: nat): nat { if level == 0 then leafMax else refMax }

    predicate GoodSizes() { leafMax >= 8 && leafMax % 2 == 0 && refMax >= 8 && refMax % 2 == 0 }
  }

  // ---------------------------------------------------------------- One block

  predicate HasKey(s: seq<Item>, k: Key) {
    var i := LowerBound(s, k);
    i < |s| && s[i].key == k
  }

  ghost predicate KeysWithin(s: seq<Item>, p: Span) {
    forall i :: 0 <= i < |s| ==> p.lo < s[i].key <= p.hi
  }

  ghost predicate AllValues(s: seq<Item>, vs: nat) {
    forall i :: 0 <= i < |s| ==> s[i].val.Value? && |s[i].val.bytes| == vs
  }

  ghost predicate AllRefs(s: seq<Item>) {
    forall i :: 0 <= i < |s| ==> s[i].val.Ref?
  }

  /** What a block says about its own items. */
  ghost predicate NodeOk(n: Node, p: Span, vs: nat) {
    && n.level == p.level
    && p.lo < p.hi
    && Sorted(n.items)
    && KeysWithin(n.items, p)
    && (n.level == 0 ==> AllValues(n.items, vs))
    && (n.level > 0 ==> AllRefs(n.items) && n.items != [] && n.items[|n.items| - 1].key == p.hi)
  }

  /** Non-root blocks are at least half full, and no block overflows. */
  ghost predicate CountOk(n: Node, max: nat, isRoot: bool) {
    && |n.items| <= max
    && (!isRoot ==> max / 2 <= |n.items|)
  }

  /** The interval of the i'th child: after the previous key, up to its own. */
  function ChildSpan(n: Node, p: Span, i: nat): Span
    requires i < |n.items| && n.level > 0
  {
    Span(n.level - 1, if i == 0 then p.lo else n.items[i - 1].key, n.items[i].key)
  }

  /** The i'th reference leads to a block of the tree with the i'th interval. */
  ghost predicate ChildOk(n: Node, p: Span, spans: map<Addr, Span>, i: nat)
    requires i < |n.items| && n.level > 0
  {
    n.items[i].val.Ref? && n.items[i].val.addr in spans && spans[n.items[i].val.addr] == ChildSpan(n, p, i)
  }

  ghost predicate ChildrenOk(n: Node, p: Span, spans: map<Addr, Span>)
    requires n.level > 0
  {
    forall i: nat {:trigger ChildOk(n, p, spans, i)} :: i < |n.items| ==> ChildOk(n, p, spans, i)
  }

  /** A leaf holds exactly the mapped keys of its interval, with their values. */
  ghost predicate LeafOk(n: Node, p: Span, contents: map<Key, seq<bv8>>) {
    && (forall i :: 0 <= i < |n.items| ==>
      n.items[i].key in contents && n.items[i].val == Value(contents[n.items[i].key]))
    && (forall k {:trigger HasKey(n.items, k)} :: k in contents && p.Has(k) ==> HasKey(n.items, k))
  }

  // ---------------------------------------------------------------- The whole tree

  /** What block a of the tree owes to its own items, its children and the map. */
  ghost predicate BlockOk(t: Tree, a: Addr)
    requires a in t.spans
  {
    && a in t.view
    && NodeOk(t.view[a], t.spans[a], t.vs)
    && CountOk(t.view[a], t.Max(t.spans[a].level), a == t.root)
    && (t.spans[a].level > 0 ==> ChildrenOk(t.view[a], t.spans[a], t.spans))
    && (t.spans[a].level == 0 ==> LeafOk(t.view[a], t.spans[a], t.contents))
  }

  ghost predicate AllOk(t: Tree) {
    && t.spans.Keys <= t.view.Keys
    && forall a {:trigger BlockOk(t, a)} :: a in t.spans ==> BlockOk(t, a)
  }

  /** Two blocks of one level have disjoint intervals. */
  ghost predicate Apart(spans: map<Addr, Span>, a: Addr, b: Addr)
    requires a in spans && b in spans
  {
    a != b && spans[a].level == spans[b].level ==> spans[a].hi <= spans[b].lo || spans[b].hi <= spans[a].lo
  }

  ghost predicate Disjoint(spans: map<Addr, Span>) {
    forall a, b {:trigger Apart(spans, a, b)} :: a in spans && b in spans ==> Apart(spans, a, b)
  }

  ghost predicate InTree(t: Tree, a: Addr) {
    a in t.spans ==> t.spans[a].level < t.height
  }

  ghost predicate RootOk(t: Tree) {
    && t.height > 0
    && t.root in t.spans
    && t.spans[t.root] == Span(t.height - 1, -1, MAX_KEY)
    && forall a {:trigger InTree(t, a)} :: InTree(t, a)
  }

  /** The invariant while an operation is at work. */
  ghost predicate Inv(t: Tree) {
    && t.GoodSizes()
    && RootOk(t)
    && AllOk(t)
    && Disjoint(t.spans)
  }

  /** Between operations the root leaf is not empty and an internal root has two references. */
  ghost predicate RootFull(t: Tree)
    requires t.root in t.view
  {
    |t.view[t.root].items| >= if t.height > 1 then 2 else 1
  }

  // ---------------------------------------------------------------- Consequences

  /** The facts about one internal block's reference. */
  lemma ChildFacts(t: Tree, a: Addr, i: nat)
    requires Inv(t) && a in t.spans && t.spans[a].level > 0 && a in t.view && i < |t.view[a].items|
    ensures t.view[a].level == t.spans[a].level && t.view[a].items[i].val.Ref?
    ensures var c := t.view[a].items[i].val.addr;
      c in t.spans && t.spans[c] == ChildSpan(t.view[a], t.spans[a], i) && c != a && c != t.root
    ensures t.spans[a].lo < t.view[a].items[i].key <= t.spans[a].hi
  {
    assert BlockOk(t, a);
    assert ChildOk(t.view[a], t.spans[a], t.spans, i);
    assert InTree(t, a);
  }

  /** A block is referenced from one place. */
  lemma UniqueParent(t: Tree, a: Addr, i: nat, b: Addr, j: nat)
    requires Inv(t) && a in t.spans && b in t.spans && t.spans[a].level > 0 && t.spans[b].level > 0
    requires a in t.view && b in t.view && i < |t.view[a].items| && j < |t.view[b].items|
    requires t.view[a].items[i].val == t.view[b].items[j].val
    ensures a == b && i == j
  {
    ChildFacts(t, a, i);
    ChildFacts(t, b, j);
    assert Apart(t.spans, a, b);
    assert BlockOk(t, a);
  }

  /** At most one block of each level is responsible for a key. */
  lemma UniqueOnPath(t: Tree, a: Addr, b: Addr, k: Key)
    requires Disjoint(t.spans) && a in t.spans && b in t.spans && t.spans[a].level == t.spans[b].level
    requires t.spans[a].Has(k) && t.spans[b].Has(k)
    ensures a == b
  {
    assert Apart(t.spans, a, b);
  }

  /** The reference chosen on descent exists, and its block is responsible for the key. */
  lemma Descend(t: Tree, a: Addr, k: Key)
    requires Inv(t) && a in t.spans && a in t.view && t.spans[a].level > 0 && t.spans[a].Has(k)
    ensures var i := LowerBound(t.view[a].items, k);
      && i < |t.view[a].items|
      && t.view[a].items[i].val.Ref?
      && var c := t.view[a].items[i].val.addr;
        && c in t.spans && c in t.view
        && t.spans[c].Has(k) && t.spans[c].level == t.spans[a].level - 1
  {
    assert BlockOk(t, a);
    var n := t.view[a];
    var i := LowerBound(n.items, k);
    assert n.items[|n.items| - 1].key == t.spans[a].hi;
    ChildFacts(t, a, i);
  }
}
