/** Splitting a full block (devd/btree.c:402-440) keeps the tree's invariant and its map. */
module BtreeSplit {
  import opened BtreeFormat
  import opened BtreeShape
  import opened BtreeSteps

  lemma HasKeyAt(s: seq<Item>, k: Key, i: nat)
    requires Sorted(s) && i < |s| && s[i].key == k
    ensures HasKey(s, k)
  {
    LowerBoundIs(s, k, i);
  }

  /** Block a, child i of p, gives its lower half to a new block s that p references just before it. */
  ghost function Split(t: Tree, p: Addr, i: nat, a: Addr, s: Addr): Tree
    requires ParentOf(t, p, i, a) && a in t.view && a in t.spans && |t.view[a].items| >= 2
  {
    var n, half := t.view[a], |t.view[a].items| / 2;
    var mid := n.items[half - 1].key;
    t.(view := t.view[s := Node(n.level, n.items[..half])]
                     [a := Node(n.level, n.items[half..])]
                     [p := t.view[p].(items := InsertAt(t.view[p].items, i, Item(mid, Ref(s))))],
       spans := SplitSpans(t.spans, a, s, mid))
  }

  lemma HalvesOk(n: Node, p: Span, vs: nat, half: nat)
    requires NodeOk(n, p, vs) && 0 < half < |n.items|
    ensures NodeOk(Node(n.level, n.items[..half]), Span(p.level, p.lo, n.items[half - 1].key), vs)
    ensures NodeOk(Node(n.level, n.items[half..]), Span(p.level, n.items[half - 1].key, p.hi), vs)
  {
  }

  lemma HalvesChildren(n: Node, p: Span, spans: map<Addr, Span>, spans': map<Addr, Span>, half: nat)
    requires n.level > 0 && 0 < half < |n.items|
    requires ChildrenOk(n, p, spans) && SameChildren(n, spans, spans')
    ensures ChildrenOk(Node(n.level, n.items[..half]), Span(p.level, p.lo, n.items[half - 1].key), spans')
    ensures ChildrenOk(Node(n.level, n.items[half..]), Span(p.level, n.items[half - 1].key, p.hi), spans')
  {
    var l, lp := Node(n.level, n.items[..half]), Span(p.level, p.lo, n.items[half - 1].key);
    var r, rp := Node(n.level, n.items[half..]), Span(p.level, n.items[half - 1].key, p.hi);
    forall i: nat | i < |l.items| ensures ChildOk(l, lp, spans', i) {
      assert ChildOk(n, p, spans, i) && l.items[i] == n.items[i];
    }
    forall i: nat | i < |r.items| ensures ChildOk(r, rp, spans', i) {
      assert ChildOk(n, p, spans, half + i) && r.items[i] == n.items[half + i];
    }
  }

  lemma HalvesLeaf(n: Node, p: Span, vs: nat, contents: map<Key, seq<bv8>>, half: nat)
    requires NodeOk(n, p, vs) && n.level == 0 && LeafOk(n, p, contents) && 0 < half < |n.items|
    ensures NodeOk(Node(0, n.items[..half]), Span(0, p.lo, n.items[half - 1].key), vs)
    ensures NodeOk(Node(0, n.items[half..]), Span(0, n.items[half - 1].key, p.hi), vs)
    ensures LeafOk(Node(0, n.items[..half]), Span(0, p.lo, n.items[half - 1].key), contents)
    ensures LeafOk(Node(0, n.items[half..]), Span(0, n.items[half - 1].key, p.hi), contents)
  {
    HalvesOk(n, p, vs, half);
    var mid := n.items[half - 1].key;
    forall k | k in contents && p.Has(k)
      ensures k <= mid ==> HasKey(n.items[..half], k)
      ensures k > mid ==> HasKey(n.items[half..], k)
    {
      assert HasKey(n.items, k);
      var i := LowerBound(n.items, k);
      if k <= mid {
        HasKeyAt(n.items[..half], k, i);
      } else {
        HasKeyAt(n.items[half..], k, i - half);
      }
    }
  }

  lemma SplitParentNode(n: Node, p: Span, vs: nat, i: nat, mid: Key, s: Addr)
    requires NodeOk(n, p, vs) && n.level > 0 && i < |n.items|
    requires (if i == 0 then p.lo else n.items[i - 1].key) < mid < n.items[i].key
    ensures NodeOk(n.(items := InsertAt(n.items, i, Item(mid, Ref(s)))), p, vs)
  {
  }

  lemma SplitParentChildren(n: Node, p: Span, spans: map<Addr, Span>, spans': map<Addr, Span>, i: nat, a: Addr,
      mid: Key, s: Addr)
    requires n.level > 0 && ChildrenOk(n, p, spans) && i < |n.items| && n.items[i].val == Ref(a)
    requires forall j :: 0 <= j < |n.items| && j != i && n.items[j].val.Ref? && n.items[j].val.addr in spans ==>
      n.items[j].val.addr in spans' && spans'[n.items[j].val.addr] == spans[n.items[j].val.addr]
    requires s in spans' && spans'[s] == Span(n.level - 1, if i == 0 then p.lo else n.items[i - 1].key, mid)
    requires a in spans' && spans'[a] == Span(n.level - 1, mid, n.items[i].key)
    ensures ChildrenOk(n.(items := InsertAt(n.items, i, Item(mid, Ref(s)))), p, spans')
  {
    var n' := n.(items := InsertAt(n.items, i, Item(mid, Ref(s))));
    forall j: nat | j < |n'.items| ensures ChildOk(n', p, spans', j) {
      if j != i {
        var j0 := if j < i then j else j - 1;
        assert n'.items[j] == n.items[j0] && ChildOk(n, p, spans, j0);
      }
    }
  }

  ghost function SplitSpans(spans: map<Addr, Span>, a: Addr, s: Addr, mid: Key): map<Addr, Span>
    requires a in spans
  {
    spans[s := Span(spans[a].level, spans[a].lo, mid)][a := Span(spans[a].level, mid, spans[a].hi)]
  }

  lemma DisjointSplit(spans: map<Addr, Span>, a: Addr, s: Addr, mid: Key)
    requires Disjoint(spans) && a in spans && s !in spans && spans[a].lo < mid < spans[a].hi
    ensures Disjoint(SplitSpans(spans, a, s, mid))
  {
    var spans' := SplitSpans(spans, a, s, mid);
    forall x, y | x in spans' && y in spans' ensures Apart(spans', x, y) {
      assert Apart(spans, if x == s then a else x, if y == s then a else y);
      assert Apart(spans, if y == s then a else y, if x == s then a else x);
    }
  }

  /** Both halves of the split block meet their obligations: the new sibling holds the lower one. */
  lemma SplitLower(t: Tree, p: Addr, i: nat, a: Addr, s: Addr)
    requires a in t.spans && BlockOk(t, a) && ParentOf(t, p, i, a) && p != a && s !in t.spans && a != t.root
    requires t.spans.Keys <= t.view.Keys
    requires t.GoodSizes() && |t.view[a].items| == t.Max(t.spans[a].level)
    requires Avoids(t.view[a], a)
    ensures s in Split(t, p, i, a, s).spans && BlockOk(Split(t, p, i, a, s), s)
  {
    var n, half := t.view[a], |t.view[a].items| / 2;
    HalvesOk(n, t.spans[a], t.vs, half);
    if n.level > 0 {
      HalvesChildren(n, t.spans[a], t.spans, Split(t, p, i, a, s).spans, half);
    } else {
      HalvesLeaf(n, t.spans[a], t.vs, t.contents, half);
    }
  }

  lemma SplitUpper(t: Tree, p: Addr, i: nat, a: Addr, s: Addr)
    requires a in t.spans && BlockOk(t, a) && ParentOf(t, p, i, a) && p != a && s !in t.spans && a != t.root
    requires t.spans.Keys <= t.view.Keys
    requires t.GoodSizes() && |t.view[a].items| == t.Max(t.spans[a].level)
    requires Avoids(t.view[a], a)
    ensures a in Split(t, p, i, a, s).spans && BlockOk(Split(t, p, i, a, s), a)
  {
    var n, half := t.view[a], |t.view[a].items| / 2;
    HalvesOk(n, t.spans[a], t.vs, half);
    if n.level > 0 {
      HalvesChildren(n, t.spans[a], t.spans, Split(t, p, i, a, s).spans, half);
    } else {
      HalvesLeaf(n, t.spans[a], t.vs, t.contents, half);
    }
  }

  lemma SplitParent(t: Tree, p: Addr, i: nat, a: Addr, s: Addr)
    requires p in t.spans && BlockOk(t, p) && ParentOf(t, p, i, a) && p != a && s !in t.spans
    requires a in t.spans && BlockOk(t, a) && t.spans[a] == ChildSpan(t.view[p], t.spans[p], i)
    requires t.spans.Keys <= t.view.Keys && |t.view[a].items| >= 2
    requires |t.view[p].items| < t.Max(t.spans[p].level)
    requires forall j :: 0 <= j < |t.view[p].items| && j != i ==> t.view[p].items[j].val != Ref(a)
    ensures p in Split(t, p, i, a, s).spans && BlockOk(Split(t, p, i, a, s), p)
  {
    var n, half := t.view[a], |t.view[a].items| / 2;
    var mid := n.items[half - 1].key;
    assert n.items[half - 1].key < n.items[half].key <= t.spans[a].hi;
    SplitParentNode(t.view[p], t.spans[p], t.vs, i, mid, s);
    SplitParentChildren(t.view[p], t.spans[p], t.spans, Split(t, p, i, a, s).spans, i, a, mid, s);
  }

  lemma SplitBlocks(t: Tree, p: Addr, i: nat, a: Addr, s: Addr)
    requires AllOk(t) && ParentOf(t, p, i, a) && a != p && a != t.root
    requires a in t.spans && t.spans[a] == ChildSpan(t.view[p], t.spans[p], i) && s !in t.spans
    requires t.GoodSizes() && |t.view[a].items| == t.Max(t.spans[a].level)
    requires |t.view[p].items| < t.Max(t.spans[p].level)
    requires forall j :: 0 <= j < |t.view[p].items| && j != i ==> t.view[p].items[j].val != Ref(a)
    requires Unreferenced(t, a, p)
    ensures AllOk(Split(t, p, i, a, s))
  {
    var t' := Split(t, p, i, a, s);
    assert BlockOk(t, a) && BlockOk(t, p);
    assert t.spans[a].level > 0 ==> Avoids(t.view[a], a);
    SplitLower(t, p, i, a, s);
    SplitUpper(t, p, i, a, s);
    SplitParent(t, p, i, a, s);
    forall b | b in t'.spans ensures BlockOk(t', b) {
      if b != p && b != a && b != s {
        assert BlockOk(t, b) && (t.spans[b].level > 0 ==> Avoids(t.view[b], a));
        Untouched(t, b, t', b);
      }
    }
  }

  /** Splitting a full block under a parent with room keeps the invariant; the map does not change. */
  lemma SplitKeepsInv(t: Tree, p: Addr, i: nat, a: Addr, s: Addr)
    requires Inv(t) && ParentOf(t, p, i, a) && s !in t.spans
    requires a in t.view && a in t.spans && |t.view[a].items| == t.Max(t.spans[a].level)
    requires |t.view[p].items| < t.Max(t.spans[p].level)
    ensures Inv(Split(t, p, i, a, s))
  {
    OnlyParent(t, p, i, a);
    SplitBlocks(t, p, i, a, s);
    var n, half := t.view[a], |t.view[a].items| / 2;
    assert BlockOk(t, a) && n.items[half - 1].key < n.items[half].key;
    DisjointSplit(t.spans, a, s, n.items[half - 1].key);
    forall b ensures InTree(Split(t, p, i, a, s), b) {
      assert InTree(t, if b == s then a else b);
    }
  }

  // ---------------------------------------------------------------- A new root

  /** A new root r above the old one, referring to it under the greatest key. */
  ghost function Grow(t: Tree, r: Addr): Tree {
    t.(view := t.view[r := Node(t.height, [Item(MAX_KEY, Ref(t.root))])], root := r, height := t.height + 1,
       spans := t.spans[r := Span(t.height, -1, MAX_KEY)])
  }

  lemma GrowKeepsInv(t: Tree, r: Addr)
    requires Inv(t) && r !in t.spans
    requires |t.view[t.root].items| >= t.Max(t.height - 1) / 2
    ensures Inv(Grow(t, r)) && ParentOf(Grow(t, r), r, 0, t.root)
  {
    var t' := Grow(t, r);
    forall b | b in t'.spans ensures BlockOk(t', b) {
      if b != r {
        assert BlockOk(t, b);
        GrowUntouched(t, r, b);
      } else {
        assert forall i: nat {:trigger ChildOk(t'.view[r], t'.spans[r], t'.spans, i)} :: i < 1 ==>
          ChildOk(t'.view[r], t'.spans[r], t'.spans, i);
      }
    }
    forall x, y | x in t'.spans && y in t'.spans ensures Apart(t'.spans, x, y) {
      assert InTree(t, x) && InTree(t, y);
      assert x != r && y != r ==> Apart(t.spans, x, y);
    }
    forall b ensures InTree(t', b) {
      assert InTree(t, b);
    }
  }

  lemma GrowUntouched(t: Tree, r: Addr, b: Addr)
    requires b in t.spans && BlockOk(t, b) && t.spans.Keys <= t.view.Keys && r !in t.spans
    requires b == t.root ==> t.Max(t.spans[b].level) / 2 <= |t.view[b].items|
    ensures BlockOk(Grow(t, r), b)
  {
    Untouched(t.(root := r), b, Grow(t, r), b);
  }
}
