/**
 Refilling a half-empty block from its sibling (devd/btree.c:442-512) keeps the tree's
 invariant and its map: items move across the boundary between two neighbours, or all of
 one neighbour's items move and it leaves the tree, or the root gives way to its only child.
 */
module BtreeMerge {
  import opened BtreeFormat
  import opened BtreeShape
  import opened BtreeSteps
  import opened BtreeSplit

  // ---------------------------------------------------------------- Joining two neighbours' items

  lemma JoinNode(l: Node, lp: Span, r: Node, rp: Span, vs: nat)
    requires NodeOk(l, lp, vs) && NodeOk(r, rp, vs) && l.level == r.level && lp.hi == rp.lo
    ensures NodeOk(Node(l.level, l.items + r.items), Span(l.level, lp.lo, rp.hi), vs)
  {
  }

  lemma JoinChildren(l: Node, lp: Span, r: Node, rp: Span, vs: nat, spans: map<Addr, Span>)
    requires NodeOk(l, lp, vs) && NodeOk(r, rp, vs) && l.level == r.level > 0 && lp.hi == rp.lo
    requires ChildrenOk(l, lp, spans) && ChildrenOk(r, rp, spans)
    ensures ChildrenOk(Node(l.level, l.items + r.items), Span(l.level, lp.lo, rp.hi), spans)
  {
    var n, p := Node(l.level, l.items + r.items), Span(l.level, lp.lo, rp.hi);
    forall i: nat | i < |n.items| ensures ChildOk(n, p, spans, i) {
      if i < |l.items| {
        assert ChildOk(l, lp, spans, i);
      } else {
        assert ChildOk(r, rp, spans, i - |l.items|);
      }
    }
  }

  lemma JoinLeaf(l: Node, lp: Span, r: Node, rp: Span, vs: nat, contents: map<Key, seq<bv8>>)
    requires NodeOk(l, lp, vs) && NodeOk(r, rp, vs) && l.level == r.level == 0 && lp.hi == rp.lo
    requires LeafOk(l, lp, contents) && LeafOk(r, rp, contents)
    ensures LeafOk(Node(0, l.items + r.items), Span(0, lp.lo, rp.hi), contents)
  {
    var items := l.items + r.items;
    JoinNode(l, lp, r, rp, vs);
    forall k | k in contents && Span(0, lp.lo, rp.hi).Has(k) ensures HasKey(items, k) {
      if k <= lp.hi {
        assert HasKey(l.items, k);
        HasKeyAt(items, k, LowerBound(l.items, k));
      } else {
        assert HasKey(r.items, k);
        HasKeyAt(items, k, |l.items| + LowerBound(r.items, k));
      }
    }
  }

  /** Blocks l and r are children i and i + 1 of p. */
  ghost predicate Neighbours(t: Tree, p: Addr, i: nat, l: Addr, r: Addr) {
    ParentOf(t, p, i, l) && ParentOf(t, p, i + 1, r)
  }

  /** What is known about neighbours and the blocks that refer to them. */
  ghost predicate NeighbourFacts(t: Tree, p: Addr, i: nat, l: Addr, r: Addr) {
    && AllOk(t) && t.GoodSizes() && Neighbours(t, p, i, l, r)
    && l in t.spans && r in t.spans && l in t.view && r in t.view && l != r && l != p && r != p
    && l != t.root && r != t.root
    && t.spans[l] == ChildSpan(t.view[p], t.spans[p], i)
    && t.spans[r] == ChildSpan(t.view[p], t.spans[p], i + 1)
    && Unreferenced(t, l, p) && Unreferenced(t, r, p)
    && forall j :: 0 <= j < |t.view[p].items| && j != i && j != i + 1 ==>
      t.view[p].items[j].val != Ref(l) && t.view[p].items[j].val != Ref(r)
  }

  lemma NeighboursHaveFacts(t: Tree, p: Addr, i: nat, l: Addr, r: Addr)
    requires Inv(t) && Neighbours(t, p, i, l, r)
    ensures NeighbourFacts(t, p, i, l, r)
  {
    OnlyParent(t, p, i, l);
    OnlyParent(t, p, i + 1, r);
    assert BlockOk(t, p);
  }

  /** The items of both neighbours, as if in one block responsible for both intervals. */
  function Joined(t: Tree, l: Addr, r: Addr): Node
    requires l in t.view && r in t.view
  {
    Node(t.view[l].level, t.view[l].items + t.view[r].items)
  }

  function JoinedSpan(t: Tree, l: Addr, r: Addr): Span
    requires l in t.spans && r in t.spans
  {
    Span(t.spans[l].level, t.spans[l].lo, t.spans[r].hi)
  }

  lemma JoinedOk(t: Tree, p: Addr, i: nat, l: Addr, r: Addr)
    requires NeighbourFacts(t, p, i, l, r)
    ensures NodeOk(Joined(t, l, r), JoinedSpan(t, l, r), t.vs)
    ensures t.spans[l].level > 0 ==> ChildrenOk(Joined(t, l, r), JoinedSpan(t, l, r), t.spans)
    ensures t.spans[l].level == 0 ==> LeafOk(Joined(t, l, r), JoinedSpan(t, l, r), t.contents)
    ensures t.spans[l].level > 0 ==> Avoids(Joined(t, l, r), l) && Avoids(Joined(t, l, r), r)
    ensures Joined(t, l, r).items != [] && t.spans[l].level == t.spans[r].level && t.spans[l].hi == t.spans[r].lo
  {
    assert BlockOk(t, l) && BlockOk(t, r);
    JoinNode(t.view[l], t.spans[l], t.view[r], t.spans[r], t.vs);
    if t.spans[l].level > 0 {
      JoinChildren(t.view[l], t.spans[l], t.view[r], t.spans[r], t.vs, t.spans);
      assert Avoids(t.view[l], l) && Avoids(t.view[l], r) && Avoids(t.view[r], l) && Avoids(t.view[r], r);
    } else {
      JoinLeaf(t.view[l], t.spans[l], t.view[r], t.spans[r], t.vs, t.contents);
    }
  }

  // ---------------------------------------------------------------- Moving the boundary

  /** The joined items are divided anew: the first n stay with l, the others with r. */
  ghost function Shift(t: Tree, p: Addr, i: nat, l: Addr, r: Addr, n: nat): Tree
    requires NeighbourFacts(t, p, i, l, r) && 0 < n < |Joined(t, l, r).items|
  {
    var j := Joined(t, l, r);
    var mid := j.items[n - 1].key;
    t.(view := t.view[l := Node(j.level, j.items[..n])]
                     [r := Node(j.level, j.items[n..])]
                     [p := t.view[p].(items := t.view[p].items[i := Item(mid, Ref(l))])],
       spans := ShiftSpans(t.spans, l, r, mid))
  }

  ghost function ShiftSpans(spans: map<Addr, Span>, l: Addr, r: Addr, mid: Key): map<Addr, Span>
    requires l in spans && r in spans
  {
    spans[l := Span(spans[l].level, spans[l].lo, mid)][r := Span(spans[l].level, mid, spans[r].hi)]
  }

  lemma DisjointShift(spans: map<Addr, Span>, l: Addr, r: Addr, mid: Key)
    requires Disjoint(spans) && l in spans && r in spans && l != r
    requires spans[l].level == spans[r].level && spans[l].hi == spans[r].lo && spans[l].lo < mid < spans[r].hi
    requires spans[l].lo < spans[l].hi && spans[r].lo < spans[r].hi
    requires forall a :: a in spans ==> spans[a].lo < spans[a].hi
    ensures Disjoint(ShiftSpans(spans, l, r, mid))
  {
    var spans' := ShiftSpans(spans, l, r, mid);
    forall x, y | x in spans' && y in spans' ensures Apart(spans', x, y) {
      assert Apart(spans, x, y) && Apart(spans, l, y) && Apart(spans, r, y) && Apart(spans, x, l) && Apart(spans, x, r);
    }
  }

  lemma ShiftPair(t: Tree, p: Addr, i: nat, l: Addr, r: Addr, n: nat)
    requires NeighbourFacts(t, p, i, l, r)
    requires var max := t.Max(t.spans[l].level);
      && max / 2 <= n <= max && max / 2 <= |Joined(t, l, r).items| - n <= max
    ensures 0 < n < |Joined(t, l, r).items|
    ensures l in Shift(t, p, i, l, r, n).spans && BlockOk(Shift(t, p, i, l, r, n), l)
    ensures r in Shift(t, p, i, l, r, n).spans && BlockOk(Shift(t, p, i, l, r, n), r)
  {
    JoinedOk(t, p, i, l, r);
    var j, jp, t' := Joined(t, l, r), JoinedSpan(t, l, r), Shift(t, p, i, l, r, n);
    HalvesOk(j, jp, t.vs, n);
    if j.level > 0 {
      HalvesChildren(j, jp, t.spans, t'.spans, n);
    } else {
      HalvesLeaf(j, jp, t.vs, t.contents, n);
    }
  }

  lemma ShiftParentChildren(n: Node, p: Span, vs: nat, spans: map<Addr, Span>, i: nat, l: Addr, r: Addr, mid: Key)
    requires NodeOk(n, p, vs) && n.level > 0 && ChildrenOk(n, p, spans) && i + 1 < |n.items|
    requires n.items[i].val == Ref(l) && n.items[i + 1].val == Ref(r) && l in spans && r in spans && l != r
    requires forall j :: 0 <= j < |n.items| && j != i && j != i + 1 ==> n.items[j].val != Ref(l) && n.items[j].val != Ref(r)
    requires spans[l].lo < mid < spans[r].hi && spans[l].level == n.level - 1
    ensures NodeOk(n.(items := n.items[i := Item(mid, Ref(l))]), p, vs)
    ensures ChildrenOk(n.(items := n.items[i := Item(mid, Ref(l))]), p, ShiftSpans(spans, l, r, mid))
  {
    var n', spans' := n.(items := n.items[i := Item(mid, Ref(l))]), ShiftSpans(spans, l, r, mid);
    assert ChildOk(n, p, spans, i) && ChildOk(n, p, spans, i + 1);
    forall j: nat | j < |n'.items| ensures ChildOk(n', p, spans', j) {
      assert ChildOk(n, p, spans, j);
    }
  }

  lemma ShiftParent(t: Tree, p: Addr, i: nat, l: Addr, r: Addr, n: nat)
    requires NeighbourFacts(t, p, i, l, r) && 0 < n < |Joined(t, l, r).items|
    ensures p in Shift(t, p, i, l, r, n).spans && BlockOk(Shift(t, p, i, l, r, n), p)
    ensures t.spans[l].lo < Joined(t, l, r).items[n - 1].key < t.spans[r].hi
  {
    assert BlockOk(t, p);
    JoinedOk(t, p, i, l, r);
    var j := Joined(t, l, r);
    assert j.items[n - 1].key < j.items[n].key;
    ShiftParentChildren(t.view[p], t.spans[p], t.vs, t.spans, i, l, r, j.items[n - 1].key);
  }

  lemma ShiftBlocks(t: Tree, p: Addr, i: nat, l: Addr, r: Addr, n: nat)
    requires NeighbourFacts(t, p, i, l, r)
    requires var max := t.Max(t.spans[l].level);
      && max / 2 <= n <= max && max / 2 <= |Joined(t, l, r).items| - n <= max
    ensures 0 < n < |Joined(t, l, r).items| && AllOk(Shift(t, p, i, l, r, n))
  {
    ShiftPair(t, p, i, l, r, n);
    ShiftParent(t, p, i, l, r, n);
    var t' := Shift(t, p, i, l, r, n);
    forall b | b in t'.spans ensures BlockOk(t', b) {
      if b != p && b != l && b != r {
        assert BlockOk(t, b) && (t.spans[b].level > 0 ==> Avoids(t.view[b], l) && Avoids(t.view[b], r));
        Untouched(t, b, t', b);
      }
    }
  }

  lemma ShiftKeepsInv(t: Tree, p: Addr, i: nat, l: Addr, r: Addr, n: nat)
    requires Inv(t) && Neighbours(t, p, i, l, r) && NeighbourFacts(t, p, i, l, r)
    requires var max := t.Max(t.spans[l].level);
      && max / 2 <= n <= max && max / 2 <= |Joined(t, l, r).items| - n <= max
    ensures 0 < n < |Joined(t, l, r).items| && Inv(Shift(t, p, i, l, r, n))
  {
    ShiftBlocks(t, p, i, l, r, n);
    ShiftParent(t, p, i, l, r, n);
    JoinedOk(t, p, i, l, r);
    SpansNonEmpty(t);
    DisjointShift(t.spans, l, r, Joined(t, l, r).items[n - 1].key);
    forall b ensures InTree(Shift(t, p, i, l, r, n), b) {
      assert InTree(t, b);
      assert InTree(t, l);
    }
  }

  lemma SpansNonEmpty(t: Tree)
    requires AllOk(t)
    ensures forall a :: a in t.spans ==> t.spans[a].lo < t.spans[a].hi
  {
    forall a | a in t.spans ensures t.spans[a].lo < t.spans[a].hi {
      assert BlockOk(t, a);
    }
  }

  // ---------------------------------------------------------------- Merging

  /** All items of both neighbours end up in keep, one of the two; the other leaves the tree. */
  ghost function Merge(t: Tree, p: Addr, i: nat, l: Addr, r: Addr, keep: Addr): Tree
    requires NeighbourFacts(t, p, i, l, r) && (keep == l || keep == r)
  {
    var gone := if keep == l then r else l;
    t.(view := t.view[gone := t.view[gone].(items := [])]
                     [keep := Joined(t, l, r)]
                     [p := t.view[p].(items := MergedRefs(t.view[p].items, i, keep))],
       spans := MergeSpans(t.spans, l, r, keep))
  }

  function MergedRefs(items: seq<Item>, i: nat, keep: Addr): (r: seq<Item>)
    requires i + 1 < |items|
  {
    items[..i] + [Item(items[i + 1].key, Ref(keep))] + items[i + 2..]
  }

  ghost function MergeSpans(spans: map<Addr, Span>, l: Addr, r: Addr, keep: Addr): map<Addr, Span>
    requires l in spans && r in spans
  {
    (spans - {l, r})[keep := Span(spans[l].level, spans[l].lo, spans[r].hi)]
  }

  lemma DisjointMerge(spans: map<Addr, Span>, l: Addr, r: Addr, keep: Addr)
    requires Disjoint(spans) && l in spans && r in spans && l != r && (keep == l || keep == r)
    requires spans[l].level == spans[r].level && spans[l].hi == spans[r].lo
    requires forall a :: a in spans ==> spans[a].lo < spans[a].hi
    ensures Disjoint(MergeSpans(spans, l, r, keep))
  {
    var spans' := MergeSpans(spans, l, r, keep);
    forall x, y | x in spans' && y in spans' ensures Apart(spans', x, y) {
      assert Apart(spans, x, y) && Apart(spans, l, y) && Apart(spans, r, y) && Apart(spans, x, l) && Apart(spans, x, r);
    }
  }

  lemma MergeSameChildren(n: Node, spans: map<Addr, Span>, l: Addr, r: Addr, keep: Addr)
    requires l in spans && r in spans && (keep == l || keep == r) && Avoids(n, l) && Avoids(n, r)
    ensures SameChildren(n, spans, MergeSpans(spans, l, r, keep))
  {
  }

  lemma ChildrenTransfer(n: Node, p: Span, spans: map<Addr, Span>, spans': map<Addr, Span>)
    requires n.level > 0 && ChildrenOk(n, p, spans) && SameChildren(n, spans, spans')
    ensures ChildrenOk(n, p, spans')
  {
    forall i: nat | i < |n.items| ensures ChildOk(n, p, spans', i) {
      assert ChildOk(n, p, spans, i);
    }
  }

  lemma MergeKept(t: Tree, p: Addr, i: nat, l: Addr, r: Addr, keep: Addr)
    requires NeighbourFacts(t, p, i, l, r) && (keep == l || keep == r)
    requires |Joined(t, l, r).items| <= t.Max(t.spans[l].level)
    ensures keep in Merge(t, p, i, l, r, keep).spans && BlockOk(Merge(t, p, i, l, r, keep), keep)
  {
    JoinedOk(t, p, i, l, r);
    assert BlockOk(t, l);
    var j, jp, t' := Joined(t, l, r), JoinedSpan(t, l, r), Merge(t, p, i, l, r, keep);
    if j.level > 0 {
      MergeSameChildren(j, t.spans, l, r, keep);
      ChildrenTransfer(j, jp, t.spans, t'.spans);
    }
  }

  lemma MergeParentNode(n: Node, p: Span, vs: nat, spans: map<Addr, Span>, i: nat, l: Addr, r: Addr, keep: Addr)
    requires NodeOk(n, p, vs) && n.level > 0 && ChildrenOk(n, p, spans) && i + 1 < |n.items|
    requires n.items[i].val == Ref(l) && n.items[i + 1].val == Ref(r) && l in spans && r in spans && l != r
    requires keep == l || keep == r
    requires forall j :: 0 <= j < |n.items| && j != i && j != i + 1 ==> n.items[j].val != Ref(l) && n.items[j].val != Ref(r)
    ensures NodeOk(n.(items := MergedRefs(n.items, i, keep)), p, vs)
    ensures ChildrenOk(n.(items := MergedRefs(n.items, i, keep)), p, MergeSpans(spans, l, r, keep))
  {
    var n', spans' := n.(items := MergedRefs(n.items, i, keep)), MergeSpans(spans, l, r, keep);
    assert ChildOk(n, p, spans, i) && ChildOk(n, p, spans, i + 1);
    forall j: nat | j < |n'.items| ensures ChildOk(n', p, spans', j) {
      if j < i {
        assert n'.items[j] == n.items[j] && ChildOk(n, p, spans, j);
      } else if j > i {
        assert n'.items[j] == n.items[j + 1] && ChildOk(n, p, spans, j + 1);
      }
    }
  }

  lemma MergeBlocks(t: Tree, p: Addr, i: nat, l: Addr, r: Addr, keep: Addr)
    requires NeighbourFacts(t, p, i, l, r) && (keep == l || keep == r)
    requires |Joined(t, l, r).items| <= t.Max(t.spans[l].level)
    requires p == t.root || t.Max(t.spans[p].level) / 2 < |t.view[p].items|
    ensures AllOk(Merge(t, p, i, l, r, keep))
  {
    var t' := Merge(t, p, i, l, r, keep);
    MergeKept(t, p, i, l, r, keep);
    assert BlockOk(t, p);
    MergeParentNode(t.view[p], t.spans[p], t.vs, t.spans, i, l, r, keep);
    forall b | b in t'.spans ensures BlockOk(t', b) {
      if b != p && b != keep {
        assert BlockOk(t, b);
        if t.spans[b].level > 0 {
          assert Avoids(t.view[b], l) && Avoids(t.view[b], r);
          MergeSameChildren(t.view[b], t.spans, l, r, keep);
        }
        Untouched(t, b, t', b);
      }
    }
  }

  lemma MergeKeepsInv(t: Tree, p: Addr, i: nat, l: Addr, r: Addr, keep: Addr)
    requires Inv(t) && NeighbourFacts(t, p, i, l, r) && (keep == l || keep == r)
    requires |Joined(t, l, r).items| <= t.Max(t.spans[l].level)
    requires p == t.root || t.Max(t.spans[p].level) / 2 < |t.view[p].items|
    ensures Inv(Merge(t, p, i, l, r, keep))
  {
    MergeBlocks(t, p, i, l, r, keep);
    JoinedOk(t, p, i, l, r);
    SpansNonEmpty(t);
    DisjointMerge(t.spans, l, r, keep);
    forall b ensures InTree(Merge(t, p, i, l, r, keep), b) {
      assert InTree(t, b) && InTree(t, l);
    }
  }

  // ---------------------------------------------------------------- Collapsing the root

  /** The root's only child c becomes the root. */
  ghost function Collapse(t: Tree, c: Addr): Tree {
    t.(root := c, height := if t.height > 0 then t.height - 1 else 0, spans := t.spans - {t.root})
  }

  lemma CollapseBlocks(t: Tree, c: Addr)
    requires Inv(t) && ParentOf(t, t.root, 0, c) && |t.view[t.root].items| == 1
    ensures AllOk(Collapse(t, c))
  {
    NothingRefersToRoot(t, t.root);
    var t' := Collapse(t, c);
    forall b | b in t'.spans ensures BlockOk(t', b) {
      assert BlockOk(t, b) && (t.spans[b].level > 0 ==> Avoids(t.view[b], t.root));
      Untouched(t, b, t', b);
    }
  }

  lemma CollapseKeepsInv(t: Tree, c: Addr)
    requires Inv(t) && ParentOf(t, t.root, 0, c) && |t.view[t.root].items| == 1
    ensures Inv(Collapse(t, c))
  {
    var t' := Collapse(t, c);
    CollapseBlocks(t, c);
    ChildFacts(t, t.root, 0);
    assert BlockOk(t, t.root);
    forall x, y | x in t'.spans && y in t'.spans ensures Apart(t'.spans, x, y) {
      assert Apart(t.spans, x, y);
    }
    forall b ensures InTree(t', b) {
      assert InTree(t, b);
      if b in t'.spans {
        assert BlockOk(t, b);
        assert Apart(t.spans, t.root, b);
      }
    }
  }
}
