/**
 The steps that B-tree operations are made of (devd/btree.c:301-512, 651-732), as functions on
 trees, each proved to keep the invariant of BtreeShape.
 */
module BtreeSteps {
  import opened BtreeFormat
  import opened BtreeShape

  /** Whether parent p references block a at position i; the root has no parent. */
  ghost predicate ParentOf(t: Tree, p: Addr, i: nat, a: Addr) {
    && p in t.spans && p in t.view
    && t.spans[p].level > 0 && t.view[p].level > 0
    && i < |t.view[p].items|
    && t.view[p].items[i].val == Ref(a)
  }

  /** Whether none of a block's references is to c. */
  ghost predicate Avoids(n: Node, c: Addr) {
    forall i {:trigger n.items[i]} :: 0 <= i < |n.items| ==> n.items[i].val != Ref(c)
  }

  /** No block of the tree refers to c. */
  ghost predicate Unreferenced(t: Tree, c: Addr, but: Addr) {
    forall a {:trigger Avoids(t.view[a], c)} :: a in t.spans && a in t.view && a != but && t.spans[a].level > 0 ==>
      Avoids(t.view[a], c)
  }

  lemma NothingRefersToRoot(t: Tree, but: Addr)
    requires Inv(t)
    ensures Unreferenced(t, t.root, but)
  {
    forall a | a in t.spans && a in t.view && t.spans[a].level > 0 ensures Avoids(t.view[a], t.root) {
      forall i | 0 <= i < |t.view[a].items| ensures t.view[a].items[i].val != Ref(t.root) {
        ChildFacts(t, a, i);
      }
    }
  }

  /** No block but p references its i'th child, and p references it only there. */
  lemma OnlyParent(t: Tree, p: Addr, i: nat, a: Addr)
    requires Inv(t) && ParentOf(t, p, i, a)
    ensures a in t.spans && a in t.view && t.view[p].level > 0 && t.spans[a] == ChildSpan(t.view[p], t.spans[p], i)
    ensures a != t.root && a != p
    ensures Unreferenced(t, a, p)
    ensures forall j :: 0 <= j < |t.view[p].items| && j != i ==> t.view[p].items[j].val != Ref(a)
  {
    ChildFacts(t, p, i);
    forall b | b in t.spans && b in t.view && b != p && t.spans[b].level > 0 ensures Avoids(t.view[b], a) {
      forall j | 0 <= j < |t.view[b].items| ensures t.view[b].items[j].val != Ref(a) {
        if t.view[b].items[j].val == Ref(a) {
          UniqueParent(t, b, j, p, i);
          assert false;
        }
      }
    }
    forall j | 0 <= j < |t.view[p].items| && j != i ensures t.view[p].items[j].val != Ref(a) {
      if t.view[p].items[j].val == Ref(a) {
        UniqueParent(t, p, j, p, i);
        assert false;
      }
    }
  }

  // ---------------------------------------------------------------- Copy on write

  /** The root is copied to a fresh address c. */
  ghost function CopyRoot(t: Tree, c: Addr): Tree
    requires t.root in t.spans && t.root in t.view
  {
    t.(view := t.view[c := t.view[t.root]], root := c, spans := Rename(t.spans, t.root, c))
  }

  function SetRef(n: Node, i: nat, c: Addr): Node
    requires i < |n.items|
  {
    n.(items := n.items[i := Item(n.items[i].key, Ref(c))])
  }

  /** Child i of p, at address a, is copied to a fresh address c, and the reference to it is updated. */
  ghost function CopyChild(t: Tree, p: Addr, i: nat, a: Addr, c: Addr): Tree
    requires ParentOf(t, p, i, a) && a in t.spans && a in t.view
  {
    t.(view := t.view[p := SetRef(t.view[p], i, c)][c := t.view[a]], spans := Rename(t.spans, a, c))
  }

  /** A block keeps its obligations if nothing it depends on changes. */
  lemma Untouched(t: Tree, a: Addr, t': Tree, a': Addr)
    requires a in t.spans && BlockOk(t, a) && a' in t'.spans && a' in t'.view
    requires t'.view[a'] == t.view[a] && t'.spans[a'] == t.spans[a]
    requires (t'.vs, t'.leafMax, t'.refMax) == (t.vs, t.leafMax, t.refMax)
    requires a == t.root ==> a' == t'.root
    requires t.spans[a].level > 0 ==> SameChildren(t.view[a], t.spans, t'.spans)
    requires t.spans[a].level == 0 ==> t'.contents == t.contents
    ensures BlockOk(t', a')
  {
    var n, p := t.view[a], t.spans[a];
    if p.level > 0 {
      forall i: nat | i < |n.items| ensures ChildOk(n, p, t'.spans, i) {
        assert ChildOk(n, p, t.spans, i);
      }
    }
  }

  /** A tree is as good as before if none of its blocks has changed. */
  lemma SameBlocksSameInv(t: Tree, t': Tree)
    requires Inv(t) && t' == t.(view := t'.view)
    requires forall a :: a in t.spans ==> a in t'.view && a in t.view && t'.view[a] == t.view[a]
    ensures Inv(t')
  {
    forall a | a in t'.spans ensures BlockOk(t', a) {
      assert BlockOk(t, a);
      Untouched(t, a, t', a);
    }
    forall a ensures InTree(t', a) {
      assert InTree(t, a);
    }
  }

  /** The blocks that n refers to keep their spans. */
  ghost predicate SameChildren(n: Node, spans: map<Addr, Span>, spans': map<Addr, Span>) {
    forall i {:trigger n.items[i]} :: 0 <= i < |n.items| && n.items[i].val.Ref? && n.items[i].val.addr in spans ==>
      n.items[i].val.addr in spans' && spans'[n.items[i].val.addr] == spans[n.items[i].val.addr]
  }

  /** The spans after block a has moved to address c. */
  ghost function Rename(spans: map<Addr, Span>, a: Addr, c: Addr): map<Addr, Span>
    requires a in spans
  {
    (spans - {a})[c := spans[a]]
  }

  lemma RenameKeepsChildren(n: Node, spans: map<Addr, Span>, a: Addr, c: Addr)
    requires a in spans && c !in spans && Avoids(n, a)
    ensures SameChildren(n, spans, Rename(spans, a, c))
  {
  }

  lemma DisjointRename(spans: map<Addr, Span>, a: Addr, c: Addr)
    requires Disjoint(spans) && a in spans && c !in spans
    ensures Disjoint(Rename(spans, a, c))
  {
    var spans' := Rename(spans, a, c);
    forall x, y | x in spans' && y in spans' ensures Apart(spans', x, y) {
      assert Apart(spans, if x == c then a else x, if y == c then a else y);
    }
  }

  lemma CopyRootKeepsInv(t: Tree, c: Addr)
    requires Inv(t) && c !in t.spans
    ensures Inv(CopyRoot(t, c))
  {
    NothingRefersToRoot(t, c);
    var t' := CopyRoot(t, c);
    forall a' | a' in t'.spans ensures BlockOk(t', a') {
      var a := if a' == c then t.root else a';
      assert BlockOk(t, a);
      if t.spans[a].level > 0 {
        assert Avoids(t.view[a], t.root);
        RenameKeepsChildren(t.view[a], t.spans, t.root, c);
      }
      Untouched(t, a, t', a');
    }
    DisjointRename(t.spans, t.root, c);
    forall a ensures InTree(t', a) {
      assert InTree(t, if a == c then t.root else a);
    }
  }

  lemma SetRefNode(n: Node, p: Span, vs: nat, i: nat, c: Addr)
    requires NodeOk(n, p, vs) && n.level > 0 && i < |n.items|
    ensures NodeOk(SetRef(n, i, c), p, vs)
  {
  }

  lemma SetRefChildren(n: Node, p: Span, spans: map<Addr, Span>, i: nat, a: Addr, c: Addr)
    requires n.level > 0 && ChildrenOk(n, p, spans)
    requires i < |n.items| && n.items[i].val == Ref(a) && a in spans && c !in spans
    requires forall j :: 0 <= j < |n.items| && j != i ==> n.items[j].val != Ref(a)
    ensures ChildrenOk(SetRef(n, i, c), p, Rename(spans, a, c))
  {
    var n' := SetRef(n, i, c);
    forall j: nat | j < |n'.items| ensures ChildOk(n', p, Rename(spans, a, c), j) {
      assert ChildOk(n, p, spans, j);
    }
  }

  lemma CopyChildBlocks(t: Tree, p: Addr, i: nat, a: Addr, c: Addr)
    requires AllOk(t) && ParentOf(t, p, i, a) && a != p && a != t.root
    requires a in t.spans && a in t.view && c !in t.spans
    requires forall j :: 0 <= j < |t.view[p].items| && j != i ==> t.view[p].items[j].val != Ref(a)
    requires Unreferenced(t, a, p)
    ensures AllOk(CopyChild(t, p, i, a, c))
  {
    var t' := CopyChild(t, p, i, a, c);
    forall a' | a' in t'.spans ensures BlockOk(t', a') {
      var a0 := if a' == c then a else a';
      assert BlockOk(t, a0);
      if a' == p {
        SetRefNode(t.view[p], t.spans[p], t.vs, i, c);
        SetRefChildren(t.view[p], t.spans[p], t.spans, i, a, c);
      } else {
        if t.spans[a0].level > 0 {
          assert Avoids(t.view[a0], a);
          RenameKeepsChildren(t.view[a0], t.spans, a, c);
        }
        Untouched(t, a0, t', a');
      }
    }
  }

  lemma CopyChildKeepsInv(t: Tree, p: Addr, i: nat, a: Addr, c: Addr)
    requires Inv(t) && ParentOf(t, p, i, a) && c !in t.spans
    ensures a in t.spans && a in t.view
    ensures Inv(CopyChild(t, p, i, a, c))
  {
    OnlyParent(t, p, i, a);
    CopyChildBlocks(t, p, i, a, c);
    DisjointRename(t.spans, a, c);
    forall b ensures InTree(CopyChild(t, p, i, a, c), b) {
      assert InTree(t, if b == c then a else b);
    }
  }
}
