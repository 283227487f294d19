/**
 A delete's walk (devd/btree.c:442-625): it makes the blocks on the way down modifiable, and
 refills each half-empty one from a sibling before going below it.
 */
module BtreeRemove {
  import opened BtreeFormat
  import opened BtreePacking
  import opened BtreeShape
  import opened BtreeSteps
  import opened BtreeMerge
  import opened BtreeWalk
  import opened BtreeCache
  import opened BtreeInsert
  import opened Wrappers

  // ---------------------------------------------------------------- Refilling, as values

  /** Blocks a and b are neighbours under p: a at i, b right before it or right after it. */
  ghost predicate Siblings(t: Tree, p: Addr, i: nat, a: Addr, b: Addr, bFirst: bool) {
    if bFirst then i > 0 && Neighbours(t, p, i - 1, b, a) else Neighbours(t, p, i, a, b)
  }

  /** The position of the left one. */
  function LeftIndex(i: nat, bFirst: bool): nat {
    if bFirst && i > 0 then i - 1 else i
  }

  lemma SiblingFacts(s: Stored, t: Tree, p: Addr, i: nat, a: Addr, b: Addr, bFirst: bool)
    requires TreeOk(s, t) && Siblings(t, p, i, a, b, bFirst)
    ensures a in t.spans && b in t.spans && a in t.view && b in t.view && a != b && a != p && b != p && a != t.root && b != t.root
    ensures p in t.spans && t.spans[a].level == t.spans[b].level && t.spans[p].level == t.spans[a].level + 1
    ensures NeighbourFacts(t, p, LeftIndex(i, bFirst), if bFirst then b else a, if bFirst then a else b)
    ensures t.view[a].level == t.view[b].level == t.spans[a].level
  {
    assert Look(0);
    var j, l, r := LeftIndex(i, bFirst), if bFirst then b else a, if bFirst then a else b;
    NeighboursHaveFacts(t, p, j, l, r);
    JoinedOk(t, p, j, l, r);
    assert BlockOk(t, a) && BlockOk(t, b) && BlockOk(t, p);
  }

  /** a takes all of b's items and b leaves the tree. */
  ghost function Absorb(t: Tree, p: Addr, i: nat, a: Addr, b: Addr, bFirst: bool): Tree
    requires NeighbourFacts(t, p, LeftIndex(i, bFirst), if bFirst then b else a, if bFirst then a else b)
  {
    Merge(t, p, LeftIndex(i, bFirst), if bFirst then b else a, if bFirst then a else b, a)
  }

  /** a takes n of b's items, those nearest to it. */
  ghost function Borrow(t: Tree, p: Addr, i: nat, a: Addr, b: Addr, bFirst: bool, n: nat): Tree
    requires NeighbourFacts(t, p, LeftIndex(i, bFirst), if bFirst then b else a, if bFirst then a else b)
    requires a in t.view && b in t.view && 0 < n < |t.view[b].items|
  {
    if bFirst then Shift(t, p, LeftIndex(i, true), b, a, |t.view[b].items| - n)
    else Shift(t, p, i, a, b, |t.view[a].items| + n)
  }

  /** The stored blocks after n items moved from b to a. */
  ghost function Took(s: Stored, a: Addr, b: Addr, bFirst: bool, n: nat): Stored
    requires a in s.view && b in s.view && a != b && n <= |s.view[b].items|
  {
    if bFirst then Moved(s, a, 0, b, |s.view[b].items| - n, n) else Moved(s, a, |s.view[a].items|, b, 0, n)
  }

  lemma TookItems(s: Stored, a: Addr, b: Addr, bFirst: bool, n: nat)
    requires a in s.view && b in s.view && a != b && n <= |s.view[b].items|
    ensures var (x, y, s') := (s.view[a].items, s.view[b].items, Took(s, a, b, bFirst, n));
      && s'.view == s.view
        [a := Node(s.view[a].level, if bFirst then y[|y| - n..] + x else x + y[..n])]
        [b := Node(s.view[b].level, if bFirst then y[..|y| - n] else y[n..])]
      && s' == s.(view := s'.view)
  {
    var x, y := s.view[a].items, s.view[b].items;
    if bFirst {
      assert InsertRange(x, 0, y[|y| - n..|y| - n + n]) == y[|y| - n..] + x;
      assert RemoveRange(y, |y| - n, n) == y[..|y| - n];
    } else {
      assert InsertRange(x, |x|, y[0..0 + n]) == x + y[..n];
      assert RemoveRange(y, 0, n) == y[n..];
    }
  }

  lemma TookAll(s: Stored, a: Addr, b: Addr, bFirst: bool)
    requires a in s.view && b in s.view && a != b
    ensures var (x, y, s') := (s.view[a].items, s.view[b].items, Took(s, a, b, bFirst, |s.view[b].items|));
      && s'.view == s.view[b := Node(s.view[b].level, [])][a := Node(s.view[a].level, if bFirst then y + x else x + y)]
      && s' == s.(view := s'.view)
  {
    var x, y := s.view[a].items, s.view[b].items;
    TookItems(s, a, b, bFirst, |y|);
    WholeSlices(y);
    SwapPuts(s.view, a, Node(s.view[a].level, if bFirst then y + x else x + y), b, Node(s.view[b].level, []));
  }

  lemma WholeSlices(y: seq<Item>)
    ensures y[|y| - |y|..] == y && y[..|y|] == y && y[..|y| - |y|] == [] && y[|y|..] == []
  {
  }

  lemma SwapPuts(view: map<Addr, Node>, a: Addr, n: Node, b: Addr, m: Node)
    requires a != b
    ensures view[a := n][b := m] == view[b := m][a := n]
  {
  }

  lemma AbsorbStep(s: Stored, s': Stored, t: Tree, p: Addr, i: nat, a: Addr, b: Addr, bFirst: bool)
    requires TreeOk(s, t) && Siblings(t, p, i, a, b, bFirst) && s.log.dirty.Some?
    requires a in s.view && b in s.view && p in s.view && a != b && a in s.mod && b in s.mod && p in s.mod
    requires a in t.spans && |t.view[a].items| + |t.view[b].items| <= t.Max(t.spans[a].level)
    requires p == t.root || t.Max(t.spans[p].level) / 2 < |t.view[p].items|
    requires LeftIndex(i, bFirst) + 1 < |t.view[p].items|
    requires p in Took(s, a, b, bFirst, |s.view[b].items|).view
    requires s' == PutItems(Took(s, a, b, bFirst, |s.view[b].items|), p, MergedRefs(t.view[p].items, LeftIndex(i, bFirst), a))
    ensures NeighbourFacts(t, p, LeftIndex(i, bFirst), if bFirst then b else a, if bFirst then a else b)
    ensures TreeOk(s', Absorb(t, p, i, a, b, bFirst))
    ensures StepTo(SnapOf(s, t), SnapOf(s', Absorb(t, p, i, a, b, bFirst)), 0)
  {
    SiblingFacts(s, t, p, i, a, b, bFirst);
    TookAll(s, a, b, bFirst);
    assert Look(0);
    var t' := Absorb(t, p, i, a, b, bFirst);
    MergeKeepsInv(t, p, LeftIndex(i, bFirst), if bFirst then b else a, if bFirst then a else b, a);
    assert s'.view == t'.view;
    var m, m' := SnapOf(s, t), SnapOf(s', t');
    forall x ensures KeptAt(m, m', x) {
    }
  }

  /** The items that move when there are too many for one block: the sibling keeps half of the total. */
  lemma BorrowCounts(x: nat, y: nat, max: nat)
    requires x <= max / 2 && y <= max && max < x + y && max % 2 == 0
    ensures var n := y - (x + y) / 2;
      && 0 < n < y && max / 2 < x + n <= max && max / 2 <= y - n <= max
  {
  }

  lemma BorrowView(t: Tree, p: Addr, i: nat, a: Addr, b: Addr, bFirst: bool, n: nat)
    requires NeighbourFacts(t, p, LeftIndex(i, bFirst), if bFirst then b else a, if bFirst then a else b)
    requires bFirst ==> i > 0
    requires a in t.view && b in t.view && 0 < n < |t.view[b].items| && t.view[a].level == t.view[b].level
    ensures var (x, y, t', left) := (t.view[a].items, t.view[b].items, Borrow(t, p, i, a, b, bFirst, n), if bFirst then b else a);
      t'.view == t.view
        [a := Node(t.view[a].level, if bFirst then y[|y| - n..] + x else x + y[..n])]
        [b := Node(t.view[b].level, if bFirst then y[..|y| - n] else y[n..])]
        [p := Node(t.view[p].level, t.view[p].items[LeftIndex(i, bFirst) :=
          Item(if bFirst then y[|y| - n - 1].key else y[n - 1].key, Ref(left))])]
  {
    var x, y := t.view[a].items, t.view[b].items;
    if bFirst {
      assert (y + x)[..|y| - n] == y[..|y| - n] && (y + x)[|y| - n..] == y[|y| - n..] + x;
    } else {
      assert (x + y)[..|x| + n] == x + y[..n] && (x + y)[|x| + n..] == y[n..];
    }
  }

  lemma BorrowKeepsInv(t: Tree, p: Addr, i: nat, a: Addr, b: Addr, bFirst: bool, n: nat)
    requires Inv(t) && Siblings(t, p, i, a, b, bFirst)
    requires NeighbourFacts(t, p, LeftIndex(i, bFirst), if bFirst then b else a, if bFirst then a else b)
    requires t.spans[a].level == t.spans[b].level && 0 < n < |t.view[b].items|
    requires var max := t.Max(t.spans[a].level);
      max / 2 <= |t.view[a].items| + n <= max && max / 2 <= |t.view[b].items| - n <= max
    ensures Inv(Borrow(t, p, i, a, b, bFirst, n))
  {
    if bFirst {
      ShiftKeepsInv(t, p, i - 1, b, a, |t.view[b].items| - n);
    } else {
      ShiftKeepsInv(t, p, i, a, b, |t.view[a].items| + n);
    }
  }

  lemma BorrowTree(s: Stored, s': Stored, t: Tree, p: Addr, i: nat, a: Addr, b: Addr, bFirst: bool, n: nat)
    requires TreeOk(s, t) && Siblings(t, p, i, a, b, bFirst)
    requires NeighbourFacts(t, p, LeftIndex(i, bFirst), if bFirst then b else a, if bFirst then a else b)
    requires t.spans[a].level == t.spans[b].level && 0 < n < |t.view[b].items|
    requires var max := t.Max(t.spans[a].level);
      max / 2 <= |t.view[a].items| + n <= max && max / 2 <= |t.view[b].items| - n <= max
    requires s'.view == Borrow(t, p, i, a, b, bFirst, n).view && s'.sizes == s.sizes
    ensures TreeOk(s', Borrow(t, p, i, a, b, bFirst, n))
  {
    assert Look(0);
    BorrowKeepsInv(t, p, i, a, b, bFirst, n);
  }

  lemma BorrowKeys(t: Tree, p: Addr, i: nat, a: Addr, b: Addr, bFirst: bool, n: nat)
    requires NeighbourFacts(t, p, LeftIndex(i, bFirst), if bFirst then b else a, if bFirst then a else b) && (bFirst ==> i > 0)
    requires a in t.view && b in t.view && 0 < n < |t.view[b].items| && a in t.spans && b in t.spans
    ensures var t' := Borrow(t, p, i, a, b, bFirst, n); t'.view.Keys == t.view.Keys && t'.spans.Keys == t.spans.Keys
  {
  }

  /** Only blocks that may be changed are, and no block joins or leaves the tree. */
  lemma SameBlocksStep(s: Stored, s': Stored, t: Tree, t': Tree)
    requires s.log.dirty.Some? && s' == s.(view := s'.view)
    requires t'.view.Keys == t.view.Keys && t'.spans.Keys == t.spans.Keys
    requires forall x {:trigger t'.view[x]} :: x in t.view && x !in s.mod ==> t'.view[x] == t.view[x]
    ensures StepTo(SnapOf(s, t), SnapOf(s', t'), 0)
  {
    forall x ensures KeptAt(SnapOf(s, t), SnapOf(s', t'), x) {
      assert x in t'.view.Keys <==> x in t.view.Keys;
      assert x in t'.spans.Keys <==> x in t.spans.Keys;
    }
  }

  /** What is stored is the tree after a borrowed n items, and no other block has changed. */
  lemma BorrowStores(s: Stored, s': Stored, t: Tree, p: Addr, i: nat, a: Addr, b: Addr, bFirst: bool, n: nat)
    requires NeighbourFacts(t, p, LeftIndex(i, bFirst), if bFirst then b else a, if bFirst then a else b) && (bFirst ==> i > 0)
    requires t.view == s.view && a in s.view && b in s.view && p in s.view && a != b && a in s.mod && b in s.mod && p in s.mod
    requires 0 < n < |t.view[b].items| && t.view[a].level == t.view[b].level && p != a && p != b
    requires LeftIndex(i, bFirst) < |t.view[p].items| && p in Took(s, a, b, bFirst, n).view
    requires s' == PutItems(Took(s, a, b, bFirst, n), p, t.view[p].items[LeftIndex(i, bFirst) :=
      Item(if bFirst then t.view[b].items[|t.view[b].items| - n - 1].key else t.view[b].items[n - 1].key, Ref(if bFirst then b else a))])
    ensures s' == s.(view := Borrow(t, p, i, a, b, bFirst, n).view)
    ensures forall x {:trigger s'.view[x]} :: x in t.view && x !in s.mod ==> x in s'.view && s'.view[x] == t.view[x]
  {
    TookItems(s, a, b, bFirst, n);
    BorrowView(t, p, i, a, b, bFirst, n);
  }

  lemma BorrowStep(s: Stored, s': Stored, t: Tree, p: Addr, i: nat, a: Addr, b: Addr, bFirst: bool, n: nat)
    requires TreeOk(s, t) && Siblings(t, p, i, a, b, bFirst) && s.log.dirty.Some?
    requires a in s.view && b in s.view && p in s.view && a != b && a in s.mod && b in s.mod && p in s.mod
    requires a in t.spans
    requires var max := t.Max(t.spans[a].level);
      0 < n < |t.view[b].items| && max / 2 <= |t.view[a].items| + n <= max && max / 2 <= |t.view[b].items| - n <= max
    requires LeftIndex(i, bFirst) < |t.view[p].items|
    requires p in Took(s, a, b, bFirst, n).view
    requires s' == PutItems(Took(s, a, b, bFirst, n), p, t.view[p].items[LeftIndex(i, bFirst) :=
      Item(if bFirst then t.view[b].items[|t.view[b].items| - n - 1].key else t.view[b].items[n - 1].key, Ref(if bFirst then b else a))])
    ensures NeighbourFacts(t, p, LeftIndex(i, bFirst), if bFirst then b else a, if bFirst then a else b)
    ensures TreeOk(s', Borrow(t, p, i, a, b, bFirst, n))
    ensures StepTo(SnapOf(s, t), SnapOf(s', Borrow(t, p, i, a, b, bFirst, n)), 0)
  {
    SiblingFacts(s, t, p, i, a, b, bFirst);
    BorrowStores(s, s', t, p, i, a, b, bFirst, n);
    var t' := Borrow(t, p, i, a, b, bFirst, n);
    BorrowTree(s, s', t, p, i, a, b, bFirst, n);
    BorrowKeys(t, p, i, a, b, bFirst, n);
    SameBlocksStep(s, s', t, t');
  }

  lemma CollapseStep(s: Stored, t: Tree, c: Addr)
    requires TreeOk(s, t) && ParentOf(t, t.root, 0, c) && |t.view[t.root].items| == 1 && s.log.dirty.Some?
    ensures c in t.spans && TreeOk(s, Collapse(t, c))
    ensures StepTo(SnapOf(s, t), SnapOf(s, Collapse(t, c)), 0)
    ensures t.height > 1
  {
    assert Look(0);
    ChildFacts(t, t.root, 0);
    assert InTree(t, t.root);
    CollapseKeepsInv(t, c);
    var m, m' := SnapOf(s, t), SnapOf(s, Collapse(t, c));
    forall x ensures KeptAt(m, m', x) {
    }
  }

  // ---------------------------------------------------------------- Refilling, on the stored blocks

  /** What moving items between siblings needs. */
  lemma TakeFacts(s: Stored, t: Tree, p: Addr, i: nat, a: Addr, b: Addr, bFirst: bool)
    requires TreeOk(s, t) && Siblings(t, p, i, a, b, bFirst)
    ensures a in s.view && b in s.view && p in s.view && a in s.sizes && b in s.sizes && p in s.sizes && a in t.spans && p in t.spans
    ensures a != b && a != p && b != p && a != t.root && b != t.root
    ensures s.view[a].level == s.view[b].level == t.spans[a].level && s.sizes[a] == s.sizes[b]
    ensures LayoutOf(BlockValSize(s.view[a].level, s.sizes[a])).max == t.Max(t.spans[a].level)
    ensures t.GoodSizes() && |t.view[b].items| <= t.Max(t.spans[a].level) && |t.view[a].items| <= t.Max(t.spans[a].level)
    ensures t.Max(t.spans[a].level) / 2 <= |t.view[a].items| && t.Max(t.spans[a].level) / 2 <= |t.view[b].items|
    ensures forall j :: 0 <= j < |s.view[b].items| ==> s.view[b].items[j].val.Size() == BlockValSize(s.view[a].level, s.sizes[a])
    ensures Sorted(s.view[b].items) && Sorted(s.view[p].items)
    ensures s.view[p].level > 0 && AllRefs(s.view[p].items) && s.view[p].items[i].val == Ref(a)
    ensures LeftIndex(i, bFirst) + 1 < |s.view[p].items| && i < |s.view[p].items|
    ensures s.view[p].items[if bFirst then i - 1 else i + 1].val == Ref(b)
  {
    SiblingFacts(s, t, p, i, a, b, bFirst);
    NodeFacts(s, t, a);
    NodeFacts(s, t, b);
    NodeFacts(s, t, p);
    assert Look(0);
    assert BlockOk(t, p);
  }

  method TakeItems(cache: Cache, root: Root, ghost t: Tree, ghost p: Addr, ghost i: nat, a: Addr, b: Addr, bFirst: bool, n: nat)
    requires Ready(cache, root, t) && Siblings(t, p, i, a, b, bFirst) && a in t.view && b in t.view && a != b
    requires a in cache.st.mod && b in cache.st.mod && n <= |t.view[b].items|
    requires a in t.spans && |t.view[a].items| + n <= t.Max(t.spans[a].level)
    modifies cache.repr
    ensures cache.Valid() && cache.repr == old(cache.repr) && cache.st == Took(old(cache.st), a, b, bFirst, n)
  {
    TakeFacts(cache.st, t, p, i, a, b, bFirst);
    var la, sa, nra := cache.Header(a);
    var lb, sb, nrb := cache.Header(b);
    if bFirst {
      cache.MoveItems(a, 0, b, nrb - n, n);
    } else {
      cache.MoveItems(a, nra, b, 0, n);
    }
  }

  lemma MergedRefsSorted(items: seq<Item>, i: nat, bFirst: bool, a: Addr)
    requires Sorted(items) && AllRefs(items) && LeftIndex(i, bFirst) + 1 < |items| && i < |items| && items[i].val == Ref(a)
    requires bFirst ==> i > 0
    ensures Sorted(MergedRefs(items, LeftIndex(i, bFirst), a))
    ensures bFirst ==> RemoveAt(items, i - 1) == MergedRefs(items, LeftIndex(i, bFirst), a)
    ensures !bFirst ==> RemoveAt(items[i := Item(items[i + 1].key, items[i].val)], i + 1) == MergedRefs(items, i, a)
  {
  }

  /** The parent drops the reference before or after the i'th, which is to a and gets the greater of the two keys. */
  method DropRef(cache: Cache, p: Addr, i: nat, ghost a: Addr, bFirst: bool)
    requires cache.Valid() && p in cache.st.view && p in cache.st.mod && p in cache.st.sizes && cache.st.view[p].level > 0
    requires Sorted(cache.st.view[p].items) && AllRefs(cache.st.view[p].items)
    requires LeftIndex(i, bFirst) + 1 < |cache.st.view[p].items| && i < |cache.st.view[p].items| && (bFirst ==> i > 0)
    requires cache.st.view[p].items[i].val == Ref(a)
    modifies cache.repr
    ensures cache.Valid() && cache.repr == old(cache.repr)
    ensures cache.st == PutItems(old(cache.st), p, MergedRefs(old(cache.st).view[p].items, LeftIndex(i, bFirst), a))
  {
    MergedRefsSorted(cache.st.view[p].items, i, bFirst, a);
    if bFirst {
      cache.DeleteItem(p, i - 1);
    } else {
      var mine := cache.GetItem(p, i);
      var next := cache.GetItem(p, i + 1);
      cache.UpdateItem(p, i, Item(next.key, mine.val));
      cache.DeleteItem(p, i + 1);
    }
  }

  /** All of b's items move to a, and the parent drops its reference to b. */
  method TakeAll(cache: Cache, root: Root, ghost t: Tree, p: Addr, i: nat, a: Addr, b: Addr, bFirst: bool, nrb: nat)
      returns (ghost t': Tree)
    requires Ready(cache, root, t) && Siblings(t, p, i, a, b, bFirst)
    requires a in t.view && b in t.view && a in t.spans && p in t.spans && p in t.view && a != b
    requires a in cache.st.mod && b in cache.st.mod && p in cache.st.mod
    requires nrb == |t.view[b].items| && |t.view[a].items| + nrb <= t.Max(t.spans[a].level)
    requires p == t.root || t.Max(t.spans[p].level) / 2 < |t.view[p].items|
    modifies cache.repr
    ensures NeighbourFacts(t, p, LeftIndex(i, bFirst), if bFirst then b else a, if bFirst then a else b)
    ensures t' == Absorb(t, p, i, a, b, bFirst) && Ready(cache, root, t') && fresh(cache.repr - old(cache.repr))
    ensures StepTo(SnapOf(old(cache.st), t), SnapOf(cache.st, t'), 0) && cache.st.visited == old(cache.st.visited)
  {
    ghost var s := cache.st;
    TakeFacts(s, t, p, i, a, b, bFirst);
    TakeItems(cache, root, t, p, i, a, b, bFirst, nrb);
    TookAll(s, a, b, bFirst);
    DropRef(cache, p, i, a, bFirst);
    AbsorbStep(s, cache.st, t, p, i, a, b, bFirst);
    t' := Absorb(t, p, i, a, b, bFirst);
  }

  /** After n of b's items moved to a: the parent is as before, and the last key of the left one of the two is known. */
  lemma TookSome(s: Stored, p: Addr, i: nat, a: Addr, b: Addr, bFirst: bool, n: nat)
    requires a in s.view && b in s.view && p in s.view && a != b && p != a && p != b && 0 < n < |s.view[b].items|
    ensures var (s', y, left) := (Took(s, a, b, bFirst, n), s.view[b].items, if bFirst then b else a);
      && s' == s.(view := s'.view)
      && p in s'.view && left in s'.view && s'.view[p] == s.view[p]
      && |s'.view[left].items| > 0
      && s'.view[left].items[|s'.view[left].items| - 1].key == if bFirst then y[|y| - n - 1].key else y[n - 1].key
  {
    TookItems(s, a, b, bFirst, n);
  }

  /** A parent's reference gets the last key of the block that it refers to. */
  method SetLastKey(cache: Cache, p: Addr, j: nat, c: Addr)
    requires cache.Valid() && p in cache.st.view && c in cache.st.view && p in cache.st.mod && p in cache.st.sizes
    requires cache.st.view[p].level > 0 && j < |cache.st.view[p].items| && cache.st.view[p].items[j].val.Ref?
    requires |cache.st.view[c].items| > 0
    modifies cache.repr
    ensures cache.Valid() && cache.repr == old(cache.repr)
    ensures var (ref, items) := (old(cache.st).view[p].items[j].val, old(cache.st).view[c].items);
      cache.st == PutItems(old(cache.st), p, old(cache.st).view[p].items[j := Item(items[|items| - 1].key, ref)])
  {
    var _, _, nr := cache.Header(c);
    var last := cache.GetItem(c, nr - 1);
    var mine := cache.GetItem(p, j);
    cache.UpdateItem(p, j, Item(last.key, mine.val));
  }

  /** Some of b's items move to a, and the key between the two is set anew. */
  method TakeSome(cache: Cache, root: Root, ghost t: Tree, p: Addr, i: nat, a: Addr, b: Addr, bFirst: bool, n: nat)
      returns (ghost t': Tree)
    requires Ready(cache, root, t) && Siblings(t, p, i, a, b, bFirst)
    requires a in t.view && b in t.view && a in t.spans && p in t.spans && p in t.view && a != b
    requires a in cache.st.mod && b in cache.st.mod && p in cache.st.mod
    requires var max := t.Max(t.spans[a].level);
      0 < n < |t.view[b].items| && max / 2 <= |t.view[a].items| + n <= max && max / 2 <= |t.view[b].items| - n <= max
    modifies cache.repr
    ensures NeighbourFacts(t, p, LeftIndex(i, bFirst), if bFirst then b else a, if bFirst then a else b)
    ensures t' == Borrow(t, p, i, a, b, bFirst, n) && Ready(cache, root, t') && fresh(cache.repr - old(cache.repr))
    ensures StepTo(SnapOf(old(cache.st), t), SnapOf(cache.st, t'), 0) && cache.st.visited == old(cache.st.visited)
  {
    ghost var s := cache.st;
    TakeFacts(s, t, p, i, a, b, bFirst);
    TakeItems(cache, root, t, p, i, a, b, bFirst, n);
    TookSome(s, p, i, a, b, bFirst, n);
    SetLastKey(cache, p, if bFirst then i - 1 else i, if bFirst then b else a);
    BorrowStep(s, cache.st, t, p, i, a, b, bFirst, n);
    t' := Borrow(t, p, i, a, b, bFirst, n);
  }

  // ---------------------------------------------------------------- The path of a delete

  /** A block on the path at or above this level is the root, or more than half full. */
  ghost predicate CleanAt(t: Tree, key: Key, level: nat, a: Addr) {
    OnPath(t, a, key) && a in t.view && t.spans[a].level >= level ==>
      a == t.root || t.Max(t.spans[a].level) / 2 < |t.view[a].items|
  }

  ghost predicate PathClean(t: Tree, key: Key, level: nat) {
    forall a {:trigger CleanAt(t, key, level, a)} :: CleanAt(t, key, level, a)
  }

  lemma CleanAtTop(s: Stored, t: Tree, key: Key)
    requires TreeOk(s, t)
    ensures PathClean(t, key, t.height)
  {
    assert Look(0);
    forall a ensures CleanAt(t, key, t.height, a) {
      assert InTree(t, a);
    }
  }

  lemma CleanCopyRoot(s: Stored, t: Tree, key: Key, level: nat, c: Addr)
    requires TreeOk(s, t) && PathClean(t, key, level) && c !in t.spans
    ensures PathClean(CopyRoot(t, c), key, level)
  {
    assert Look(0);
    var t' := CopyRoot(t, c);
    forall a ensures CleanAt(t', key, level, a) {
      assert CleanAt(t, key, level, if a == c then t.root else a);
    }
  }

  lemma CleanCopyChild(s: Stored, t: Tree, key: Key, level: nat, p: Addr, i: nat, a: Addr, c: Addr)
    requires TreeOk(s, t) && PathClean(t, key, level) && c !in t.spans && ParentOf(t, p, i, a) && a in t.spans && a in t.view
    ensures PathClean(CopyChild(t, p, i, a, c), key, level)
  {
    assert Look(0);
    var t' := CopyChild(t, p, i, a, c);
    OnlyParent(t, p, i, a);
    forall b ensures CleanAt(t', key, level, b) {
      assert CleanAt(t, key, level, if b == c then a else b);
    }
  }

  /** The block one level down is fit to descend through. */
  lemma CleanBelow(s: Stored, t: Tree, key: Key, a: Addr)
    requires TreeOk(s, t) && OnPath(t, a, key) && a in t.view && PathClean(t, key, t.spans[a].level + 1)
    requires a == t.root || t.Max(t.spans[a].level) / 2 < |t.view[a].items|
    ensures PathClean(t, key, t.spans[a].level)
  {
    assert Look(0);
    forall b ensures CleanAt(t, key, t.spans[a].level, b) {
      assert CleanAt(t, key, t.spans[a].level + 1, b);
      assert OnPath(t, b, key) ==> Apart(t.spans, a, b);
    }
  }

  /** After borrowing, the key is still below a, and a is fit to descend through. */
  lemma CleanBorrow(s: Stored, t: Tree, key: Key, p: Addr, i: nat, a: Addr, b: Addr, bFirst: bool, n: nat)
    requires TreeOk(s, t) && Siblings(t, p, i, a, b, bFirst) && OnPath(t, a, key)
    requires NeighbourFacts(t, p, LeftIndex(i, bFirst), if bFirst then b else a, if bFirst then a else b)
    requires PathClean(t, key, t.spans[a].level + 1)
    requires 0 < n < |t.view[b].items| && t.Max(t.spans[a].level) / 2 < |t.view[a].items| + n
    ensures PathClean(Borrow(t, p, i, a, b, bFirst, n), key, t.spans[a].level)
  {
    SiblingFacts(s, t, p, i, a, b, bFirst);
    BorrowView(t, p, i, a, b, bFirst, n);
    BorrowedSpan(s, t, p, i, a, b, bFirst, n, key);
    assert Look(0);
    var t' := Borrow(t, p, i, a, b, bFirst, n);
    forall x ensures CleanAt(t', key, t.spans[a].level, x) {
      assert CleanAt(t, key, t.spans[a].level + 1, x);
      assert OnPath(t, x, key) ==> Apart(t.spans, a, x);
    }
  }

  /** Borrowing widens a's interval at b's expense. */
  lemma BorrowedSpan(s: Stored, t: Tree, p: Addr, i: nat, a: Addr, b: Addr, bFirst: bool, n: nat, key: Key)
    requires TreeOk(s, t) && Siblings(t, p, i, a, b, bFirst) && OnPath(t, a, key)
    requires NeighbourFacts(t, p, LeftIndex(i, bFirst), if bFirst then b else a, if bFirst then a else b)
    requires 0 < n < |t.view[b].items|
    ensures OnPath(Borrow(t, p, i, a, b, bFirst, n), a, key) && !OnPath(Borrow(t, p, i, a, b, bFirst, n), b, key)
    ensures forall x :: x != a && x != b ==> OnPath(Borrow(t, p, i, a, b, bFirst, n), x, key) == OnPath(t, x, key)
  {
    SiblingFacts(s, t, p, i, a, b, bFirst);
    assert Look(0);
    assert BlockOk(t, a) && BlockOk(t, b);
    var y := t.view[b].items;
    if bFirst {
      assert y[|y| - n - 1].key <= t.spans[b].hi;
    } else {
      assert t.spans[b].lo < y[n - 1].key;
    }
  }

  // ---------------------------------------------------------------- The walk

  lemma RenameSize(spans: map<Addr, Span>, a: Addr, c: Addr)
    requires a in spans && c !in spans
    ensures |Rename(spans, a, c)| == |spans|
  {
    assert Rename(spans, a, c).Keys == spans.Keys - {a} + {c};
  }

  lemma MergeSize(spans: map<Addr, Span>, l: Addr, r: Addr, keep: Addr)
    requires l in spans && r in spans && l != r && (keep == l || keep == r)
    ensures |MergeSpans(spans, l, r, keep)| == |spans| - 1
  {
    var gone := if keep == l then r else l;
    assert MergeSpans(spans, l, r, keep).Keys == spans.Keys - {gone};
  }

  lemma CollapseSize(t: Tree, c: Addr)
    requires t.root in t.spans
    ensures |Collapse(t, c).spans| == |t.spans| - 1
  {
    assert Collapse(t, c).spans.Keys == t.spans.Keys - {t.root};
  }

  /** The state of a delete's walk for key, n allocations after it began with s0 and t0. */
  ghost predicate Delving(s0: Stored, t0: Tree, s: Stored, t: Tree, key: Key, level: nat, n: nat) {
    && Sane(SnapOf(s0, t0))
    && t.root in t.view && RootFull(t) && t.contents == t0.contents && t.vs == t0.vs
    && StepTo(SnapOf(s0, t0), SnapOf(s, t), n)
    && PathClean(t, key, level) && Undisturbed(t0, t, key)
  }

  /** A path that was fit to descend all the way still is, and the tree as high. */
  ghost predicate Undisturbed(t: Tree, t': Tree, key: Key) {
    PathClean(t, key, 0) ==> PathClean(t', key, 0) && t'.height == t.height
  }

  lemma DelveStep(s0: Stored, t0: Tree, s: Stored, t: Tree, s': Stored, t': Tree, key: Key, level: nat, level': nat, n: nat, m: nat)
    requires Delving(s0, t0, s, t, key, level, n) && StepTo(SnapOf(s, t), SnapOf(s', t'), m) && Undisturbed(t, t', key)
    requires t'.root in t'.view && RootFull(t') && t'.contents == t.contents && t'.vs == t.vs && PathClean(t', key, level')
    ensures Delving(s0, t0, s', t', key, level', n + m)
  {
    StepTrans(SnapOf(s0, t0), SnapOf(s, t), SnapOf(s', t'), n, m);
  }

  /** Reads the next block of a delete's walk, for changing it. */
  method DelveNext(cache: Cache, root: Root, ghost t: Tree, ghost key: Key, hasParent: bool, p: Addr, i: nat, ghost level: nat,
      ghost clean: nat, ghost n: nat, ghost s0: Stored, ghost t0: Tree)
      returns (root': Root, ghost t': Tree, a: Addr, ghost n': nat)
    requires Ready(cache, root, t) && Delving(s0, t0, cache.st, t, key, clean, n)
    requires Heading(t, key, hasParent, p, i, level)
    requires if hasParent then p in cache.st.mod else p == 0 && i == 0
    modifies cache.repr
    ensures Ready(cache, root', t') && fresh(cache.repr - old(cache.repr))
    ensures Delving(s0, t0, cache.st, t', key, clean, n')
    ensures At(t', key, hasParent, p, i, a) && a in cache.st.mod && t'.spans[a].level == level
    ensures hasParent ==> p in cache.st.mod
    ensures |t'.spans| == |t.spans|
  {
    ghost var s, m := cache.st, 0;
    if hasParent {
      HeadingFacts(s, t, key, p, i, level);
      ghost var a0;
      a, a0, t', m := DirtyChild(cache, root, t, p, i);
      root' := root;
      DelveChild(s, cache.st, t, t', key, clean, p, i, a0, a, m);
    } else {
      RootOnPath(s, t, key);
      root', t', m := DirtyRoot(cache, root, t);
      a := root'.ref;
      RootOnPath(cache.st, t', key);
      DelveRoot(s, t, t', key, clean, a, m);
    }
    n' := n + m;
    DelveStep(s0, t0, s, t, cache.st, t', key, clean, clean, n, m);
  }

  lemma DelveRoot(s: Stored, t: Tree, t': Tree, key: Key, clean: nat, c: Addr, m: nat)
    requires TreeOk(s, t) && RootFull(t) && PathClean(t, key, clean) && (m > 0 ==> c !in t.view)
    requires t' == if m == 0 then t else CopyRoot(t, c)
    ensures t'.root in t'.view && RootFull(t') && PathClean(t', key, clean) && |t'.spans| == |t.spans|
    ensures t'.contents == t.contents && t'.vs == t.vs && t'.height == t.height && Undisturbed(t, t', key)
  {
    assert Look(0);
    if m > 0 {
      CleanCopyRoot(s, t, key, clean, c);
      if PathClean(t, key, 0) {
        CleanCopyRoot(s, t, key, 0, c);
      }
      RenameSize(t.spans, t.root, c);
    }
  }

  lemma DelveChild(s: Stored, s': Stored, t: Tree, t': Tree, key: Key, clean: nat, p: Addr, i: nat, a: Addr, c: Addr, m: nat)
    requires TreeOk(s, t) && RootFull(t) && PathClean(t, key, clean) && At(t, key, true, p, i, a)
    requires Copied(SnapOf(s, t), SnapOf(s', t'), a, c, m) && t' == if m == 0 then t else CopyChild(t, p, i, a, c)
    requires StepTo(SnapOf(s, t), SnapOf(s', t'), m)
    ensures t'.root in t'.view && RootFull(t') && PathClean(t', key, clean) && |t'.spans| == |t.spans|
    ensures At(t', key, true, p, i, c) && t'.spans[c] == t.spans[a] && t'.contents == t.contents && t'.vs == t.vs
    ensures (p in s.mod ==> p in s'.mod) && Undisturbed(t, t', key)
  {
    assert Look(0);
    assert KeptAt(SnapOf(s, t), SnapOf(s', t'), p);
    if m > 0 {
      CleanCopyChild(s, t, key, clean, p, i, a, c);
      if PathClean(t, key, 0) {
        CleanCopyChild(s, t, key, 0, p, i, a, c);
      }
      RenameSize(t.spans, a, c);
      OnlyParent(t, p, i, a);
    }
  }

  /** The block that a delete's walk has reached is half empty. */
  ghost predicate HalfEmpty(s: Stored, t: Tree, key: Key, p: Addr, i: nat, a: Addr) {
    && At(t, key, true, p, i, a) && a in s.mod && p in s.mod
    && |t.view[a].items| <= t.Max(t.spans[a].level) / 2
    && PathClean(t, key, t.spans[a].level + 1)
  }

  /** Where a block is half empty the path is not fit to descend. */
  lemma HalfEmptyDisturbs(s: Stored, t: Tree, t': Tree, key: Key, p: Addr, i: nat, a: Addr)
    requires TreeOk(s, t) && HalfEmpty(s, t, key, p, i, a)
    ensures Undisturbed(t, t', key)
  {
    if PathClean(t, key, 0) {
      StopsHere(s, t, key, p, i, a, 0);
    }
  }

  lemma HasSibling(s: Stored, t: Tree, key: Key, p: Addr, i: nat, a: Addr)
    requires TreeOk(s, t) && RootFull(t) && HalfEmpty(s, t, key, p, i, a)
    ensures |t.view[p].items| >= 2 && p in t.spans && t.spans[p].level > 0
    ensures p == t.root || t.Max(t.spans[p].level) / 2 < |t.view[p].items|
  {
    assert CleanAt(t, key, t.spans[a].level + 1, p);
    NodeFacts(s, t, p);
    RootFacts(s, t);
  }

  lemma SiblingCopied(s: Stored, s': Stored, t: Tree, t': Tree, key: Key, p: Addr, i: nat, a: Addr, j: nat, b0: Addr, b: Addr, m: nat)
    requires TreeOk(s, t) && RootFull(t) && HalfEmpty(s, t, key, p, i, a)
    requires j == (if i == 0 then 1 else i - 1) && ParentOf(t, p, j, b0) && b0 in t.spans && b0 in t.view
    requires Copied(SnapOf(s, t), SnapOf(s', t'), b0, b, m) && t' == if m == 0 then t else CopyChild(t, p, j, b0, b)
    requires StepTo(SnapOf(s, t), SnapOf(s', t'), m) && TreeOk(s', t')
    ensures HalfEmpty(s', t', key, p, i, a) && Siblings(t', p, i, a, b, j < i) && RootFull(t')
    ensures t'.contents == t.contents && t'.vs == t.vs && t'.height == t.height && |t'.spans| == |t.spans|
    ensures t'.spans[a] == t.spans[a] && b in s'.mod && (t'.root == t.root)
    ensures b in t'.spans && b in t'.view && a != b
  {
    assert Look(0);
    OnlyParent(t, p, j, b0);
    OnlyParent(t, p, i, a);
    assert KeptAt(SnapOf(s, t), SnapOf(s', t'), p) && KeptAt(SnapOf(s, t), SnapOf(s', t'), a);
    if m > 0 {
      CleanCopyChild(s, t, key, t.spans[a].level + 1, p, j, b0, b);
      RenameSize(t.spans, b0, b);
    } else {
      ChildFacts(t, p, j);
    }
  }

  lemma AbsorbedParent(s: Stored, t: Tree, p: Addr, i: nat, a: Addr, b: Addr, bFirst: bool)
    requires TreeOk(s, t) && RootFull(t) && Siblings(t, p, i, a, b, bFirst)
    requires NeighbourFacts(t, p, LeftIndex(i, bFirst), if bFirst then b else a, if bFirst then a else b)
    requires p == t.root || t.Max(t.spans[p].level) / 2 < |t.view[p].items|
    ensures var t' := Absorb(t, p, i, a, b, bFirst);
      && t'.root == t.root && t'.height == t.height > 1 && t'.contents == t.contents && t'.vs == t.vs
      && t'.root in t'.view && p in t'.view && a in t'.view && |t'.view[a].items| == |t.view[a].items| + |t.view[b].items| >= 8
      && |t'.spans| == |t.spans| - 1
      && (if |t'.view[p].items| == 1 then p == t'.root && t'.view[p].items[0].val == Ref(a) else RootFull(t'))
  {
    SiblingFacts(s, t, p, i, a, b, bFirst);
    TakeFacts(s, t, p, i, a, b, bFirst);
    NodeFacts(s, t, p);
    NodeFacts(s, t, a);
    RootFacts(s, t);
    MergeSize(t.spans, if bFirst then b else a, if bFirst then a else b, a);
    HalfOfMax(t, t.spans[p].level);
    HalfOfMax(t, t.spans[a].level);
  }

  lemma HalfOfMax(t: Tree, level: nat)
    requires t.GoodSizes()
    ensures t.Max(level) / 2 >= 4
  {
  }

  /** The walk after block a was refilled: fewer blocks, or a clean path down to a's level. */
  ghost predicate Refilled(t: Tree, t': Tree, a: Addr, clean': nat)
    requires a in t.spans
  {
    clean' <= t'.height &&
    (|t'.spans| < |t.spans| || (|t'.spans| == |t.spans| && clean' == t.spans[a].level))
  }

  /** The neighbour that block a, child i of p, is refilled from: the one before it, or the one after the first. */
  ghost function NextTo(t: Tree, p: Addr, i: nat): Addr {
    var j := if i == 0 then 1 else i - 1;
    if p in t.view && j < |t.view[p].items| && t.view[p].items[j].val.Ref? then t.view[p].items[j].val.addr else p
  }

  /** Block a has all the items of itself and of a neighbour with y, if they fit, and else half of them. */
  ghost predicate SharesWith(t: Tree, t': Tree, a: Addr, y: nat)
    requires a in t.spans
  {
    var x, n, max := CountOf(t.view, a), CountOf(t'.view, a), t.Max(t.spans[a].level);
    if x + y <= max then n == x + y else n == x + y - (x + y) / 2
  }

  /** Refills the half-empty block a, child i of p, from its sibling. */
  method MergeBlock(cache: Cache, root: Root, ghost t: Tree, ghost key: Key, p: Addr, i: nat, a: Addr,
      ghost n: nat, ghost s0: Stored, ghost t0: Tree)
      returns (root': Root, ghost t': Tree, ghost clean: nat, ghost n': nat)
    requires Ready(cache, root, t) && HalfEmpty(cache.st, t, key, p, i, a)
    requires Delving(s0, t0, cache.st, t, key, t.spans[a].level + 1, n)
    modifies cache.repr
    ensures Ready(cache, root', t') && fresh(cache.repr - old(cache.repr))
    ensures Refilled(t, t', a, clean) && Delving(s0, t0, cache.st, t', key, clean, n')
    ensures SharesWith(t, t', a, CountOf(t.view, NextTo(t, p, i)))
  {
    ghost var s := cache.st;
    HasSibling(s, t, key, p, i, a);
    var j := if i == 0 then i + 1 else i - 1;
    var b, b0, t1, m := DirtyChild(cache, root, t, p, j);
    ghost var s1 := cache.st;
    SiblingTaken(s0, t0, s, t, s1, t1, key, p, i, a, j, b0, b, n, m);
    root', t', clean, n' := RefillFrom(cache, root, t1, key, p, i, a, b, j < i, n + m, s0, t0);
  }

  /** The sibling may be changed, under the same parent and with the same items. */
  lemma SiblingTaken(s0: Stored, t0: Tree, s: Stored, t: Tree, s': Stored, t': Tree, key: Key, p: Addr, i: nat, a: Addr, j: nat,
      b0: Addr, b: Addr, n: nat, m: nat)
    requires TreeOk(s, t) && HalfEmpty(s, t, key, p, i, a) && Delving(s0, t0, s, t, key, t.spans[a].level + 1, n)
    requires j == (if i == 0 then 1 else i - 1) && ParentOf(t, p, j, b0) && b0 in t.spans && b0 in t.view
    requires Copied(SnapOf(s, t), SnapOf(s', t'), b0, b, m) && t' == if m == 0 then t else CopyChild(t, p, j, b0, b)
    requires StepTo(SnapOf(s, t), SnapOf(s', t'), m) && TreeOk(s', t')
    ensures HalfEmpty(s', t', key, p, i, a) && Siblings(t', p, i, a, b, j < i) && t'.height == t.height && |t'.spans| == |t.spans|
    ensures t'.spans[a] == t.spans[a] && b in s'.mod && b in t'.spans && b in t'.view && a != b
    ensures Delving(s0, t0, s', t', key, t.spans[a].level + 1, n + m)
    ensures |t'.view[b].items| == CountOf(t.view, NextTo(t, p, i)) && |t'.view[a].items| == |t.view[a].items|
    ensures (t'.leafMax, t'.refMax) == (t.leafMax, t.refMax)
  {
    SiblingCopied(s, s', t, t', key, p, i, a, j, b0, b, m);
    HalfEmptyDisturbs(s, t, t', key, p, i, a);
    DelveStep(s0, t0, s, t, s', t', key, t.spans[a].level + 1, t.spans[a].level + 1, n, m);
    SiblingCounts(s, t, t', p, i, a, j, b0, b, m);
  }

  lemma SiblingCounts(s: Stored, t: Tree, t': Tree, p: Addr, i: nat, a: Addr, j: nat, b0: Addr, b: Addr, m: nat)
    requires TreeOk(s, t) && ParentOf(t, p, i, a) && a in t.view && i != j && a in t'.view && a != b && b in t'.view
    requires j == (if i == 0 then 1 else i - 1) && ParentOf(t, p, j, b0) && b0 in t.spans && b0 in t.view
    requires t' == if m == 0 then t else CopyChild(t, p, j, b0, b)
    requires m == 0 ==> b == b0
    ensures |t'.view[b].items| == CountOf(t.view, NextTo(t, p, i)) && |t'.view[a].items| == |t.view[a].items|
    ensures (t'.leafMax, t'.refMax) == (t.leafMax, t.refMax)
  {
    assert Look(0);
    OnlyParent(t, p, i, a);
    OnlyParent(t, p, j, b0);
  }

  method RefillFrom(cache: Cache, root: Root, ghost t: Tree, ghost key: Key, p: Addr, i: nat, a: Addr, b: Addr, bFirst: bool,
      ghost n: nat, ghost s0: Stored, ghost t0: Tree)
      returns (root': Root, ghost t': Tree, ghost clean: nat, ghost n': nat)
    requires Ready(cache, root, t) && HalfEmpty(cache.st, t, key, p, i, a)
    requires Siblings(t, p, i, a, b, bFirst) && b in cache.st.mod && b in t.spans && b in t.view && a != b
    requires Delving(s0, t0, cache.st, t, key, t.spans[a].level + 1, n)
    modifies cache.repr
    ensures Ready(cache, root', t') && fresh(cache.repr - old(cache.repr))
    ensures Refilled(t, t', a, clean) && Delving(s0, t0, cache.st, t', key, clean, n')
    ensures SharesWith(t, t', a, |t.view[b].items|)
  {
    TakeFacts(cache.st, t, p, i, a, b, bFirst);
    var level, valSize, nra := cache.Header(a);
    var _, _, nrb := cache.Header(b);
    var total, max := nra + nrb, MaxItems(BlockValSize(level, valSize));
    n' := n;
    if total <= max {
      root', t', clean := MergeAll(cache, root, t, key, p, i, a, b, bFirst, nrb, n, s0, t0);
    } else {
      BorrowCounts(nra, nrb, max);
      t' := Rebalance(cache, root, t, key, p, i, a, b, bFirst, nrb - total / 2, n, s0, t0);
      root', clean := root, t.spans[a].level;
    }
  }

  /** Some of b's items move to a, which is fit to descend through then. */
  method Rebalance(cache: Cache, root: Root, ghost t: Tree, ghost key: Key, p: Addr, i: nat, a: Addr, b: Addr, bFirst: bool, move: nat,
      ghost n: nat, ghost s0: Stored, ghost t0: Tree) returns (ghost t': Tree)
    requires Ready(cache, root, t) && HalfEmpty(cache.st, t, key, p, i, a)
    requires Siblings(t, p, i, a, b, bFirst) && b in cache.st.mod && b in t.spans && b in t.view && a != b
    requires var max := t.Max(t.spans[a].level);
      0 < move < |t.view[b].items| && max / 2 < |t.view[a].items| + move <= max && max / 2 <= |t.view[b].items| - move <= max
    requires Delving(s0, t0, cache.st, t, key, t.spans[a].level + 1, n)
    modifies cache.repr
    ensures Ready(cache, root, t') && fresh(cache.repr - old(cache.repr))
    ensures Refilled(t, t', a, t.spans[a].level) && Delving(s0, t0, cache.st, t', key, t.spans[a].level, n)
    ensures CountOf(t'.view, a) == |t.view[a].items| + move
  {
    ghost var s := cache.st;
    t' := TakeSome(cache, root, t, p, i, a, b, bFirst, move);
    BorrowDone(s, t, key, p, i, a, b, bFirst, move);
    HalfEmptyDisturbs(s, t, t', key, p, i, a);
    DelveStep(s0, t0, s, t, cache.st, t', key, t.spans[a].level + 1, t.spans[a].level, n, 0);
  }

  lemma BorrowDone(s: Stored, t: Tree, key: Key, p: Addr, i: nat, a: Addr, b: Addr, bFirst: bool, n: nat)
    requires TreeOk(s, t) && RootFull(t) && HalfEmpty(s, t, key, p, i, a) && Siblings(t, p, i, a, b, bFirst)
    requires NeighbourFacts(t, p, LeftIndex(i, bFirst), if bFirst then b else a, if bFirst then a else b)
    requires 0 < n < |t.view[b].items| && t.Max(t.spans[a].level) / 2 < |t.view[a].items| + n
    ensures var t' := Borrow(t, p, i, a, b, bFirst, n);
      && t'.root in t'.view && RootFull(t') && PathClean(t', key, t.spans[a].level) && |t'.spans| == |t.spans|
      && t'.height == t.height > t.spans[a].level && t'.contents == t.contents && t'.vs == t.vs
      && CountOf(t'.view, a) == |t.view[a].items| + n
  {
    SiblingFacts(s, t, p, i, a, b, bFirst);
    NodeFacts(s, t, a);
    CleanBorrow(s, t, key, p, i, a, b, bFirst, n);
    BorrowView(t, p, i, a, b, bFirst, n);
    assert Borrow(t, p, i, a, b, bFirst, n).spans.Keys == t.spans.Keys;
  }

  /** All of b's items move to a; if that leaves the root with one child, the child becomes the root. */
  method MergeAll(cache: Cache, root: Root, ghost t: Tree, ghost key: Key, p: Addr, i: nat, a: Addr, b: Addr, bFirst: bool, nrb: nat,
      ghost n: nat, ghost s0: Stored, ghost t0: Tree)
      returns (root': Root, ghost t': Tree, ghost clean: nat)
    requires Ready(cache, root, t) && HalfEmpty(cache.st, t, key, p, i, a)
    requires Siblings(t, p, i, a, b, bFirst) && b in cache.st.mod && b in t.spans && b in t.view && a != b
    requires nrb == |t.view[b].items| && |t.view[a].items| + nrb <= t.Max(t.spans[a].level)
    requires Delving(s0, t0, cache.st, t, key, t.spans[a].level + 1, n)
    modifies cache.repr
    ensures Ready(cache, root', t') && fresh(cache.repr - old(cache.repr))
    ensures Refilled(t, t', a, clean) && Delving(s0, t0, cache.st, t', key, clean, n)
    ensures CountOf(t'.view, a) == |t.view[a].items| + nrb
  {
    ghost var s := cache.st;
    cache.Below();
    HasSibling(s, t, key, p, i, a);
    var t1, nrp := TakeAllAndCount(cache, root, t, p, i, a, b, bFirst, nrb);
    root' := if nrp == 1 then Root(a, root.height - 1) else root;
    t' := if nrp == 1 then Collapse(t1, a) else t1;
    clean := t'.height;
    HalfEmptyDisturbs(s, t, t', key, p, i, a);
    MergeAllDone(s, cache.st, t, t1, t', key, p, a, n, s0, t0);
  }

  /** What is left of the tree after a took all of b's items. */
  ghost predicate Shrunk(t: Tree, t1: Tree, p: Addr, a: Addr) {
    && t1.height > 1 && t1.contents == t.contents && t1.vs == t.vs && |t1.spans| == |t.spans| - 1
    && p in t1.view && a in t1.view && |t1.view[a].items| >= 2 && t1.root in t1.view
    && if |t1.view[p].items| == 1 then p == t1.root && t1.view[p].items[0].val == Ref(a) else RootFull(t1)
  }

  method TakeAllAndCount(cache: Cache, root: Root, ghost t: Tree, p: Addr, i: nat, a: Addr, b: Addr, bFirst: bool, nrb: nat)
      returns (ghost t1: Tree, nrp: nat)
    requires Ready(cache, root, t) && RootFull(t) && Siblings(t, p, i, a, b, bFirst)
    requires a in t.view && b in t.view && a in t.spans && p in t.spans && p in t.view && a != b
    requires a in cache.st.mod && b in cache.st.mod && p in cache.st.mod
    requires nrb == |t.view[b].items| && |t.view[a].items| + nrb <= t.Max(t.spans[a].level)
    requires p == t.root || t.Max(t.spans[p].level) / 2 < |t.view[p].items|
    modifies cache.repr
    ensures Ready(cache, root, t1) && fresh(cache.repr - old(cache.repr))
    ensures Shrunk(t, t1, p, a) && nrp == |t1.view[p].items| && |t1.view[a].items| == |t.view[a].items| + nrb
    ensures StepTo(SnapOf(old(cache.st), t), SnapOf(cache.st, t1), 0)
  {
    ghost var s := cache.st;
    t1 := TakeAll(cache, root, t, p, i, a, b, bFirst, nrb);
    AbsorbedParent(s, t, p, i, a, b, bFirst);
    var _, _, n := cache.Header(p);
    nrp := n;
  }

  lemma MergeAllDone(s: Stored, s': Stored, t: Tree, t1: Tree, t': Tree, key: Key, p: Addr, a: Addr, n: nat, s0: Stored, t0: Tree)
    requires TreeOk(s', t1) && Sane(SnapOf(s, t)) && StepTo(SnapOf(s, t), SnapOf(s', t1), 0) && a in t.spans
    requires Delving(s0, t0, s, t, key, t.spans[a].level + 1, n)
    requires Shrunk(t, t1, p, a) && Undisturbed(t, t', key)
    requires t' == if |t1.view[p].items| == 1 then Collapse(t1, a) else t1
    ensures TreeOk(s', t') && Refilled(t, t', a, t'.height) && Delving(s0, t0, s', t', key, t'.height, n)
  {
    if |t1.view[p].items| == 1 {
      SoleChild(s', t1, a);
      CollapseStep(s', t1, a);
      CollapseSize(t1, a);
      StepTrans(SnapOf(s, t), SnapOf(s', t1), SnapOf(s', t'), 0, 0);
    }
    CleanAtTop(s', t', key);
    DelveStep(s0, t0, s, t, s', t', key, t.spans[a].level + 1, t'.height, n, 0);
  }

  lemma SoleChild(s: Stored, t: Tree, a: Addr)
    requires TreeOk(s, t) && t.height > 1 && |t.view[t.root].items| == 1 && t.view[t.root].items[0].val == Ref(a)
    ensures ParentOf(t, t.root, 0, a)
  {
    RootFacts(s, t);
    NodeFacts(s, t, t.root);
  }

  method SearchBlock(cache: Cache, root: Root, ghost t: Tree, key: Key, a: Addr) returns (ind: nat, cmp: int, half: bool)
    requires Ready(cache, root, t) && a in t.spans && a in t.view
    ensures Ready(cache, root, t) && cache.st == old(cache.st)
    ensures ind == LowerBound(t.view[a].items, key) && (cmp == 0 <==> HasKey(t.view[a].items, key))
    ensures half <==> |t.view[a].items| <= t.Max(t.spans[a].level) / 2
  {
    NodeFacts(cache.st, t, a);
    ind, cmp := cache.FindKey(a, key);
    half := ShouldMerge(cache, a, t);
  }

  /** Reads the next block of a delete's walk and searches it; a half-empty one is to be refilled first. */
  method DelveVisit(cache: Cache, root: Root, ghost t: Tree, key: Key, hasParent: bool, p: Addr, i: nat, ghost level: nat,
      ghost clean: nat, ghost n: nat, ghost s0: Stored, ghost t0: Tree)
      returns (root': Root, ghost t': Tree, a: Addr, ind: nat, cmp: int, refill: bool, ghost clean': nat, ghost n': nat)
    requires Ready(cache, root, t) && Delving(s0, t0, cache.st, t, key, clean, n) && clean <= level + 1
    requires Heading(t, key, hasParent, p, i, level)
    requires if hasParent then p in cache.st.mod else p == 0 && i == 0
    modifies cache.repr
    ensures Ready(cache, root', t') && fresh(cache.repr - old(cache.repr))
    ensures Delving(s0, t0, cache.st, t', key, clean', n')
    ensures At(t', key, hasParent, p, i, a) && a in cache.st.mod && t'.spans[a].level == level && |t'.spans| == |t.spans|
    ensures ind == LowerBound(t'.view[a].items, key) && (cmp == 0 <==> HasKey(t'.view[a].items, key))
    ensures refill ==> hasParent && HalfEmpty(cache.st, t', key, p, i, a) && clean == clean' == level + 1
    ensures !refill ==> clean' <= level && clean' <= clean && (a == t'.root || t'.Max(level) / 2 < |t'.view[a].items|)
  {
    root', t', a, n' := DelveNext(cache, root, t, key, hasParent, p, i, level, clean, n, s0, t0);
    var half;
    ind, cmp, half := SearchBlock(cache, root', t', key, a);
    refill := hasParent && half;
    clean' := clean;
    CleanMono(t', key, clean, level + 1);
    if refill {
      StopsHere(cache.st, t', key, p, i, a, clean);
    } else {
      CleanBelow(cache.st, t', key, a);
      clean' := if clean <= level then clean else level;
    }
  }

  /** Walks down to the leaf for key, making every block on the way modifiable and refilling half-empty ones. */
  method WalkMerge(cache: Cache, root: Root, ghost t: Tree, key: Key)
      returns (root': Root, ghost t': Tree, a: Addr, ind: nat, cmp: int, ghost n: nat)
    requires Ready(cache, root, t) && RootFull(t)
    modifies cache.repr
    ensures Ready(cache, root', t') && fresh(cache.repr - old(cache.repr))
    ensures Delving(old(cache.st), t, cache.st, t', key, 0, n)
    ensures OnPath(t', a, key) && a in t'.view && a in cache.st.mod && t'.spans[a].level == 0
    ensures a == t'.root || t'.leafMax / 2 < |t'.view[a].items|
    ensures ind == LowerBound(t'.view[a].items, key) && (cmp == 0 <==> HasKey(t'.view[a].items, key))
  {
    ghost var s0 := cache.st;
    DelveStarts(cache, root, t, key);
    root', t', n := root, t, 0;
    var hasParent, p, i, level := false, 0, 0, root.height;
    ghost var clean := t.height;
    while true
      invariant Ready(cache, root', t') && fresh(cache.repr - old(cache.repr))
      invariant Delving(s0, t, cache.st, t', key, clean, n) && clean <= level && level > 0
      invariant Heading(t', key, hasParent, p, i, level - 1)
      invariant if hasParent then p in cache.st.mod else p == 0 && i == 0
      decreases |t'.spans|, clean, level
    {
      var refill;
      level := level - 1;
      root', t', a, ind, cmp, refill, clean, n := DelveVisit(cache, root', t', key, hasParent, p, i, level, clean, n, s0, t);
      if refill {
        root', t', clean, n := MergeBlock(cache, root', t', key, p, i, a, n, s0, t);
        RootFacts(cache.st, t');
        hasParent, p, i, level := false, 0, 0, root'.height;
      } else if level >= 1 {
        hasParent, p, i := true, a, ind;
      } else {
        return;
      }
    }
  }

  lemma DelveStarts(cache: Cache, root: Root, t: Tree, key: Key)
    requires Ready(cache, root, t) && RootFull(t)
    ensures Delving(cache.st, t, cache.st, t, key, t.height, 0) && t.height > 0
  {
    cache.Below();
    RootFacts(cache.st, t);
    CleanAtTop(cache.st, t, key);
    StepNothing(SnapOf(cache.st, t));
  }

  lemma CleanMono(t: Tree, key: Key, level: nat, level': nat)
    requires PathClean(t, key, level) && level <= level'
    ensures PathClean(t, key, level')
  {
    forall a ensures CleanAt(t, key, level', a) {
      assert CleanAt(t, key, level, a);
    }
  }

  /** A half-empty block is below the levels known to be clean. */
  lemma StopsHere(s: Stored, t: Tree, key: Key, p: Addr, i: nat, a: Addr, clean: nat)
    requires TreeOk(s, t) && At(t, key, true, p, i, a) && PathClean(t, key, clean)
    requires |t.view[a].items| <= t.Max(t.spans[a].level) / 2
    ensures clean > t.spans[a].level
  {
    assert Look(0);
    OnlyParent(t, p, i, a);
    assert CleanAt(t, key, clean, a);
  }

  method ShouldMerge(cache: Cache, a: Addr, ghost t: Tree) returns (half: bool)
    requires cache.Valid() && TreeOk(cache.st, t) && a in t.spans && a in t.view
    ensures half <==> |t.view[a].items| <= t.Max(t.spans[a].level) / 2
  {
    NodeFacts(cache.st, t, a);
    var level, valSize, nr := cache.Header(a);
    half := nr <= MaxItems(BlockValSize(level, valSize)) / 2;
  }
}
