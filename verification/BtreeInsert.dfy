/**
 An insert's walk (devd/btree.c:301-440, 530-625): it makes the blocks on the way down
 modifiable, copying them first where needed, and splits each full one before going below it.
 The walk allocates at most one copy and one new block a level, and one new root.
 */
module BtreeInsert {
  import opened BtreeFormat
  import opened BtreePacking
  import opened BtreeShape
  import opened BtreeSteps
  import opened BtreeSplit
  import opened BtreeWalk
  import opened BtreeCache
  import opened Wrappers

  /** All blocks of the tree have the tree's value size. */
  ghost predicate SizesOk(sizes: map<Addr, nat>, spans: map<Addr, Span>, vs: nat) {
    forall a {:trigger a in spans} {:trigger a in sizes} :: a in spans ==> a in sizes && sizes[a] == vs
  }

  /** A tree over stored blocks, with the item counts that its value size gives. */
  ghost predicate TreeOk(s: Stored, t: Tree) {
    t.view == s.view && t.root in t.spans && t.root in t.view &&
    forall u {:trigger Look(u)} :: Look(u) ==> TreeFacts(s, t)
  }

  ghost predicate TreeFacts(s: Stored, t: Tree) {
    && t.view == s.view
    && t.vs <= MAX_VAL_SIZE && t.leafMax == MaxItems(t.vs) && t.refMax == MaxItems(REF_SIZE)
    && Inv(t)
    && SizesOk(s.sizes, t.spans, t.vs)
  }

  /** The block at a may be changed at c from now on: c is a, or a new copy of it. */
  ghost predicate Copied(s: Snap, s': Snap, a: Addr, c: Addr, n: nat) {
    && c in s'.mod && n <= 1
    && (n == 0 ==> c == a && s' == s)
    && (n == 1 ==> a !in s.mod && c !in s.t.view && c >= s.log.next)
  }

  ghost function SnapOf(s: Stored, t: Tree): Snap {
    Snap(t, s.log, s.mod, s.sizes)
  }

  lemma CopyRootStep(s: Stored, s': Stored, t: Tree, c: Addr)
    requires TreeOk(s, t) && t.root !in s.mod
    requires forall a {:trigger a in s.view} :: a in s.view ==> a < s.log.next
    requires t.root in s.view && t.root in s.sizes && Grows(s, s', c, s.view[t.root], s.sizes[t.root])
    ensures TreeOk(s', CopyRoot(t, c))
    ensures StepTo(SnapOf(s, t), SnapOf(s', CopyRoot(t, c)), 1)
    ensures Copied(SnapOf(s, t), SnapOf(s', CopyRoot(t, c)), t.root, c, 1)
  {
    assert Look(0);
    CopyRootKeepsInv(t, c);
  }

  /** A tree's root, as a commit records it. */
  datatype Root = Root(ref: Addr, height: nat)

  /** The cache and the tree are well formed, and the log has an open commit to allocate from. */
  ghost predicate Ready(cache: Cache, root: Root, t: Tree)
    reads cache, cache.repr
  {
    && cache.Valid() && cache.st.log.dirty.Some?
    && root == Root(t.root, t.height) && TreeOk(cache.st, t)
  }

  /** Reads the root block for changing it, copying it first unless it may be changed. */
  method DirtyRoot(cache: Cache, root: Root, ghost t: Tree) returns (root': Root, ghost t': Tree, ghost n: nat)
    requires Ready(cache, root, t)
    modifies cache.repr
    ensures Ready(cache, root', t') && fresh(cache.repr - old(cache.repr))
    ensures StepTo(SnapOf(old(cache.st), t), SnapOf(cache.st, t'), n)
    ensures Copied(SnapOf(old(cache.st), t), SnapOf(cache.st, t'), root.ref, root'.ref, n)
    ensures t' == if n == 0 then t else CopyRoot(t, root'.ref)
    ensures cache.st.visited == old(cache.st.visited) + {root.ref}
  {
    cache.Below();
    cache.Read(root.ref);
    root', t', n := root, t, 0;
    var can := cache.CanModify(root.ref);
    if !can {
      ghost var s := cache.st;
      var c := cache.AllocCopy(root.ref);
      CopyRootStep(s, cache.st, t, c);
      root', t', n := Root(c, root.height), CopyRoot(t, c), 1;
    }
  }

  lemma CopyChildStep(s: Stored, s1: Stored, s': Stored, t: Tree, p: Addr, i: nat, a: Addr, c: Addr)
    requires TreeOk(s, t) && ParentOf(t, p, i, a) && p in s.mod && a !in s.mod
    requires forall a {:trigger a in s.view} :: a in s.view ==> a < s.log.next
    requires a in s.view && a in s.sizes && Grows(s, s1, c, s.view[a], s.sizes[a])
    requires p in s1.view && s' == PutItems(s1, p, s.view[p].items[i := Item(s.view[p].items[i].key, Ref(c))])
    ensures a in t.spans && a in t.view && TreeOk(s', CopyChild(t, p, i, a, c))
    ensures StepTo(SnapOf(s, t), SnapOf(s', CopyChild(t, p, i, a, c)), 1)
    ensures Copied(SnapOf(s, t), SnapOf(s', CopyChild(t, p, i, a, c)), a, c, 1)
  {
    assert Look(0);
    CopyChildKeepsInv(t, p, i, a, c);
    assert s'.view == CopyChild(t, p, i, a, c).view;
    var n, n' := SnapOf(s, t), SnapOf(s', CopyChild(t, p, i, a, c));
    forall b ensures KeptAt(n, n', b) {
    }
  }

  /** What an internal block's item says about the block it refers to. */
  lemma RefFacts(s: Stored, t: Tree, p: Addr, i: nat)
    requires TreeOk(s, t) && p in t.spans && p in t.view && t.spans[p].level > 0 && i < |t.view[p].items|
    ensures t.view[p].items[i].val.Ref? && ParentOf(t, p, i, t.view[p].items[i].val.addr)
    ensures t.view[p].items[i].val.addr in t.spans && t.view[p].items[i].val.addr in t.view
    ensures t.view[p].items[i].val.addr in s.sizes && p in s.sizes && t.view[p].level == t.spans[p].level
    ensures t.spans[t.view[p].items[i].val.addr] == ChildSpan(t.view[p], t.spans[p], i)
  {
    assert Look(0);
    ChildFacts(t, p, i);
  }

  /** Reads a child for changing it, copying it first unless it may be changed; its parent can be changed already. */
  method DirtyChild(cache: Cache, root: Root, ghost t: Tree, p: Addr, i: nat)
      returns (c: Addr, ghost a: Addr, ghost t': Tree, ghost n: nat)
    requires Ready(cache, root, t)
    requires p in t.spans && p in t.view && t.spans[p].level > 0 && i < |t.view[p].items| && p in cache.st.mod
    modifies cache.repr
    ensures Ready(cache, root, t') && fresh(cache.repr - old(cache.repr))
    ensures StepTo(SnapOf(old(cache.st), t), SnapOf(cache.st, t'), n)
    ensures Copied(SnapOf(old(cache.st), t), SnapOf(cache.st, t'), a, c, n)
    ensures ParentOf(t, p, i, a) && a in t.spans && a in t.view && t' == if n == 0 then t else CopyChild(t, p, i, a, c)
    ensures cache.st.visited == old(cache.st.visited) + {a}
  {
    cache.Below();
    RefFacts(cache.st, t, p, i);
    var item := cache.GetItem(p, i);
    a := item.val.addr;
    cache.Read(item.val.addr);
    c, t', n := item.val.addr, t, 0;
    var can := cache.CanModify(item.val.addr);
    if !can {
      ghost var s := cache.st;
      c := cache.AllocCopy(item.val.addr);
      ghost var s1 := cache.st;
      cache.UpdateItem(p, i, Item(item.key, Ref(c)));
      CopyChildStep(s, s1, cache.st, t, p, i, a, c);
      t', n := CopyChild(t, p, i, a, c), 1;
    }
  }

  // ---------------------------------------------------------------- Splitting

  /** A block that is not yet part of the tree does not matter to it. */
  lemma AllocStep(s: Stored, s': Stored, t: Tree, c: Addr, n: Node)
    requires TreeOk(s, t) && Grows(s, s', c, n, t.vs)
    requires forall a {:trigger a in s.view} :: a in s.view ==> a < s.log.next
    ensures TreeOk(s', t.(view := s'.view)) && c !in t.spans
    ensures StepTo(SnapOf(s, t), SnapOf(s', t.(view := s'.view)), 1)
  {
    assert Look(0);
    SameBlocksSameInv(t, t.(view := s'.view));
    GrowsKeeps(s, s', c, n, t);
  }

  lemma GrowsKeeps(s: Stored, s': Stored, c: Addr, n: Node, t: Tree)
    requires Grows(s, s', c, n, t.vs) && t.view == s.view
    ensures StepTo(SnapOf(s, t), SnapOf(s', t.(view := s'.view)), 1)
  {
    var m, m' := SnapOf(s, t), SnapOf(s', t.(view := s'.view));
    forall b ensures KeptAt(m, m', b) {
    }
  }

  lemma GrowStep(s: Stored, s': Stored, t: Tree, r: Addr)
    requires TreeOk(s, t) && r !in t.spans && r in s.view && s.view[r] == Node(t.height, []) && r in s.mod
    requires r in s.sizes && s.sizes[r] == t.vs
    requires |t.view[t.root].items| == t.Max(t.spans[t.root].level)
    requires s' == PutItems(s, r, [Item(MAX_KEY, Ref(t.root))])
    requires s.log.dirty.Some?
    ensures TreeOk(s', Grow(t, r)) && ParentOf(Grow(t, r), r, 0, t.root)
    ensures StepTo(SnapOf(s, t), SnapOf(s', Grow(t, r)), 0)
  {
    assert Look(0);
    GrowKeepsInv(t, r);
    var m, m' := SnapOf(s, t), SnapOf(s', Grow(t, r));
    forall b ensures KeptAt(m, m', b) {
    }
  }

  lemma SplitStep(s: Stored, s': Stored, t: Tree, p: Addr, i: nat, a: Addr, c: Addr)
    requires TreeOk(s, t) && ParentOf(t, p, i, a) && a in t.spans && a in t.view && c !in t.spans && p != a
    requires c in s.view && s.view[c] == Node(t.view[a].level, []) && c in s.sizes && s.sizes[c] == t.vs
    requires a in s.mod && c in s.mod && p in s.mod && s.log.dirty.Some?
    requires |t.view[a].items| == t.Max(t.spans[a].level) && |t.view[a].items| >= 2
    requires |t.view[p].items| < t.Max(t.spans[p].level)
    requires c != a && c != p
    requires var half := |t.view[a].items| / 2;
      s' == PutItems(Moved(s, c, 0, a, 0, half), p, InsertAt(t.view[p].items, i, Item(t.view[a].items[half - 1].key, Ref(c))))
    ensures TreeOk(s', Split(t, p, i, a, c))
    ensures StepTo(SnapOf(s, t), SnapOf(s', Split(t, p, i, a, c)), 0)
  {
    assert Look(0);
    SplitKeepsInv(t, p, i, a, c);
    var half := |t.view[a].items| / 2;
    var items := t.view[a].items;
    assert InsertRange([], 0, items[0..0 + half]) == items[..half];
    assert RemoveRange(items, 0, half) == items[half..];
    assert s'.view == Split(t, p, i, a, c).view;
    var m, m' := SnapOf(s, t), SnapOf(s', Split(t, p, i, a, c));
    forall b ensures KeptAt(m, m', b) {
    }
  }

  /** What is known about any block of the tree. */
  lemma NodeFacts(s: Stored, t: Tree, a: Addr)
    requires TreeOk(s, t) && a in t.spans
    ensures t.GoodSizes() && t.vs <= MAX_VAL_SIZE
    ensures a in s.view && a in s.sizes && s.sizes[a] == t.vs && t.view[a].level == t.spans[a].level < t.height
    ensures Sorted(t.view[a].items) && |t.view[a].items| <= t.Max(t.spans[a].level)
    ensures a != t.root ==> t.Max(t.spans[a].level) / 2 <= |t.view[a].items|
    ensures LayoutOf(BlockValSize(t.spans[a].level, t.vs)).max == t.Max(t.spans[a].level)
    ensures forall i :: 0 <= i < |t.view[a].items| ==> t.view[a].items[i].val.Size() == BlockValSize(t.spans[a].level, t.vs)
  {
    assert Look(0);
    assert BlockOk(t, a);
    assert InTree(t, a);
  }

  lemma RootFacts(s: Stored, t: Tree)
    requires TreeOk(s, t)
    ensures t.height > 0 && t.spans[t.root] == Span(t.height - 1, -1, MAX_KEY)
  {
    assert Look(0);
  }

  lemma GrowRootStep(s: Stored, s1: Stored, s': Stored, t: Tree, r: Addr)
    requires TreeOk(s, t) && Sane(SnapOf(s, t)) && |t.view[t.root].items| == t.Max(t.spans[t.root].level)
    requires Grows(s, s1, r, Node(t.height, []), t.vs)
    requires s' == PutItems(s1, r, InsertAt([], 0, Item(MAX_KEY, Ref(t.root))))
    ensures TreeOk(s', Grow(t, r)) && ParentOf(Grow(t, r), r, 0, t.root) && r !in t.spans
    ensures StepTo(SnapOf(s, t), SnapOf(s', Grow(t, r)), 1)
  {
    var t1 := t.(view := s1.view);
    AllocStep(s, s1, t, r, Node(t.height, []));
    assert InsertAt([], 0, Item(MAX_KEY, Ref(t.root))) == [Item(MAX_KEY, Ref(t.root))];
    GrowStep(s1, s', t1, r);
    StepTrans(SnapOf(s, t), SnapOf(s1, t1), SnapOf(s', Grow(t1, r)), 1, 0);
    assert Grow(t1, r).view == Grow(t, r).view;
  }

  /** Gives the root a parent: a new root that refers to it under the greatest key. */
  method GrowRoot(cache: Cache, root: Root, ghost t: Tree, valSize: nat) returns (root': Root, ghost t': Tree)
    requires Ready(cache, root, t) && valSize == t.vs
    requires |t.view[t.root].items| == t.Max(t.spans[t.root].level)
    modifies cache.repr
    ensures t' == Grow(t, root'.ref) && Ready(cache, root', t') && fresh(cache.repr - old(cache.repr))
    ensures root'.ref !in t.view && root'.ref >= old(cache.st.log.next) && root'.ref !in t.spans
    ensures ParentOf(t', root'.ref, 0, root.ref)
    ensures StepTo(SnapOf(old(cache.st), t), SnapOf(cache.st, t'), 1)
    ensures cache.st.visited == old(cache.st.visited) && cache.st.sizes == old(cache.st).sizes[root'.ref := t.vs]
    ensures old(cache.st.mod) <= cache.st.mod && root'.ref in cache.st.mod && old(cache.st.log.next) <= cache.st.log.next
  {
    cache.Below();
    NodeFacts(cache.st, t, t.root);
    RootFacts(cache.st, t);
    MaxItemsBounds(REF_SIZE);
    ghost var s := cache.st;
    var r := cache.AllocFresh(root.height, valSize);
    ghost var s1 := cache.st;
    cache.InsertItem(r, 0, Item(MAX_KEY, Ref(root.ref)));
    GrowRootStep(s, s1, cache.st, t, r);
    root', t' := Root(r, root.height + 1), Grow(t, r);
  }

  /** Moves the lower half of a block's items to an empty one, whose last key is returned. */
  method MoveLower(cache: Cache, a: Addr, c: Addr, nr: nat) returns (last: Key)
    requires cache.Valid() && a in cache.st.view && c in cache.st.view && a != c && a in cache.st.mod && c in cache.st.mod
    requires a in cache.st.sizes && c in cache.st.sizes && cache.st.sizes[a] == cache.st.sizes[c]
    requires cache.st.view[c] == Node(cache.st.view[a].level, []) && nr == |cache.st.view[a].items| >= 2
    requires var l := LayoutOf(BlockValSize(cache.st.view[a].level, cache.st.sizes[a]));
      nr <= l.max && forall i :: 0 <= i < nr ==> cache.st.view[a].items[i].val.Size() == l.vs
    requires Sorted(cache.st.view[a].items)
    modifies cache.repr
    ensures cache.Valid() && cache.repr == old(cache.repr)
    ensures cache.st == Moved(old(cache.st), c, 0, a, 0, nr / 2)
    ensures last == old(cache.st).view[a].items[nr / 2 - 1].key
  {
    cache.MoveItems(c, 0, a, 0, nr / 2);
    var item := cache.GetItem(c, nr / 2 - 1);
    last := item.key;
  }

  /** Moves the lower half of a full block to the new, empty block c, and has the parent refer to it. */
  method SplitUnder(cache: Cache, root: Root, ghost t: Tree, p: Addr, i: nat, a: Addr, c: Addr, nr: nat)
      returns (ghost t': Tree)
    requires Ready(cache, root, t)
    requires ParentOf(t, p, i, a) && a in t.spans && a in t.view && c !in t.spans && p != a && c != a && c != p
    requires c in t.view && t.view[c] == Node(t.view[a].level, []) && c in cache.st.sizes && cache.st.sizes[c] == t.vs
    requires a in cache.st.mod && c in cache.st.mod && p in cache.st.mod
    requires nr == |t.view[a].items| == t.Max(t.spans[a].level) && |t.view[p].items| < t.Max(t.spans[p].level)
    modifies cache.repr
    ensures nr >= 8 && t' == Split(t, p, i, a, c) && Ready(cache, root, t') && fresh(cache.repr - old(cache.repr))
    ensures StepTo(SnapOf(old(cache.st), t), SnapOf(cache.st, t'), 0)
    ensures cache.st == old(cache.st).(view := t'.view)
  {
    NodeFacts(cache.st, t, a);
    NodeFacts(cache.st, t, p);
    ghost var s := cache.st;
    var key := MoveLower(cache, a, c, nr);
    cache.InsertItem(p, i, Item(key, Ref(c)));
    SplitStep(s, cache.st, t, p, i, a, c);
    t' := Split(t, p, i, a, c);
  }

  /** A walk for a key is under way: block a, on the path, was reached through its parent or is the root. */
  ghost predicate At(t: Tree, key: Key, hasParent: bool, p: Addr, i: nat, a: Addr) {
    && OnPath(t, a, key) && a in t.view
    && (hasParent ==> OnPath(t, p, key) && ParentOf(t, p, i, a) && p != a && t.spans[p].level == t.spans[a].level + 1)
    && (!hasParent ==> a == t.root)
  }

  lemma SplitTrip(s: Stored, s': Stored, t: Tree, key: Key, trip: Trip, known: Snap, p: Addr, i: nat, a: Addr, c: Addr)
    requires TreeOk(s, t) && At(t, key, true, p, i, a) && c !in t.spans && c in s.mod && c >= known.log.next
    requires GrownTripOk(SnapOf(s, t), key, trip, known) && trip.low <= t.spans[a].level
    requires t.height > trip.h0 && trip.h0 - 1 !in trip.did ==> p == t.root && |t.view[p].items| == 1
    requires |t.view[a].items| == t.Max(t.spans[a].level) >= 8
    requires s' == s.(view := Split(t, p, i, a, c).view)
    ensures TripOk(SnapOf(s', Split(t, p, i, a, c)), key, trip.(did := trip.did + {t.spans[a].level}, n := trip.n + 1), known)
    ensures t.spans[a].level !in trip.did
  {
    assert Look(0);
    var t' := Split(t, p, i, a, c);
    var mid := t.view[a].items[|t.view[a].items| / 2 - 1].key;
    forall b ensures CountKept(t, t', p, a, b) {
    }
    TripSplit(SnapOf(s, t), SnapOf(s', t'), key, trip, known, p, a, c, mid);
  }

  lemma GrowTrip(s: Stored, s': Stored, t: Tree, key: Key, trip: Trip, known: Snap, r: Addr)
    requires TreeOk(s, t) && OnPath(t, t.root, key) && r !in t.spans && r in s'.mod && r >= known.log.next
    requires TripOk(SnapOf(s, t), key, trip, known)
    requires |t.view[t.root].items| == t.Max(t.spans[t.root].level)
    requires s'.view == Grow(t, r).view && s.mod <= s'.mod && s.log.next <= s'.log.next
    ensures trip.h0 > 0 && trip.h0 - 1 !in trip.did && t.height == trip.h0
    ensures GrownTripOk(SnapOf(s', Grow(t, r)), key, trip.(n := trip.n + 1), known)
  {
    assert Look(0);
    var t' := Grow(t, r);
    assert forall b {:trigger t'.view[b]} :: b in t.spans ==> b in t.view && b in t'.view && t'.view[b].items == t.view[b].items;
    TripGrow(SnapOf(s, t), SnapOf(s', t'), key, trip, known, r);
  }

  lemma AllocTrip(s: Stored, s': Stored, t: Tree, key: Key, trip: Trip, known: Snap, c: Addr, n: Node)
    requires TreeOk(s, t) && TripOk(SnapOf(s, t), key, trip, known) && Grows(s, s', c, n, t.vs)
    ensures TripOk(SnapOf(s', t.(view := s'.view)), key, trip, known)
    ensures c >= known.log.next
  {
    assert Look(0);
    TripAlloc(SnapOf(s, t), SnapOf(s', t.(view := s'.view)), key, trip, known);
  }

  lemma SplitKeepsRootFull(t: Tree, p: Addr, i: nat, a: Addr, c: Addr)
    requires ParentOf(t, p, i, a) && a in t.spans && a in t.view && |t.view[a].items| >= 2 && a != t.root && c != t.root && p != a && c != p
    requires t.root in t.view && t.height > 1
    requires RootFull(t) || (p == t.root && |t.view[p].items| == 1)
    ensures t.root in Split(t, p, i, a, c).view && RootFull(Split(t, p, i, a, c))
  {
  }

  /** The effect of splitting block a during a walk for key. */
  ghost predicate SplitDone(s: Stored, t: Tree, s': Stored, t': Tree, a: Addr, key: Key, trip: Trip, trip': Trip, known: Snap)
    requires a in t.spans
  {
    && t'.root in t'.view && RootFull(t')
    && t'.contents == t.contents && (t'.vs, t'.leafMax, t'.refMax) == (t.vs, t.leafMax, t.refMax)
    && trip'.h0 == trip.h0 && trip'.counts == trip.counts && trip'.low == trip.low
    && t.spans[a].level !in trip.did && trip'.did == trip.did + {t.spans[a].level}
    && trip'.n >= trip.n && TripOk(SnapOf(s', t'), key, trip', known)
    && StepTo(SnapOf(s, t), SnapOf(s', t'), trip'.n - trip.n)
    && s'.visited == s.visited
  }

  /** Allocates the block that will take half of block a's items. */
  method AllocSibling(cache: Cache, root: Root, ghost t: Tree, a: Addr, ghost key: Key, ghost trip: Trip, ghost known: Snap)
      returns (c: Addr, ghost t1: Tree, nr: nat, valSize: nat)
    requires Ready(cache, root, t) && a in t.spans && a in t.view
    requires TripOk(SnapOf(cache.st, t), key, trip, known)
    modifies cache.repr
    ensures t1 == t.(view := cache.st.view) && Ready(cache, root, t1) && fresh(cache.repr - old(cache.repr))
    ensures Grows(old(cache.st), cache.st, c, Node(t.view[a].level, []), t.vs) && c !in t.spans && c >= known.log.next
    ensures StepTo(SnapOf(old(cache.st), t), SnapOf(cache.st, t1), 1) && TripOk(SnapOf(cache.st, t1), key, trip, known)
    ensures Sane(SnapOf(old(cache.st), t))
    ensures nr == |t.view[a].items| && valSize == t.vs
  {
    NodeFacts(cache.st, t, a);
    cache.Below();
    ghost var s := cache.st;
    var level;
    level, valSize, nr := cache.Header(a);
    c := cache.AllocFresh(level, valSize);
    t1 := t.(view := cache.st.view);
    AllocStep(s, cache.st, t, c, Node(level, []));
    AllocTrip(s, cache.st, t, key, trip, known, c, Node(level, []));
  }

  /** Splits a full block that has a parent with room. */
  method SplitChild(cache: Cache, root: Root, ghost t: Tree, p: Addr, i: nat, a: Addr,
      ghost key: Key, ghost trip: Trip, ghost known: Snap) returns (ghost t': Tree, ghost trip': Trip)
    requires Ready(cache, root, t) && RootFull(t) && At(t, key, true, p, i, a)
    requires a in cache.st.mod && |t.view[a].items| == t.Max(t.spans[a].level)
    requires p in cache.st.mod && |t.view[p].items| < t.Max(t.spans[p].level)
    requires TripOk(SnapOf(cache.st, t), key, trip, known) && trip.low <= t.spans[a].level
    modifies cache.repr
    ensures Ready(cache, root, t') && fresh(cache.repr - old(cache.repr))
    ensures SplitDone(old(cache.st), t, cache.st, t', a, key, trip, trip', known)
  {
    ghost var s := cache.st;
    NodeFacts(s, t, p);
    var c, t1, nr, valSize := AllocSibling(cache, root, t, a, key, trip, known);
    ghost var s1 := cache.st;
    t' := SplitUnder(cache, root, t1, p, i, a, c, nr);
    trip' := trip.(did := trip.did + {t.spans[a].level}, n := trip.n + 1);
    SplitChildDone(s, s1, cache.st, t, p, i, a, c, key, trip, known);
  }

  lemma SplitChildDone(s: Stored, s1: Stored, s': Stored, t: Tree, p: Addr, i: nat, a: Addr, c: Addr,
      key: Key, trip: Trip, known: Snap)
    requires TreeOk(s, t) && RootFull(t) && At(t, key, true, p, i, a) && Sane(SnapOf(s, t))
    requires |t.view[a].items| == t.Max(t.spans[a].level) >= 8
    requires TripOk(SnapOf(s, t), key, trip, known) && trip.low <= t.spans[a].level
    requires Grows(s, s1, c, Node(t.view[a].level, []), t.vs)
    requires var t1 := t.(view := s1.view);
      && TreeOk(s1, t1) && TripOk(SnapOf(s1, t1), key, trip, known) && StepTo(SnapOf(s, t), SnapOf(s1, t1), 1)
      && ParentOf(t1, p, i, a) && c !in t.spans && c >= known.log.next
      && s' == s1.(view := Split(t1, p, i, a, c).view)
      && StepTo(SnapOf(s1, t1), SnapOf(s', Split(t1, p, i, a, c)), 0)
    ensures SplitDone(s, t, s', Split(t.(view := s1.view), p, i, a, c), a, key, trip,
      trip.(did := trip.did + {t.spans[a].level}, n := trip.n + 1), known)
  {
    var t1 := t.(view := s1.view);
    SplitTrip(s1, s', t1, key, trip, known, p, i, a, c);
    NodeFacts(s, t, a);
    NodeFacts(s, t, p);
    RootFacts(s, t);
    SplitKeepsRootFull(t1, p, i, a, c);
    StepTrans(SnapOf(s, t), SnapOf(s1, t1), SnapOf(s', Split(t1, p, i, a, c)), 1, 0);
  }

  /** Splits a full root, after giving it a parent. */
  method SplitRoot(cache: Cache, root: Root, ghost t: Tree, a: Addr, ghost key: Key, ghost trip: Trip, ghost known: Snap)
      returns (root': Root, ghost t': Tree, ghost trip': Trip)
    requires Ready(cache, root, t) && RootFull(t) && At(t, key, false, 0, 0, a)
    requires a in cache.st.mod && |t.view[a].items| == t.Max(t.spans[a].level)
    requires TripOk(SnapOf(cache.st, t), key, trip, known) && trip.low <= t.spans[a].level
    modifies cache.repr
    ensures Ready(cache, root', t') && fresh(cache.repr - old(cache.repr))
    ensures SplitDone(old(cache.st), t, cache.st, t', a, key, trip, trip', known)
  {
    ghost var s := cache.st;
    var c, t1, nr, valSize := AllocSibling(cache, root, t, a, key, trip, known);
    ghost var s1 := cache.st;
    NodeFacts(s1, t1, a);
    ghost var t2;
    root', t2 := GrowRoot(cache, root, t1, valSize);
    ghost var s2 := cache.st;
    GrowTrip(s1, s2, t1, key, trip, known, root'.ref);
    GrownFacts(s2, t1, root'.ref);
    t' := SplitUnder(cache, root', t2, root'.ref, 0, a, c, nr);
    trip' := trip.(did := trip.did + {t.spans[a].level}, n := trip.n + 2);
    SplitRootDone(s, s1, s2, cache.st, t, a, c, root'.ref, key, trip, known);
  }

  lemma GrownFacts(s: Stored, t: Tree, r: Addr)
    requires TreeOk(s, Grow(t, r)) && r !in t.spans
    ensures t.vs <= MAX_VAL_SIZE && t.refMax >= 8
    ensures r in Grow(t, r).spans && Grow(t, r).spans[r] == Span(t.height, -1, MAX_KEY)
  {
    assert Look(0);
  }

  lemma SplitRootDone(s: Stored, s1: Stored, s2: Stored, s': Stored, t: Tree, a: Addr, c: Addr, r: Addr,
      key: Key, trip: Trip, known: Snap)
    requires TreeOk(s, t) && At(t, key, false, 0, 0, a) && Sane(SnapOf(s, t))
    requires |t.view[a].items| == t.Max(t.spans[a].level) >= 8 && trip.low <= t.spans[a].level
    requires s1.visited == s.visited && s2.visited == s1.visited
    requires c !in t.spans && c >= known.log.next && c in s1.view && c in s2.mod && c != r && r !in t.spans && c != a && r != a
    requires var t1 := t.(view := s1.view); var t2 := Grow(t1, r); var trip2 := trip.(n := trip.n + 1);
      && a in t1.view && t1.view[a] == t.view[a]
      && StepTo(SnapOf(s, t), SnapOf(s1, t1), 1) && StepTo(SnapOf(s1, t1), SnapOf(s2, t2), 1)
      && TreeOk(s2, t2) && ParentOf(t2, r, 0, a)
      && GrownTripOk(SnapOf(s2, t2), key, trip2, known) && trip.h0 > 0 && trip.h0 - 1 !in trip.did && t.height == trip.h0
      && s' == s2.(view := Split(t2, r, 0, a, c).view)
      && StepTo(SnapOf(s2, t2), SnapOf(s', Split(t2, r, 0, a, c)), 0)
    ensures var t2 := Grow(t.(view := s1.view), r);
      SplitDone(s, t, s', Split(t2, r, 0, a, c), a, key, trip, trip.(did := trip.did + {t.spans[a].level}, n := trip.n + 2), known)
  {
    var t1 := t.(view := s1.view);
    var t2 := Grow(t1, r);
    var trip2 := trip.(n := trip.n + 1);
    RootFacts(s, t);
    GrownFacts(s2, t1, r);
    SplitTrip(s2, s', t2, key, trip2, known, r, 0, a, c);
    SplitKeepsRootFull(t2, r, 0, a, c);
    StepTrans(SnapOf(s, t), SnapOf(s1, t1), SnapOf(s2, t2), 1, 1);
    StepTrans(SnapOf(s, t), SnapOf(s2, t2), SnapOf(s', Split(t2, r, 0, a, c)), 2, 0);
  }

  // ---------------------------------------------------------------- Descending

  /** The next block of a walk for key is the root, or the child that the parent p refers to at i. */
  ghost predicate Heading(t: Tree, key: Key, hasParent: bool, p: Addr, i: nat, level: nat) {
    if hasParent then
      OnPath(t, p, key) && p in t.view && t.spans[p].level == level + 1 && i == LowerBound(t.view[p].items, key)
    else
      level + 1 == t.height
  }

  /** Everything read so far was on the path at the start, or was allocated since. */
  ghost predicate VisitedOk(visited0: set<Addr>, visited: set<Addr>, known: Snap, key: Key) {
    forall a {:trigger a in visited} :: a in visited ==> a in visited0 || OnPath(known.t, a, key) || a >= known.log.next
  }

  lemma HeadingFacts(s: Stored, t: Tree, key: Key, p: Addr, i: nat, level: nat)
    requires TreeOk(s, t) && Heading(t, key, true, p, i, level)
    ensures i < |t.view[p].items| && t.view[p].items[i].val.Ref?
    ensures At(t, key, true, p, i, t.view[p].items[i].val.addr)
    ensures t.spans[t.view[p].items[i].val.addr].level == level
  {
    assert Look(0);
    assert BlockOk(t, p);
    Descend(t, p, key);
    ChildFacts(t, p, i);
  }

  lemma RootOnPath(s: Stored, t: Tree, key: Key)
    requires TreeOk(s, t)
    ensures At(t, key, false, 0, 0, t.root) && t.spans[t.root].level + 1 == t.height
  {
    RootFacts(s, t);
  }

  lemma ReadOnPath(s: Snap, key: Key, trip: Trip, known: Snap, a: Addr)
    requires TripOk(s, key, trip, known) && OnPath(s.t, a, key) && a in s.t.view
    ensures OnPath(known.t, a, key) || a >= known.log.next
    ensures s.t.spans[a].level >= trip.low ==> a in s.mod
  {
    assert PathBlockOk(s, key, trip, known, a);
  }

  /** The progress of a walk after block a was made modifiable, as c. */
  function Reached(t: Tree, trip: Trip, a: Addr, n: nat): Trip
    requires a in t.spans
  {
    trip.(low := if trip.low == t.spans[a].level + 1 then t.spans[a].level else trip.low, n := trip.n + n)
  }

  lemma ReachRoot(s: Stored, s': Stored, t: Tree, t': Tree, key: Key, trip: Trip, known: Snap, n: nat)
    requires TreeOk(s, t) && TreeOk(s', t') && TripOk(SnapOf(s, t), key, trip, known) && trip.low <= t.height
    requires Copied(SnapOf(s, t), SnapOf(s', t'), t.root, t'.root, n) && t' == if n == 0 then t else CopyRoot(t, t'.root)
    requires StepTo(SnapOf(s, t), SnapOf(s', t'), n)
    ensures TripOk(SnapOf(s', t'), key, Reached(t, trip, t.root, n), known)
    ensures RootFull(t) ==> RootFull(t')
  {
    RootOnPath(s, t, key);
    assert Look(0);
    var m, m' := SnapOf(s, t), SnapOf(s', t');
    ReadOnPath(m, key, trip, known, t.root);
    if n == 0 {
      if trip.low == t.height {
        TripReach(m, key, trip, known, t.root);
      }
    } else {
      forall b ensures b in m.mod ==> b in m'.mod {
        assert KeptAt(m, m', b);
      }
      TripCopy(m, m', key, trip, known, t.root, t'.root);
    }
  }

  lemma ReachChild(s: Stored, s': Stored, t: Tree, t': Tree, key: Key, trip: Trip, known: Snap, p: Addr, i: nat, a: Addr, c: Addr, n: nat)
    requires TreeOk(s, t) && TreeOk(s', t') && TripOk(SnapOf(s, t), key, trip, known)
    requires At(t, key, true, p, i, a) && trip.low <= t.spans[a].level + 1
    requires Copied(SnapOf(s, t), SnapOf(s', t'), a, c, n) && t' == if n == 0 then t else CopyChild(t, p, i, a, c)
    requires StepTo(SnapOf(s, t), SnapOf(s', t'), n)
    ensures TripOk(SnapOf(s', t'), key, Reached(t, trip, a, n), known)
    ensures At(t', key, true, p, i, c) && t'.spans[c] == t.spans[a] && |t'.view[p].items| == |t.view[p].items|
    ensures RootFull(t) ==> RootFull(t')
  {
    assert Look(0);
    var m, m' := SnapOf(s, t), SnapOf(s', t');
    ReadOnPath(m, key, trip, known, a);
    if n == 0 {
      if trip.low == t.spans[a].level + 1 {
        TripReach(m, key, trip, known, a);
      }
    } else {
      forall b ensures b in m.mod ==> b in m'.mod {
        assert KeptAt(m, m', b);
      }
      OnlyParent(t, p, i, a);
      TripCopy(m, m', key, trip, known, a, c);
    }
  }

  /** What reading the next block of an insert's walk, for changing it, leads to. */
  ghost predicate NextDone(s: Stored, t: Tree, s': Stored, t': Tree, key: Key, hasParent: bool, p: Addr, i: nat, a: Addr, level: nat,
      trip: Trip, trip': Trip, known: Snap, visited0: set<Addr>)
  {
    && At(t', key, hasParent, p, i, a) && a in s'.mod && t'.spans[a].level == level
    && t'.root in t'.view && RootFull(t') && t'.contents == t.contents && t'.height == t.height
    && (t'.vs, t'.leafMax, t'.refMax) == (t.vs, t.leafMax, t.refMax)
    && TripOk(SnapOf(s', t'), key, trip', known)
    && trip'.h0 == trip.h0 && trip'.counts == trip.counts && trip'.did == trip.did && trip'.low <= level && trip'.n >= trip.n
    && StepTo(SnapOf(s, t), SnapOf(s', t'), trip'.n - trip.n)
    && VisitedOk(visited0, s'.visited, known, key)
    && (hasParent ==> p in s'.mod && p in t.view && |t'.view[p].items| == |t.view[p].items|)
  }

  lemma NextRoot(s: Stored, s': Stored, t: Tree, t': Tree, key: Key, level: nat, trip: Trip, known: Snap, n: nat, visited0: set<Addr>)
    requires TreeOk(s, t) && RootFull(t) && TreeOk(s', t') && TripOk(SnapOf(s, t), key, trip, known)
    requires level + 1 == t.height && trip.low <= level + 1 && VisitedOk(visited0, s.visited, known, key)
    requires Copied(SnapOf(s, t), SnapOf(s', t'), t.root, t'.root, n) && t' == if n == 0 then t else CopyRoot(t, t'.root)
    requires StepTo(SnapOf(s, t), SnapOf(s', t'), n) && s'.visited == s.visited + {t.root}
    ensures NextDone(s, t, s', t', key, false, 0, 0, t'.root, level, trip, Reached(t, trip, t.root, n), known, visited0)
  {
    RootOnPath(s, t, key);
    RootOnPath(s', t', key);
    ReachRoot(s, s', t, t', key, trip, known, n);
    ReadOnPath(SnapOf(s, t), key, trip, known, t.root);
  }

  lemma NextChild(s: Stored, s': Stored, t: Tree, t': Tree, key: Key, p: Addr, i: nat, a: Addr, c: Addr, level: nat,
      trip: Trip, known: Snap, n: nat, visited0: set<Addr>)
    requires TreeOk(s, t) && RootFull(t) && TreeOk(s', t') && TripOk(SnapOf(s, t), key, trip, known)
    requires At(t, key, true, p, i, a) && t.spans[a].level == level && trip.low <= level + 1 && p in s.mod
    requires VisitedOk(visited0, s.visited, known, key)
    requires Copied(SnapOf(s, t), SnapOf(s', t'), a, c, n) && t' == if n == 0 then t else CopyChild(t, p, i, a, c)
    requires StepTo(SnapOf(s, t), SnapOf(s', t'), n) && s'.visited == s.visited + {a}
    ensures NextDone(s, t, s', t', key, true, p, i, c, level, trip, Reached(t, trip, a, n), known, visited0)
  {
    ReachChild(s, s', t, t', key, trip, known, p, i, a, c, n);
    ReadOnPath(SnapOf(s, t), key, trip, known, a);
    assert KeptAt(SnapOf(s, t), SnapOf(s', t'), p);
  }

  /** Reads the next block of an insert's walk, for changing it. */
  method DirtyNext(cache: Cache, root: Root, ghost t: Tree, ghost key: Key, hasParent: bool, p: Addr, i: nat, ghost level: nat,
      ghost trip: Trip, ghost known: Snap, ghost visited0: set<Addr>)
      returns (root': Root, ghost t': Tree, a: Addr, ghost trip': Trip)
    requires Ready(cache, root, t) && RootFull(t) && Heading(t, key, hasParent, p, i, level)
    requires hasParent ==> p in cache.st.mod
    requires !hasParent ==> p == 0 && i == 0
    requires TripOk(SnapOf(cache.st, t), key, trip, known) && trip.low <= level + 1
    requires VisitedOk(visited0, cache.st.visited, known, key)
    modifies cache.repr
    ensures Ready(cache, root', t') && fresh(cache.repr - old(cache.repr))
    ensures NextDone(old(cache.st), t, cache.st, t', key, hasParent, p, i, a, level, trip, trip', known, visited0)
  {
    ghost var s := cache.st;
    ghost var n;
    if hasParent {
      HeadingFacts(s, t, key, p, i, level);
      ghost var a0;
      a, a0, t', n := DirtyChild(cache, root, t, p, i);
      root' := root;
      trip' := Reached(t, trip, a0, n);
      NextChild(s, cache.st, t, t', key, p, i, a0, a, level, trip, known, n, visited0);
    } else {
      root', t', n := DirtyRoot(cache, root, t);
      a := root'.ref;
      trip' := Reached(t, trip, t.root, n);
      NextRoot(s, cache.st, t, t', key, level, trip, known, n, visited0);
    }
  }

  /** Splits block a under its parent, or the root. */
  method SplitBlock(cache: Cache, root: Root, ghost t: Tree, hasParent: bool, p: Addr, i: nat, a: Addr,
      ghost key: Key, ghost trip: Trip, ghost known: Snap) returns (root': Root, ghost t': Tree, ghost trip': Trip)
    requires Ready(cache, root, t) && RootFull(t) && At(t, key, hasParent, p, i, a)
    requires a in cache.st.mod && |t.view[a].items| == t.Max(t.spans[a].level)
    requires hasParent ==> p in cache.st.mod && |t.view[p].items| < t.Max(t.spans[p].level)
    requires TripOk(SnapOf(cache.st, t), key, trip, known) && trip.low <= t.spans[a].level
    modifies cache.repr
    ensures Ready(cache, root', t') && fresh(cache.repr - old(cache.repr))
    ensures SplitDone(old(cache.st), t, cache.st, t', a, key, trip, trip', known)
  {
    if hasParent {
      t', trip' := SplitChild(cache, root, t, p, i, a, key, trip, known);
      root' := root;
    } else {
      root', t', trip' := SplitRoot(cache, root, t, a, key, trip, known);
    }
  }

  /** The state of an insert's walk for key, since it began with s0 and t0. */
  ghost predicate Walking(s0: Stored, t0: Tree, s: Stored, t: Tree, key: Key, trip: Trip) {
    forall u {:trigger Look(u)} :: Look(u) ==> WalkingFacts(s0, t0, s, t, key, trip)
  }

  ghost predicate WalkingFacts(s0: Stored, t0: Tree, s: Stored, t: Tree, key: Key, trip: Trip) {
    && Sane(SnapOf(s0, t0))
    && t.root in t.view && RootFull(t) && t.contents == t0.contents
    && (t.vs, t.leafMax, t.refMax) == (t0.vs, t0.leafMax, t0.refMax)
    && trip.h0 == t0.height > 0 && trip.counts == PathCounts(t0.view, t0.root, t0.height - 1, key)
    && TripOk(SnapOf(s, t), key, trip, SnapOf(s0, t0))
    && StepTo(SnapOf(s0, t0), SnapOf(s, t), trip.n)
    && VisitedOk(s0.visited, s.visited, SnapOf(s0, t0), key)
  }

  lemma WalkStarts(s: Stored, t: Tree, key: Key)
    requires TreeOk(s, t) && RootFull(t) && Sane(SnapOf(s, t))
    ensures t.height > 0 && Walking(s, t, s, t, key, Setout(t, key))
  {
    assert Look(0);
    TripStarts(SnapOf(s, t), key);
    StepNothing(SnapOf(s, t));
  }

  lemma WalkingNext(s0: Stored, t0: Tree, s: Stored, t: Tree, s': Stored, t': Tree, key: Key, hasParent: bool, p: Addr, i: nat,
      a: Addr, level: nat, trip: Trip, trip': Trip)
    requires Walking(s0, t0, s, t, key, trip)
    requires NextDone(s, t, s', t', key, hasParent, p, i, a, level, trip, trip', SnapOf(s0, t0), s0.visited)
    ensures Walking(s0, t0, s', t', key, trip')
  {
    assert Look(0);
    StepTrans(SnapOf(s0, t0), SnapOf(s, t), SnapOf(s', t'), trip.n, trip'.n - trip.n);
  }

  lemma WalkingSplit(s0: Stored, t0: Tree, s: Stored, t: Tree, s': Stored, t': Tree, key: Key, a: Addr, trip: Trip, trip': Trip)
    requires Walking(s0, t0, s, t, key, trip) && a in t.spans
    requires SplitDone(s, t, s', t', a, key, trip, trip', SnapOf(s0, t0))
    ensures Walking(s0, t0, s', t', key, trip') && |trip.did| < |trip'.did| <= t0.height && |trip'.counts| <= t'.height
  {
    assert Look(0);
    StepTrans(SnapOf(s0, t0), SnapOf(s, t), SnapOf(s', t'), trip.n, trip'.n - trip.n);
    TripBound(SnapOf(s', t'), key, trip', SnapOf(s0, t0));
  }

  lemma NextRoomy(s0: Stored, t0: Tree, s: Stored, t: Tree, key: Key, a: Addr, trip: Trip, trip': Trip)
    requires Walking(s0, t0, s, t, key, trip') && (trip'.counts, trip'.did) == (trip.counts, trip.did)
    requires OnPath(t, a, key) && a in t.view && |t.view[a].items| < t.Max(t.spans[a].level)
    requires RoomyFrom(trip, t0.leafMax, t0.refMax, t.spans[a].level + 1)
    ensures RoomyFrom(trip', t0.leafMax, t0.refMax, t.spans[a].level)
  {
    assert Look(0);
    TripRoomy(SnapOf(s, t), key, trip', SnapOf(s0, t0), a);
    RoomyOneMore(trip, trip', t0.leafMax, t0.refMax, t.spans[a].level);
  }

  lemma WalkDone(s0: Stored, t0: Tree, s: Stored, t: Tree, key: Key, trip: Trip)
    requires Walking(s0, t0, s, t, key, trip) && RoomyFrom(trip, t0.leafMax, t0.refMax, 0)
    ensures t0.height > 0 && t.leafMax == t0.leafMax && t.height == t0.height +
      if Splits(PathCounts(t0.view, t0.root, t0.height - 1, key), t0.leafMax, t0.refMax, t0.height - 1) then 1 else 0
  {
    assert Look(0);
    TripDone(SnapOf(s, t), key, trip, SnapOf(s0, t0));
  }

  /** Searches a block for the key, and finds whether it should be split. */
  method SearchBlock(cache: Cache, ghost t: Tree, a: Addr, key: Key) returns (ind: nat, cmp: int, full: bool)
    requires cache.Valid() && TreeOk(cache.st, t) && a in t.spans && a in t.view
    ensures ind == LowerBound(t.view[a].items, key) && (cmp == 0 <==> HasKey(t.view[a].items, key))
    ensures full <==> |t.view[a].items| == t.Max(t.spans[a].level)
    ensures |t.view[a].items| <= t.Max(t.spans[a].level) && t.view[a].level == t.spans[a].level
  {
    NodeFacts(cache.st, t, a);
    ind, cmp := cache.FindKey(a, key);
    var level, valSize, nr := cache.Header(a);
    full := nr == MaxItems(BlockValSize(level, valSize));
  }

  /** An insert's walk has reached block a, and searched it for the key. */
  ghost predicate Searched(s: Stored, t: Tree, key: Key, hasParent: bool, p: Addr, i: nat, a: Addr, level: nat, ind: nat, cmp: int)
  {
    && Arrived(s, t, key, hasParent, p, i, a, level) && t.view[a].level == level
    && ind == LowerBound(t.view[a].items, key) && (cmp == 0 <==> HasKey(t.view[a].items, key))
  }

  /** An insert's walk has reached block a, which may be changed. */
  ghost predicate Arrived(s: Stored, t: Tree, key: Key, hasParent: bool, p: Addr, i: nat, a: Addr, level: nat) {
    && At(t, key, hasParent, p, i, a) && a in s.mod && t.spans[a].level == level
    && (hasParent ==> p in s.mod && |t.view[p].items| < t.Max(t.spans[p].level))
  }

  /** Reads the next block of an insert's walk. */
  method GoDown(cache: Cache, root: Root, ghost t: Tree, ghost key: Key, hasParent: bool, p: Addr, i: nat, ghost level: nat,
      ghost trip: Trip, ghost s0: Stored, ghost t0: Tree)
      returns (root': Root, ghost t': Tree, a: Addr, ghost trip': Trip)
    requires Ready(cache, root, t) && Walking(s0, t0, cache.st, t, key, trip) && trip.low <= level + 1
    requires Heading(t, key, hasParent, p, i, level)
    requires if hasParent then p in cache.st.mod && |t.view[p].items| < t.Max(t.spans[p].level) else p == 0 && i == 0
    modifies cache.repr
    ensures Ready(cache, root', t') && fresh(cache.repr - old(cache.repr))
    ensures Walking(s0, t0, cache.st, t', key, trip') && trip'.low <= level && (trip'.counts, trip'.did) == (trip.counts, trip.did)
    ensures Arrived(cache.st, t', key, hasParent, p, i, a, level)
  {
    ghost var s := cache.st;
    assert WalkingFacts(s0, t0, s, t, key, trip) by {
      assert Look(0);
    }
    root', t', a, trip' := DirtyNext(cache, root, t, key, hasParent, p, i, level, trip, SnapOf(s0, t0), s0.visited);
    WalkingNext(s0, t0, s, t, cache.st, t', key, hasParent, p, i, a, level, trip, trip');
  }

  /** Reads the next block of an insert's walk and searches it. */
  method VisitNext(cache: Cache, root: Root, ghost t: Tree, key: Key, hasParent: bool, p: Addr, i: nat, ghost level: nat,
      ghost trip: Trip, ghost s0: Stored, ghost t0: Tree)
      returns (root': Root, ghost t': Tree, a: Addr, ind: nat, cmp: int, full: bool, ghost trip': Trip)
    requires Ready(cache, root, t) && Walking(s0, t0, cache.st, t, key, trip) && trip.low <= level + 1
    requires Heading(t, key, hasParent, p, i, level)
    requires if hasParent then p in cache.st.mod && |t.view[p].items| < t.Max(t.spans[p].level) else p == 0 && i == 0
    modifies cache.repr
    ensures Ready(cache, root', t') && fresh(cache.repr - old(cache.repr))
    ensures Walking(s0, t0, cache.st, t', key, trip') && trip'.low <= level && (trip'.counts, trip'.did) == (trip.counts, trip.did)
    ensures Searched(cache.st, t', key, hasParent, p, i, a, level, ind, cmp)
    ensures full <==> |t'.view[a].items| == t'.Max(t'.spans[a].level)
    ensures |t'.view[a].items| <= t'.Max(t'.spans[a].level)
  {
    root', t', a, trip' := GoDown(cache, root, t, key, hasParent, p, i, level, trip, s0, t0);
    ind, cmp, full := SearchBlock(cache, t', a, key);
  }

  /** Splits the block an insert's walk has reached; the walk starts over. */
  method SplitHere(cache: Cache, root: Root, ghost t: Tree, ghost key: Key, hasParent: bool, p: Addr, i: nat, a: Addr,
      ghost level: nat, ghost ind: nat, ghost cmp: int, ghost trip: Trip, ghost s0: Stored, ghost t0: Tree)
      returns (root': Root, ghost t': Tree, ghost trip': Trip)
    requires Ready(cache, root, t) && Walking(s0, t0, cache.st, t, key, trip) && trip.low <= level
    requires Searched(cache.st, t, key, hasParent, p, i, a, level, ind, cmp)
    requires |t.view[a].items| == t.Max(t.spans[a].level)
    modifies cache.repr
    ensures Ready(cache, root', t') && fresh(cache.repr - old(cache.repr))
    ensures Walking(s0, t0, cache.st, t', key, trip') && trip'.low == trip.low && |trip'.counts| <= root'.height
    ensures |trip.did| < |trip'.did| <= t0.height && trip'.low <= root'.height && root'.height > 0 && root'.height == t'.height
  {
    ghost var s := cache.st;
    assert WalkingFacts(s0, t0, s, t, key, trip) by {
      assert Look(0);
    }
    root', t', trip' := SplitBlock(cache, root, t, hasParent, p, i, a, key, trip, SnapOf(s0, t0));
    WalkingSplit(s0, t0, s, t, cache.st, t', key, a, trip, trip');
    RootFacts(cache.st, t');
  }

  /** Walks down to the leaf for key, making every block on the way modifiable and splitting full ones. */
  method WalkSplit(cache: Cache, root: Root, ghost t: Tree, key: Key)
      returns (root': Root, ghost t': Tree, a: Addr, ind: nat, cmp: int, ghost trip: Trip)
    requires Ready(cache, root, t) && RootFull(t)
    modifies cache.repr
    ensures Ready(cache, root', t') && fresh(cache.repr - old(cache.repr))
    ensures Walking(old(cache.st), t, cache.st, t', key, trip)
    ensures exists hasParent, p, i :: Searched(cache.st, t', key, hasParent, p, i, a, 0, ind, cmp)
    ensures |t'.view[a].items| < t'.leafMax
    ensures t.height > 0 && t'.height == t.height +
      if Splits(PathCounts(t.view, t.root, t.height - 1, key), t.leafMax, t.refMax, t.height - 1) then 1 else 0
  {
    ghost var s0 := cache.st;
    cache.Below();
    RootFacts(s0, t);
    WalkStarts(s0, t, key);
    root', t', trip := root, t, Setout(t, key);
    var hasParent, p, i, level := false, 0, 0, root.height;
    while true
      invariant Ready(cache, root', t') && fresh(cache.repr - old(cache.repr))
      invariant Walking(s0, t, cache.st, t', key, trip) && trip.low <= level && level > 0
      invariant Heading(t', key, hasParent, p, i, level - 1)
      invariant if hasParent then p in cache.st.mod && |t'.view[p].items| < t'.Max(t'.spans[p].level) else p == 0 && i == 0
      invariant |trip.did| <= t.height && RoomyFrom(trip, t.leafMax, t.refMax, level)
      decreases t.height - |trip.did|, level
    {
      var full;
      ghost var trip0 := trip;
      level := level - 1;
      root', t', a, ind, cmp, full, trip := VisitNext(cache, root', t', key, hasParent, p, i, level, trip, s0, t);
      if full {
        root', t', trip := SplitHere(cache, root', t', key, hasParent, p, i, a, level, ind, cmp, trip, s0, t);
        hasParent, p, i, level := false, 0, 0, root'.height;
      } else {
        NextRoomy(s0, t, cache.st, t', key, a, trip0, trip);
        if level == 0 {
          WalkDone(s0, t, cache.st, t', key, trip);
          return;
        }
        hasParent, p, i := true, a, ind;
      }
    }
  }
}
