/**
 The log store's B-tree (devd/btree.c:556-766): lookups, inserts, replacements and deletes, each
 specified by the map of keys to values that the tree stands for.
 */
module Btree {
  import opened BtreeFormat
  import opened BtreeShape
  import opened BtreeSteps
  import opened BtreeLeaf
  import opened BtreeDirty
  import opened BtreeWalk
  import opened BtreeCache
  import opened BtreeInsert
  import opened BtreeRemove
  import opened Wrappers

  // ---------------------------------------------------------------- What a root denotes

  /** What a reader finds for key k going down from block a of the given level. */
  function Find(view: map<Addr, Node>, a: Addr, level: nat, k: Key): Option<seq<bv8>>
    decreases level
  {
    if a !in view then None else
      var items := view[a].items;
      var i := LowerBound(items, k);
      if i == |items| then None
      else if level == 0 then
        if items[i].key == k && items[i].val.Value? then Some(items[i].val.bytes) else None
      else
        if items[i].val.Ref? then Find(view, items[i].val.addr, level - 1, k) else None
  }

  /** What a reader finds for key k from a root. */
  function FindFrom(view: map<Addr, Node>, root: Root, k: Key): Option<seq<bv8>> {
    if root.height == 0 then None else Find(view, root.ref, root.height - 1, k)
  }

  function Get(m: map<Key, seq<bv8>>, k: Key): Option<seq<bv8>> {
    if k in m then Some(m[k]) else None
  }

  lemma {:induction false} FindOnPath(t: Tree, a: Addr, level: nat, k: Key)
    requires Inv(t) && OnPath(t, a, k) && t.spans[a].level == level
    ensures Find(t.view, a, level, k) == Get(t.contents, k)
    decreases level
  {
    assert BlockOk(t, a);
    var items := t.view[a].items;
    var i := LowerBound(items, k);
    if level == 0 {
      assert k in t.contents ==> HasKey(items, k);
    } else {
      Descend(t, a, k);
      FindOnPath(t, items[i].val.addr, level - 1, k);
    }
  }

  /** A reader going down from the root finds exactly what the tree's map says, for every key. */
  lemma RootDenotesContents(s: Stored, t: Tree, k: Key)
    requires TreeOk(s, t)
    ensures FindFrom(s.view, Root(t.root, t.height), k) == Get(t.contents, k)
  {
    assert Look(0);
    FindOnPath(t, t.root, t.height - 1, k);
  }

  /** A block's own part in the shape: item counts, key bounds, and what its items hold. */
  ghost predicate ShapeHere(t: Tree, a: Addr, level: nat, lo: int, hi: Key, isRoot: bool) {
    && a in t.view && t.view[a].level == level
    && Sorted(t.view[a].items)
    && KeysWithin(t.view[a].items, Span(level, lo, hi))
    && |t.view[a].items| <= t.Max(level)
    && (!isRoot ==> |t.view[a].items| >= t.Max(level) / 2)
    && (level == 0 ==> AllValues(t.view[a].items, t.vs))
    && (level > 0 ==> AllRefs(t.view[a].items) && |t.view[a].items| >= 2 && t.view[a].items[|t.view[a].items| - 1].key == hi)
  }

  /** An independent description of the shape, from a block down: every leaf is at the same depth, and each
      child is bounded by its parent's keys. */
  ghost predicate Shape(t: Tree, a: Addr, level: nat, lo: int, hi: Key, isRoot: bool)
    decreases level, 1
  {
    && ShapeHere(t, a, level, lo, hi, isRoot)
    && (level > 0 ==> forall i: nat {:trigger ChildShape(t, a, level, lo, i)} :: i < |t.view[a].items| ==> ChildShape(t, a, level, lo, i))
  }

  lemma HasShapeHere(t: Tree, a: Addr)
    requires Inv(t) && a in t.spans && t.root in t.view && RootFull(t)
    ensures ShapeHere(t, a, t.spans[a].level, t.spans[a].lo, t.spans[a].hi, a == t.root)
  {
    assert BlockOk(t, a);
    assert InTree(t, a);
  }

  /** The i'th child of block a has the shape that a's keys call for. */
  ghost predicate ChildShape(t: Tree, a: Addr, level: nat, lo: int, i: nat)
    requires level > 0 && a in t.view && i < |t.view[a].items|
    decreases level, 0
  {
    t.view[a].items[i].val.Ref? &&
    Shape(t, t.view[a].items[i].val.addr, level - 1, if i == 0 then lo else t.view[a].items[i - 1].key, t.view[a].items[i].key, false)
  }

  lemma {:induction false} InvGivesShape(t: Tree, a: Addr, level: nat)
    requires Inv(t) && a in t.spans && t.spans[a].level == level && t.root in t.view && RootFull(t)
    ensures Shape(t, a, level, t.spans[a].lo, t.spans[a].hi, a == t.root)
    decreases level, 1
  {
    HasShapeHere(t, a);
    if level > 0 {
      forall i: nat | i < |t.view[a].items| ensures ChildShape(t, a, level, t.spans[a].lo, i) {
        InvGivesChildShape(t, a, level, i);
      }
    }
  }

  lemma {:induction false} InvGivesChildShape(t: Tree, a: Addr, level: nat, i: nat)
    requires Inv(t) && a in t.spans && t.spans[a].level == level > 0 && t.root in t.view && RootFull(t)
    requires a in t.view && i < |t.view[a].items|
    ensures ChildShape(t, a, level, t.spans[a].lo, i)
    decreases level, 0
  {
    ChildFacts(t, a, i);
    InvGivesShape(t, t.view[a].items[i].val.addr, level - 1);
  }

  /** The whole tree's shape, from the root, over all keys. */
  lemma TreeShape(s: Stored, t: Tree)
    requires TreeOk(s, t) && RootFull(t)
    ensures t.height > 0 && Shape(t, t.root, t.height - 1, -1, MAX_KEY, true)
  {
    assert Look(0);
    InvGivesShape(t, t.root, t.height - 1);
  }

  // ---------------------------------------------------------------- Saved roots

  /** A tree none of whose blocks may be changed any more. */
  ghost predicate Frozen(s: Stored, t: Tree) {
    && TreeOk(s, t)
    && (forall a {:trigger a in s.view} :: a in s.view ==> a < s.log.next)
    && (forall a {:trigger a in t.spans} :: a in t.spans ==> a !in s.mod)
  }

  /** Block a keeps its place, its contents if it could not be changed, and never can be changed again. */
  ghost predicate LaterAt(s: Stored, s': Stored, a: Addr) {
    && (a in s.view ==> a in s'.view && (a !in s.mod ==> s'.view[a] == s.view[a]))
    && (a in s.view && a in s.sizes ==> a in s'.sizes && s'.sizes[a] == s.sizes[a])
    && (a in s'.mod ==> a in s.mod || a >= s.log.next)
  }

  /** No block that could not be changed in s is different in s', and none could be again. */
  ghost predicate Later(s: Stored, s': Stored) {
    && s.log.next <= s'.log.next
    && (forall a {:trigger a in s'.view} :: a in s'.view ==> a < s'.log.next)
    && forall a {:trigger LaterAt(s, s', a)} :: LaterAt(s, s', a)
  }

  /** A root that may not be changed any more: nothing below it can be. */
  lemma CleanRootFrozen(s: Stored, root: Root, t: Tree)
    requires root.height > 0 && Sound(s, root, t) && root.ref !in s.mod
    requires forall a {:trigger a in s.view} :: a in s.view ==> a < s.log.next
    ensures Frozen(s, t)
  {
    assert TreeFacts(s, t) by {
      assert Look(0);
    }
    CleanRoot(t, s.mod);
  }

  /** A root that is clean when it is saved stands for the same map ever after. */
  lemma CleanRootSurvives(s: Stored, s': Stored, root: Root, t: Tree, k: Key)
    requires root.height > 0 && Sound(s, root, t) && root.ref !in s.mod && Later(s, s')
    requires forall a {:trigger a in s.view} :: a in s.view ==> a < s.log.next
    ensures FindFrom(s'.view, root, k) == FindFrom(s.view, root, k) == Get(t.contents, k)
  {
    CleanRootFrozen(s, root, t);
    SavedTreeSurvives(s, s', t);
    RootDenotesContents(s, t, k);
  }

  lemma LaterTrans(s: Stored, s1: Stored, s2: Stored)
    requires forall a {:trigger a in s.view} :: a in s.view ==> a < s.log.next
    requires Later(s, s1) && Later(s1, s2)
    ensures Later(s, s2)
  {
    forall a ensures LaterAt(s, s2, a) {
      assert LaterAt(s, s1, a) && LaterAt(s1, s2, a);
    }
  }

  /** Operations on a tree change no block that could not be changed. */
  lemma StepIsLater(s: Stored, s': Stored, n: nat)
    requires StepTo(Plain(s), Plain(s'), n)
    requires forall a {:trigger a in s'.view} :: a in s'.view ==> a < s'.log.next
    ensures Later(s, s')
  {
    forall a ensures LaterAt(s, s', a) {
      assert KeptAt(Plain(s), Plain(s'), a);
    }
  }

  /** Whatever is changed afterwards, a frozen tree stays frozen and stands for the same map. */
  lemma SavedTreeSurvives(s: Stored, s': Stored, t: Tree)
    requires Frozen(s, t) && Later(s, s')
    ensures Frozen(s', t.(view := s'.view))
    ensures forall k: Key :: FindFrom(s'.view, Root(t.root, t.height), k) == FindFrom(s.view, Root(t.root, t.height), k)
  {
    assert Look(0);
    var t' := t.(view := s'.view);
    forall a | a in t.spans ensures a in t'.view && t'.view[a] == t.view[a] && a !in s'.mod && a in s'.sizes && s'.sizes[a] == t.vs {
      assert BlockOk(t, a);
      assert LaterAt(s, s', a);
    }
    SameBlocksSameInv(t, t');
    forall k: Key ensures FindFrom(s'.view, Root(t.root, t.height), k) == FindFrom(s.view, Root(t.root, t.height), k) {
      RootDenotesContents(s, t, k);
      RootDenotesContents(s', t', k);
    }
  }

  // ---------------------------------------------------------------- Reading

  /** The blocks read are those read before, and those on the path to key down to the given level. */
  ghost predicate ReadDown(visited0: set<Addr>, visited: set<Addr>, t: Tree, key: Key, level: nat) {
    forall b {:trigger b in visited} {:trigger OnPath(t, b, key)} ::
      b in visited <==> b in visited0 || (OnPath(t, b, key) && t.spans[b].level >= level)
  }

  lemma ReadStarts(s: Stored, t: Tree, key: Key)
    requires TreeOk(s, t)
    ensures ReadDown(s.visited, s.visited, t, key, t.height) && t.height > 0
    ensures OnPath(t, t.root, key) && t.spans[t.root].level + 1 == t.height
  {
    assert Look(0);
    forall b | OnPath(t, b, key) ensures t.spans[b].level < t.height {
      assert InTree(t, b);
    }
  }

  lemma ReadOne(s: Stored, t: Tree, key: Key, visited0: set<Addr>, visited: set<Addr>, a: Addr)
    requires TreeOk(s, t) && OnPath(t, a, key) && ReadDown(visited0, visited, t, key, t.spans[a].level + 1)
    ensures ReadDown(visited0, visited + {a}, t, key, t.spans[a].level)
  {
    assert Look(0);
    forall b | OnPath(t, b, key) && t.spans[b].level == t.spans[a].level ensures b == a {
      UniqueOnPath(t, a, b, key);
    }
  }

  /** Walks down to the leaf for key, changing nothing: it reads exactly the blocks on the path. */
  method WalkRead(cache: Cache, root: Root, ghost t: Tree, key: Key) returns (a: Addr, ind: nat, cmp: int)
    requires cache.Valid() && root == Root(t.root, t.height) && TreeOk(cache.st, t)
    modifies cache`st
    ensures cache.Valid() && cache.st == old(cache.st).(visited := cache.st.visited)
    ensures ReadDown(old(cache.st.visited), cache.st.visited, t, key, 0)
    ensures OnPath(t, a, key) && a in t.view && t.spans[a].level == 0
    ensures ind == LowerBound(t.view[a].items, key) && (cmp == 0 <==> HasKey(t.view[a].items, key))
  {
    ghost var s0 := cache.st;
    ReadStarts(s0, t, key);
    a := root.ref;
    var level := root.height;
    while true
      invariant cache.Valid() && cache.st == s0.(visited := cache.st.visited)
      invariant level > 0 && OnPath(t, a, key) && t.spans[a].level == level - 1
      invariant ReadDown(s0.visited, cache.st.visited, t, key, level)
      decreases level
    {
      level := level - 1;
      NodeFacts(s0, t, a);
      ReadOne(s0, t, key, s0.visited, cache.st.visited, a);
      cache.Read(a);
      ind, cmp := cache.FindKey(a, key);
      if level == 0 {
        return;
      }
      HeadingFacts(s0, t, key, a, ind, level - 1);
      var item := cache.GetItem(a, ind);
      a := item.val.addr;
    }
  }

  // ---------------------------------------------------------------- Operations

  datatype Errno = OK | EINVAL | EEXIST | ENOENT | EIO

  /** Looks a key up in the tree at a root, current or saved. */
  method Lookup(cache: Cache, root: Root, ghost t: Tree, key: Key, valSize: nat) returns (ret: Errno, val: seq<bv8>)
    requires cache.Valid() && (root.height > 0 ==> root == Root(t.root, t.height) && TreeOk(cache.st, t))
    modifies cache`st
    ensures cache.Valid() && cache.st == old(cache.st).(visited := cache.st.visited)
    ensures ret == if root.height == 0 then ENOENT else if t.vs != valSize then EINVAL else if key in t.contents then OK else ENOENT
    ensures ret == OK ==> key in t.contents && val == t.contents[key]
    ensures ret != EINVAL ==> FindFrom(cache.st.view, root, key) == if ret == OK then Some(val) else None
  {
    val := [];
    if root.height == 0 {
      return ENOENT, [];
    }
    var a, ind, cmp := WalkRead(cache, root, t, key);
    ghost var s := cache.st;
    NodeFacts(s, t, a);
    LeafFacts(s, t, a, key);
    RootDenotesContents(s, t, key);
    var level, size, nr := cache.Header(a);
    if BlockValSize(level, size) != valSize {
      return EINVAL, [];
    } else if cmp == 0 {
      var item := cache.GetItem(a, ind);
      return OK, item.val.bytes;
    } else {
      return ENOENT, [];
    }
  }

  /** The leaf on the path to a key has the key exactly when the map does, with its value. */
  lemma LeafFacts(s: Stored, t: Tree, a: Addr, key: Key)
    requires TreeOk(s, t) && OnPath(t, a, key) && t.spans[a].level == 0 && a in t.view
    ensures HasKey(t.view[a].items, key) <==> key in t.contents
    ensures key in t.contents ==> t.view[a].items[LowerBound(t.view[a].items, key)] == Item(key, Value(t.contents[key]))
    ensures NodeOk(t.view[a], t.spans[a], t.vs) && LeafOk(t.view[a], t.spans[a], t.contents) && t.view[a].level == 0
    ensures CountOk(t.view[a], t.leafMax, a == t.root) && t.GoodSizes()
  {
    assert Look(0);
    assert BlockOk(t, a);
    assert key in t.contents ==> HasKey(t.view[a].items, key);
  }

  lemma LeafStep(s: Stored, s': Stored, t: Tree, a: Addr, items: seq<Item>, contents: map<Key, seq<bv8>>, key: Key)
    requires TreeOk(s, t) && OnPath(t, a, key) && t.spans[a].level == 0 && a in t.view && a in s.mod && s.log.dirty.Some?
    requires AgreeBut(t.contents, contents, key)
    requires NodeOk(Node(0, items), t.spans[a], t.vs) && LeafOk(Node(0, items), t.spans[a], contents)
    requires CountOk(Node(0, items), t.leafMax, a == t.root)
    requires s' == PutItems(s, a, items) && t.view[a].level == 0
    ensures TreeOk(s', SetLeaf(t, a, items, contents))
    ensures StepTo(SnapOf(s, t), SnapOf(s', SetLeaf(t, a, items, contents)), 0)
    ensures DirtyAbove(t, s.mod) ==> DirtyAbove(SetLeaf(t, a, items, contents), s'.mod)
  {
    if DirtyAbove(t, s.mod) {
      DirtySetLeaf(t, s.mod, a, items, contents);
    }
    assert Look(0);
    SetLeafKeepsInv(t, a, items, contents, key);
    var m, m' := SnapOf(s, t), SnapOf(s', SetLeaf(t, a, items, contents));
    forall b ensures KeptAt(m, m', b) {
    }
  }

  // ---------------------------------------------------------------- Changing the tree

  /** The stored blocks alone, without a tree's shape. */
  ghost function Plain(s: Stored): Snap {
    SnapOf(s, Tree(s.view, 0, 0, map[], map[], 0, 0, 0))
  }

  lemma PlainStep(s: Stored, t: Tree, s': Stored, t': Tree, n: nat)
    requires StepTo(SnapOf(s, t), SnapOf(s', t'), n) && t.view == s.view && t'.view == s'.view
    ensures StepTo(Plain(s), Plain(s'), n)
  {
    forall a ensures KeptAt(Plain(s), Plain(s'), a) {
      assert KeptAt(SnapOf(s, t), SnapOf(s', t'), a);
    }
  }

  /** The tree that a root stands for: an empty one while the height is zero. */
  ghost function MapOf(root: Root, t: Tree): map<Key, seq<bv8>> {
    if root.height == 0 then map[] else t.contents
  }

  /** Whether an insert has to split block a on its way to key k: it is full, or it lacks one item and the block below
      has to be split. */
  predicate Overfull(view: map<Addr, Node>, a: Addr, level: nat, valSize: nat, k: Key)
    decreases level
  {
    var n, size := CountOf(view, a), if level == 0 then valSize else 8;
    Crowded(n, size) || (Crowded(n + 1, size) && level > 0 && Overfull(view, Below(view, a, k), level - 1, valSize, k))
  }

  lemma CrowdedAt(t: Tree, a: Addr, level: nat)
    requires Inv(t) && t.vs <= MAX_VAL_SIZE && t.leafMax == MaxItems(t.vs) && t.refMax == MaxItems(REF_SIZE)
    requires a in t.spans && t.spans[a].level == level
    ensures var n, size := CountOf(t.view, a), if level == 0 then t.vs else 8;
      && (Crowded(n, size) <==> n == t.Max(level))
      && (Crowded(n + 1, size) <==> n + 1 >= t.Max(level))
      && n <= t.Max(level)
  {
    assert BlockOk(t, a);
    var n, size := CountOf(t.view, a), if level == 0 then t.vs else REF_SIZE;
    CrowdedIsFull(n, size);
    CrowdedIsFull(n + 1, size);
  }

  lemma {:induction false} OverfullSplits(t: Tree, a: Addr, level: nat, k: Key)
    requires Inv(t) && t.vs <= MAX_VAL_SIZE && t.leafMax == MaxItems(t.vs) && t.refMax == MaxItems(REF_SIZE)
    requires OnPath(t, a, k) && t.spans[a].level == level
    ensures Overfull(t.view, a, level, t.vs, k) <==>
      Splits(PathCounts(t.view, a, level, k), t.leafMax, t.refMax, level)
    decreases level
  {
    CrowdedAt(t, a, level);
    if level > 0 {
      Descend(t, a, k);
      var b := Below(t.view, a, k);
      OverfullSplits(t, b, level - 1, k);
      SplitsPrefix(PathCounts(t.view, b, level - 1, k), PathCounts(t.view, a, level, k), t.leafMax, t.refMax, level - 1);
    }
  }

  lemma {:induction false} SplitsPrefix(counts: seq<nat>, counts': seq<nat>, leafMax: nat, refMax: nat, level: nat)
    requires counts <= counts' && level < |counts|
    ensures Splits(counts, leafMax, refMax, level) <==> Splits(counts', leafMax, refMax, level)
  {
    assert counts[level] == counts'[level];
    if level > 0 {
      SplitsPrefix(counts, counts', leafMax, refMax, level - 1);
    }
  }

  /** The height of a tree after an insert's walk to key k. */
  function HeightAfter(s: Stored, root: Root, valSize: nat, k: Key): nat {
    if root.height == 0 then 1
    else if Overfull(s.view, root.ref, root.height - 1, valSize, k) then root.height + 1 else root.height
  }

  lemma WalkHeight(s: Stored, t: Tree, root: Root, k: Key)
    requires TreeOk(s, t) && root == Root(t.root, t.height)
    ensures t.height > 0 && HeightAfter(s, root, t.vs, k) ==
      t.height + if Splits(PathCounts(t.view, t.root, t.height - 1, k), t.leafMax, t.refMax, t.height - 1) then 1 else 0
  {
    assert Look(0);
    RootFacts(s, t);
    OverfullSplits(t, t.root, t.height - 1, k);
  }

  ghost function KeySet(s: seq<Item>): set<Key> {
    set item | item in s :: item.key
  }

  lemma {:induction false} SortedKeys(s: seq<Item>)
    requires Sorted(s)
    ensures |KeySet(s)| == |s|
  {
    if s != [] {
      var last, init := s[|s| - 1], s[..|s| - 1];
      SortedKeys(init);
      assert s == init + [last];
      assert KeySet(s) == KeySet(init) + {last.key};
    }
  }

  /** A tree of one leaf has as many items as its map has keys. */
  lemma LeafTreeCount(s: Stored, t: Tree)
    requires TreeOk(s, t) && t.height == 1
    ensures |t.view[t.root].items| == |t.contents|
  {
    RootFacts(s, t);
    LeafFacts(s, t, t.root, 0);
    var items := t.view[t.root].items;
    SortedKeys(items);
    forall k | k in t.contents ensures k in KeySet(items) {
      assert HasKey(items, k);
    }
    assert t.contents.Keys == KeySet(items);
  }

  /** A tree of one leaf stays one as long as the leaf has room for one item more. */
  lemma LeafTreeHeight(s: Stored, t: Tree, k: Key)
    requires TreeOk(s, t) && t.height == 1
    ensures HeightAfter(s, Root(t.root, 1), t.vs, k) == if 64 + (|t.contents| / 4 * 4 + 4) * (26 + t.vs) > 4096 then 2 else 1
  {
    LeafTreeCount(s, t);
  }

  /** A leaf with room, on the path to key, in a tree that stands for the given map. */
  ghost predicate Entered(s: Stored, t: Tree, contents: map<Key, seq<bv8>>, key: Key, a: Addr, ind: nat, cmp: int) {
    && t.contents == contents
    && OnPath(t, a, key) && a in t.view && t.spans[a].level == 0 && a in s.mod && |t.view[a].items| < t.leafMax
    && ind == LowerBound(t.view[a].items, key) && (cmp == 0 <==> HasKey(t.view[a].items, key))
    && t.root in t.view && (RootFull(t) || (a == t.root && t.height == 1 && t.view[a].items == []))
  }

  lemma PlainGrows(s: Stored, s': Stored, c: Addr, n: Node, valSize: nat)
    requires Grows(s, s', c, n, valSize)
    ensures StepTo(Plain(s), Plain(s'), 1)
  {
    forall a ensures KeptAt(Plain(s), Plain(s'), a) {
    }
  }

  /** The tree of one empty leaf for values of the given size. */
  ghost function Seedling(view: map<Addr, Node>, c: Addr, valSize: nat): Tree {
    Sprout(view, c, MaxItems(valSize), MaxItems(REF_SIZE), valSize)
  }

  lemma SeedlingInv(view: map<Addr, Node>, c: Addr, valSize: nat)
    requires c in view && view[c] == Node(0, []) && valSize <= MAX_VAL_SIZE
    ensures Inv(Seedling(view, c, valSize))
  {
    MaxItemsEven(valSize);
    MaxItemsEven(REF_SIZE);
    SproutInv(view, c, MaxItems(valSize), MaxItems(REF_SIZE), valSize);
  }

  lemma SproutStep(s: Stored, s': Stored, t: Tree, c: Addr, valSize: nat, key: Key)
    requires Grows(s, s', c, Node(0, []), valSize) && valSize <= MAX_VAL_SIZE
    requires t == Seedling(s'.view, c, valSize)
    ensures TreeOk(s', t) && StepTo(Plain(s), Plain(s'), 1)
    ensures Entered(s', t, map[], key, c, 0, 1) && DirtyAbove(t, s'.mod)
  {
    PlainGrows(s, s', c, Node(0, []), valSize);
    SeedlingInv(s'.view, c, valSize);
    var m := MaxItems(valSize);
    assert t.leafMax == m && m >= 8 by { MaxItemsBounds(valSize); }
  }

  /** The walk of an insert: to the leaf for key, or to a new root leaf. */
  method Enter(cache: Cache, root: Root, ghost t: Tree, key: Key, valSize: nat)
      returns (root': Root, ghost t': Tree, a: Addr, ind: nat, cmp: int, ghost n: nat)
    requires cache.Valid() && cache.st.log.dirty.Some? && valSize <= MAX_VAL_SIZE
    requires root.height > 0 ==> Ready(cache, root, t) && RootFull(t) && DirtyAbove(t, cache.st.mod)
    modifies cache.repr
    ensures DirtyAbove(t', cache.st.mod)
    ensures Ready(cache, root', t') && fresh(cache.repr - old(cache.repr))
    ensures Entered(cache.st, t', MapOf(root, t), key, a, ind, cmp)
    ensures t'.vs == if root.height == 0 then valSize else t.vs
    ensures root.height > 0 ==> RootFull(t')
    ensures root'.height == HeightAfter(old(cache.st), root, t.vs, key)
    ensures n <= 1 + 2 * root.height && StepTo(Plain(old(cache.st)), Plain(cache.st), n)
    ensures if root.height == 0 then cache.st.visited == old(cache.st.visited)
      else VisitedOk(old(cache.st.visited), cache.st.visited, SnapOf(old(cache.st), t), key)
  {
    ghost var s := cache.st;
    cache.Below();
    if root.height == 0 {
      a := cache.AllocFresh(root.height, valSize);
      t' := Seedling(cache.st.view, a, valSize);
      root', ind, cmp, n := Root(a, 1), 0, 1, 1;
      SproutStep(s, cache.st, t', a, valSize, key);
    } else {
      ghost var trip;
      root', t', a, ind, cmp, trip := WalkSplit(cache, root, t, key);
      n := trip.n;
      assert WalkingFacts(s, t, cache.st, t', key, trip) by {
        assert Look(0);
      }
      WalkHeight(s, t, root, key);
      TripBound(SnapOf(cache.st, t'), key, trip, SnapOf(s, t));
      PlainStep(s, t, cache.st, t', n);
      DirtyStep(s, t, cache.st, t', n);
    }
  }

  lemma InsertedLeaf(s: Stored, s': Stored, t: Tree, contents: map<Key, seq<bv8>>, key: Key, a: Addr, ind: nat, cmp: int, val: seq<bv8>)
    requires TreeOk(s, t) && Entered(s, t, contents, key, a, ind, cmp) && cmp != 0 && |val| == t.vs && s.log.dirty.Some?
    requires s' == PutItems(s, a, InsertAt(t.view[a].items, ind, Item(key, Value(val))))
    ensures key !in contents
    ensures var t' := SetLeaf(t, a, s'.view[a].items, contents[key := val]);
      && TreeOk(s', t') && RootFull(t') && t'.contents == contents[key := val] && t'.vs == t.vs && StepTo(Plain(s), Plain(s'), 0)
      && t'.root == t.root && t'.height == t.height
    ensures DirtyAbove(t, s.mod) ==> DirtyAbove(SetLeaf(t, a, s'.view[a].items, contents[key := val]), s'.mod)
  {
    LeafFacts(s, t, a, key);
    InsertLeafItems(t.view[a].items, t.spans[a], t.vs, contents, key, val);
    var t' := SetLeaf(t, a, s'.view[a].items, contents[key := val]);
    LeafStep(s, s', t, a, s'.view[a].items, contents[key := val], key);
    PlainStep(s, t, s', t', 0);
    RootFacts(s, t);
  }

  lemma UpdatedLeaf(s: Stored, s': Stored, t: Tree, contents: map<Key, seq<bv8>>, key: Key, a: Addr, ind: nat, cmp: int, val: seq<bv8>)
    requires TreeOk(s, t) && Entered(s, t, contents, key, a, ind, cmp) && cmp == 0 && |val| == t.vs && s.log.dirty.Some?
    requires ind < |t.view[a].items| && s' == PutItems(s, a, t.view[a].items[ind := Item(key, Value(val))])
    ensures key in contents && t.view[a].items[ind].val == Value(contents[key])
    ensures var t' := SetLeaf(t, a, s'.view[a].items, contents[key := val]);
      && TreeOk(s', t') && RootFull(t') && t'.contents == contents[key := val] && t'.vs == t.vs && StepTo(Plain(s), Plain(s'), 0)
      && t'.root == t.root && t'.height == t.height
    ensures DirtyAbove(t, s.mod) ==> DirtyAbove(SetLeaf(t, a, s'.view[a].items, contents[key := val]), s'.mod)
  {
    LeafFacts(s, t, a, key);
    UpdateLeafItems(t.view[a].items, t.spans[a], t.vs, contents, key, val);
    var t' := SetLeaf(t, a, s'.view[a].items, contents[key := val]);
    LeafStep(s, s', t, a, s'.view[a].items, contents[key := val], key);
    PlainStep(s, t, s', t', 0);
    RootFacts(s, t);
  }

  lemma DirtyStep(s: Stored, t: Tree, s': Stored, t': Tree, n: nat)
    requires TreeOk(s, t) && Sane(SnapOf(s, t)) && StepTo(SnapOf(s, t), SnapOf(s', t'), n) && DirtyAbove(t, s.mod)
    ensures DirtyAbove(t', s'.mod)
  {
    assert Look(0);
    DirtyAboveKept(SnapOf(s, t), SnapOf(s', t'), n);
  }

  /** What an operation on key read: blocks that were on the path to it, and blocks it allocated. */
  ghost predicate ReadsOk(s: Stored, s': Stored, root: Root, t: Tree, key: Key) {
    if root.height == 0 then s'.visited == s.visited else VisitedOk(s.visited, s'.visited, SnapOf(s, t), key)
  }

  /** An empty tree, or one whose root is not empty; every modifiable block of it is below modifiable ones. */
  ghost predicate Sound(s: Stored, root: Root, t: Tree) {
    root.height > 0 ==> root == Root(t.root, t.height) && TreeOk(s, t) && RootFull(t) && DirtyAbove(t, s.mod)
  }

  /** Whether a value does not fit the tree: values are aligned, and all of one size. */
  ghost predicate BadSize(root: Root, t: Tree, valSize: nat) {
    valSize % ALIGNMENT != 0 || (root.height > 0 && t.vs != valSize)
  }

  /** How an operation on key changes what is stored. */
  ghost predicate Changes(s: Stored, root: Root, t: Tree, s': Stored, root': Root, t': Tree, key: Key, n: nat) {
    && Sound(s', root', t') && s'.log.dirty.Some?
    && StepTo(Plain(s), Plain(s'), n) && ReadsOk(s, s', root, t, key)
  }

  /** An insert or a replacement, up to the point where the leaf is reached. */
  method EnterChecked(cache: Cache, root: Root, ghost t: Tree, key: Key, valSize: nat)
      returns (bad: bool, root': Root, ghost t': Tree, a: Addr, ind: nat, cmp: int, ghost n: nat)
    requires cache.Valid() && cache.st.log.dirty.Some? && Sound(cache.st, root, t) && valSize <= MAX_VAL_SIZE
    modifies cache.repr
    ensures cache.Valid() && fresh(cache.repr - old(cache.repr)) && n <= 1 + 2 * root.height
    ensures bad <==> BadSize(root, t, valSize)
    ensures bad ==> Changes(old(cache.st), root, t, cache.st, root', t', key, n) && MapOf(root', t') == MapOf(root, t)
    ensures valSize % 8 == 0 ==> root'.height == HeightAfter(old(cache.st), root, t.vs, key)
    ensures !bad ==> DirtyAbove(t', cache.st.mod) && Ready(cache, root', t') && t'.vs == valSize && Entered(cache.st, t', MapOf(root, t), key, a, ind, cmp)
    ensures !bad ==> StepTo(Plain(old(cache.st)), Plain(cache.st), n) && ReadsOk(old(cache.st), cache.st, root, t, key)
    ensures !bad ==> a in cache.st.sizes && cache.st.sizes[a] == valSize && t'.view[a].level == 0
    ensures !bad ==> MaxItems(valSize) == t'.leafMax
  {
    root', t', a, ind, cmp, n := root, t, 0, 0, 1, 0;
    cache.Below();
    if valSize % ALIGNMENT != 0 {
      StepNothing(Plain(cache.st));
      bad := true;
    } else {
      root', t', a, ind, cmp, n := Enter(cache, root, t, key, valSize);
      NodeFacts(cache.st, t', a);
      var level, size, _ := cache.Header(a);
      bad := BlockValSize(level, size) != valSize;
      RootFacts(cache.st, t');
    }
  }

  /** Inserts a new item, unless the key is there already. */
  method TreeInsert(cache: Cache, root: Root, ghost t: Tree, key: Key, val: seq<bv8>)
      returns (ret: Errno, root': Root, ghost t': Tree, ghost n: nat)
    requires cache.Valid() && cache.st.log.dirty.Some? && Sound(cache.st, root, t) && |val| <= MAX_VAL_SIZE
    modifies cache.repr
    ensures cache.Valid() && fresh(cache.repr - old(cache.repr)) && n <= 1 + 2 * root.height
    ensures Changes(old(cache.st), root, t, cache.st, root', t', key, n)
    ensures ret == if BadSize(root, t, |val|) then EINVAL else if key in MapOf(root, t) then EEXIST else OK
    ensures |val| % 8 == 0 ==> root'.height == HeightAfter(old(cache.st), root, t.vs, key)
    ensures MapOf(root', t') == if ret == OK then MapOf(root, t)[key := val] else MapOf(root, t)
  {
    var bad, a, ind, cmp;
    ghost var s := cache.st;
    cache.Below();
    bad, root', t', a, ind, cmp, n := EnterChecked(cache, root, t, key, |val|);
    if bad {
      ret := EINVAL;
    } else {
      ghost var s1 := cache.st;
      LeafFacts(s1, t', a, key);
      RootFacts(s1, t');
      if cmp == 0 {
        ret := EEXIST;
      } else {
        cache.InsertItem(a, ind, Item(key, Value(val)));
        InsertedLeaf(s1, cache.st, t', MapOf(root, t), key, a, ind, cmp, val);
        t' := SetLeaf(t', a, cache.st.view[a].items, MapOf(root, t)[key := val]);
        StepTrans(Plain(s), Plain(s1), Plain(cache.st), n, 0);
        ret := OK;
      }
    }
  }

  /** Sets an item, and hands back the value that it replaces. */
  method TreeReplace(cache: Cache, root: Root, ghost t: Tree, key: Key, val: seq<bv8>)
      returns (ret: Errno, oldVal: Option<seq<bv8>>, root': Root, ghost t': Tree, ghost n: nat)
    requires cache.Valid() && cache.st.log.dirty.Some? && Sound(cache.st, root, t) && |val| <= MAX_VAL_SIZE
    modifies cache.repr
    ensures cache.Valid() && fresh(cache.repr - old(cache.repr)) && n <= 1 + 2 * root.height
    ensures Changes(old(cache.st), root, t, cache.st, root', t', key, n)
    ensures ret == if BadSize(root, t, |val|) then EINVAL else OK
    ensures |val| % 8 == 0 ==> root'.height == HeightAfter(old(cache.st), root, t.vs, key)
    ensures MapOf(root', t') == if ret == OK then MapOf(root, t)[key := val] else MapOf(root, t)
    ensures oldVal == if ret == OK then Get(MapOf(root, t), key) else None
    ensures ret == OK ==> t'.vs == |val|
  {
    var bad, a, ind, cmp;
    ghost var s := cache.st;
    cache.Below();
    oldVal := None;
    bad, root', t', a, ind, cmp, n := EnterChecked(cache, root, t, key, |val|);
    if bad {
      ret := EINVAL;
    } else {
      ret, oldVal := OK, None;
      ghost var s1 := cache.st;
      LeafFacts(s1, t', a, key);
      RootFacts(s1, t');
      oldVal := PutItem(cache, t', MapOf(root, t), key, a, ind, cmp, val);
      t' := SetLeaf(t', a, cache.st.view[a].items, MapOf(root, t)[key := val]);
      StepTrans(Plain(s), Plain(s1), Plain(cache.st), n, 0);
    }
  }

  /** Overwrites the item at ind, or inserts a new one there. */
  method PutItem(cache: Cache, ghost t: Tree, ghost contents: map<Key, seq<bv8>>, key: Key, a: Addr, ind: nat, cmp: int, val: seq<bv8>)
      returns (oldVal: Option<seq<bv8>>)
    requires cache.Valid() && cache.st.log.dirty.Some? && TreeOk(cache.st, t) && |val| == t.vs
    requires Entered(cache.st, t, contents, key, a, ind, cmp)
    requires a in cache.st.sizes && cache.st.sizes[a] == |val| && t.view[a].level == 0 && MaxItems(|val|) == t.leafMax
    modifies cache.repr
    ensures cache.Valid() && fresh(cache.repr - old(cache.repr)) && oldVal == Get(contents, key)
    ensures a in cache.st.view && cache.st.visited == old(cache.st.visited) && cache.st.log == old(cache.st.log)
    ensures var t' := SetLeaf(t, a, cache.st.view[a].items, contents[key := val]);
      && TreeOk(cache.st, t') && RootFull(t') && t'.contents == contents[key := val] && t'.vs == t.vs
      && StepTo(Plain(old(cache.st)), Plain(cache.st), 0)
      && t'.root == t.root && t'.height == t.height
    ensures DirtyAbove(t, old(cache.st).mod) ==> DirtyAbove(SetLeaf(t, a, cache.st.view[a].items, contents[key := val]), cache.st.mod)
  {
    ghost var s := cache.st;
    LeafFacts(s, t, a, key);
    oldVal := None;
    if cmp == 0 {
      var item := cache.GetItem(a, ind);
      oldVal := Some(item.val.bytes);
      cache.UpdateItem(a, ind, Item(item.key, Value(val)));
      UpdatedLeaf(s, cache.st, t, contents, key, a, ind, cmp, val);
    } else {
      cache.InsertItem(a, ind, Item(key, Value(val)));
      InsertedLeaf(s, cache.st, t, contents, key, a, ind, cmp, val);
    }
  }

  lemma EmptyLeafEmptyMap(s: Stored, t: Tree, key: Key, a: Addr)
    requires TreeOk(s, t) && OnPath(t, a, key) && t.spans[a].level == 0 && a in t.view && t.view[a].items == [] && a == t.root
    ensures t.contents == map[]
  {
    LeafFacts(s, t, a, key);
    RootFacts(s, t);
    forall k | k in t.contents ensures false {
      LeafFacts(s, t, a, k);
    }
  }

  lemma DeletedLeaf(s: Stored, s': Stored, t: Tree, key: Key, a: Addr, ind: nat)
    requires TreeOk(s, t) && RootFull(t) && OnPath(t, a, key) && t.spans[a].level == 0 && a in t.view && a in s.mod
    requires a == t.root || t.leafMax / 2 < |t.view[a].items|
    requires ind == LowerBound(t.view[a].items, key) && HasKey(t.view[a].items, key) && s.log.dirty.Some?
    requires s' == PutItems(s, a, RemoveAt(t.view[a].items, ind))
    ensures key in t.contents
    ensures var t' := SetLeaf(t, a, s'.view[a].items, t.contents - {key});
      && TreeOk(s', t') && StepTo(SnapOf(s, t), SnapOf(s', t'), 0)
      && t'.root == t.root && t'.height == t.height && t'.vs == t.vs
      && (if s'.view[a].items == [] then a == t.root && t.height == 1 && t'.contents == map[] else RootFull(t'))
    ensures DirtyAbove(t, s.mod) ==> DirtyAbove(SetLeaf(t, a, s'.view[a].items, t.contents - {key}), s'.mod)
  {
    LeafFacts(s, t, a, key);
    RootFacts(s, t);
    DeleteLeafItems(t.view[a].items, t.spans[a], t.vs, t.contents, key);
    var t' := SetLeaf(t, a, s'.view[a].items, t.contents - {key});
    LeafStep(s, s', t, a, s'.view[a].items, t.contents - {key}, key);
    if s'.view[a].items == [] {
      EmptyLeafEmptyMap(s', t', key, a);
    }
  }

  /** Whether every block from a down to key k, but the root, is more than half full: a block is that if it would not
      have room for one item less than twice as many. */
  predicate Ample(view: map<Addr, Node>, a: Addr, level: nat, valSize: nat, k: Key, isRoot: bool)
    decreases level
  {
    var n, size := CountOf(view, a), if level == 0 then valSize else 8;
    && (isRoot || (n > 0 && Crowded(2 * n - 1, size)))
    && (level > 0 ==> Ample(view, Below(view, a, k), level - 1, valSize, k, false))
  }

  lemma {:induction false} AmplePath(t: Tree, a: Addr, level: nat, k: Key, b: Addr)
    requires Inv(t) && t.vs <= MAX_VAL_SIZE && t.leafMax == MaxItems(t.vs) && t.refMax == MaxItems(REF_SIZE)
    requires OnPath(t, a, k) && t.spans[a].level == level && Ample(t.view, a, level, t.vs, k, a == t.root)
    requires OnPath(t, b, k) && t.spans[b].level <= level
    ensures CleanAt(t, k, 0, b)
    decreases level
  {
    assert BlockOk(t, a);
    if t.spans[b].level == level {
      UniqueOnPath(t, a, b, k);
      if a != t.root {
        CrowdedIsFull(2 * CountOf(t.view, a) - 1, if level == 0 then t.vs else REF_SIZE);
      }
    } else {
      Descend(t, a, k);
      ChildFacts(t, a, LowerBound(t.view[a].items, k));
      AmplePath(t, Below(t.view, a, k), level - 1, k, b);
    }
  }

  lemma AmpleIsClean(s: Stored, t: Tree, root: Root, k: Key)
    requires TreeOk(s, t) && root == Root(t.root, t.height) && root.height > 0
    requires Ample(s.view, root.ref, root.height - 1, t.vs, k, true)
    ensures PathClean(t, k, 0)
  {
    assert Look(0);
    RootFacts(s, t);
    forall b ensures CleanAt(t, k, 0, b) {
      if OnPath(t, b, k) {
        assert InTree(t, b);
        AmplePath(t, t.root, t.height - 1, k, b);
      }
    }
  }

  /** A leaf that is not empty holds a key of the map. */
  lemma LeafNotEmpty(s: Stored, t: Tree, a: Addr, key: Key)
    requires TreeOk(s, t) && OnPath(t, a, key) && t.spans[a].level == 0 && a in t.view && t.view[a].items != []
    ensures t.contents != map[]
  {
    LeafFacts(s, t, a, key);
    assert t.view[a].items[0].key in t.contents;
  }

  /** The height of a tree after a delete that finds every block on its way ample. */
  ghost predicate Stands(s: Stored, root: Root, t: Tree, root': Root, t': Tree, key: Key) {
    root.height > 0 && Ample(s.view, root.ref, root.height - 1, t.vs, key, true) ==>
      root'.height == if MapOf(root', t') == map[] then 0 else root.height
  }

  /** Deletes an item. Only a root leaf can become empty, and then so is the map. */
  method TreeDelete(cache: Cache, root: Root, ghost t: Tree, key: Key)
      returns (ret: Errno, root': Root, ghost t': Tree, ghost n: nat)
    requires cache.Valid() && cache.st.log.dirty.Some? && Sound(cache.st, root, t)
    modifies cache.repr
    ensures cache.Valid() && fresh(cache.repr - old(cache.repr))
    ensures Sound(cache.st, root', t') && cache.st.log.dirty.Some? && StepTo(Plain(old(cache.st)), Plain(cache.st), n)
    ensures ret == if key in MapOf(root, t) then OK else ENOENT
    ensures MapOf(root', t') == MapOf(root, t) - {key} && Stands(old(cache.st), root, t, root', t', key)
  {
    ghost var s := cache.st;
    cache.Below();
    root', t', n := root, t, 0;
    if root.height == 0 {
      StepNothing(Plain(s));
      assert MapOf(root, t) - {key} == MapOf(root, t);
      ret := ENOENT;
    } else {
      var a, ind, cmp;
      root', t', a, ind, cmp, n := WalkMerge(cache, root, t, key);
      PlainStep(s, t, cache.st, t', n);
      DirtyStep(s, t, cache.st, t', n);
      LeafFacts(cache.st, t', a, key);
      if Ample(s.view, root.ref, root.height - 1, t.vs, key, true) {
        AmpleIsClean(s, t, root, key);
      }
      LeafNotEmpty(cache.st, t', a, key);
      if cmp == 0 {
        ghost var s1 := cache.st;
        root', t' := DeleteFrom(cache, root', t', key, a, ind);
        StepTrans(Plain(s), Plain(s1), Plain(cache.st), n, 0);
        ret := OK;
      } else {
        RootFacts(cache.st, t');
        assert t'.contents - {key} == t'.contents;
        ret := ENOENT;
      }
    }
  }

  /** Removes the item of the leaf that the walk ended in; an emptied tree loses its root. */
  method DeleteFrom(cache: Cache, root: Root, ghost t: Tree, key: Key, a: Addr, ind: nat)
      returns (root': Root, ghost t': Tree)
    requires Ready(cache, root, t) && RootFull(t) && DirtyAbove(t, cache.st.mod)
    requires OnPath(t, a, key) && a in t.view && a in cache.st.mod && t.spans[a].level == 0
    requires a == t.root || t.leafMax / 2 < |t.view[a].items|
    requires ind == LowerBound(t.view[a].items, key) && HasKey(t.view[a].items, key)
    modifies cache.repr
    ensures cache.Valid() && fresh(cache.repr - old(cache.repr)) && cache.st.log.dirty.Some?
    ensures Sound(cache.st, root', t') && MapOf(root', t') == t.contents - {key} && key in t.contents
    ensures root'.height == if MapOf(root', t') == map[] then 0 else root.height
    ensures StepTo(Plain(old(cache.st)), Plain(cache.st), 0) && cache.st.log == old(cache.st.log)
  {
    ghost var s := cache.st;
    LeafFacts(s, t, a, key);
    DeleteLeafNode(t.view[a].items, t.spans[a], t.vs, ind);
    cache.DeleteItem(a, ind);
    DeletedLeaf(s, cache.st, t, key, a, ind);
    t' := SetLeaf(t, a, cache.st.view[a].items, t.contents - {key});
    PlainStep(s, t, cache.st, t', 0);
    RootFacts(s, t);
    var _, _, nr := cache.Header(a);
    assert nr == 0 <==> cache.st.view[a].items == [];
    root' := if nr == 0 then Root(0, 0) else root;
    if nr != 0 {
      LeafNotEmpty(cache.st, t', a, key);
    }
  }

  class Btree {
    const cache: Cache
    var root: Root
    /** The tree's shape and the map it stands for; meaningless while the tree is empty. */
    ghost var t: Tree

    constructor (cache: Cache)
      requires cache.Valid()
      ensures Valid() && this.cache == cache && Contents() == map[] && root == Root(0, 0)
    {
      this.cache := cache;
      root := Root(0, 0);
      t := Tree(map[], 0, 0, map[], map[], 0, 0, 0);
    }

    ghost predicate Valid()
      reads this, cache, cache.repr
    {
      this !in cache.repr && cache.Valid() && Sound(cache.st, root, t)
    }

    /** The map of keys to values that the tree stands for. */
    ghost function Contents(): map<Key, seq<bv8>>
      reads this
    {
      MapOf(root, t)
    }

    method Insert(key: Key, val: seq<bv8>) returns (ret: Errno, ghost n: nat)
      requires Valid() && cache.st.log.dirty.Some? && |val| <= MAX_VAL_SIZE
      modifies this, cache.repr
      ensures Valid() && fresh(cache.repr - old(cache.repr)) && n <= 1 + 2 * old(root.height)
      ensures Changes(old(cache.st), old(root), old(t), cache.st, root, t, key, n)
      ensures ret == if BadSize(old(root), old(t), |val|) then EINVAL else if key in old(Contents()) then EEXIST else OK
      ensures |val| % 8 == 0 ==> root.height == HeightAfter(old(cache.st), old(root), old(t.vs), key)
      ensures Contents() == if ret == OK then old(Contents())[key := val] else old(Contents())
    {
      ret, root, t, n := TreeInsert(cache, root, t, key, val);
    }

    method Replace(key: Key, val: seq<bv8>) returns (ret: Errno, oldVal: Option<seq<bv8>>, ghost n: nat)
      requires Valid() && cache.st.log.dirty.Some? && |val| <= MAX_VAL_SIZE
      modifies this, cache.repr
      ensures Valid() && fresh(cache.repr - old(cache.repr)) && n <= 1 + 2 * old(root.height)
      ensures Changes(old(cache.st), old(root), old(t), cache.st, root, t, key, n)
      ensures ret == if BadSize(old(root), old(t), |val|) then EINVAL else OK
      ensures |val| % 8 == 0 ==> root.height == HeightAfter(old(cache.st), old(root), old(t.vs), key)
      ensures Contents() == if ret == OK then old(Contents())[key := val] else old(Contents())
      ensures oldVal == if ret == OK then Get(old(Contents()), key) else None
    {
      ret, oldVal, root, t, n := TreeReplace(cache, root, t, key, val);
    }

    method Delete(key: Key) returns (ret: Errno, ghost n: nat)
      requires Valid() && cache.st.log.dirty.Some?
      modifies this, cache.repr
      ensures Valid() && fresh(cache.repr - old(cache.repr)) && StepTo(Plain(old(cache.st)), Plain(cache.st), n)
      ensures ret == if key in old(Contents()) then OK else ENOENT
      ensures Contents() == old(Contents()) - {key} && Stands(old(cache.st), old(root), old(t), root, t, key)
    {
      ret, root, t, n := TreeDelete(cache, root, t, key);
    }

    /** Reads everything that inserting key would read. */
    method PrepareInsert(key: Key)
      requires Valid()
      modifies cache`st
      ensures Valid() && cache.st == old(cache.st).(visited := cache.st.visited)
      ensures root.height > 0 ==> ReadDown(old(cache.st.visited), cache.st.visited, t, key, 0)
    {
      if root.height > 0 {
        var a, ind, cmp := WalkRead(cache, root, t, key);
      }
    }
  }

  /** An insert reads only what preparing it read, and blocks that it allocated itself. */
  lemma PreparedReads(s: Stored, s': Stored, root: Root, t: Tree, key: Key, prepared: set<Addr>)
    requires root.height > 0 ==> ReadDown({}, prepared, t, key, 0)
    requires ReadsOk(s, s', root, t, key)
    ensures forall a :: a in s'.visited ==> a in s.visited || a in prepared || a >= s.log.next
  {
    forall a | a in s'.visited ensures a in s.visited || a in prepared || a >= s.log.next {
      if root.height > 0 && a !in s.visited && a < s.log.next {
        assert OnPath(t, a, key);
      }
    }
  }
}
