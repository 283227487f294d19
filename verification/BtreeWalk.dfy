/**
 What a walk down the tree does (devd/btree.c:530-637), as values: how the blocks on the path
 to a key evolve while they are copied and split, which bounds the blocks a walk allocates
 and shows that its restarts end.
 */
module BtreeWalk {
  import opened BtreeFormat
  import opened BtreeShape
  import opened BtreeSteps
  import opened BtreeSplit
  import opened LogLayout

  // ---------------------------------------------------------------- Steps of an operation

  /** The tree, the log that it allocates from, the blocks that may be changed, and the blocks' value sizes. */
  datatype Snap = Snap(t: Tree, log: Log, mod: set<Addr>, sizes: map<Addr, nat>)

  ghost predicate Sane(s: Snap) {
    && s.log.dirty.Some?
    && forall a {:trigger a in s.t.view} :: a in s.t.view ==> a < s.log.next
  }

  /** Block a keeps its place, and its contents unless it may be changed; and it joins the tree only as one that may be. */
  ghost predicate KeptAt(s: Snap, s': Snap, a: Addr) {
    && (a in s.t.view ==> a in s'.t.view && (a !in s.mod ==> s'.t.view[a] == s.t.view[a]))
    && (a in s.t.view && a in s.sizes ==> a in s'.sizes && s'.sizes[a] == s.sizes[a])
    && (a in s'.t.view ==> a in s.t.view || a >= s.log.next)
    && (a in s.mod ==> a in s'.mod)
    && (a in s'.mod ==> a in s.mod || a >= s.log.next)
    && (a in s'.t.spans && a !in s'.mod ==> a in s.t.spans)
  }

  /** From s to s' n blocks were allocated, and only new blocks or ones that may be changed were. */
  ghost predicate StepTo(s: Snap, s': Snap, n: nat) {
    && s.log.dirty.Some?
    && s'.log == AllocBtree(s.log, n)
    && s.log.next <= s'.log.next
    && forall a {:trigger KeptAt(s, s', a)} :: KeptAt(s, s', a)
  }

  lemma {:induction false} AllocBtreeAdds(l: Log, n: nat, m: nat)
    requires l.dirty.Some?
    ensures AllocBtree(AllocBtree(l, n), m) == AllocBtree(l, n + m)
  {
    if m > 0 {
      AllocBtreeAdds(l, n, m - 1);
    }
  }

  lemma StepTrans(s: Snap, s1: Snap, s2: Snap, n: nat, m: nat)
    requires Sane(s) && StepTo(s, s1, n) && StepTo(s1, s2, m)
    ensures StepTo(s, s2, n + m)
  {
    AllocBtreeAdds(s.log, n, m);
    forall a ensures KeptAt(s, s2, a) {
      assert KeptAt(s, s1, a) && KeptAt(s1, s2, a);
    }
  }

  lemma StepNothing(s: Snap)
    requires Sane(s)
    ensures StepTo(s, s, 0)
  {
  }

  // ---------------------------------------------------------------- The path to a key

  /** Whether block a is responsible for key k: the blocks on the path to k. */
  ghost predicate OnPath(t: Tree, a: Addr, k: Key) {
    a in t.spans && t.spans[a].Has(k)
  }

  /** The progress of an insert: height and item counts on the path at the start, lowest level reached, levels split,
      blocks allocated. */
  datatype Trip = Trip(h0: nat, counts: seq<nat>, low: nat, did: set<nat>, n: nat)

  function CountOf(view: map<Addr, Node>, a: Addr): nat {
    if a in view then |view[a].items| else 0
  }

  /** The block below a on the way to key k. */
  function Below(view: map<Addr, Node>, a: Addr, k: Key): Addr {
    if a !in view then a else
      var i := LowerBound(view[a].items, k);
      if i < |view[a].items| && view[a].items[i].val.Ref? then view[a].items[i].val.addr else a
  }

  /** The item counts of the blocks on the way to key k, from the leaf up to block a. */
  function PathCounts(view: map<Addr, Node>, a: Addr, level: nat, k: Key): (counts: seq<nat>)
    ensures |counts| == level + 1
    decreases level
  {
    (if level == 0 then [] else PathCounts(view, Below(view, a, k), level - 1, k)) + [CountOf(view, a)]
  }

  lemma {:induction false} PathCountsAt(t: Tree, a: Addr, level: nat, k: Key, b: Addr)
    requires Inv(t) && OnPath(t, a, k) && t.spans[a].level == level && OnPath(t, b, k) && t.spans[b].level <= level
    ensures b in t.view && PathCounts(t.view, a, level, k)[t.spans[b].level] == |t.view[b].items|
    decreases level
  {
    assert BlockOk(t, b);
    if t.spans[b].level == level {
      UniqueOnPath(t, a, b, k);
    } else {
      Descend(t, a, k);
      PathCountsAt(t, Below(t.view, a, k), level - 1, k, b);
    }
  }

  /** A level's block is split if it is full, or if it lacks one item and the block below is split. */
  predicate Splits(counts: seq<nat>, leafMax: nat, refMax: nat, level: nat)
    requires level < |counts|
  {
    var max := if level == 0 then leafMax else refMax;
    counts[level] == max || (counts[level] + 1 == max && level > 0 && Splits(counts, leafMax, refMax, level - 1))
  }

  /** The block on the path at this level has not been split, and need not be. */
  predicate Roomy(trip: Trip, leafMax: nat, refMax: nat, level: nat) {
    level < |trip.counts| && level !in trip.did ==>
      trip.counts[level] + (if level > 0 && level - 1 in trip.did then 1 else 0) < if level == 0 then leafMax else refMax
  }

  /** No block on the path from this level up needs to be split. */
  ghost predicate RoomyFrom(trip: Trip, leafMax: nat, refMax: nat, level: nat) {
    forall l {:trigger Roomy(trip, leafMax, refMax, l)} :: level <= l ==> Roomy(trip, leafMax, refMax, l)
  }

  lemma RoomyOneMore(trip: Trip, trip': Trip, leafMax: nat, refMax: nat, level: nat)
    requires RoomyFrom(trip, leafMax, refMax, level + 1) && Roomy(trip', leafMax, refMax, level)
    requires (trip'.counts, trip'.did) == (trip.counts, trip.did)
    ensures RoomyFrom(trip', leafMax, refMax, level)
  {
    forall l | level <= l ensures Roomy(trip', leafMax, refMax, l) {
      assert Roomy(trip, leafMax, refMax, l) || l == level;
    }
  }

  /** Once no block on the path needs to be split, those that had to be were. */
  lemma {:induction false} SplitsDone(trip: Trip, leafMax: nat, refMax: nat, level: nat)
    requires level < |trip.counts| && Splits(trip.counts, leafMax, refMax, level) && RoomyFrom(trip, leafMax, refMax, 0)
    ensures level in trip.did
  {
    assert Roomy(trip, leafMax, refMax, level);
    if level > 0 && Splits(trip.counts, leafMax, refMax, level - 1) {
      SplitsDone(trip, leafMax, refMax, level - 1);
    }
  }

  /** What is known of a block on the path: copied if reached, far from full if its level was split, read if needed. */
  ghost predicate PathBlockOk(s: Snap, k: Key, trip: Trip, known: Snap, a: Addr) {
    OnPath(s.t, a, k) && a in s.t.view ==>
      var level := s.t.spans[a].level;
      && (level >= trip.low ==> a in s.mod)
      && (level in trip.did ==>
        |s.t.view[a].items| <= s.t.Max(level) / 2 + (if level > 0 && level - 1 in trip.did then 1 else 0))
      && (level >= trip.h0 ==> |s.t.view[a].items| <= 2)
      && (level < trip.h0 == |trip.counts| && level !in trip.did ==>
        |s.t.view[a].items| == trip.counts[level] + (if level > 0 && level - 1 in trip.did then 1 else 0))
      && (OnPath(known.t, a, k) || a >= known.log.next)
  }

  ghost predicate TripOk(s: Snap, k: Key, trip: Trip, known: Snap) {
    && GrownTripOk(s, k, trip, known)
    && (s.t.height > trip.h0 ==> trip.h0 - 1 in trip.did)
  }

  /** While the root is being split its new parent exists but its level is not recorded as split. */
  ghost predicate GrownTripOk(s: Snap, k: Key, trip: Trip, known: Snap) {
    && trip.low <= trip.h0 <= s.t.height <= trip.h0 + 1
    && trip.n <= (trip.h0 - trip.low) + |trip.did| + (s.t.height - trip.h0)
    && |trip.counts| == trip.h0
    && (forall l {:trigger l in trip.did} :: l in trip.did ==> l < trip.h0 && Splits(trip.counts, s.t.leafMax, s.t.refMax, l))
    && (s.t.height > trip.h0 ==> trip.h0 > 0)
    && (trip.h0 - 1 in trip.did ==> s.t.height > trip.h0)
    && known.log.next <= s.log.next
    && forall a {:trigger PathBlockOk(s, k, trip, known, a)} :: PathBlockOk(s, k, trip, known, a)
  }

  /** A walk for key k that is about to begin. */
  function Setout(t: Tree, k: Key): Trip
    requires t.height > 0
  {
    Trip(t.height, PathCounts(t.view, t.root, t.height - 1, k), t.height, {}, 0)
  }

  lemma TripStarts(s: Snap, k: Key)
    requires Inv(s.t)
    ensures TripOk(s, k, Setout(s.t, k), s)
  {
    forall a ensures PathBlockOk(s, k, Setout(s.t, k), s, a) {
      assert InTree(s.t, a);
      if OnPath(s.t, a, k) {
        PathCountsAt(s.t, s.t.root, s.t.height - 1, k, a);
      }
    }
  }

  lemma {:induction false} SmallSet(s: set<nat>, n: nat)
    requires forall x :: x in s ==> x < n
    ensures |s| <= n
    decreases n
  {
    if n == 0 {
      assert s == {};
    } else {
      SmallSet(s - {n - 1}, n - 1);
      assert |s| <= |s - {n - 1}| + 1;
    }
  }

  /** At most one copy and one split a level, and one new root. */
  lemma TripBound(s: Snap, k: Key, trip: Trip, known: Snap)
    requires TripOk(s, k, trip, known)
    ensures trip.n <= 1 + 2 * trip.h0 && |trip.did| <= trip.h0
  {
    SmallSet(trip.did, trip.h0);
  }

  /** The next block down the path has been read, and needed no copy. */
  lemma TripReach(s: Snap, k: Key, trip: Trip, known: Snap, a: Addr)
    requires Inv(s.t) && TripOk(s, k, trip, known) && OnPath(s.t, a, k) && a in s.mod
    requires s.t.spans[a].level + 1 == trip.low
    ensures TripOk(s, k, trip.(low := trip.low - 1), known)
  {
    var trip' := trip.(low := trip.low - 1);
    forall b ensures PathBlockOk(s, k, trip', known, b) {
      assert PathBlockOk(s, k, trip, known, b);
      assert OnPath(s.t, b, k) ==> Apart(s.t.spans, a, b);
    }
  }

  /** The next block down the path was copied from a to c, and the reference to it updated. */
  lemma TripCopy(s: Snap, s': Snap, k: Key, trip: Trip, known: Snap, a: Addr, c: Addr)
    requires Inv(s.t) && TripOk(s, k, trip, known) && OnPath(s.t, a, k) && a in s.t.view && c !in s.t.spans
    requires s.t.spans[a].level + 1 == trip.low
    requires s'.t.spans == Rename(s.t.spans, a, c) && s'.t.height == s.t.height
    requires (s'.t.leafMax, s'.t.refMax) == (s.t.leafMax, s.t.refMax)
    requires c in s'.t.view && |s'.t.view[c].items| == |s.t.view[a].items|
    requires forall b {:trigger s'.t.view[b]} :: b in s.t.spans && b != a ==>
      b in s.t.view && b in s'.t.view && |s'.t.view[b].items| == |s.t.view[b].items|
    requires s.mod <= s'.mod && c in s'.mod && c >= known.log.next && s.log.next <= s'.log.next
    ensures TripOk(s', k, trip.(low := trip.low - 1, n := trip.n + 1), known)
  {
    var trip' := trip.(low := trip.low - 1, n := trip.n + 1);
    forall b ensures PathBlockOk(s', k, trip', known, b) {
      assert PathBlockOk(s, k, trip, known, if b == c then a else b);
      assert OnPath(s'.t, b, k) && b != c ==> Apart(s.t.spans, a, b);
      if OnPath(s'.t, b, k) && b in s'.t.view {
        assert |s'.t.view[b].items| == |s.t.view[if b == c then a else b].items|;
      }
    }
  }

  /** Where block a is split under p, the other blocks keep their item counts; p's grows by one. */
  ghost predicate CountKept(t: Tree, t': Tree, p: Addr, a: Addr, b: Addr) {
    b in t.spans && b != a ==>
      b in t.view && b in t'.view && |t'.view[b].items| == |t.view[b].items| + (if b == p then 1 else 0)
  }

  lemma TripSplitBlock(s: Snap, s': Snap, k: Key, trip: Trip, known: Snap, p: Addr, a: Addr, c: Addr, mid: Key, b: Addr)
    requires Inv(s.t) && GrownTripOk(s, k, trip, known) && OnPath(s.t, a, k) && OnPath(s.t, p, k) && c !in s.t.spans
    requires s.t.height > trip.h0 && trip.h0 - 1 !in trip.did ==>
      p == s.t.root && p in s.t.view && |s.t.view[p].items| == 1
    requires s.t.spans[p].level == s.t.spans[a].level + 1 && trip.low <= s.t.spans[a].level
    requires a in s.t.view && |s.t.view[a].items| == s.t.Max(s.t.spans[a].level)
    requires s'.t.spans == SplitSpans(s.t.spans, a, c, mid) && s'.t.height == s.t.height
    requires (s'.t.leafMax, s'.t.refMax) == (s.t.leafMax, s.t.refMax)
    requires a in s'.t.view && c in s'.t.view
    requires |s'.t.view[a].items| == |s'.t.view[c].items| == s.t.Max(s.t.spans[a].level) / 2
    requires CountKept(s.t, s'.t, p, a, b)
    requires s.mod <= s'.mod && c in s'.mod && c >= known.log.next && s.log.next <= s'.log.next
    requires s.t.spans[a].level !in trip.did
    ensures PathBlockOk(s', k, trip.(did := trip.did + {s.t.spans[a].level}, n := trip.n + 1), known, b)
  {
    var b0 := if b == c then a else b;
    assert PathBlockOk(s, k, trip, known, b0);
    if b0 != a && OnPath(s.t, b0, k) {
      assert Apart(s.t.spans, a, b0) && Apart(s.t.spans, p, b0);
    } else {
      assert InTree(s.t, p);
    }
  }

  /** A full block on the path, at a level not split before, was split under its parent p. */
  lemma TripSplit(s: Snap, s': Snap, k: Key, trip: Trip, known: Snap, p: Addr, a: Addr, c: Addr, mid: Key)
    requires Inv(s.t) && GrownTripOk(s, k, trip, known) && OnPath(s.t, a, k) && OnPath(s.t, p, k) && c !in s.t.spans
    requires s.t.height > trip.h0 && trip.h0 - 1 !in trip.did ==>
      p == s.t.root && p in s.t.view && |s.t.view[p].items| == 1
    requires s.t.spans[p].level == s.t.spans[a].level + 1 && trip.low <= s.t.spans[a].level
    requires a in s.t.view && |s.t.view[a].items| == s.t.Max(s.t.spans[a].level)
    requires s'.t.spans == SplitSpans(s.t.spans, a, c, mid) && s'.t.height == s.t.height
    requires (s'.t.leafMax, s'.t.refMax) == (s.t.leafMax, s.t.refMax)
    requires a in s'.t.view && c in s'.t.view
    requires |s'.t.view[a].items| == |s'.t.view[c].items| == s.t.Max(s.t.spans[a].level) / 2
    requires forall b {:trigger CountKept(s.t, s'.t, p, a, b)} :: CountKept(s.t, s'.t, p, a, b)
    requires s.mod <= s'.mod && c in s'.mod && c >= known.log.next && s.log.next <= s'.log.next
    ensures s.t.spans[a].level !in trip.did
    ensures TripOk(s', k, trip.(did := trip.did + {s.t.spans[a].level}, n := trip.n + 1), known)
  {
    SplitOnce(s, k, trip, known, p, a);
    var level := s.t.spans[a].level;
    var trip' := trip.(did := trip.did + {level}, n := trip.n + 1);
    forall b ensures PathBlockOk(s', k, trip', known, b) {
      assert CountKept(s.t, s'.t, p, a, b);
      TripSplitBlock(s, s', k, trip, known, p, a, c, mid, b);
    }
  }

  /** A full block on the path is on a level not split before. */
  lemma SplitOnce(s: Snap, k: Key, trip: Trip, known: Snap, p: Addr, a: Addr)
    requires Inv(s.t) && GrownTripOk(s, k, trip, known) && OnPath(s.t, a, k) && OnPath(s.t, p, k)
    requires s.t.height > trip.h0 && trip.h0 - 1 !in trip.did ==>
      p == s.t.root && p in s.t.view && |s.t.view[p].items| == 1
    requires s.t.spans[p].level == s.t.spans[a].level + 1 && trip.low <= s.t.spans[a].level
    requires a in s.t.view && |s.t.view[a].items| == s.t.Max(s.t.spans[a].level)
    ensures s.t.spans[a].level !in trip.did && s.t.spans[a].level < trip.h0
    ensures Splits(trip.counts, s.t.leafMax, s.t.refMax, s.t.spans[a].level)
    ensures s.t.spans[a].level + 1 < s.t.height
  {
    assert PathBlockOk(s, k, trip, known, a);
    assert InTree(s.t, p);
    assert PathBlockOk(s, k, trip, known, p);
  }

  /** The root, on a level not split before, was given a parent and split. */
  lemma TripGrow(s: Snap, s': Snap, k: Key, trip: Trip, known: Snap, r: Addr)
    requires Inv(s.t) && TripOk(s, k, trip, known) && OnPath(s.t, s.t.root, k) && s.t.root in s.t.view
    requires |s.t.view[s.t.root].items| == s.t.Max(s.t.height - 1)
    requires r !in s.t.spans && s'.t.spans == s.t.spans[r := Span(s.t.height, -1, MAX_KEY)] && s'.t.height == s.t.height + 1
    requires (s'.t.leafMax, s'.t.refMax) == (s.t.leafMax, s.t.refMax)
    requires r in s'.t.view && |s'.t.view[r].items| == 1
    requires forall b {:trigger s'.t.view[b]} :: b in s.t.spans ==>
      b in s.t.view && b in s'.t.view && s'.t.view[b].items == s.t.view[b].items
    requires s.mod <= s'.mod && r in s'.mod && r >= known.log.next && s.log.next <= s'.log.next
    ensures s.t.height == trip.h0 && trip.h0 > 0 && trip.h0 - 1 !in trip.did
    ensures GrownTripOk(s', k, trip.(n := trip.n + 1), known)
  {
    assert PathBlockOk(s, k, trip, known, s.t.root);
    var trip' := trip.(n := trip.n + 1);
    forall b ensures PathBlockOk(s', k, trip', known, b) {
      assert PathBlockOk(s, k, trip, known, b);
      assert InTree(s.t, b);
      if OnPath(s'.t, b, k) && b in s'.t.view && b != r {
        assert s'.t.view[b].items == s.t.view[b].items;
      }
    }
  }

  /** A block on the path that is not full need not be split. */
  lemma TripRoomy(s: Snap, k: Key, trip: Trip, known: Snap, a: Addr)
    requires TripOk(s, k, trip, known) && OnPath(s.t, a, k) && a in s.t.view
    requires |s.t.view[a].items| < s.t.Max(s.t.spans[a].level)
    ensures Roomy(trip, s.t.leafMax, s.t.refMax, s.t.spans[a].level)
  {
    assert PathBlockOk(s, k, trip, known, a);
  }

  /** When no block on the path needs to be split, the tree has a new root exactly if its root was one that had to be. */
  lemma TripDone(s: Snap, k: Key, trip: Trip, known: Snap)
    requires TripOk(s, k, trip, known) && trip.h0 > 0 && RoomyFrom(trip, s.t.leafMax, s.t.refMax, 0)
    ensures s.t.height == trip.h0 + if Splits(trip.counts, s.t.leafMax, s.t.refMax, trip.h0 - 1) then 1 else 0
  {
    if Splits(trip.counts, s.t.leafMax, s.t.refMax, trip.h0 - 1) {
      SplitsDone(trip, s.t.leafMax, s.t.refMax, trip.h0 - 1);
    }
  }

  /** Allocating a block that is not yet part of the tree changes nothing on the path. */
  lemma TripAlloc(s: Snap, s': Snap, k: Key, trip: Trip, known: Snap)
    requires TripOk(s, k, trip, known)
    requires s'.t == s.t.(view := s'.t.view) && s.mod <= s'.mod && s.log.next <= s'.log.next
    requires forall b {:trigger s'.t.view[b]} :: b in s.t.spans ==> b in s.t.view && b in s'.t.view && s'.t.view[b] == s.t.view[b]
    ensures TripOk(s', k, trip, known)
  {
    forall b ensures PathBlockOk(s', k, trip, known, b) {
      assert PathBlockOk(s, k, trip, known, b);
      if OnPath(s'.t, b, k) && b in s'.t.view {
        assert s'.t.view[b] == s.t.view[b];
      }
    }
  }
}
