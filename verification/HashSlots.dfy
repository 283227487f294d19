/**
 The slots of a hash table with robin hood hashing (shared/hash_table.c:166-268), as values. An
 entry knows how far it is from the slot that its hash names, its probe length; going on from slot
 to slot probe lengths grow by at most one. Slots are numbered around a circle.
 */
module HashSlots {
  import opened Wrappers

  datatype Entry<+K, +V> = Empty | Full(pl: nat, hash: nat, key: K, val: V) {
    /** What the source's field holds: zero in an empty entry. */
    function ProbeLen(): nat {
      if Empty? then 0 else pl
    }
  }

  // ---------------------------------------------------------------- Around the circle

  /** The slot that a number names: its remainder. */
  function Home(hash: nat, n: nat): (i: nat)
    requires n > 0
    ensures i < n
  {
    if hash < n then hash else Home(hash - n, n)
  }

  lemma {:induction false} HomeIsRemainder(hash: nat, n: nat) returns (q: nat)
    requires n > 0
    ensures hash == q * n + Home(hash, n)
  {
    if hash < n {
      q := 0;
    } else {
      q := HomeIsRemainder(hash - n, n);
      q := q + 1;
    }
  }

  function Next(i: nat, n: nat): nat {
    if i + 1 == n then 0 else i + 1
  }

  function Prev(i: nat, n: nat): nat
    requires i < n
  {
    if i == 0 then n - 1 else i - 1
  }

  /** The slot p steps on from a home. */
  function At(home: nat, p: nat, n: nat): nat
    requires home < n && p < n
  {
    if home + p < n then home + p else home + p - n
  }

  /** How many steps there are from slot i on to slot e. */
  function Dist(i: nat, e: nat, n: nat): nat
    requires i < n && e < n
  {
    if i <= e then e - i else e + n - i
  }

  // ---------------------------------------------------------------- Invariants

  type Slots<K, V> = seq<Entry<K, V>>

  /** The previous slot's entry is at most one step closer to its home. */
  ghost predicate Backed<K, V>(t: Slots<K, V>, i: nat, pl: nat)
    requires i < |t|
  {
    pl > 0 ==> t[Prev(i, |t|)].Full? && t[Prev(i, |t|)].pl + 1 >= pl
  }

  /** Slot i's entry is where its hash and probe length say, and is backed unless i is the exception x. */
  ghost predicate SlotOk<K, V>(t: Slots<K, V>, h: K -> nat, i: int, x: int) {
    0 <= i < |t| && t[i].Full? ==>
      && t[i].hash == h(t[i].key)
      && t[i].pl < |t| && At(Home(t[i].hash, |t|), t[i].pl, |t|) == i
      && (i != x ==> Backed(t, i, t[i].pl))
  }

  ghost predicate SlotsOk<K, V>(t: Slots<K, V>, h: K -> nat, x: int) {
    |t| > 0 && forall i {:trigger SlotOk(t, h, i, x)} :: SlotOk(t, h, i, x)
  }

  /** Slot i's entry is the only one with its key, unless i is the exception x. */
  ghost predicate IndexOk<K, V>(t: Slots<K, V>, at: map<K, nat>, i: int, x: int) {
    0 <= i < |t| && t[i].Full? && i != x ==> t[i].key in at && at[t[i].key] == i
  }

  ghost predicate KeyOk<K, V>(t: Slots<K, V>, at: map<K, nat>, k: K, x: int) {
    k in at ==> at[k] < |t| && at[k] != x && t[at[k]].Full? && t[at[k]].key == k
  }

  /** at says in which slot each key is. */
  ghost predicate Indexed<K(!new), V>(t: Slots<K, V>, at: map<K, nat>, x: int) {
    && (forall i {:trigger IndexOk(t, at, i, x)} :: IndexOk(t, at, i, x))
    && (forall k {:trigger KeyOk(t, at, k, x)} :: KeyOk(t, at, k, x))
  }

  const NONE := -1

  ghost predicate TableOk<K(!new), V>(t: Slots<K, V>, h: K -> nat, at: map<K, nat>) {
    SlotsOk(t, h, NONE) && Indexed(t, at, NONE)
  }

  /** The map that the slots stand for. */
  ghost function Contents<K, V>(t: Slots<K, V>, at: map<K, nat>): map<K, V> {
    map k | k in at && at[k] < |t| && t[at[k]].Full? :: t[at[k]].val
  }

  // ---------------------------------------------------------------- Probing

  /** On the way from its home to an entry every slot is full, with an entry at least as far from its own home. */
  lemma {:induction false} FullOnTheWay<K, V>(t: Slots<K, V>, h: K -> nat, i: nat, p: nat)
    requires SlotsOk(t, h, NONE) && i < |t| && t[i].Full? && p <= t[i].pl
    ensures t[i].pl < |t|
    ensures var s := At(Home(t[i].hash, |t|), p, |t|); t[s].Full? && t[s].pl >= p
    decreases t[i].pl - p
  {
    assert SlotOk(t, h, i, NONE);
    if p < t[i].pl {
      WayBack(t, h, i, p, t[i].pl);
    }
  }

  lemma {:induction false} WayBack<K, V>(t: Slots<K, V>, h: K -> nat, i: nat, p: nat, q: nat)
    requires SlotsOk(t, h, NONE) && i < |t| && t[i].Full? && p < q <= t[i].pl < |t|
    requires var s := At(Home(t[i].hash, |t|), q, |t|); t[s].Full? && t[s].pl >= q
    ensures var s := At(Home(t[i].hash, |t|), p, |t|); t[s].Full? && t[s].pl >= p
    decreases q - p
  {
    var s := At(Home(t[i].hash, |t|), q, |t|);
    assert SlotOk(t, h, s, NONE);
    assert Prev(s, |t|) == At(Home(t[i].hash, |t|), q - 1, |t|);
    if p < q - 1 {
      WayBack(t, h, i, p, q - 1);
    }
  }

  /** An empty slot is not on the way to any entry. */
  lemma {:induction false} EmptyAhead<K, V>(t: Slots<K, V>, h: K -> nat, i: nat, e: nat)
    requires SlotsOk(t, h, NONE) && i < |t| && t[i].Full? && e < |t| && t[e].Empty?
    ensures t[i].pl + Dist(i, e, |t|) < |t|
  {
    assert SlotOk(t, h, i, NONE);
    var n := |t|;
    if t[i].pl + Dist(i, e, n) >= n {
      var p := t[i].pl + Dist(i, e, n) - n;
      FullOnTheWay(t, h, i, p);
    }
  }

  /** While fewer keys are mapped than there are slots some slot is empty. */
  lemma {:induction false} SomeEmpty<K(!new), V>(t: Slots<K, V>, at: map<K, nat>) returns (e: nat)
    requires Indexed(t, at, NONE) && |at| < |t|
    ensures e < |t| && t[e].Empty?
  {
    e := 0;
    ghost var keys: set<K> := {};
    while t[e].Full?
      invariant e < |t| && |keys| == e && keys <= at.Keys
      invariant forall k :: k in keys ==> k in at && at[k] < e
      decreases |t| - e
    {
      assert IndexOk(t, at, e, NONE);
      keys := keys + {t[e].key};
      e := e + 1;
      Fewer(keys, at.Keys);
    }
  }

  lemma Fewer<K>(a: set<K>, b: set<K>)
    requires a <= b
    ensures |a| <= |b|
  {
    assert b == a + (b - a);
  }

  /** A probe for a key, p steps from its home and at slot i: the key, if it is in the table, is still ahead. */
  ghost predicate Probing<K(!new), V>(t: Slots<K, V>, h: K -> nat, at: map<K, nat>, key: K, i: int, p: nat, e: nat) {
    && TableOk(t, h, at)
    && 0 <= i < |t| && e < |t| && t[e].Empty?
    && p + Dist(i, e, |t|) < |t| && At(Home(h(key), |t|), p, |t|) == i
    && (key in at && at[key] < |t| && t[at[key]].Full? ==> p <= t[at[key]].pl)
  }

  lemma ProbeStarts<K(!new), V>(t: Slots<K, V>, h: K -> nat, at: map<K, nat>, key: K, e: nat)
    requires TableOk(t, h, at) && e < |t| && t[e].Empty?
    ensures Probing(t, h, at, key, Home(h(key), |t|), 0, e)
  {
  }

  /** A probe that meets an empty slot, or an entry closer to its home, has missed: the key is not in the table. */
  lemma ProbeStops<K(!new), V>(t: Slots<K, V>, h: K -> nat, at: map<K, nat>, key: K, i: nat, p: nat, e: nat)
    requires Probing(t, h, at, key, i, p, e) && (t[i].Empty? || p > t[i].pl)
    ensures key !in at
  {
    if key in at {
      assert KeyOk(t, at, key, NONE);
      assert SlotOk(t, h, at[key], NONE);
      FullOnTheWay(t, h, at[key], p);
    }
  }

  /** Otherwise it has found the key, or goes on. */
  lemma ProbeGoesOn<K(!new), V>(t: Slots<K, V>, h: K -> nat, at: map<K, nat>, key: K, i: nat, p: nat, e: nat)
    requires Probing(t, h, at, key, i, p, e) && t[i].Full? && p <= t[i].pl
    ensures t[i].key == key ==> key in at && at[key] == i && t[i].pl == p
    ensures t[i].key != key ==> Probing(t, h, at, key, Next(i, |t|), p + 1, e)
    ensures Dist(Next(i, |t|), e, |t|) < Dist(i, e, |t|)
  {
    assert IndexOk(t, at, i, NONE) && SlotOk(t, h, i, NONE);
    if t[i].key != key && key in at {
      assert KeyOk(t, at, key, NONE);
      assert SlotOk(t, h, at[key], NONE);
    }
  }

  // ---------------------------------------------------------------- Inserting

  /** An entry looking for a slot: a probe, whose entry would be backed. */
  ghost predicate Carrying<K(!new), V>(t: Slots<K, V>, h: K -> nat, at: map<K, nat>, ins: Entry<K, V>, i: int, e: nat) {
    && ins.Full? && 0 <= i < |t| && e < |t|
    && forall u {:trigger Look(u)} :: Look(u) ==> CarryingFacts(t, h, at, ins, i, e)
  }

  ghost predicate CarryingFacts<K(!new), V>(t: Slots<K, V>, h: K -> nat, at: map<K, nat>, ins: Entry<K, V>, i: int, e: nat)
    requires ins.Full? && 0 <= i < |t|
  {
    ins.hash == h(ins.key) && Probing(t, h, at, ins.key, i, ins.pl, e) && Backed(t, i, ins.pl)
  }

  lemma CarryStarts<K(!new), V>(t: Slots<K, V>, h: K -> nat, at: map<K, nat>, key: K, val: V, e: nat)
    requires TableOk(t, h, at) && e < |t| && t[e].Empty?
    ensures Carrying(t, h, at, Full(0, h(key), key, val), Home(h(key), |t|), e)
  {
  }

  /** Whether hashes and keys agree is whether keys do; an entry with the carried key is replaced in place. */
  lemma CarryMeets<K(!new), V>(t: Slots<K, V>, h: K -> nat, at: map<K, nat>, ins: Entry<K, V>, i: nat, e: nat)
    requires Carrying(t, h, at, ins, i, e) && t[i].Full?
    ensures t[i].key == ins.key ==> t[i].hash == ins.hash
    ensures t[i].key == ins.key ==> TableOk(t[i := ins], h, at) && Contents(t[i := ins], at) == Contents(t, at)[ins.key := ins.val]
    ensures Dist(Next(i, |t|), e, |t|) < Dist(i, e, |t|)
  {
    assert Look(0);
    SlotHash(t, h, i);
    if t[i].key == ins.key {
      PutOver(t, h, at, ins, i, e);
    }
  }

  lemma PutInEmpty<K(!new), V>(t: Slots<K, V>, h: K -> nat, at: map<K, nat>, ins: Entry<K, V>, i: nat, e: nat)
    requires Carrying(t, h, at, ins, i, e) && t[i].Empty?
    ensures ins.key !in at
    ensures TableOk(t[i := ins], h, at[ins.key := i])
    ensures Contents(t[i := ins], at[ins.key := i]) == Contents(t, at)[ins.key := ins.val]
    ensures |at[ins.key := i]| == |at| + 1
  {
    assert Look(0);
    ProbeStops(t, h, at, ins.key, i, ins.pl, e);
    var t', at' := t[i := ins], at[ins.key := i];
    assert at'.Keys == at.Keys + {ins.key};
    forall j ensures SlotOk(t', h, j, NONE) {
      assert SlotOk(t, h, j, NONE);
    }
    forall j ensures IndexOk(t', at', j, NONE) {
      assert IndexOk(t, at, j, NONE);
    }
    forall k ensures KeyOk(t', at', k, NONE) {
      assert KeyOk(t, at, k, NONE);
    }
    OneMore(t, at, ins, i);
  }

  lemma OneMore<K(!new), V>(t: Slots<K, V>, at: map<K, nat>, ins: Entry<K, V>, i: nat)
    requires Indexed(t, at, NONE) && ins.Full? && i < |t| && (ins.key in at ==> at[ins.key] == i)
    requires t[i].Full? ==> t[i].key == ins.key
    ensures Contents(t[i := ins], at[ins.key := i]) == Contents(t, at)[ins.key := ins.val]
  {
    forall k | k in at ensures KeyOk(t, at, k, NONE) {
    }
  }

  lemma PutOver<K(!new), V>(t: Slots<K, V>, h: K -> nat, at: map<K, nat>, ins: Entry<K, V>, i: nat, e: nat)
    requires ins.Full? && ins.hash == h(ins.key) && Probing(t, h, at, ins.key, i, ins.pl, e)
    requires t[i].Full? && t[i].key == ins.key
    ensures ins.key in at && TableOk(t[i := ins], h, at)
    ensures Contents(t[i := ins], at) == Contents(t, at)[ins.key := ins.val]
  {
    var t' := t[i := ins];
    assert IndexOk(t, at, i, NONE) && SlotOk(t, h, i, NONE);
    forall j ensures SlotOk(t', h, j, NONE) {
      assert SlotOk(t, h, j, NONE);
    }
    forall j ensures IndexOk(t', at, j, NONE) {
      assert IndexOk(t, at, j, NONE);
    }
    forall k ensures KeyOk(t', at, k, NONE) {
      assert KeyOk(t, at, k, NONE);
    }
    OneMore(t, at, ins, i);
    assert at[ins.key := i] == at;
  }

  /** An entry that is further from home takes the slot; the one it displaces goes on in its place. */
  lemma Swap<K(!new), V>(t: Slots<K, V>, h: K -> nat, at: map<K, nat>, ins: Entry<K, V>, i: nat, e: nat)
    requires Carrying(t, h, at, ins, i, e) && t[i].Full? && t[i].key != ins.key && ins.pl > t[i].pl
    ensures var t', at', out := t[i := ins], (at - {t[i].key})[ins.key := i], t[i].(pl := t[i].pl + 1);
      && t[i].key in at && ins.key !in at
      && Carrying(t', h, at', out, Next(i, |t|), e)
      && Contents(t', at')[out.key := out.val] == Contents(t, at)[ins.key := ins.val]
      && |at'| == |at|
  {
    assert Look(0);
    ProbeStops(t, h, at, ins.key, i, ins.pl, e);
    assert IndexOk(t, at, i, NONE) && SlotOk(t, h, i, NONE);
    EmptyAhead(t, h, i, e);
    var out := t[i];
    var t', at' := t[i := ins], (at - {out.key})[ins.key := i];
    assert at'.Keys == at.Keys - {out.key} + {ins.key};
    forall j ensures SlotOk(t', h, j, NONE) {
      assert SlotOk(t, h, j, NONE);
    }
    forall j ensures IndexOk(t', at', j, NONE) {
      assert IndexOk(t, at, j, NONE);
    }
    forall k ensures KeyOk(t', at', k, NONE) {
      assert KeyOk(t, at, k, NONE);
    }
    SwapContents(t, h, at, ins, i);
  }

  lemma SwapContents<K(!new), V>(t: Slots<K, V>, h: K -> nat, at: map<K, nat>, ins: Entry<K, V>, i: nat)
    requires Indexed(t, at, NONE) && ins.Full? && i < |t| && t[i].Full? && ins.key !in at && t[i].key in at && at[t[i].key] == i
    ensures Contents(t[i := ins], (at - {t[i].key})[ins.key := i])[t[i].key := t[i].val] == Contents(t, at)[ins.key := ins.val]
  {
    forall k | k in at ensures KeyOk(t, at, k, NONE) {
    }
  }

  lemma Skip<K(!new), V>(t: Slots<K, V>, h: K -> nat, at: map<K, nat>, ins: Entry<K, V>, i: nat, e: nat)
    requires Carrying(t, h, at, ins, i, e) && t[i].Full? && t[i].key != ins.key && ins.pl <= t[i].pl
    ensures Carrying(t, h, at, ins.(pl := ins.pl + 1), Next(i, |t|), e)
  {
    assert Look(0);
    ProbeGoesOn(t, h, at, ins.key, i, ins.pl, e);
  }

  // ---------------------------------------------------------------- Deleting

  /** Slot c's entry no longer counts, but the slots are still in order; some slot is empty. */
  ghost predicate Holed<K(!new), V>(t: Slots<K, V>, h: K -> nat, at: map<K, nat>, c: int, e: nat) {
    && SlotsOk(t, h, NONE) && Indexed(t, at, c)
    && 0 <= c < |t| && t[c].Full? && e < |t| && t[e].Empty?
  }

  lemma OpenHole<K(!new), V>(t: Slots<K, V>, h: K -> nat, at: map<K, nat>, key: K, e: nat)
    requires TableOk(t, h, at) && key in at && e < |t| && t[e].Empty?
    ensures at[key] < |t| && Holed(t, h, at - {key}, at[key], e)
    ensures Contents(t, at - {key}) == Contents(t, at) - {key} && |at - {key}| == |at| - 1
  {
    var at' := at - {key};
    assert KeyOk(t, at, key, NONE);
    assert at.Keys == at'.Keys + {key};
    forall j ensures IndexOk(t, at', j, at[key]) {
      assert IndexOk(t, at, j, NONE);
    }
    forall k ensures KeyOk(t, at', k, at[key]) {
      assert KeyOk(t, at, k, NONE);
    }
  }

  /** The next slot's entry moves into the hole, a step closer to its home. */
  lemma ShiftBack<K(!new), V>(t: Slots<K, V>, h: K -> nat, at: map<K, nat>, c: nat, e: nat)
    requires Holed(t, h, at, c, e)
    requires var n := t[Next(c, |t|)]; n.Full? && n.pl > 0
    ensures var j := Next(c, |t|); var t', at' := t[c := t[j].(pl := t[j].pl - 1)], at[t[j].key := c];
      && Holed(t', h, at', j, e) && Contents(t', at') == Contents(t, at) && |at'| == |at|
      && Dist(Next(j, |t|), e, |t|) < Dist(j, e, |t|)
  {
    var j := Next(c, |t|);
    var t', at' := t[c := t[j].(pl := t[j].pl - 1)], at[t[j].key := c];
    assert SlotOk(t, h, c, NONE) && SlotOk(t, h, j, NONE) && IndexOk(t, at, j, c);
    assert at'.Keys == at.Keys;
    forall i ensures SlotOk(t', h, i, NONE) {
      assert SlotOk(t, h, i, NONE);
    }
    forall i ensures IndexOk(t', at', i, j) {
      assert IndexOk(t, at, i, c);
    }
    forall k ensures KeyOk(t', at', k, j) {
      assert KeyOk(t, at, k, c);
    }
    ShiftedContents(t, at, c, j);
  }

  lemma ShiftedContents<K(!new), V>(t: Slots<K, V>, at: map<K, nat>, c: nat, j: nat)
    requires Indexed(t, at, c) && c < |t| && j < |t| && c != j && t[j].Full? && t[j].pl > 0 && t[j].key in at && at[t[j].key] == j
    ensures Contents(t[c := t[j].(pl := t[j].pl - 1)], at[t[j].key := c]) == Contents(t, at)
  {
    var m, m' := Contents(t, at), Contents(t[c := t[j].(pl := t[j].pl - 1)], at[t[j].key := c]);
    forall k ensures (k in m <==> k in m') && (k in m ==> m'[k] == m[k]) {
      assert KeyOk(t, at, k, c);
    }
    assert m == m';
  }

  lemma CloseHole<K(!new), V>(t: Slots<K, V>, h: K -> nat, at: map<K, nat>, c: nat, e: nat)
    requires Holed(t, h, at, c, e) && t[Next(c, |t|)].ProbeLen() == 0
    ensures TableOk(t[c := Empty], h, at) && Contents(t[c := Empty], at) == Contents(t, at)
  {
    var t': Slots<K, V> := t[c := Empty];
    forall i ensures SlotOk(t', h, i, NONE) {
      assert SlotOk(t, h, i, NONE);
    }
    forall i ensures IndexOk(t', at, i, NONE) {
      assert IndexOk(t, at, i, c);
    }
    forall k ensures KeyOk(t', at, k, NONE) && (k in at ==> t'[at[k]] == t[at[k]]) {
      assert KeyOk(t, at, k, c);
    }
  }

  // ---------------------------------------------------------------- Clearing a run

  /** Slots are being cleared; the entry at x may have lost its backing. */
  ghost predicate Clearing<K(!new), V>(t: Slots<K, V>, h: K -> nat, at: map<K, nat>, x: int) {
    SlotsOk(t, h, x) && Indexed(t, at, NONE) && 0 <= x < |t|
  }

  lemma ClearStarts<K(!new), V>(t: Slots<K, V>, h: K -> nat, at: map<K, nat>, x: nat)
    requires TableOk(t, h, at) && x < |t|
    ensures Clearing(t, h, at, x)
  {
    forall i ensures SlotOk(t, h, i, x) {
      assert SlotOk(t, h, i, NONE);
    }
  }

  lemma ClearOne<K(!new), V>(t: Slots<K, V>, h: K -> nat, at: map<K, nat>, x: nat)
    requires Clearing(t, h, at, x) && t[x].Full?
    ensures var at' := at - {t[x].key};
      && t[x].key in at && |at'| == |at| - 1
      && Clearing(t[x := Empty], h, at', Next(x, |t|))
      && Contents(t, at) == Contents(t[x := Empty], at')[t[x].key := t[x].val]
  {
    var t': Slots<K, V>, at' := t[x := Empty], at - {t[x].key};
    assert IndexOk(t, at, x, NONE);
    assert at.Keys == at'.Keys + {t[x].key};
    forall i ensures SlotOk(t', h, i, Next(x, |t|)) {
      assert SlotOk(t, h, i, x);
    }
    forall i ensures IndexOk(t', at', i, NONE) {
      assert IndexOk(t, at, i, NONE);
    }
    forall k ensures KeyOk(t', at', k, NONE) {
      assert KeyOk(t, at, k, NONE);
    }
    ClearedContents(t, at, x);
  }

  lemma ClearedContents<K(!new), V>(t: Slots<K, V>, at: map<K, nat>, x: nat)
    requires Indexed(t, at, NONE) && x < |t| && t[x].Full? && t[x].key in at && at[t[x].key] == x
    ensures Contents(t, at) == Contents(t[x := Empty], at - {t[x].key})[t[x].key := t[x].val]
  {
    var m, m' := Contents(t, at), Contents(t[x := Empty], at - {t[x].key})[t[x].key := t[x].val];
    forall k ensures (k in m <==> k in m') && (k in m ==> m'[k] == m[k]) {
      assert KeyOk(t, at, k, NONE);
      assert k in at && k != t[x].key ==> at[k] != x;
    }
    assert m == m';
  }

  lemma ClearNone<K(!new), V>(t: Slots<K, V>, h: K -> nat, at: map<K, nat>, x: nat)
    requires Clearing(t, h, at, x) && t[x].Empty?
    ensures Clearing(t, h, at, Next(x, |t|))
  {
    forall i ensures SlotOk(t, h, i, Next(x, |t|)) {
      assert SlotOk(t, h, i, x);
    }
  }

  /** It is harmless to stop where an entry needs no backing. */
  lemma ClearEnds<K(!new), V>(t: Slots<K, V>, h: K -> nat, at: map<K, nat>, x: nat)
    requires Clearing(t, h, at, x) && t[x].ProbeLen() == 0
    ensures TableOk(t, h, at)
  {
    forall i ensures SlotOk(t, h, i, NONE) {
      assert SlotOk(t, h, i, x);
    }
  }

  // ---------------------------------------------------------------- Progress of a migration

  /** Slot i is empty if it is before m, and its entry's way from home does not pass the end. */
  ghost predicate TameAt<K, V>(t: Slots<K, V>, i: int, m: nat) {
    0 <= i < |t| && t[i].Full? ==> m <= i && t[i].pl <= i
  }

  /** No run of entries wraps around the end, and the slots before m are empty. */
  ghost predicate Tame<K, V>(t: Slots<K, V>, m: nat) {
    forall u {:trigger Look(u)} :: Look(u) ==> TameFacts(t, m)
  }

  ghost predicate TameFacts<K, V>(t: Slots<K, V>, m: nat) {
    forall i {:trigger TameAt(t, i, m)} :: TameAt(t, i, m)
  }

  lemma TamePutOver<K(!new), V>(t: Slots<K, V>, h: K -> nat, at: map<K, nat>, ins: Entry<K, V>, i: nat, e: nat, m: nat)
    requires ins.Full? && Probing(t, h, at, ins.key, i, ins.pl, e) && t[i].Full? && t[i].key == ins.key && Tame(t, m)
    ensures Tame(t[i := ins], m)
  {
    assert Look(0);
    assert IndexOk(t, at, i, NONE) && SlotOk(t, h, i, NONE);
    var t' := t[i := ins];
    forall j ensures TameAt(t', j, m) {
      assert TameAt(t, j, m);
    }
  }

  lemma TameShiftBack<K(!new), V>(t: Slots<K, V>, h: K -> nat, at: map<K, nat>, c: nat, e: nat, m: nat)
    requires Holed(t, h, at, c, e) && Tame(t, m)
    requires var n := t[Next(c, |t|)]; n.Full? && n.pl > 0
    ensures var j := Next(c, |t|); Tame(t[c := t[j].(pl := t[j].pl - 1)], m)
  {
    assert Look(0);
    var j := Next(c, |t|);
    assert TameAt(t, c, m) && TameAt(t, j, m);
    var t' := t[c := t[j].(pl := t[j].pl - 1)];
    forall i ensures TameAt(t', i, m) {
      assert TameAt(t, i, m);
    }
  }

  lemma TameClear<K, V>(t: Slots<K, V>, x: nat, m: nat)
    requires Tame(t, m) && x < |t|
    ensures Tame(t[x := Empty], if m == x then m + 1 else m)
  {
    assert Look(0);
    var t': Slots<K, V>, m' := t[x := Empty], if m == x then m + 1 else m;
    forall i ensures TameAt(t', i, m') {
      assert TameAt(t, i, m);
    }
  }

  lemma TameCleared<K, V>(t: Slots<K, V>, x: nat, m: nat)
    requires Tame(t, m) && x < |t|
    ensures Tame(t[x := Empty], m)
  {
    assert Look(0);
    var t': Slots<K, V> := t[x := Empty];
    forall i ensures TameAt(t', i, m) {
      assert TameAt(t, i, m);
    }
  }

  lemma TameFurther<K, V>(t: Slots<K, V>, m: nat)
    requires Tame(t, m) && m >= |t|
    ensures Tame(t, m + 1)
  {
    assert Look(0);
    var m' := m + 1;
    forall i ensures TameAt(t, i, m') {
      assert TameAt(t, i, m);
    }
  }

  /** Where a migration goes on the entry is at home, so that it does not have to go back. */
  lemma TameStart<K(!new), V>(t: Slots<K, V>, h: K -> nat, at: map<K, nat>, m: nat)
    requires TableOk(t, h, at) && Tame(t, m) && m < |t|
    ensures t[m].ProbeLen() == 0
  {
    assert Look(0);
    assert SlotOk(t, h, m, NONE) && TameAt(t, m, m) && TameAt(t, m - 1, m);
  }

  /** Once it is past the end the table is empty. */
  lemma TameEnd<K(!new), V>(t: Slots<K, V>, at: map<K, nat>, m: nat)
    requires Indexed(t, at, NONE) && Tame(t, m) && at != map[]
    ensures m < |t|
  {
    assert Look(0);
    var k :| k in at;
    assert KeyOk(t, at, k, NONE) && TameAt(t, at[k], m);
  }

  // ---------------------------------------------------------------- The slots behind a sweep

  // ---------------------------------------------------------------- A whole table

  /** The slots, where each key is, the map that they stand for, and how a migration of them is getting on. */
  datatype State<K, V> = State(t: Slots<K, V>, at: map<K, nat>, m: map<K, V>, tame: bool, pos: nat)

  ghost predicate Good<K(!new), V>(s: State<K, V>, h: K -> nat, count: nat) {
    forall u {:trigger Look(u)} :: Look(u) ==>
      TableOk(s.t, h, s.at) && s.m == Contents(s.t, s.at) && count == |s.at| && (s.tame ==> Tame(s.t, s.pos))
  }

  lemma GoodFacts<K(!new), V>(s: State<K, V>, h: K -> nat, count: nat)
    requires Good(s, h, count)
    ensures TableOk(s.t, h, s.at) && s.m == Contents(s.t, s.at) && count == |s.at| && (s.tame ==> Tame(s.t, s.pos))
    ensures s.m.Keys == s.at.Keys && count == |s.m|
  {
    assert Look(0);
    ContentsKeys(s.t, s.at);
  }

  lemma ContentsKeys<K(!new), V>(t: Slots<K, V>, at: map<K, nat>)
    requires Indexed(t, at, NONE)
    ensures Contents(t, at).Keys == at.Keys && |Contents(t, at)| == |at|
  {
    forall k: K ensures k in Contents(t, at) <==> k in at {
      assert KeyOk(t, at, k, NONE);
    }
    assert Contents(t, at).Keys == at.Keys;
    assert |Contents(t, at).Keys| == |Contents(t, at)| && |at.Keys| == |at|;
  }

  /** What an insertion, a deletion or an overwriting makes of a table. */
  lemma Inserted<K(!new), V>(s: State<K, V>, h: K -> nat, count: nat, t: Slots<K, V>, at: map<K, nat>, key: K, val: V)
    requires Good(s, h, count) && TableOk(t, h, at) && Contents(t, at) == s.m[key := val]
    ensures Good(State(t, at, s.m[key := val], false, s.pos), h, |at|)
    ensures |at| == count + (if key in s.m then 0 else 1)
  {
    GoodFacts(s, h, count);
    ContentsKeys(t, at);
    assert s.m[key := val].Keys == s.m.Keys + {key};
  }

  lemma Overwritten<K(!new), V>(s: State<K, V>, h: K -> nat, count: nat, ins: Entry<K, V>, i: nat, e: nat)
    requires Good(s, h, count) && ins.Full? && ins.hash == h(ins.key) && Probing(s.t, h, s.at, ins.key, i, ins.pl, e)
    requires s.t[i].Full? && s.t[i].key == ins.key
    ensures ins.key in s.m && Good(s.(t := s.t[i := ins], m := s.m[ins.key := ins.val]), h, count) && ins.pl == s.t[i].pl
  {
    GoodFacts(s, h, count);
    assert SlotOk(s.t, h, i, NONE);
    PutOver(s.t, h, s.at, ins, i, e);
    if s.tame {
      TamePutOver(s.t, h, s.at, ins, i, e, s.pos);
    }
  }

  lemma SlotHash<K(!new), V>(t: Slots<K, V>, h: K -> nat, i: nat)
    requires SlotsOk(t, h, NONE) && i < |t| && t[i].Full?
    ensures t[i].hash == h(t[i].key)
  {
    assert SlotOk(t, h, i, NONE);
  }

  // ---------------------------------------------------------------- An entry being placed

  /** An entry stays in a slot that is empty, or that has its key. */
  predicate Stays<K(==), V>(t: Slots<K, V>, ins: Entry<K, V>, i: nat)
    requires i < |t| && ins.Full?
  {
    t[i].Empty? || (t[i].hash == ins.hash && t[i].key == ins.key)
  }

  /** Otherwise it goes on to the next slot; or the slot's entry does, if that is closer to its home. */
  function GoesOn<K, V>(t: Slots<K, V>, ins: Entry<K, V>, i: nat): (r: (Slots<K, V>, Entry<K, V>))
    requires i < |t| && ins.Full? && t[i].Full?
  {
    if ins.pl > t[i].pl then (t[i := ins], t[i].(pl := t[i].pl + 1)) else (t, ins.(pl := ins.pl + 1))
  }

  /** Whether an entry that is looked a slot for from slot i on finds one within n steps. */
  predicate Lands<K(==), V>(t: Slots<K, V>, ins: Entry<K, V>, i: nat, n: nat)
    requires i < |t| && ins.Full?
    decreases n
  {
    Stays(t, ins, i) || (n > 0 && var (t', ins') := GoesOn(t, ins, i); Lands(t', ins', Next(i, |t|), n - 1))
  }

  /** What the slots are then. */
  function Landed<K(==), V>(t: Slots<K, V>, ins: Entry<K, V>, i: nat, n: nat): (t': Slots<K, V>)
    requires i < |t| && ins.Full? && Lands(t, ins, i, n)
    ensures |t'| == |t|
    decreases n
  {
    if Stays(t, ins, i) then t[i := ins] else var (t', ins') := GoesOn(t, ins, i); Landed(t', ins', Next(i, |t|), n - 1)
  }

  /** More steps change nothing. */
  lemma {:induction false} LandsLater<K, V>(t: Slots<K, V>, ins: Entry<K, V>, i: nat, n: nat, m: nat)
    requires i < |t| && ins.Full? && Lands(t, ins, i, n) && n <= m
    ensures Lands(t, ins, i, m) && Landed(t, ins, i, m) == Landed(t, ins, i, n)
    decreases n
  {
    if !Stays(t, ins, i) {
      var (t', ins') := GoesOn(t, ins, i);
      LandsLater(t', ins', Next(i, |t|), n - 1, m - 1);
    }
  }

  /** It lands no later than in the first empty slot. */
  lemma {:induction false} LandsAtEmpty<K, V>(t: Slots<K, V>, ins: Entry<K, V>, i: nat, e: nat)
    requires i < |t| && ins.Full? && e < |t| && t[e].Empty?
    ensures Lands(t, ins, i, Dist(i, e, |t|))
    decreases Dist(i, e, |t|)
  {
    if !Stays(t, ins, i) {
      var (t', ins') := GoesOn(t, ins, i);
      LandsAtEmpty(t', ins', Next(i, |t|), e);
    }
  }

  /** A key's entry finds a slot within n steps from its home. */
  predicate LandsIn<K(==), V>(t: Slots<K, V>, h: K -> nat, key: K, val: V, n: nat)
    requires |t| > 0
  {
    Lands(t, Full(0, h(key), key, val), Home(h(key), |t|), n)
  }

  /** ... or within a lap. */
  predicate Fits<K(==), V>(t: Slots<K, V>, h: K -> nat, key: K, val: V) {
    |t| > 0 && LandsIn(t, h, key, val, |t|)
  }

  /** The slots with a key's entry put in. */
  function Put<K(==), V>(t: Slots<K, V>, h: K -> nat, key: K, val: V): (t': Slots<K, V>)
    requires Fits(t, h, key, val)
    ensures |t'| == |t|
  {
    Landed(t, Full(0, h(key), key, val), Home(h(key), |t|), |t|)
  }

  /** t' is t with a key's entry put in. */
  ghost predicate IsPut<K, V>(t: Slots<K, V>, t': Slots<K, V>, h: K -> nat, key: K, val: V) {
    forall u {:trigger Look(u)} :: Look(u) ==> Fits(t, h, key, val) && t' == Put(t, h, key, val)
  }

  lemma FitsAtEmpty<K, V>(t: Slots<K, V>, h: K -> nat, key: K, val: V, e: nat)
    requires e < |t| && t[e].Empty?
    ensures Fits(t, h, key, val)
  {
    var i := Home(h(key), |t|);
    LandsAtEmpty(t, Full(0, h(key), key, val), i, e);
    LandsLater(t, Full(0, h(key), key, val), i, Dist(i, e, |t|), |t|);
  }

  /** An entry is looking for a slot; with it in place the slots stand for m. */
  ghost predicate Placing<K(!new), V(!new)>(t: Slots<K, V>, h: K -> nat, at: map<K, nat>, ins: Entry<K, V>, i: nat, e: nat, m: map<K, V>, count: nat) {
    i < |t| && e < |t| && ins.Full? && forall u {:trigger Look(u)} :: Look(u) ==>
      Carrying(t, h, at, ins, i, e) && Contents(t, at)[ins.key := ins.val] == m && count == |at|
  }

  lemma PlaceStarts<K(!new), V(!new)>(t: Slots<K, V>, h: K -> nat, at: map<K, nat>, key: K, val: V, e: nat)
    requires TableOk(t, h, at) && e < |t| && t[e].Empty?
    ensures Placing(t, h, at, Full(0, h(key), key, val), Home(h(key), |t|), e, Contents(t, at)[key := val], |at|)
  {
    CarryStarts(t, h, at, key, val, e);
  }

  /** An empty slot, or one with the same key, takes the entry. */
  lemma PlaceMeets<K(!new), V(!new)>(t: Slots<K, V>, h: K -> nat, at: map<K, nat>, ins: Entry<K, V>, i: nat, e: nat, m: map<K, V>, count: nat)
    requires Placing(t, h, at, ins, i, e, m, count)
    ensures t[i].Empty? ==> var at' := at[ins.key := i]; TableOk(t[i := ins], h, at') && Contents(t[i := ins], at') == m && |at'| == count + 1
    ensures t[i].Full? && t[i].key == ins.key ==>
      t[i].hash == ins.hash && TableOk(t[i := ins], h, at) && Contents(t[i := ins], at) == m && |at| == count
  {
    assert Look(0);
    if t[i].Empty? {
      PutInEmpty(t, h, at, ins, i, e);
    } else {
      CarryMeets(t, h, at, ins, i, e);
    }
  }

  /** Past another key's slot the entry goes on, or the slot's entry in its stead. */
  lemma PlaceOn<K(!new), V(!new)>(t: Slots<K, V>, h: K -> nat, at: map<K, nat>, ins: Entry<K, V>, i: nat, e: nat, m: map<K, V>, count: nat)
      returns (t': Slots<K, V>, at': map<K, nat>, ins': Entry<K, V>)
    requires Placing(t, h, at, ins, i, e, m, count) && !Stays(t, ins, i)
    ensures Dist(Next(i, |t|), e, |t|) < Dist(i, e, |t|)
    ensures (t', ins') == GoesOn(t, ins, i)
    ensures Placing(t', h, at', ins', Next(i, |t|), e, m, count)
  {
    assert Look(0);
    CarryMeets(t, h, at, ins, i, e);
    if ins.pl > t[i].pl {
      Swap(t, h, at, ins, i, e);
      t', at', ins' := t[i := ins], (at - {t[i].key})[ins.key := i], t[i].(pl := t[i].pl + 1);
    } else {
      Skip(t, h, at, ins, i, e);
      t', at', ins' := t, at, ins.(pl := ins.pl + 1);
    }
  }

  // ---------------------------------------------------------------- A table being emptied

  /** A table with its slots being cleared, up to slot x. */
  ghost predicate SweepGood<K(!new), V>(s: State<K, V>, h: K -> nat, count: nat, x: nat) {
    forall u {:trigger Look(u)} :: Look(u) ==> Clearing(s.t, h, s.at, x) && s.m == Contents(s.t, s.at) && count == |s.at|
  }

  lemma SweepStarts<K(!new), V>(s: State<K, V>, h: K -> nat, count: nat, x: nat)
    requires Good(s, h, count) && x < |s.t|
    ensures SweepGood(s, h, count, x)
  {
    GoodFacts(s, h, count);
    ClearStarts(s.t, h, s.at, x);
  }

  /** The table without slot x's entry. */
  ghost function Without<K, V>(s: State<K, V>, x: nat): State<K, V>
    requires x < |s.t|
  {
    var at := if s.t[x].Full? then s.at - {s.t[x].key} else s.at;
    s.(t := s.t[x := Empty], at := at, m := Contents(s.t[x := Empty], at))
  }

  lemma SweepOne<K(!new), V>(s: State<K, V>, h: K -> nat, count: nat, x: nat)
    requires SweepGood(s, h, count, x) && x < |s.t|
    ensures var c := if s.t[x].Full? then count - 1 else count;
      c >= 0 && SweepGood(Without(s, x), h, c, Next(x, |s.t|))
    ensures s.t[x].Full? ==> s.t[x].key in s.m && s.m == Without(s, x).m[s.t[x].key := s.t[x].val]
    ensures s.t[x].Full? ==> s.t[x].key !in Without(s, x).m
    ensures s.t[x].Empty? ==> Without(s, x).m == s.m
  {
    assert Look(0);
    if s.t[x].Full? {
      ClearOne(s.t, h, s.at, x);
      ContentsKeys(s.t[x := Empty], s.at - {s.t[x].key});
      ContentsKeys(s.t, s.at);
    } else {
      ClearNone(s.t, h, s.at, x);
      assert s.t[x := Empty] == s.t;
    }
  }

  lemma SweepEnds<K(!new), V>(s: State<K, V>, h: K -> nat, count: nat, x: nat, tame: bool, pos: nat)
    requires SweepGood(s, h, count, x) && x < |s.t| && s.t[x].ProbeLen() == 0 && (tame ==> Tame(s.t, pos))
    ensures Good(s.(tame := tame, pos := pos), h, count)
  {
    assert Look(0);
    ClearEnds(s.t, h, s.at, x);
  }

  /** A sweep of a table whose runs do not wrap if it is tame, pl slots on from slot m. */
  ghost predicate Progress<K, V>(t: Slots<K, V>, tame: bool, m: nat, pl: nat, x: nat) {
    x < |t| && forall u {:trigger Look(u)} :: Look(u) ==> (tame ==> Tame(t, m + pl) && (m + pl < |t| ==> x == m + pl))
  }

  lemma ProgressStarts<K, V>(t: Slots<K, V>, tame: bool, m: nat)
    requires m < |t| && (tame ==> Tame(t, m))
    ensures Progress(t, tame, m, 0, m)
  {
  }

  lemma ProgressOne<K(!new), V>(t: Slots<K, V>, tame: bool, m: nat, pl: nat, x: nat)
    requires Progress(t, tame, m, pl, x)
    ensures Progress(t[x := Empty], tame, m, pl + 1, Next(x, |t|))
  {
    assert Look(0);
    if tame {
      if m + pl < |t| {
        TameClear(t, x, m + pl);
      } else {
        TameCleared(t, x, m + pl);
        TameFurther(t[x := Empty], m + pl);
      }
    }
  }

  lemma ProgressTame<K(!new), V>(t: Slots<K, V>, tame: bool, m: nat, pl: nat, x: nat)
    requires Progress(t, tame, m, pl, x)
    ensures tame ==> Tame(t, m + pl)
  {
    assert Look(0);
  }
}
