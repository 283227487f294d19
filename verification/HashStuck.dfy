/**
 A resize that never ends (shared/hash_table.c:273-343). From an empty table a run of insertions leads
 to one whose migration gets nowhere, however many calls follow; the new table then fills up, and the
 next insertion does not return.
 */
module HashStuck {
  import opened HashSlots
  import opened HashBatch
  import opened HashTable
  import opened Wrappers

  // ---------------------------------------------------------------- When an insertion returns

  /** In a full table an entry with a new key goes on for ever. */
  lemma {:induction false} NeverLands<K(!new), V>(t: Slots<K, V>, at: map<K, nat>, ins: Entry<K, V>, i: nat, n: nat)
    requires Indexed(t, at, HashSlots.NONE) && i < |t| && ins.Full? && ins.key !in at
    requires forall j {:trigger t[j]} :: 0 <= j < |t| ==> t[j].Full?
    ensures !Lands(t, ins, i, n)
    decreases n
  {
    assert IndexOk(t, at, i, HashSlots.NONE);
    if n > 0 {
      var (t', ins') := GoesOn(t, ins, i);
      if ins.pl > t[i].pl {
        var at' := (at - {t[i].key})[ins.key := i];
        Swapped(t, at, ins, i);
        NeverLands(t', at', ins', Next(i, |t|), n - 1);
      } else {
        NeverLands(t', at, ins', Next(i, |t|), n - 1);
      }
    }
  }

  lemma Swapped<K(!new), V>(t: Slots<K, V>, at: map<K, nat>, ins: Entry<K, V>, i: nat)
    requires Indexed(t, at, HashSlots.NONE) && i < |t| && ins.Full? && ins.key !in at && t[i].Full?
    ensures var at' := (at - {t[i].key})[ins.key := i]; Indexed(t[i := ins], at', HashSlots.NONE) && t[i].key !in at'
  {
    var t', at' := t[i := ins], (at - {t[i].key})[ins.key := i];
    assert IndexOk(t, at, i, HashSlots.NONE);
    forall j ensures IndexOk(t', at', j, HashSlots.NONE) {
      assert IndexOk(t, at, j, HashSlots.NONE);
    }
    forall k ensures KeyOk(t', at', k, HashSlots.NONE) {
      assert KeyOk(t, at, k, HashSlots.NONE);
    }
  }

  /** A table with as many keys as slots is full. */
  lemma NoneEmpty<K(!new), V>(t: Slots<K, V>, at: map<K, nat>, e: nat)
    requires Indexed(t, at, HashSlots.NONE) && |at| >= |t| && e < |t|
    ensures t[e].Full?
  {
    LoadCounts(t, at, e, 0, |t|);
    forall k | k in at ensures k in LoadKeys(t, e, 0, |t|) {
      assert KeyOk(t, at, k, HashSlots.NONE);
      InLoad(t, e, 0, |t|, at[k]);
    }
    assert LoadKeys(t, e, 0, |t|) == at.Keys;
    LoadUpTo(t, e, 1, |t|);
  }

  lemma {:induction false} InLoad<K, V>(t: Slots<K, V>, start: nat, q: nat, n: nat, i: nat)
    requires start < |t| && i < |t| && t[i].Full? && q <= Dist(start, i, |t|) < n
    ensures t[i].key in LoadKeys(t, start, q, n)
    decreases n - q
  {
    if q == Dist(start, i, |t|) {
      assert At(start, q, |t|) == i;
    } else {
      InLoad(t, start, q + 1, n, i);
    }
  }

  lemma {:induction false} LoadUpTo<K, V>(t: Slots<K, V>, start: nat, q: nat, n: nat)
    requires start < |t| && q <= n
    ensures Load(t, start, q, n) <= n - q
    decreases n - q
  {
    if q < n {
      LoadUpTo(t, start, q + 1, n);
    }
  }

  /** From its home on, a key's entry passes those in its way until it meets the one with its key. */
  lemma {:induction false} LandsAtKey<K(!new), V>(t: Slots<K, V>, h: K -> nat, at: map<K, nat>, key: K, val: V, q: nat)
    requires TableOk(t, h, at) && key in at && at[key] < |t| && t[at[key]].Full? && t[at[key]].key == key && q <= t[at[key]].pl < |t|
    ensures Lands(t, Full(q, h(key), key, val), At(Home(h(key), |t|), q, |t|), t[at[key]].pl - q)
    decreases t[at[key]].pl - q
  {
    var a := at[key];
    assert SlotOk(t, h, a, HashSlots.NONE);
    FullOnTheWay(t, h, a, q);
    if q < t[a].pl {
      LandsAtKey(t, h, at, key, val, q + 1);
    }
  }

  lemma LandsIf<K(!new), V>(t: Slots<K, V>, h: K -> nat, at: map<K, nat>, key: K, val: V) returns (n: nat)
    requires TableOk(t, h, at) && (key in at || |at| < |t|)
    ensures LandsIn(t, h, key, val, n)
  {
    if key in at {
      assert KeyOk(t, at, key, HashSlots.NONE);
      ProbeLenBound(t, h, at[key]);
      LandsAtKey(t, h, at, key, val, 0);
      n := t[at[key]].pl;
    } else {
      var e := SomeEmpty(t, at);
      n := Dist(Home(h(key), |t|), e, |t|);
      LandsAtEmpty(t, Full(0, h(key), key, val), Home(h(key), |t|), e);
    }
  }

  /** An insertion returns if and only if the key is in the table or a slot is empty. */
  lemma LandsExactly<K(!new), V>(t: Slots<K, V>, h: K -> nat, at: map<K, nat>, key: K, val: V)
    requires TableOk(t, h, at)
    ensures (exists n: nat :: LandsIn(t, h, key, val, n)) <==> key in at || |at| < |t|
  {
    if key in at || |at| < |t| {
      var n := LandsIf(t, h, at, key, val);
    } else {
      forall j | 0 <= j < |t| ensures t[j].Full? {
        NoneEmpty(t, at, j);
      }
      forall n: nat ensures !LandsIn(t, h, key, val, n) {
        NeverLands(t, at, Full(0, h(key), key, val), Home(h(key), |t|), n);
      }
    }
  }

  // ---------------------------------------------------------------- Keys with homes of their own

  /** No two of the keys have the same home. */
  ghost predicate HomesDiffer<K(!new)>(keys: set<K>, h: K -> nat, n: nat)
    requires n > 0
  {
    forall k, k' :: k in keys && k' in keys && Home(h(k), n) == Home(h(k'), n) ==> k == k'
  }

  /** Then every entry is at home: from an empty slot around no entry finds its home taken. */
  lemma {:induction false} AllAtHome<K(!new), V>(t: Slots<K, V>, h: K -> nat, at: map<K, nat>, e: nat, q: nat)
    requires TableOk(t, h, at) && HomesDiffer(at.Keys, h, |t|) && e < |t| && t[e].Empty? && q < |t|
    ensures t[At(e, q, |t|)].ProbeLen() == 0
    decreases q
  {
    if q > 0 {
      AllAtHome(t, h, at, e, q - 1);
      var i, j := At(e, q, |t|), At(e, q - 1, |t|);
      assert SlotOk(t, h, i, HashSlots.NONE) && SlotOk(t, h, j, HashSlots.NONE);
      assert IndexOk(t, at, i, HashSlots.NONE) && IndexOk(t, at, j, HashSlots.NONE);
      assert j == Prev(i, |t|);
    }
  }

  lemma AtHome<K(!new), V>(t: Slots<K, V>, h: K -> nat, at: map<K, nat>, i: nat)
    requires TableOk(t, h, at) && HomesDiffer(at.Keys, h, |t|) && |at| < |t| && i < |t|
    ensures t[i].ProbeLen() == 0 && (t[i].Full? ==> Home(t[i].hash, |t|) == i)
  {
    var e := SomeEmpty(t, at);
    AllAtHome(t, h, at, e, Dist(e, i, |t|));
    assert At(e, Dist(e, i, |t|), |t|) == i;
    assert SlotOk(t, h, i, HashSlots.NONE);
  }

  // ---------------------------------------------------------------- A run of insertions

  /** Hashes of the keys that are inserted: 17 keys with one home, and others with homes of their own. */
  function Hash(k: nat): nat {
    if k < 17 then 2031 else k - 16
  }

  /** The keys from 17 up to k, and the first more. */
  ghost predicate HasKeys(m: map<nat, nat>, k: nat, more: nat) {
    forall x: nat {:trigger x in m} :: x in m <==> 17 <= x < k || x < more
  }

  /** On the way: the first table fills up, is replaced by one of 2047 slots, and is emptied. */
  ghost predicate Growing(ht: ResizingTable<nat, nat>, k: nat)
    reads ht, ht.repr
  {
    && ht.Valid() && ht.cur.hashf == Hash && Band(ht.Numbers(), 0) && HasKeys(ht.Map(), k, 0) && ht.Numbers().Total() == k - 17
    && ((ht.cur.size == MIN_SIZE && ht.prev == null) || (ht.cur.size == 2047 && (ht.prev != null ==> ht.prev.size == MIN_SIZE)))
  }

  lemma SmallHomesDiffer(keys: set<nat>, k: nat, n: nat)
    requires n > 0 && k - 16 <= n && forall x :: x in keys ==> 17 <= x < k
    ensures HomesDiffer(keys, Hash, n)
  {
  }

  /** No run wraps around in a table whose keys have homes of their own. */
  lemma TameAtHome(s: State<nat, nat>, count: nat, k: nat)
    requires Good(s, Hash, count) && count < |s.t| && k - 16 <= |s.t| && forall x :: x in s.m ==> 17 <= x < k
    ensures Tame(s.t, 0)
  {
    GoodFacts(s, Hash, count);
    SmallHomesDiffer(s.at.Keys, k, |s.t|);
    forall i ensures TameAt(s.t, i, 0) {
      if 0 <= i < |s.t| {
        AtHome(s.t, Hash, s.at, i);
      }
    }
  }

  /** What the numbers of the two tables are after each insertion. */
  lemma StillGrowing(total: nat, was: Shape, now: Shape, began: bool)
    requires Band(was, 0) && was.Total() == total < 1826 && now.Total() == total + 1
    requires (was.size == MIN_SIZE && was.prev.None?) || was.size == 2047
    requires !began ==> now.size == was.size
    requires began ==> now.prev.Some? && now.prev.value.size == was.size && now.count == 0 && NewSize(was.size, now.prev.value.count) == Some(now.size)
    ensures began ==> was.size == MIN_SIZE && now.size == 2047 && was.prev.None? && now.prev.value.count == total + 1 <= 1229
  {
    assert Look(0);
  }

  lemma OneKeyMore(m: map<nat, nat>, m': map<nat, nat>, k: nat)
    requires k >= 17 && HasKeys(m, k, 0) && m' == m[k := 0]
    ensures HasKeys(m', k + 1, 0)
  {
  }

  method InsertOne(ht: ResizingTable<nat, nat>, k: nat)
    requires 17 <= k < 1843 && Growing(ht, k)
    modifies ht.repr
    ensures Growing(ht, k + 1) && fresh(ht.repr - old(ht.repr))
  {
    ghost var was, m := ht.Numbers(), ht.Map();
    BandLeavesRoom(was);
    ht.LoadIsSmall();
    ghost var began := ht.Insert(k, 0);
    OneKeyMore(m, ht.Map(), k);
    ghost var now := ht.Numbers();
    StillGrowing(k - 17, was, now, began);
    if began {
      NothingWrapsYet(ht, k + 1);
    }
  }

  lemma NothingWrapsYet(ht: ResizingTable<nat, nat>, k: nat)
    requires ht.Valid() && ht.cur.hashf == Hash && ht.prev != null && ht.prev.size == MIN_SIZE && ht.prev.count == k - 17 <= 1229
    requires HasKeys(ht.Map(), k, 0)
    ensures ht.NothingWraps()
  {
    assert forall x :: x in ht.prev.s.m ==> x in ht.Map();
    TameAtHome(ht.prev.s, ht.prev.count, k);
  }

  /** 1826 keys at home in a table of 2047 slots. */
  method Fill() returns (ht: ResizingTable<nat, nat>)
    ensures Growing(ht, 1843) && ht.prev == null && ht.cur.size == 2047 && fresh(ht) && fresh(ht.repr)
  {
    ht := new ResizingTable(Hash);
    var k := 17;
    while k < 1843
      invariant 17 <= k <= 1843 && fresh(ht) && fresh(ht.repr) && Growing(ht, k)
    {
      InsertOne(ht, k);
      k := k + 1;
    }
    Filled(ht.Numbers());
  }

  lemma Filled(now: Shape)
    requires Band(now, 0) && now.Total() == 1826
    requires (now.size == MIN_SIZE && now.prev.None?) || (now.size == 2047 && (now.prev.Some? ==> now.prev.value.size == MIN_SIZE))
    ensures now.size == 2047 && now.prev.None?
  {
    assert Look(0);
  }

  // ---------------------------------------------------------------- The 17 keys with one home

  /** Slots 1 to 1826 have entries at home; j entries run from their home, slot 2031, on past the end. */
  ghost predicate Laid(t: Slots<nat, nat>, j: nat) {
    |t| == 2047 && j <= 17 && forall i: nat {:trigger LaidAt(t, j, i)} :: i < 2047 ==> LaidAt(t, j, i)
  }

  ghost predicate LaidAt(t: Slots<nat, nat>, j: nat, i: nat)
    requires i < |t| == 2047
  {
    if 1 <= i <= 1826 then t[i].Full? && t[i].pl == 0
    else
      var q := Dist(2031, i, 2047);
      if q < j then t[i].Full? && t[i].pl == q && t[i].key == q && t[i].hash == 2031 else t[i].Empty?
  }

  lemma LaidFirst(t: Slots<nat, nat>, at: map<nat, nat>)
    requires TableOk(t, Hash, at) && |t| == 2047 && |at| < 2047 && forall k: nat {:trigger k in at} :: k in at <==> 17 <= k < 1843
    ensures Laid(t, 0)
  {
    SmallHomesDiffer(at.Keys, 1843, 2047);
    forall i: nat | i < 2047 ensures LaidAt(t, 0, i) {
      AtHome(t, Hash, at, i);
      assert SlotOk(t, Hash, i, HashSlots.NONE) && IndexOk(t, at, i, HashSlots.NONE);
      if 1 <= i <= 1826 {
        var k: nat := i + 16;
        assert k in at && KeyOk(t, at, k, HashSlots.NONE);
        var a := at[k];
        AtHome(t, Hash, at, a);
        assert SlotOk(t, Hash, a, HashSlots.NONE);
      }
    }
  }

  /** The next one passes those before it. */
  lemma {:induction false} LaidNext(t: Slots<nat, nat>, j: nat, q: nat, n: nat)
    requires Laid(t, j) && q <= j < 17 && n >= j - q
    ensures Lands(t, Full(q, 2031, j, 0), At(2031, q, 2047), n)
    ensures Landed(t, Full(q, 2031, j, 0), At(2031, q, 2047), n) == t[At(2031, j, 2047) := Full(j, 2031, j, 0)]
    decreases j - q
  {
    assert LaidAt(t, j, At(2031, q, 2047));
    if q < j {
      LaidNext(t, j, q + 1, n - 1);
    }
  }

  lemma LaidOn(t: Slots<nat, nat>, j: nat, t': Slots<nat, nat>)
    requires Laid(t, j) && j < 17 && IsPut(t, t', Hash, j, 0)
    ensures Laid(t', j + 1)
  {
    assert Look(0);
    LaidNext(t, j, 0, 2047);
    var j' := j + 1;
    forall i: nat | i < 2047 ensures LaidAt(t', j', i) {
      assert LaidAt(t, j, i);
    }
  }

  /** With all of them the table is one whose migration gets nowhere. */
  lemma LaidIsStuck(t: Slots<nat, nat>)
    requires Laid(t, 17)
    ensures Stuck(t, 0)
  {
    assert LaidAt(t, 17, 0) && LaidAt(t, 17, 512);
    StuckStart();
  }

  lemma StuckStart()
    ensures Home(BatchStart(0, 16), 2047) == 496
  {
    var q := HomeIsRemainder(0xFFFF_FFFF_FFFF_FFF0, 2047);
    assert BatchStart(0, 16) == 0xFFFF_FFFF_FFFF_FFF0 == 9011599449784832 * 2047 + 496;
  }

  // ---------------------------------------------------------------- A resize that never ends

  /** j of the 17 keys have followed. */
  ghost predicate Jamming(ht: ResizingTable<nat, nat>, j: nat)
    reads ht, ht.repr
  {
    && ht.Valid() && ht.cur.hashf == Hash && ht.prev == null && ht.cur.size == 2047 && ht.cur.count == 1826 + j
    && HasKeys(ht.Map(), 1843, j) && Laid(ht.cur.s.t, j)
  }

  lemma JamStarts(ht: ResizingTable<nat, nat>)
    requires Growing(ht, 1843) && ht.prev == null && ht.cur.size == 2047
    ensures Jamming(ht, 0)
  {
    GoodFacts(ht.cur.s, Hash, ht.cur.count);
    assert forall k: nat {:trigger k in ht.cur.s.at} :: k in ht.cur.s.at <==> k in ht.Map();
    LaidFirst(ht.cur.s.t, ht.cur.s.at);
  }

  /** The threshold is passed by the last of them. */
  lemma JamNumbers(j: nat, was: Shape, now: Shape, began: bool)
    requires j <= 16 && was == Shape(2047, 1826 + j, None) && now.Total() == 1827 + j
    requires !began ==> now.size == 2047 && now.prev.None?
    requires began ==> now.prev.Some? && now.prev.value.size == 2047 && now.count == 0 && NewSize(2047, now.prev.value.count) == Some(now.size)
    requires now.prev.None? ==> NewSize(now.size, now.count).None?
    ensures (began <==> j == 16) && (began ==> now.size == 3070 && now.prev.value.count == 1843)
  {
  }

  method JamOne(ht: ResizingTable<nat, nat>, j: nat)
    requires j < 16 && Jamming(ht, j)
    modifies ht.repr
    ensures Jamming(ht, j + 1) && fresh(ht.repr - old(ht.repr))
  {
    ghost var t, was := ht.cur.s.t, ht.Numbers();
    ghost var began := ht.Insert(j, 0);
    JamNumbers(j, was, ht.Numbers(), began);
    LaidOn(t, j, ht.cur.s.t);
  }

  /** The last of them passes the threshold: the table becomes the previous one. */
  method JamLast(ht: ResizingTable<nat, nat>)
    requires Jamming(ht, 16)
    modifies ht.repr
    ensures JustBegun(ht) && fresh(ht.repr - old(ht.repr))
  {
    ghost var t, was := ht.cur.s.t, ht.Numbers();
    ghost var began := ht.Insert(16, 0);
    JamNumbers(16, was, ht.Numbers(), began);
    LaidOn(t, 16, ht.prev.s.t);
  }

  /** A resize has just begun, with all 17 keys in the previous table. */
  ghost predicate JustBegun(ht: ResizingTable<nat, nat>)
    reads ht, ht.repr
  {
    && ht.Valid() && ht.prev != null && Laid(ht.prev.s.t, 17) && ht.prev.migratePos == 0
    && ht.cur.size == 3070 && ht.cur.count == 0 && ht.prev.size == 2047 && ht.prev.count == 1843 && HasKeys(ht.Map(), 1843, 17)
  }

  /** The resize in progress gets nowhere. */
  ghost predicate Looking(ht: ResizingTable<nat, nat>)
    reads ht, ht.repr
  {
    ht.Valid() && ht.IsStuck() && ht.RoomNext()
  }

  /** The run of insertions that leads there. */
  method Jam() returns (ht: ResizingTable<nat, nat>)
    ensures JustBegun(ht) && Looking(ht) && fresh(ht) && fresh(ht.repr)
  {
    ht := Fill();
    JamStarts(ht);
    for j := 0 to 16
      invariant Jamming(ht, j) && fresh(ht) && fresh(ht.repr)
    {
      JamOne(ht, j);
    }
    JamLast(ht);
    LaidIsStuck(ht.prev.s.t);
    ht.LoadIsSmall();
  }

  method LookOne(ht: ResizingTable<nat, nat>, key: nat)
    requires Looking(ht)
    modifies ht.repr
    ensures Looking(ht) && fresh(ht.repr - old(ht.repr)) && ht.IsJammed()
    ensures ht.prev == old(ht.prev) && ht.cur == old(ht.cur) && ht.Map() == old(ht.Map())
  {
    var val;
    ghost var began;
    val, began := ht.Lookup(key);
  }

  /** However many calls follow, the previous table is not emptied. */
  method LookUp(ht: ResizingTable<nat, nat>, keys: seq<nat>)
    requires Looking(ht)
    modifies ht.repr
    ensures Looking(ht) && fresh(ht.repr - old(ht.repr)) && (keys != [] ==> ht.IsJammed())
    ensures ht.prev == old(ht.prev) && ht.prev.count > 0 && ht.cur == old(ht.cur) && ht.Map() == old(ht.Map())
  {
    for i := 0 to |keys|
      invariant Looking(ht) && fresh(ht.repr - old(ht.repr)) && (i > 0 ==> ht.IsJammed())
      invariant ht.prev == old(ht.prev) && ht.cur == old(ht.cur) && ht.Map() == old(ht.Map())
    {
      LookOne(ht, keys[i]);
    }
    ht.StillThere();
  }

  ghost predicate KeysBelow(m: map<nat, nat>, k: nat) {
    forall x: nat {:trigger x in m} :: x in m ==> x < k
  }

  ghost predicate Filling(ht: ResizingTable<nat, nat>, k: nat)
    reads ht, ht.repr
  {
    ht.Valid() && ht.IsJammed() && ht.cur.count <= ht.cur.size && ht.prev.count < ht.prev.size && KeysBelow(ht.Map(), k)
  }

  method FillOne(ht: ResizingTable<nat, nat>, k: nat)
    requires Filling(ht, k) && ht.cur.count < ht.cur.size
    modifies ht.repr
    ensures Filling(ht, k + 1) && fresh(ht.repr - old(ht.repr)) && ht.cur == old(ht.cur) && ht.prev == old(ht.prev)
    ensures ht.cur.count == old(ht.cur.count) + 1
  {
    ghost var began := ht.Insert(k, 0);
  }

  /** New keys then fill the current table up, as far as it goes. */
  method FillUp(ht: ResizingTable<nat, nat>, first: nat)
    requires ht.Valid() && ht.IsJammed() && ht.RoomNext() && KeysBelow(ht.Map(), first)
    modifies ht.repr
    ensures ht.Valid() && ht.IsJammed() && fresh(ht.repr - old(ht.repr)) && ht.cur == old(ht.cur) && ht.prev == old(ht.prev)
    ensures ht.cur.count == ht.cur.size
  {
    var k := first;
    while ht.cur.count < ht.cur.size
      invariant Filling(ht, k) && fresh(ht.repr - old(ht.repr)) && ht.cur == old(ht.cur) && ht.prev == old(ht.prev)
      decreases ht.cur.size - ht.cur.count
    {
      FillOne(ht, k);
      k := k + 1;
    }
  }

  /** No insertion of a new key returns then. */
  lemma NoReturn(ht: ResizingTable<nat, nat>, key: nat, val: nat, n: nat)
    requires ht.Valid() && ht.cur.count == ht.cur.size && key !in ht.Map()
    ensures !LandsIn(ht.cur.s.t, ht.cur.hashf, key, val, n)
  {
    GoodFacts(ht.cur.s, ht.cur.hashf, ht.cur.count);
    LandsExactly(ht.cur.s.t, ht.cur.hashf, ht.cur.s.at, key, val);
  }

  /**
   The whole run: after any calls the resize is still in progress, and once enough keys have followed the current table
   is full. No insertion of a new key returns then.
   */
  method NeverDone(keys: seq<nat>) returns (ht: ResizingTable<nat, nat>)
    requires keys != []
    ensures ht.Valid() && ht.prev != null && ht.prev.count > 0 && ht.cur.count == ht.cur.size
    ensures forall key: nat, val: nat, n: nat :: key !in ht.Map() ==> !LandsIn(ht.cur.s.t, ht.cur.hashf, key, val, n)
  {
    ht := Jam();
    LookUp(ht, keys);
    FillUp(ht, 1843);
    ht.StillThere();
    forall key: nat, val: nat, n: nat | key !in ht.Map() ensures !LandsIn(ht.cur.s.t, ht.cur.hashf, key, val, n) {
      NoReturn(ht, key, val, n);
    }
  }
}
