/**
 A hash table that resizes while it is used (shared/hash_table.c). Each call moves a batch of
 entries from the previous table, if there is one, to the current one; both together always stand
 for one map.
 */
module HashTable {
  import opened HashBatch
  import opened HashSlots
  import opened Wrappers

  const MIN_SIZE := 32 * 1024 / 24
  const LOW_UTIL := 45
  const HIGH_UTIL := 90
  const GROW := 150
  const SHRINK := 66

  function Pct(a: nat, b: nat): nat {
    a * b / 100
  }

  function LowUtil(size: nat): nat {
    if Pct(size, LOW_UTIL) <= MIN_SIZE then 0 else Pct(size, LOW_UTIL)
  }

  function HighUtil(size: nat): nat {
    Pct(size, HIGH_UTIL)
  }

  class Table<K(!new, ==), V(!new)> {
    const hashf: K -> nat
    const size: nat
    const lowUtil: nat
    const highUtil: nat
    const entries: array<Entry<K, V>>
    var count: nat
    var migratePos: nat
    /** What the entries are and stand for. */
    ghost var s: State<K, V>

    ghost predicate Valid()
      reads this, entries
    {
      && entries.Length == size > 0 && lowUtil == LowUtil(size) && highUtil == HighUtil(size)
      && entries[..] == s.t && s.pos == migratePos && Good(s, hashf, count)
    }

    constructor (size: nat, hashf: K -> nat)
      requires size > 0
      ensures Valid() && s.m == map[] && count == 0 && migratePos == 0 && !s.tame && fresh(entries)
      ensures this.size == size && this.hashf == hashf
    {
      this.hashf, this.size := hashf, size;
      lowUtil, highUtil := LowUtil(size), HighUtil(size);
      entries := new Entry<K, V>[size](_ => Empty);
      count, migratePos := 0, 0;
      new;
      s := State(entries[..], map[], map[], false, 0);
    }

    /** Inserts a key, or replaces its value. */
    method InsertEntry(key: K, val: V)
      requires Valid() && count < size
      modifies this`count, this`s, entries
      ensures Valid() && s == old(s).(t := s.t, at := s.at, m := old(s.m)[key := val], tame := false)
      ensures count == old(count) + (if key in old(s.m) then 0 else 1)
      ensures IsPut(old(s.t), s.t, hashf, key, val)
    {
      GoodFacts(s, hashf, count);
      ghost var t, at := PlaceEntry(key, val);
      Inserted(s, hashf, old(count), t, at, key, val);
      s := State(t, at, s.m[key := val], false, s.pos);
    }

    method PlaceEntry(key: K, val: V) returns (ghost t: Slots<K, V>, ghost at: map<K, nat>)
      requires entries.Length == size && entries[..] == s.t && TableOk(s.t, hashf, s.at) && |s.at| == count < size
      modifies this`count, entries
      ensures entries[..] == t && TableOk(t, hashf, at) && count == |at|
      ensures Contents(t, at) == Contents(s.t, s.at)[key := val]
      ensures IsPut(s.t, t, hashf, key, val)
    {
      t, at := s.t, s.at;
      ghost var m := Contents(t, at)[key := val];
      ghost var e := SomeEmpty(t, at);
      FitsAtEmpty(t, hashf, key, val, e);
      var hash := hashf(key);
      var ins, i: nat := Full(0, hash, key, val), Home(hash, size);
      PlaceStarts(t, hashf, at, key, val, e);
      ghost var n := size;
      while true
        invariant entries[..] == t && Placing(t, hashf, at, ins, i, e, m, count)
        invariant Lands(t, ins, i, n) && Landed(t, ins, i, n) == Put(s.t, hashf, key, val)
        decreases n
      {
        PlaceMeets(t, hashf, at, ins, i, e, m, count);
        if entries[i].Empty? {
          entries[i] := ins;
          t, at := t[i := ins], at[ins.key := i];
          count := count + 1;
          return;
        }
        if entries[i].hash == ins.hash && entries[i].key == ins.key {
          entries[i] := ins;
          t := t[i := ins];
          return;
        }
        ghost var t', at', ins' := PlaceOn(t, hashf, at, ins, i, e, m, count);
        if ins.pl > entries[i].pl {
          var out := entries[i];
          entries[i] := ins;
          ins := out;
        }
        ins := ins.(pl := ins.pl + 1);
        i := if i + 1 == size then 0 else i + 1;
        assert entries[..] == t' && ins == ins';
        t, at, n := t', at', n - 1;
      }
    }

    /** Replaces a key's value, if the key is in the table. */
    method OverwriteEntry(key: K, val: V) returns (found: bool)
      requires Valid() && count < size
      modifies this`s, entries
      ensures Valid() && (found <==> key in old(s.m))
      ensures s == if found then old(s).(t := s.t, m := old(s.m)[key := val]) else old(s)
      ensures SameProbes(old(s.t), s.t)
    {
      GoodFacts(s, hashf, count);
      ghost var t, at := s.t, s.at;
      ghost var e := SomeEmpty(t, at);
      var hash := hashf(key);
      var ins, i := Full(0, hash, key, val), Home(hash, size);
      ProbeStarts(t, hashf, at, key, e);
      while true
        invariant ins.Full? && ins == Full(ins.pl, hash, key, val) && s == old(s)
        invariant entries[..] == t && Probing(t, hashf, at, key, i, ins.pl, e)
        decreases Dist(i, e, size)
      {
        if entries[i].Empty? || ins.pl > entries[i].pl {
          ProbeStops(t, hashf, at, key, i, ins.pl, e);
          return false;
        }
        ProbeGoesOn(t, hashf, at, key, i, ins.pl, e);
        SlotHash(t, hashf, i);
        if entries[i].hash == ins.hash && entries[i].key == ins.key {
          Overwritten(s, hashf, count, ins, i, e);
          entries[i] := ins;
          s := s.(t := t[i := ins], m := s.m[key := val]);
          return true;
        }
        ins := ins.(pl := ins.pl + 1);
        i := if i + 1 == size then 0 else i + 1;
      }
    }

    method LookupEntry(key: K) returns (val: Option<V>)
      requires Valid() && count < size
      ensures val == if key in s.m then Some(s.m[key]) else None
    {
      GoodFacts(s, hashf, count);
      var slot := Find(key);
      if slot.None? {
        return None;
      }
      assert KeyOk(s.t, s.at, key, NONE);
      return Some(entries[slot.value].val);
    }

    /** The slot of a key, if it is in the table. */
    method Find(key: K) returns (slot: Option<nat>)
      requires Valid() && count < size
      ensures slot == if key in s.at then Some(s.at[key]) else None
    {
      GoodFacts(s, hashf, count);
      ghost var t, at := s.t, s.at;
      ghost var e := SomeEmpty(t, at);
      var hash := hashf(key);
      var pl, i := 0, Home(hash, size);
      ProbeStarts(t, hashf, at, key, e);
      while true
        invariant Probing(t, hashf, at, key, i, pl, e)
        decreases Dist(i, e, size)
      {
        if entries[i].Empty? || pl > entries[i].pl {
          ProbeStops(t, hashf, at, key, i, pl, e);
          return None;
        }
        ProbeGoesOn(t, hashf, at, key, i, pl, e);
        SlotHash(t, hashf, i);
        if entries[i].hash == hash && entries[i].key == key {
          return Some(i);
        }
        pl := pl + 1;
        i := if i + 1 == size then 0 else i + 1;
      }
    }

    /** Deletes a key, if it is in the table. */
    method DeleteEntry(key: K) returns (found: bool)
      requires Valid() && count < size
      modifies this`count, this`s, entries
      ensures Valid() && (found <==> key in old(s.m)) && s == old(s).(t := s.t, at := s.at, m := old(s.m) - {key})
      ensures count == old(count) - (if found then 1 else 0)
    {
      GoodFacts(s, hashf, count);
      var slot := Find(key);
      found := slot.Some?;
      if found {
        ghost var e := SomeEmpty(s.t, s.at);
        OpenHole(s.t, hashf, s.at, key, e);
        ghost var t, at := CloseRun(slot.value, s.at - {key}, e);
        KeyGone(s, hashf, count, key, t, at);
        count := count - 1;
        s := s.(t := t, at := at, m := s.m - {key});
      } else {
        assert s.m - {key} == s.m;
      }
    }

    /** Moves the entries after a slot back by one, up to one that is at home, and clears the slot that is left over. */
    method CloseRun(clear: nat, ghost at0: map<K, nat>, ghost e: nat) returns (ghost t: Slots<K, V>, ghost at: map<K, nat>)
      requires entries.Length == size && entries[..] == s.t && Holed(s.t, hashf, at0, clear, e) && (s.tame ==> Tame(s.t, s.pos))
      modifies entries
      ensures entries[..] == t && TableOk(t, hashf, at) && Contents(t, at) == Contents(s.t, at0) && |at| == |at0|
      ensures s.tame ==> Tame(t, s.pos)
    {
      t, at := s.t, at0;
      var c := clear;
      var i := if c + 1 == size then 0 else c + 1;
      while true
        invariant 0 <= c < size && i == Next(c, size)
        invariant entries[..] == t && Holed(t, hashf, at, c, e) && Contents(t, at) == Contents(s.t, at0) && |at| == |at0|
        invariant s.tame ==> Tame(t, s.pos)
        decreases Dist(i, e, size)
      {
        if entries[i].Empty? || entries[i].pl == 0 {
          CloseHole(t, hashf, at, c, e);
          if s.tame {
            TameCleared(t, c, s.pos);
          }
          entries[c] := Empty;
          t := t[c := Empty];
          return;
        }
        ShiftBack(t, hashf, at, c, e);
        if s.tame {
          TameShiftBack(t, hashf, at, c, e, s.pos);
        }
        entries[c] := entries[i].(pl := entries[i].pl - 1);
        t, at := t[c := t[i].(pl := t[i].pl - 1)], at[t[i].key := c];
        c := i;
        i := if i + 1 == size then 0 else i + 1;
      }
    }
  }

  /** A table without one of its keys. */
  lemma KeyGone<K(!new), V(!new)>(s: State<K, V>, h: K -> nat, count: nat, key: K, t: Slots<K, V>, at: map<K, nat>)
    requires Good(s, h, count) && key in s.at && Contents(t, at) == Contents(s.t, s.at - {key})
    requires TableOk(t, h, at) && |at| == |s.at - {key}| && (s.tame ==> Tame(t, s.pos))
    ensures count > 0 && Good(s.(t := t, at := at, m := s.m - {key}), h, count - 1)
  {
    GoodFacts(s, h, count);
    assert (s.at - {key}).Keys == s.at.Keys - {key};
  }

  /** A key moved from one map to a disjoint one. */
  lemma MovedKey<K, V>(d: map<K, V>, s: map<K, V>, s': map<K, V>, k: K, v: V)
    requires s == s'[k := v] && k !in s' && d.Keys !! s.Keys
    ensures d[k := v].Keys !! s'.Keys && d[k := v] + s' == d + s
  {
  }

  /** Two tables with different keys. */
  ghost predicate Apart<K(!new), V(!new)>(dst: Table<K, V>, src: Table<K, V>)
    reads dst, src
  {
    dst != src && dst.entries != src.entries && dst.s.m.Keys !! src.s.m.Keys
  }

  /** A table in the middle of being swept, at slot x. */
  ghost predicate Sweeping<K(!new), V(!new)>(src: Table<K, V>, x: nat)
    reads src, src.entries
  {
    src.entries.Length == src.size && x < src.size && src.entries[..] == src.s.t && SweepGood(src.s, src.hashf, src.count, x)
  }

  /** Takes the entry at slot x out of src; its key goes on into dst. */
  method MigrateOne<K(!new, ==), V(!new)>(dst: Table<K, V>, src: Table<K, V>, x: nat)
    requires dst.Valid() && Sweeping(src, x) && Apart(dst, src) && (src.s.t[x].Full? ==> dst.count < dst.size)
    modifies dst`count, dst`s, dst.entries, src`count, src`s, src.entries
    ensures dst.Valid() && Sweeping(src, Next(x, src.size)) && Apart(dst, src)
    ensures src.s == Without(old(src.s), x)
    ensures dst.s.m + src.s.m == old(dst.s.m + src.s.m) && dst.count + src.count == old(dst.count + src.count)
    ensures dst.count == old(dst.count) + (if old(src.s.t[x]).Full? then 1 else 0)
  {
    SweepOne(src.s, src.hashf, src.count, x);
    ghost var s' := Without(src.s, x);
    var ent := src.entries[x];
    if ent.Full? {
      MovedKey(dst.s.m, src.s.m, s'.m, ent.key, ent.val);
      dst.InsertEntry(ent.key, ent.val);
      src.entries[x] := Empty;
      src.count := src.count - 1;
    } else {
      assert src.entries[..] == s'.t;
    }
    src.s := s';
  }

  /** A sweep that began at slot start has come to slot x; all of the m0 and c0 keys are in one of the tables, and there is room for those it will move. */
  ghost predicate Running<K(!new), V(!new)>(dst: Table<K, V>, src: Table<K, V>, m0: map<K, V>, c0: nat, room: nat, tame: bool, start: nat,
      pl: nat, x: nat, t0: Slots<K, V>)
    reads dst, dst.entries, src, src.entries
  {
    && dst.Valid() && Sweeping(src, x) && Apart(dst, src) && dst.s.m + src.s.m == m0 && dst.count + src.count == c0
    && Progress(src.s.t, tame, start, pl, x) && Sweeps(t0, start, src.s.t, pl, x)
    && dst.count + Load(t0, start, pl, SweptLen(t0, start)) == room <= dst.size
  }

  /** ... as a step of a sweep. */
  method MigrateStep<K(!new, ==), V(!new)>(dst: Table<K, V>, src: Table<K, V>, ghost m0: map<K, V>, ghost c0: nat, ghost room: nat,
      ghost tame: bool, ghost start: nat, ghost pl: nat, x: nat, ghost t0: Slots<K, V>)
    requires Running(dst, src, m0, c0, room, tame, start, pl, x, t0) && pl < SweptLen(t0, start)
    modifies dst`count, dst`s, dst.entries, src`count, src`s, src.entries
    ensures Running(dst, src, m0, c0, room, tame, start, pl + 1, Next(x, src.size), t0)
  {
    ProgressOne(src.s.t, tame, start, pl, x);
    SweepsOn(t0, start, src.s.t, pl, x);
    LoadOn(t0, start, src.s.t, pl, x);
    MigrateOne(dst, src, x);
  }

  /** Moves entries from src to dst, from slot start on: a batch, and on up to one that is at home. */
  method MigrateRun<K(!new, ==), V(!new)>(dst: Table<K, V>, src: Table<K, V>, start: nat, ghost tame: bool)
      returns (pl: nat, ghost end: nat)
    requires dst.Valid() && src.Valid() && Apart(dst, src) && start < src.size
    requires dst.count + SpanLoad(src.s.t, start) <= dst.size
    requires tame ==> Tame(src.s.t, start)
    modifies dst`count, dst`s, dst.entries, src`count, src`s, src.entries
    ensures dst.Valid() && Apart(dst, src) && Sweeping(src, end) && src.s.t[end].ProbeLen() == 0
    ensures dst.s.m + src.s.m == old(dst.s.m + src.s.m) && dst.count + src.count == old(dst.count + src.count)
    ensures pl == SweptLen(old(src.s.t), start) && Swept(old(src.s.t), start, src.s.t, pl)
    ensures dst.count == old(dst.count) + SpanLoad(old(src.s.t), start)
    ensures tame ==> Tame(src.s.t, start + pl)
  {
    var x := start;
    pl := 0;
    ghost var t0, m0, c0, n := src.s.t, dst.s.m + src.s.m, dst.count + src.count, SweptLen(src.s.t, start);
    ghost var room := dst.count + SpanLoad(t0, start);
    SweepStarts(src.s, src.hashf, src.count, x);
    ProgressStarts(src.s.t, tame, start);
    SweepsStart(t0, start);
    SweepsWhile(t0, start, src.s.t, pl, x);
    while pl < MIGRATE_BATCH || src.entries[x].ProbeLen() != 0
      invariant 0 <= x < src.size && Running(dst, src, m0, c0, room, tame, start, pl, x, t0)
      invariant pl < MIGRATE_BATCH || src.s.t[x].ProbeLen() != 0 <==> pl < n
      decreases n - pl
    {
      MigrateStep(dst, src, m0, c0, room, tame, start, pl, x, t0);
      pl := pl + 1;
      x := if x + 1 == src.size then 0 else x + 1;
      SweepsWhile(t0, start, src.s.t, pl, x);
    }
    ProgressTame(src.s.t, tame, start, pl, x);
    SweepsDone(t0, start, src.s.t, pl, x);
    end := x;
  }

  /** Moves a batch of entries on from a position, which names slot start, and notes how far it got. */
  method MigrateFrom<K(!new, ==), V(!new)>(dst: Table<K, V>, src: Table<K, V>, pos: nat, start: nat, ghost tame: bool)
    requires dst.Valid() && src.Valid() && Apart(dst, src) && start < src.size
    requires dst.count + SpanLoad(src.s.t, start) <= dst.size
    requires tame ==> pos == start && src.size < WORD / 4 && Tame(src.s.t, pos)
    modifies dst`count, dst`s, dst.entries, src`count, src`s, src`migratePos, src.entries
    ensures dst.Valid() && src.Valid() && Apart(dst, src)
    ensures dst.s.m + src.s.m == old(dst.s.m + src.s.m) && dst.count + src.count == old(dst.count + src.count)
    ensures var n := SweptLen(old(src.s.t), start); Swept(old(src.s.t), start, src.s.t, n) && src.migratePos == Wrap(pos + n)
    ensures dst.count == old(dst.count) + SpanLoad(old(src.s.t), start)
    ensures tame ==> src.s.tame && src.migratePos >= pos + MIGRATE_BATCH
  {
    var n;
    ghost var end;
    n, end := MigrateRun(dst, src, start, tame);
    if tame {
      WrapSmall(pos + n);
    }
    src.migratePos := Wrap(pos + n);
    SweepEnds(src.s, src.hashf, src.count, end, tame, src.migratePos);
    src.s := src.s.(tame := tame, pos := src.migratePos);
  }

  /** Moves a batch of entries on, going back to the start of a run first. */
  method MigrateBatch<K(!new, ==), V(!new)>(dst: Table<K, V>, src: Table<K, V>)
    requires dst.Valid() && src.Valid() && Apart(dst, src) && dst.count + BatchLoad(src.s.t, src.migratePos) <= dst.size
    modifies dst`count, dst`s, dst.entries, src`count, src`s, src`migratePos, src.entries
    ensures dst.Valid() && src.Valid() && Apart(dst, src)
    ensures dst.s.m + src.s.m == old(dst.s.m + src.s.m) && dst.count + src.count == old(dst.count + src.count)
    ensures BatchOn(old(src.s.t), old(src.migratePos), src.s.t, src.migratePos)
    ensures dst.count == old(dst.count) + BatchLoad(old(src.s.t), old(src.migratePos))
    ensures old(src.s.tame) && old(src.migratePos) < src.size < WORD / 4 ==>
      src.s.tame && src.migratePos >= old(src.migratePos) + 16
  {
    ghost var tame := src.s.tame && src.migratePos < src.size < WORD / 4;
    if tame {
      StartsAtHome(src.s, src.hashf, src.count);
    }
    var pos := BatchStart(src.migratePos, src.entries[Home(src.migratePos, src.size)].ProbeLen());
    MigrateFrom(dst, src, pos, Home(pos, src.size), tame);
  }

  lemma StartsAtHome<K(!new), V>(s: State<K, V>, h: K -> nat, count: nat)
    requires Good(s, h, count) && s.tame && s.pos < |s.t| < WORD / 4
    ensures Home(s.pos, |s.t|) == s.pos && Wrap(s.pos - s.t[s.pos].ProbeLen()) == s.pos && Tame(s.t, s.pos)
  {
    GoodFacts(s, h, count);
    TameStart(s.t, h, s.at, s.pos);
    WrapSmall(s.pos);
  }

  // ---------------------------------------------------------------- Sizes and thresholds

  /** Table sizes before and after a resize, and the number of keys that made it start. */
  ghost predicate Resizing(size: nat, size': nat, start: int) {
    && size >= MIN_SIZE
    && ( || (start == HighUtil(size) + 1 && size' == Pct(size, GROW))
         || (LowUtil(size) > 0 && start == LowUtil(size) - 1 && size' == Max(Pct(size, SHRINK), MIN_SIZE)))
  }

  function Max(a: nat, b: nat): nat {
    if a > b then a else b
  }

  /** However the number of keys moves in the calls that a resize takes, it stays between the new thresholds. */
  lemma ResizeLeavesBand(size: nat, size': nat, start: int, calls: nat, total: nat)
    requires Resizing(size, size', start) && MIGRATE_BATCH * calls < size
    requires start - calls - 1 <= total <= start + calls + 1
    ensures LowUtil(size') <= total <= HighUtil(size') && total < size' && total < size && size' >= MIN_SIZE
  {
  }

  /** The numbers of a table and of the one it replaces: sizes and counts, how far the migration is, how
      many calls have worked on it, and how many keys there were when it started. */
  datatype Shape = Shape(size: nat, count: nat, prev: Option<Shrinking>) {
    function Total(): nat {
      count + (if prev.Some? then prev.value.count else 0)
    }
  }
  datatype Shrinking = Shrinking(size: nat, count: nat, pos: nat, tame: bool, calls: nat, start: int)

  /** The number of keys is where the thresholds want it, up to some slack. */
  ghost predicate Band(sh: Shape, slack: nat) {
    forall u {:trigger Look(u)} :: Look(u) ==> BandFacts(sh, slack)
  }

  ghost predicate BandFacts(sh: Shape, slack: nat) {
    && sh.size >= MIN_SIZE
    && (sh.prev.None? ==> LowUtil(sh.size) - slack <= sh.count <= HighUtil(sh.size) + slack)
    && (sh.prev.Some? ==>
        var p := sh.prev.value;
        && p.tame && p.size < WORD / 4
        && MIGRATE_BATCH * p.calls <= p.pos < p.size
        && Resizing(p.size, sh.size, p.start)
        && p.start - p.calls - slack <= sh.Total() <= p.start + p.calls + slack)
  }

  /** There is an empty slot to be found in each table. */
  ghost predicate Room(sh: Shape) {
    sh.Total() < sh.size && (sh.prev.Some? ==> sh.prev.value.count < sh.prev.value.size)
  }

  /** Within the thresholds there is room, and a resize in progress has fewer calls behind it than size / 16. */
  lemma BandLeavesRoom(sh: Shape)
    requires Band(sh, 0)
    ensures Room(sh) && (sh.prev.Some? ==> 16 * sh.prev.value.calls < sh.prev.value.size)
  {
    assert Look(0);
    if sh.prev.Some? {
      ResizeLeavesBand(sh.prev.value.size, sh.size, sh.prev.value.start, sh.prev.value.calls, sh.Total());
    }
  }

  /** One key more or less. */
  lemma BandChanges(sh: Shape, sh': Shape)
    requires Band(sh, 0) && sh'.size == sh.size && sh.Total() - 1 <= sh'.Total() <= sh.Total() + 1
    requires sh.prev.None? <==> sh'.prev.None?
    requires sh.prev.Some? ==> sh'.prev.value == sh.prev.value.(count := sh'.prev.value.count)
    ensures Band(sh', 1)
  {
    assert Look(0);
  }

  /** A batch has been moved, and entries are left. */
  lemma BandMovesOn(sh: Shape, sh': Shape)
    requires Band(sh, 1) && sh.prev.Some? && sh'.prev.Some? && sh'.size == sh.size && sh'.Total() == sh.Total()
    requires var p, p' := sh.prev.value, sh'.prev.value;
      && p' == p.(count := p'.count, pos := p'.pos, calls := p.calls + 1) && p.pos + MIGRATE_BATCH <= p'.pos < p'.size
    ensures Band(sh', 0)
  {
    assert Look(0);
  }

  /** A batch has been moved, and none are left. */
  lemma BandMovedAll(sh: Shape, sh': Shape)
    requires Band(sh, 1) && sh.prev.Some? && sh' == Shape(sh.size, sh.Total(), None)
    ensures Band(sh', 0)
  {
    assert Look(0);
    ResizeLeavesBand(sh.prev.value.size, sh.size, sh.prev.value.start, sh.prev.value.calls, sh.Total());
  }

  /** The size of the table that a full or a sparse one is to be replaced with. */
  function NewSize(size: nat, count: nat): Option<nat> {
    if count > HighUtil(size) then Some(Pct(size, GROW))
    else if count < LowUtil(size) then Some(Max(Pct(size, SHRINK), MIN_SIZE))
    else None
  }

  /** A table that is neither too full nor, unless it is small, too empty. */
  predicate WellUsed(size: nat, count: nat) {
    && count <= size * 90 / 100
    && (size * 45 / 100 > 32 * 1024 / 24 ==> count >= size * 45 / 100)
  }

  /** A full table is replaced with one half as large again, and a sparse one with one of two thirds its size. */
  predicate Replaces(size: nat, count: nat, size': nat) {
    || (count > size * 90 / 100 && size' == size * 150 / 100)
    || (count < size * 45 / 100 && size * 45 / 100 > 32 * 1024 / 24
        && size' == if size * 66 / 100 > 32 * 1024 / 24 then size * 66 / 100 else 32 * 1024 / 24)
  }

  /** A table is replaced exactly if it is not well used, and with one of the size called for. */
  lemma NewSizeIs(size: nat, count: nat, size': nat)
    ensures NewSize(size, count).None? <==> WellUsed(size, count)
    ensures NewSize(size, count) == Some(size') <==> Replaces(size, count, size')
  {
    assert size * 45 <= size * 90;
  }

  lemma BandStarts(sh: Shape, sh': Shape)
    requires Band(sh, 1) && sh.prev.None? && NewSize(sh.size, sh.count).Some? && sh.size < WORD / 4
    requires sh' == Shape(NewSize(sh.size, sh.count).value, 0, Some(Shrinking(sh.size, sh.count, 0, true, 0, sh.count)))
    ensures Band(sh', 0)
  {
    assert Look(0);
    assert Resizing(sh.size, sh'.size, sh.count);
    ResizeLeavesBand(sh.size, sh'.size, sh.count, 0, sh.count);
  }

  lemma BandStays(sh: Shape)
    requires Band(sh, 1) && sh.prev.None? && NewSize(sh.size, sh.count).None?
    ensures Band(sh, 0)
  {
    assert Look(0);
  }

  lemma BandSlack(sh: Shape)
    requires Band(sh, 0)
    ensures Band(sh, 1)
  {
    assert Look(0);
  }

  /** What moving a batch does to the numbers. */
  ghost predicate BatchMoved(sh: Shape, sh': Shape) {
    && sh.prev.Some? && sh'.prev.Some? && sh'.size == sh.size && sh'.Total() == sh.Total()
    && var p, p' := sh.prev.value, sh'.prev.value;
      && p'.size == p.size && p'.calls == p.calls + 1 && p'.start == p.start
      && (p.tame && p.pos < p.size < WORD / 4 ==> p'.tame && p'.pos >= p.pos + MIGRATE_BATCH)
  }

  lemma BandAfterBatch(sh: Shape, sh': Shape)
    requires BatchMoved(sh, sh') && (sh'.prev.value.tame ==> sh'.prev.value.pos < sh'.prev.value.size)
    ensures Band(sh, 1) ==> Band(sh', 0)
  {
    if Band(sh, 1) {
      BandPrev(sh);
      BandMovesOn(sh, sh');
    }
  }

  lemma BandAfterLast(sh: Shape, sh': Shape, sh'': Shape)
    requires BatchMoved(sh, sh') && sh'' == Shape(sh'.size, sh'.Total(), None)
    ensures Band(sh, 1) ==> Band(sh'', 1)
  {
    if Band(sh, 1) {
      BandMovedAll(sh, sh'');
      BandSlack(sh'');
    }
  }

  lemma BandPrev(sh: Shape)
    requires Band(sh, 1) && sh.prev.Some?
    ensures sh.prev.value.tame && sh.prev.value.pos < sh.prev.value.size < WORD / 4
  {
    assert Look(0);
  }

  lemma MarkTame<K(!new), V>(s: State<K, V>, h: K -> nat, count: nat)
    requires Good(s, h, count) && s.pos == 0
    ensures Good(s.(tame := Tame(s.t, 0)), h, count)
  {
    assert Look(0);
  }

  lemma NewSizePositive(size: nat, count: nat)
    requires size > 0
    ensures NewSize(size, count).Some? ==> NewSize(size, count).value > 0
  {
  }

  /** What each table has to do for both to have a key inserted. */
  lemma BothInsert<K, V>(c: map<K, V>, p: map<K, V>, key: K, val: V)
    requires c.Keys !! p.Keys
    ensures key in p ==> (c + p)[key := val] == c + p[key := val] && c.Keys !! p[key := val].Keys
    ensures key !in p ==> (c + p)[key := val] == c[key := val] + p && c[key := val].Keys !! p.Keys
  {
  }

  lemma BothDelete<K, V>(c: map<K, V>, p: map<K, V>, key: K)
    requires c.Keys !! p.Keys
    ensures key in p ==> (c + p) - {key} == c + (p - {key}) && c.Keys !! (p - {key}).Keys
    ensures key !in p ==> (c + p) - {key} == (c - {key}) + p && (c - {key}).Keys !! p.Keys && p - {key} == p
  {
  }

  class ResizingTable<K(!new, ==), V(!new)> {
    var cur: Table<K, V>
    var prev: Table?<K, V>
    /** How many calls have migrated entries of the current resize, and how many keys there were at its start. */
    ghost var calls: nat
    ghost var start: int
    /** The objects that both tables are made of. */
    ghost var repr: set<object>

    ghost predicate Valid()
      reads this, repr
    {
      && {this, cur, cur.entries} <= repr && (prev != null ==> {prev, prev.entries} <= repr)
      && cur.Valid() && cur.migratePos == 0
      && (prev != null ==> prev.Valid() && prev.hashf == cur.hashf && Apart(cur, prev))
    }

    /** The map that both tables together stand for. */
    ghost function Map(): map<K, V>
      reads this, cur, prev
    {
      if prev == null then cur.s.m else cur.s.m + prev.s.m
    }

    ghost function Numbers(): Shape
      reads this, cur, prev
    {
      Shape(cur.size, cur.count,
        if prev == null then None else Some(Shrinking(prev.size, prev.count, prev.migratePos, prev.s.tame, calls, start)))
    }

    /** In the table that is about to be migrated no run of entries wraps around. */
    ghost predicate NothingWraps()
      reads this, prev
    {
      prev != null ==> Tame(prev.s.t, 0) && prev.size < WORD / 4
    }

    constructor (hashf: K -> nat)
      ensures Valid() && Map() == map[] && Band(Numbers(), 0) && fresh(repr - {this}) && cur.hashf == hashf
      ensures Numbers() == Shape(32 * 1024 / 24, 0, None)
    {
      cur := new Table(MIN_SIZE, hashf);
      prev := null;
      calls, start := 0, 0;
      new;
      repr := {this, cur, cur.entries};
    }

    /** The number of entries that the next batch takes. */
    ghost function NextLoad(): (n: nat)
      reads this, repr
      requires Valid()
    {
      if prev == null then 0 else BatchLoad(prev.s.t, prev.migratePos)
    }

    /** There is an empty slot to be found in each table, and room for a key and for the entries of the next batch. */
    ghost predicate RoomNext()
      reads this, repr
      requires Valid()
    {
      cur.count + NextLoad() < cur.size && (prev != null ==> prev.count < prev.size)
    }

    /** No batch takes more entries than there are. */
    lemma LoadIsSmall()
      requires Valid()
      ensures cur.count + NextLoad() <= Numbers().Total()
    {
      if prev != null {
        var t := prev.s.t;
        GoodFacts(prev.s, prev.hashf, prev.count);
        var start := StartSlot(t, prev.migratePos);
        LoadBound(t, prev.s.at, start, 0, SweptLen(t, start));
      }
    }

    /** The resize in progress does not get anywhere. */
    ghost predicate IsStuck()
      reads this, repr
      requires Valid()
    {
      prev != null && Stuck(prev.s.t, prev.migratePos)
    }

    /** ... nor does it take any entry. */
    ghost predicate IsJammed()
      reads this, repr
      requires Valid()
    {
      IsStuck() && NextLoad() == 0
    }

    /** Both tables' counts add up to the number of keys. */
    lemma TotalIsKeys()
      requires Valid()
      ensures |Map()| == Numbers().Total()
    {
      GoodFacts(cur.s, cur.hashf, cur.count);
      if prev != null {
        GoodFacts(prev.s, prev.hashf, prev.count);
        assert Map().Keys == cur.s.m.Keys + prev.s.m.Keys;
        assert |Map().Keys| == |Map()|;
        assert |cur.s.m.Keys| == |cur.s.m| && |prev.s.m.Keys| == |prev.s.m|;
      }
    }

    /** A resize begins exactly if none is in progress and a threshold has been passed; otherwise one may end. */
    twostate predicate Resized(began: bool)
      reads this, cur, prev
    {
      && (!began ==> cur == old(cur) && (prev == null || prev == old(prev)))
      && (began ==> prev == old(cur) && NewSize(prev.size, prev.count) == Some(cur.size) && cur.count == 0 && prev.migratePos == 0)
      && (prev == null ==> NewSize(cur.size, cur.count).None?)
    }

    /** Moves a batch on if a resize is in progress, and starts one if a threshold has been passed. */
    method ManageResize() returns (ghost began: bool)
      requires Valid() && cur.count + NextLoad() <= cur.size
      modifies repr
      ensures Valid() && fresh(repr - old(repr)) && cur.hashf == old(cur.hashf) && Map() == old(Map())
      ensures Resized(began) && Numbers().Total() == old(Numbers().Total()) && (old(prev) == null ==> old(cur).s.t == old(cur.s.t))
      ensures prev == null ==> WellUsed(cur.size, cur.count)
      ensures old(IsStuck()) ==> !began && prev != null && IsJammed() && prev.count == old(prev.count - NextLoad())
      ensures Band(old(Numbers()), 1) && (began ==> NothingWraps()) ==> Band(Numbers(), 0)
    {
      MoveOn();
      began := false;
      if prev == null {
        began := StartResize();
      }
      if prev == null {
        NewSizeIs(cur.size, cur.count, 0);
      }
    }

    /** Moves a batch of entries, and drops the previous table once it is empty. */
    method MoveOn()
      requires Valid() && cur.count + NextLoad() <= cur.size
      modifies repr
      ensures Valid() && repr == old(repr) && cur == old(cur) && (prev == null || prev == old(prev)) && Map() == old(Map())
      ensures Numbers().Total() == old(Numbers().Total()) && (old(prev) == null ==> cur.s == old(cur.s))
      ensures old(IsStuck()) ==> prev != null && IsJammed() && prev.count == old(prev.count - NextLoad())
      ensures Band(old(Numbers()), 1) ==> if prev == null then Band(Numbers(), 1) else Band(Numbers(), 0)
    {
      if prev != null {
        ghost var sh, stuck := Numbers(), IsStuck();
        MoveBatch();
        if stuck {
          StillThere();
        }
        DropEmpty(sh);
      }
    }

    /** Moves a batch of entries. */
    method MoveBatch()
      requires Valid() && prev != null && cur.count + NextLoad() <= cur.size
      modifies repr
      ensures Valid() && repr == old(repr) && cur == old(cur) && prev == old(prev) && Map() == old(Map())
      ensures BatchMoved(old(Numbers()), Numbers()) && prev.count == old(prev.count - NextLoad())
      ensures old(IsStuck()) ==> IsJammed()
    {
      ghost var t, pos := prev.s.t, prev.migratePos;
      MigrateBatch(cur, prev);
      calls := calls + 1;
      if Stuck(t, pos) {
        StuckStays(t, pos, prev.s.t, prev.migratePos);
      }
    }

    lemma StillThere()
      requires Valid() && IsStuck()
      ensures prev.count > 0
    {
      GoodFacts(prev.s, prev.hashf, prev.count);
      StuckCounts(prev.s.t, prev.s.at, prev.migratePos);
    }

    /** Drops the previous table if nothing is left in it. */
    method DropEmpty(ghost sh: Shape)
      requires Valid() && prev != null && BatchMoved(sh, Numbers())
      modifies this`prev
      ensures Valid() && prev == (if old(prev.count) == 0 then null else old(prev)) && Map() == old(Map())
      ensures Band(sh, 1) ==> if prev == null then Band(Numbers(), 1) else Band(Numbers(), 0)
    {
      EmptyAdds();
      ghost var sh' := Numbers();
      if prev.count == 0 {
        prev := null;
        BandAfterLast(sh, sh', Numbers());
      } else {
        BandAfterBatch(sh, sh');
      }
    }

    /** A table without entries adds nothing, and one whose migration got to its end has none. */
    lemma EmptyAdds()
      requires Valid() && prev != null
      ensures prev.count == 0 ==> Map() == cur.s.m
      ensures prev.s.tame && prev.count > 0 ==> prev.migratePos < prev.size
    {
      GoodFacts(prev.s, prev.hashf, prev.count);
      if prev.count == 0 {
        assert cur.s.m + prev.s.m == cur.s.m;
      } else if prev.s.tame {
        TameEnd(prev.s.t, prev.s.at, prev.s.pos);
      }
    }

    /** Starts a resize if a threshold has been passed. */
    method StartResize() returns (ghost began: bool)
      requires Valid() && prev == null
      modifies this, cur`s
      ensures Valid() && fresh(repr - old(repr)) && cur.hashf == old(cur.hashf) && Map() == old(Map())
      ensures Resized(began) && Numbers().Total() == old(Numbers().Total()) && old(cur).s.t == old(cur.s.t)
      ensures Band(old(Numbers()), 1) && (began ==> NothingWraps()) ==> Band(Numbers(), 0)
    {
      ghost var sh := Numbers();
      NewSizePositive(cur.size, cur.count);
      var size;
      if cur.count > cur.highUtil {
        size := Pct(cur.size, GROW);
      } else if cur.count < cur.lowUtil {
        size := Max(Pct(cur.size, SHRINK), MIN_SIZE);
      } else {
        if Band(sh, 1) {
          BandStays(sh);
        }
        return false;
      }
      began := true;
      Begin(size);
      if Band(sh, 1) && NothingWraps() {
        BandStarts(sh, Numbers());
      }
    }

    /** Starts a resize: the current table becomes the previous one. */
    method Begin(size: nat)
      requires Valid() && prev == null && size > 0
      modifies this, cur`s
      ensures Valid() && fresh(repr - old(repr)) && prev == old(cur) && prev.s.t == old(cur.s.t)
      ensures Map() == old(Map()) && cur.hashf == old(cur.hashf)
      ensures Numbers() == Shape(size, 0, Some(Shrinking(old(cur.size), old(cur.count), 0, Tame(prev.s.t, 0), 0, old(cur.count))))
    {
      MarkTame(cur.s, cur.hashf, cur.count);
      cur.s := cur.s.(tame := Tame(cur.s.t, 0));
      var re := new Table<K, V>(size, cur.hashf);
      Replace(re);
    }

    /** A new table takes over from the current one. */
    method Replace(re: Table<K, V>)
      requires Valid() && prev == null && re.Valid() && {re, re.entries} !! repr && re.hashf == cur.hashf
      requires re.s.m == map[] && re.migratePos == 0
      modifies this
      ensures Valid() && repr == old(repr) + {re, re.entries} && prev == old(cur) && cur == re
      ensures Map() == old(Map()) && calls == 0 && start == prev.count
    {
      prev := cur;
      cur := re;
      calls, start := 0, prev.count;
      repr := repr + {cur, cur.entries};
      assert cur.s.m + prev.s.m == prev.s.m;
    }

    // -------------------------------------------------------------- Operations

    /** Inserts a key, or replaces its value. */
    method Insert(key: K, val: V) returns (ghost began: bool)
      requires Valid() && RoomNext()
      modifies repr
      ensures Valid() && fresh(repr - old(repr)) && cur.hashf == old(cur.hashf)
      ensures Map() == old(Map())[key := val] && Numbers().Total() == old(Numbers().Total()) + (if key in old(Map()) then 0 else 1)
      ensures Resized(began)
      ensures prev == null ==> WellUsed(cur.size, cur.count)
      ensures old(prev) == null ==> IsPut(old(cur.s.t), old(cur).s.t, cur.hashf, key, val)
      ensures old(IsStuck()) ==> !began && prev != null && IsJammed() && prev.count == old(prev.count - NextLoad())
      ensures Band(old(Numbers()), 0) && (began ==> NothingWraps()) ==> Band(Numbers(), 0)
    {
      ghost var r := repr;
      InsertAside(key, val);
      label Mid:
      assert forall o {:trigger o in r} :: o in r ==> o in repr;
      began := ManageResize();
      assert forall o {:trigger o in repr} :: o in repr && o !in r ==> fresh@Mid(o);
    }

    method InsertAside(key: K, val: V)
      requires Valid() && RoomNext()
      modifies repr - {this}
      ensures Valid() && repr == old(repr) && cur == old(cur) && prev == old(prev)
      ensures (prev != null ==> prev.count == old(prev.count)) && cur.count + NextLoad() <= cur.size && NextLoad() == old(NextLoad())
      ensures Map() == old(Map())[key := val] && (Band(old(Numbers()), 0) ==> Band(Numbers(), 1))
      ensures Numbers().Total() == old(Numbers().Total()) + (if key in old(Map()) then 0 else 1)
      ensures prev == null ==> IsPut(old(cur.s.t), cur.s.t, cur.hashf, key, val)
      ensures IsStuck() == old(IsStuck())
    {
      ghost var sh := Numbers();
      if prev == null {
        cur.InsertEntry(key, val);
      } else {
        InsertBeside(key, val);
      }
      if Band(sh, 0) {
        BandChanges(sh, Numbers());
      }
    }

    /** Replaces a key's value in the previous table if it is there, and inserts it into the current one if not. */
    method InsertBeside(key: K, val: V)
      requires Valid() && RoomNext() && prev != null
      modifies repr - {this}
      ensures Valid() && prev.count == old(prev.count) && cur.count + NextLoad() <= cur.size && NextLoad() == old(NextLoad())
      ensures Map() == old(Map())[key := val] && Numbers().Total() == old(Numbers().Total()) + (if key in old(Map()) then 0 else 1)
      ensures IsStuck() == old(IsStuck()) && Numbers().prev == old(Numbers().prev)
    {
      BothInsert(cur.s.m, prev.s.m, key, val);
      ghost var t := prev.s.t;
      var found := prev.OverwriteEntry(key, val);
      SameBatch(t, prev.s.t, prev.migratePos);
      if !found {
        cur.InsertEntry(key, val);
      }
    }

    /** Looks a key up in both tables. */
    method Lookup(key: K) returns (val: Option<V>, ghost began: bool)
      requires Valid() && RoomNext()
      modifies repr
      ensures Valid() && fresh(repr - old(repr)) && cur.hashf == old(cur.hashf)
      ensures Map() == old(Map()) && val == if key in old(Map()) then Some(old(Map())[key]) else None
      ensures Resized(began) && Numbers().Total() == old(Numbers().Total())
      ensures prev == null ==> WellUsed(cur.size, cur.count)
      ensures old(IsStuck()) ==> !began && prev != null && IsJammed() && prev.count == old(prev.count - NextLoad())
      ensures Band(old(Numbers()), 0) && (began ==> NothingWraps()) ==> Band(Numbers(), 0)
    {
      val := LookupBoth(key);
      if Band(Numbers(), 0) {
        BandChanges(Numbers(), Numbers());
      }
      began := ManageResize();
    }

    method LookupBoth(key: K) returns (val: Option<V>)
      requires Valid() && RoomNext()
      ensures val == if key in Map() then Some(Map()[key]) else None
    {
      val := None;
      if prev != null {
        val := prev.LookupEntry(key);
      }
      if val.None? {
        val := cur.LookupEntry(key);
      }
    }

    /** Deletes a key, if it is there. */
    method Delete(key: K) returns (ghost began: bool)
      requires Valid() && Room(Numbers())
      modifies repr
      ensures Valid() && fresh(repr - old(repr)) && cur.hashf == old(cur.hashf)
      ensures Map() == old(Map()) - {key} && Resized(began)
      ensures prev == null ==> WellUsed(cur.size, cur.count)
      ensures Band(old(Numbers()), 0) && (began ==> NothingWraps()) ==> Band(Numbers(), 0)
    {
      DeleteAside(key);
      LoadIsSmall();
      began := ManageResize();
    }

    method DeleteAside(key: K)
      requires Valid() && Room(Numbers())
      modifies repr - {this}
      ensures Valid() && repr == old(repr) && cur == old(cur) && prev == old(prev) && Numbers().Total() <= cur.size
      ensures Map() == old(Map()) - {key} && (Band(old(Numbers()), 0) ==> Band(Numbers(), 1))
    {
      ghost var sh := Numbers();
      if prev == null {
        var _ := cur.DeleteEntry(key);
      } else {
        BothDelete(cur.s.m, prev.s.m, key);
        var found := prev.DeleteEntry(key);
        if !found {
          var _ := cur.DeleteEntry(key);
        }
      }
      if Band(sh, 0) {
        BandChanges(sh, Numbers());
      }
    }
  }
}
