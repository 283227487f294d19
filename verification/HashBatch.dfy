/**
 What a batch of a migration covers (shared/hash_table.c:270-310), as a function of the slots and the
 position that it finds: where it starts, how many slots it sweeps, and when it makes headway.
 */
module HashBatch {
  import opened HashSlots
  import opened Wrappers

  const MIGRATE_BATCH := 16
  const WORD := 0x1_0000_0000_0000_0000

  /** Unsigned 64-bit arithmetic. */
  function Wrap(x: int): (w: nat)
    ensures w < WORD
  {
    x % WORD
  }

  lemma WrapSmall(x: nat)
    requires x < WORD
    ensures Wrap(x) == x
  {
  }

  lemma WrapBelow(x: int)
    requires -WORD <= x < 0
    ensures Wrap(x) == WORD + x
  {
  }

  lemma WrapOver(x: nat)
    requires x < WORD
    ensures Wrap(WORD + x) == x
  {
  }

  lemma WrapShort(x: int)
    requires -WORD <= x < 0
    ensures Wrap(WORD + x) == WORD + x
  {
  }

  // ---------------------------------------------------------------- How many slots are swept

  /** The slot q steps on from start is empty, or its entry is at home. */
  predicate Rests<K, V>(t: Slots<K, V>, start: nat, q: nat)
    requires start < |t| && q < |t|
  {
    t[At(start, q, |t|)].ProbeLen() == 0
  }

  /** The first offset from q on at which a slot rests; or the end of the lap. */
  function FirstRest<K, V>(t: Slots<K, V>, start: nat, q: nat): (n: nat)
    requires start < |t|
    ensures n >= q && (n <= |t| || n == q)
    ensures n < |t| ==> Rests(t, start, n)
    ensures forall r: nat {:trigger Rests(t, start, r)} :: q <= r < n && r < |t| ==> !Rests(t, start, r)
    decreases |t| - q
  {
    if q < |t| && !Rests(t, start, q) then FirstRest(t, start, q + 1) else q
  }

  /** How many slots a batch sweeps that begins at slot start. */
  function SweptLen<K, V>(t: Slots<K, V>, start: nat): nat
    requires start < |t|
  {
    FirstRest(t, start, MIGRATE_BATCH)
  }

  /** A batch sweeps sixteen slots, and on to the first one that is empty or whose entry is at home. */
  lemma SweptLenIs<K, V>(t: Slots<K, V>, start: nat, n: nat)
    requires start < |t| && 16 <= n < |t|
    ensures SweptLen(t, start) == n <==>
      t[At(start, n, |t|)].ProbeLen() == 0 && forall r: nat :: 16 <= r < n ==> t[At(start, r, |t|)].ProbeLen() != 0
  {
    var len := SweptLen(t, start);
    assert Rests(t, start, n) <==> t[At(start, n, |t|)].ProbeLen() == 0;
    forall r: nat | 16 <= r < n ensures Rests(t, start, r) <==> t[At(start, r, |t|)].ProbeLen() == 0 {
    }
    if len < n {
      assert t[At(start, len, |t|)].ProbeLen() == 0;
    }
  }

  /** The slot q steps on from start is empty if it is among the first pl, and else as it was. */
  ghost predicate SweptAt<K, V>(t0: Slots<K, V>, start: nat, t: Slots<K, V>, pl: nat, q: nat)
    requires start < |t| == |t0| && q < |t|
  {
    t[At(start, q, |t|)] == if q < pl then Empty else t0[At(start, q, |t|)]
  }

  ghost predicate Swept<K, V>(t0: Slots<K, V>, start: nat, t: Slots<K, V>, pl: nat) {
    start < |t| == |t0| && forall q: nat {:trigger SweptAt(t0, start, t, pl, q)} :: q < |t| ==> SweptAt(t0, start, t, pl, q)
  }

  /** A sweep that has come to slot x, after pl slots. */
  ghost predicate Sweeps<K, V>(t0: Slots<K, V>, start: nat, t: Slots<K, V>, pl: nat, x: nat) {
    && start < |t| == |t0| && x < |t| && (pl < |t| ==> x == At(start, pl, |t|)) && pl <= SweptLen(t0, start)
    && forall u {:trigger Look(u)} :: Look(u) ==> Swept(t0, start, t, pl)
  }

  lemma SweepsStart<K, V>(t: Slots<K, V>, start: nat)
    requires start < |t|
    ensures Sweeps(t, start, t, 0, start)
  {
  }

  /** The code's way to tell whether to go on. */
  lemma SweepsWhile<K, V>(t0: Slots<K, V>, start: nat, t: Slots<K, V>, pl: nat, x: nat)
    requires Sweeps(t0, start, t, pl, x)
    ensures pl < MIGRATE_BATCH || t[x].ProbeLen() != 0 <==> pl < SweptLen(t0, start)
  {
    assert Look(0);
    assert SweptAt(t0, start, t, pl, Dist(start, x, |t|));
    assert At(start, Dist(start, x, |t|), |t|) == x;
    assert pl < |t| ==> (Rests(t0, start, pl) <==> t[x].ProbeLen() == 0);
  }

  lemma SweepsOn<K, V>(t0: Slots<K, V>, start: nat, t: Slots<K, V>, pl: nat, x: nat)
    requires Sweeps(t0, start, t, pl, x) && pl < SweptLen(t0, start)
    ensures Sweeps(t0, start, t[x := Empty], pl + 1, Next(x, |t|))
  {
    assert Look(0);
    var t', pl' := t[x := Empty], pl + 1;
    forall q: nat | q < |t'| ensures SweptAt(t0, start, t', pl', q) {
      assert SweptAt(t0, start, t, pl, q);
    }
  }

  lemma SweepsDone<K, V>(t0: Slots<K, V>, start: nat, t: Slots<K, V>, pl: nat, x: nat)
    requires Sweeps(t0, start, t, pl, x) && pl >= SweptLen(t0, start)
    ensures pl == SweptLen(t0, start) && Swept(t0, start, t, pl)
  {
    assert Look(0);
  }

  // ---------------------------------------------------------------- How many entries are taken

  /** The entries in the slots from q up to n steps on from start. */
  function Load<K, V>(t: Slots<K, V>, start: nat, q: nat, n: nat): nat
    requires start < |t|
    decreases n - q
  {
    if q >= n || q >= |t| then 0 else (if t[At(start, q, |t|)].Full? then 1 else 0) + Load(t, start, q + 1, n)
  }

  /** The entries that a batch takes which begins at slot start. */
  function SpanLoad<K, V>(t: Slots<K, V>, start: nat): nat
    requires start < |t|
  {
    Load(t, start, 0, SweptLen(t, start))
  }

  /** What the sweep's next slot adds. */
  lemma LoadOn<K, V>(t0: Slots<K, V>, start: nat, t: Slots<K, V>, pl: nat, x: nat)
    requires Sweeps(t0, start, t, pl, x) && pl < SweptLen(t0, start)
    ensures Load(t0, start, pl, SweptLen(t0, start)) ==
      (if t[x].Full? then 1 else 0) + Load(t0, start, pl + 1, SweptLen(t0, start))
  {
    assert Look(0);
    assert SweptAt(t0, start, t, pl, Dist(start, x, |t|));
    assert At(start, Dist(start, x, |t|), |t|) == x;
  }

  ghost function LoadKeys<K, V>(t: Slots<K, V>, start: nat, q: nat, n: nat): set<K>
    requires start < |t|
    decreases n - q
  {
    if q >= n || q >= |t| then {}
    else
      var e := t[At(start, q, |t|)];
      (if e.Full? then {e.key} else {}) + LoadKeys(t, start, q + 1, n)
  }

  lemma {:induction false} LoadCounts<K(!new), V>(t: Slots<K, V>, at: map<K, nat>, start: nat, q: nat, n: nat)
    requires start < |t| && Indexed(t, at, HashSlots.NONE)
    ensures |LoadKeys(t, start, q, n)| == Load(t, start, q, n) && LoadKeys(t, start, q, n) <= at.Keys
    ensures forall k :: k in LoadKeys(t, start, q, n) ==> k in at && at[k] < |t| && Dist(start, at[k], |t|) >= q
    decreases n - q
  {
    if q < n && q < |t| {
      LoadCounts(t, at, start, q + 1, n);
      var i := At(start, q, |t|);
      assert IndexOk(t, at, i, HashSlots.NONE);
      assert Dist(start, i, |t|) == q;
    }
  }

  /** No batch takes more entries than there are keys. */
  lemma LoadBound<K(!new), V>(t: Slots<K, V>, at: map<K, nat>, start: nat, q: nat, n: nat)
    requires start < |t| && Indexed(t, at, HashSlots.NONE)
    ensures Load(t, start, q, n) <= |at|
  {
    LoadCounts(t, at, start, q, n);
    SubsetSize(LoadKeys(t, start, q, n), at.Keys);
    assert |at.Keys| == |at|;
  }

  lemma {:induction false} SubsetSize<T>(a: set<T>, b: set<T>)
    requires a <= b
    ensures |a| <= |b|
  {
    if a != {} {
      var x :| x in a;
      SubsetSize(a - {x}, b - {x});
    }
  }

  // ---------------------------------------------------------------- A batch

  /** The position that a batch goes back to, given the probe length of the entry at the position it found. */
  function BatchStart(pos: nat, probeLen: nat): nat {
    Wrap(pos - probeLen)
  }

  function StartOf<K, V>(t: Slots<K, V>, pos: nat): nat
    requires |t| > 0
  {
    BatchStart(pos, t[Home(pos, |t|)].ProbeLen())
  }

  /** The slot that a batch starts at. */
  function StartSlot<K, V>(t: Slots<K, V>, pos: nat): (s: nat)
    requires |t| > 0
    ensures s < |t|
  {
    Home(StartOf(t, pos), |t|)
  }

  /** The number of entries that a batch takes. */
  function BatchLoad<K, V>(t: Slots<K, V>, pos: nat): nat
    requires |t| > 0
  {
    SpanLoad(t, StartSlot(t, pos))
  }

  /** What a batch makes of the slots and of the position. */
  ghost predicate BatchOn<K, V>(t: Slots<K, V>, pos: nat, t': Slots<K, V>, pos': nat)
    requires |t| > 0
  {
    var n := SweptLen(t, StartSlot(t, pos));
    Swept(t, StartSlot(t, pos), t', n) && pos' == Wrap(StartOf(t, pos) + n)
  }

  /** The same slots are full, with entries as far from their homes. */
  ghost predicate SameProbes<K, V>(t: Slots<K, V>, t': Slots<K, V>) {
    |t'| == |t| && forall i {:trigger SameProbe(t, t', i)} :: 0 <= i < |t| ==> SameProbe(t, t', i)
  }

  predicate SameProbe<K, V>(t: Slots<K, V>, t': Slots<K, V>, i: nat)
    requires i < |t| == |t'|
  {
    (t[i].Full? <==> t'[i].Full?) && t[i].ProbeLen() == t'[i].ProbeLen()
  }

  lemma {:induction false} SameRest<K, V>(t: Slots<K, V>, t': Slots<K, V>, start: nat, q: nat)
    requires SameProbes(t, t') && start < |t|
    ensures FirstRest(t', start, q) == FirstRest(t, start, q)
    decreases |t| - q
  {
    if q < |t| {
      assert SameProbe(t, t', At(start, q, |t|));
      SameRest(t, t', start, q + 1);
    }
  }

  lemma {:induction false} SameLoad<K, V>(t: Slots<K, V>, t': Slots<K, V>, start: nat, q: nat, n: nat)
    requires SameProbes(t, t') && start < |t|
    ensures Load(t', start, q, n) == Load(t, start, q, n)
    decreases n - q
  {
    if q < n && q < |t| {
      assert SameProbe(t, t', At(start, q, |t|));
      SameLoad(t, t', start, q + 1, n);
    }
  }

  /** What a batch does depends on nothing else. */
  lemma SameBatch<K, V>(t: Slots<K, V>, t': Slots<K, V>, pos: nat)
    requires SameProbes(t, t') && |t| > 0
    ensures BatchLoad(t', pos) == BatchLoad(t, pos) && (Stuck(t', pos) <==> Stuck(t, pos))
  {
    var s := StartSlot(t, pos);
    assert SameProbe(t, t', Home(pos, |t|));
    SameRest(t, t', s, MIGRATE_BATCH);
    SameLoad(t, t', s, 0, SweptLen(t, s));
    assert pos < |t| ==> SameProbe(t, t', pos);
    assert MIGRATE_BATCH < |t| ==> SameProbe(t, t', At(s, MIGRATE_BATCH, |t|));
  }

  /**
   Whether a batch gets further: if it need not go back beyond slot 0, or if from where it starts instead no slot rests
   from the sixteenth on up to the probe length, or one does before the position would be back at 0.
   */
  predicate Headway<K, V>(t: Slots<K, V>, pos: nat)
    requires pos < |t| && t[pos].ProbeLen() < |t|
  {
    var p := t[pos].ProbeLen();
    || p <= pos
    || (forall q: nat {:trigger Rests(t, StartSlot(t, pos), q)} :: MIGRATE_BATCH <= q <= p ==> !Rests(t, StartSlot(t, pos), q))
    || (exists q: nat {:trigger Rests(t, StartSlot(t, pos), q)} :: MIGRATE_BATCH <= q < p - pos && Rests(t, StartSlot(t, pos), q))
  }

  lemma ProbeLenBound<K, V>(t: Slots<K, V>, h: K -> nat, i: nat)
    requires SlotsOk(t, h, HashSlots.NONE) && i < |t|
    ensures t[i].ProbeLen() < |t|
  {
    assert SlotOk(t, h, i, HashSlots.NONE);
  }

  /** A batch gets further exactly if the slots that it finds say so. */
  lemma BatchAdvances<K, V>(t: Slots<K, V>, h: K -> nat, pos: nat, t': Slots<K, V>, pos': nat)
    requires SlotsOk(t, h, HashSlots.NONE) && pos < |t| < WORD / 4 && t[pos].ProbeLen() < |t| && BatchOn(t, pos, t', pos')
    ensures pos' > pos <==> Headway(t, pos)
  {
    var p, s := t[pos].ProbeLen(), StartSlot(t, pos);
    var n := SweptLen(t, s);
    assert Home(pos, |t|) == pos;
    if p <= pos {
      WrapSmall(pos - p);
      BatchPasses(t, h, pos);
      WrapSmall(pos - p + n);
    } else {
      WrapBelow(pos - p);
      if p > pos + n {
        WrapShort(pos + n - p);
        assert Rests(t, s, n);
      } else {
        WrapOver(pos + n - p);
        assert n <= p ==> Rests(t, s, n);
      }
    }
  }

  lemma RunGoesOn<K, V>(t: Slots<K, V>, h: K -> nat, pos: nat, q: nat)
    requires SlotsOk(t, h, HashSlots.NONE) && pos < |t| && 0 < q <= t[pos].ProbeLen() <= pos
    ensures !Rests(t, pos - t[pos].ProbeLen(), q)
  {
    assert SlotOk(t, h, pos, HashSlots.NONE);
    FullOnTheWay(t, h, pos, q);
  }

  /** A batch that begins where the home of pos's entry is goes beyond pos. */
  lemma BatchPasses<K, V>(t: Slots<K, V>, h: K -> nat, pos: nat)
    requires SlotsOk(t, h, HashSlots.NONE) && pos < |t| && t[pos].ProbeLen() <= pos
    ensures SweptLen(t, pos - t[pos].ProbeLen()) > t[pos].ProbeLen()
  {
    var n := SweptLen(t, pos - t[pos].ProbeLen());
    if t[pos].ProbeLen() >= n {
      RunGoesOn(t, h, pos, n);
    }
  }

  // ---------------------------------------------------------------- A migration that is stuck

  /**
   The entry at the position is 16 slots from its home, and its home lies before slot 0; where the batch starts
   instead, well away from the position, a slot rests 16 slots on.
   */
  predicate Stuck<K, V>(t: Slots<K, V>, pos: nat) {
    && pos < MIGRATE_BATCH < |t| && t[pos].ProbeLen() == MIGRATE_BATCH
    && Rests(t, StartSlot(t, pos), MIGRATE_BATCH) && Dist(StartSlot(t, pos), pos, |t|) >= MIGRATE_BATCH
  }

  /** A batch then gets back to where it was, and leaves the entry there alone; the next one is stuck as well, and takes nothing. */
  lemma StuckStays<K, V>(t: Slots<K, V>, pos: nat, t': Slots<K, V>, pos': nat)
    requires Stuck(t, pos) && BatchOn(t, pos, t', pos')
    ensures pos' == pos && t'[pos] == t[pos] && Stuck(t', pos) && BatchLoad(t', pos) == 0
  {
    var s := StartSlot(t, pos);
    assert Home(pos, |t|) == pos;
    assert SweptLen(t, s) == MIGRATE_BATCH;
    WrapBelow(pos - MIGRATE_BATCH);
    WrapOver(pos);
    assert At(s, Dist(s, pos, |t|), |t|) == pos;
    assert SweptAt(t, s, t', MIGRATE_BATCH, Dist(s, pos, |t|));
    assert SweptAt(t, s, t', MIGRATE_BATCH, MIGRATE_BATCH);
    assert StartSlot(t', pos) == s && SweptLen(t', s) == MIGRATE_BATCH;
    NothingLeft(t, s, t', 0);
  }

  lemma StuckCounts<K(!new), V>(t: Slots<K, V>, at: map<K, nat>, pos: nat)
    requires Stuck(t, pos) && Indexed(t, at, HashSlots.NONE)
    ensures |at| > 0
  {
    assert IndexOk(t, at, pos, HashSlots.NONE);
    assert t[pos].key in at;
  }

  lemma {:induction false} NothingLeft<K, V>(t: Slots<K, V>, start: nat, t': Slots<K, V>, q: nat)
    requires Swept(t, start, t', MIGRATE_BATCH)
    ensures Load(t', start, q, MIGRATE_BATCH) == 0
    decreases MIGRATE_BATCH - q
  {
    if q < MIGRATE_BATCH && q < |t| {
      assert SweptAt(t, start, t', MIGRATE_BATCH, q);
      NothingLeft(t, start, t', q + 1);
    }
  }

  /** Each batch finds what the one before left. */
  ghost predicate Batches<K, V>(ts: seq<Slots<K, V>>, ps: seq<nat>) {
    |ts| == |ps| > 0 && forall j {:trigger BatchAt(ts, ps, j)} :: BatchAt(ts, ps, j)
  }

  ghost predicate BatchAt<K, V>(ts: seq<Slots<K, V>>, ps: seq<nat>, j: int) {
    0 <= j < |ts| - 1 && j < |ps| - 1 ==> |ts[j]| > 0 && BatchOn(ts[j], ps[j], ts[j + 1], ps[j + 1])
  }

  /** However many batches follow, the position and the entry there stay. */
  lemma {:induction false} StuckForEver<K, V>(ts: seq<Slots<K, V>>, ps: seq<nat>, j: nat)
    requires Batches(ts, ps) && Stuck(ts[0], ps[0]) && j < |ts|
    ensures Stuck(ts[j], ps[j]) && ps[j] == ps[0] && ts[j][ps[0]] == ts[0][ps[0]]
  {
    if j > 0 {
      StuckForEver(ts, ps, j - 1);
      assert BatchAt(ts, ps, j - 1);
      StuckStays(ts[j - 1], ps[j - 1], ts[j], ps[j]);
    }
  }

  /** Two batches in a row leave the position where it is if and only if it stays there for ever. */
  lemma StuckExactly<K, V>(t: Slots<K, V>, h: K -> nat, pos: nat, t1: Slots<K, V>, pos1: nat, t2: Slots<K, V>, pos2: nat)
    requires SlotsOk(t, h, HashSlots.NONE) && pos < |t| < WORD / 4
    requires BatchOn(t, pos, t1, pos1) && BatchOn(t1, pos1, t2, pos2)
    ensures pos1 == pos2 == pos <==> Stuck(t, pos)
  {
    if Stuck(t, pos) {
      StuckStays(t, pos, t1, pos1);
      StuckStays(t1, pos1, t2, pos2);
    } else if pos1 == pos {
      SweptIsProbe(t, h, pos);
      ProbeLenBound(t, h, pos);
      if Dist(StartSlot(t, pos), pos, |t|) < t[pos].ProbeLen() {
        EntryTaken(t, pos, t1);
      } else if t[pos].ProbeLen() > MIGRATE_BATCH {
        LandsElsewhere(t, pos, t1);
      }
    }
  }

  /** If the first batch takes the entry at the position, the second one starts there. */
  lemma EntryTaken<K, V>(t: Slots<K, V>, pos: nat, t1: Slots<K, V>)
    requires pos < |t| < WORD / 4 && Dist(StartSlot(t, pos), pos, |t|) < t[pos].ProbeLen()
    requires Swept(t, StartSlot(t, pos), t1, t[pos].ProbeLen())
    ensures |t1| == |t| && Wrap(StartOf(t1, pos) + SweptLen(t1, StartSlot(t1, pos))) != pos
  {
    var s := StartSlot(t, pos);
    assert At(s, Dist(s, pos, |t|), |t|) == pos && SweptAt(t, s, t1, t[pos].ProbeLen(), Dist(s, pos, |t|));
    assert Home(pos, |t|) == pos;
    WrapSmall(pos);
    WrapSmall(pos + SweptLen(t1, StartSlot(t1, pos)));
  }

  /** If it takes more than 16 slots but not the entry, the second one ends after 16. */
  lemma LandsElsewhere<K, V>(t: Slots<K, V>, pos: nat, t1: Slots<K, V>)
    requires pos < |t| < WORD / 4 && pos < t[pos].ProbeLen() < |t| && MIGRATE_BATCH < t[pos].ProbeLen() <= Dist(StartSlot(t, pos), pos, |t|)
    requires Swept(t, StartSlot(t, pos), t1, t[pos].ProbeLen())
    ensures |t1| == |t| && Wrap(StartOf(t1, pos) + SweptLen(t1, StartSlot(t1, pos))) != pos
  {
    var p, s := t[pos].ProbeLen(), StartSlot(t, pos);
    assert At(s, Dist(s, pos, |t|), |t|) == pos && SweptAt(t, s, t1, p, Dist(s, pos, |t|));
    assert Home(pos, |t|) == pos && StartSlot(t1, pos) == s;
    SweptIsSixteen(t, s, t1, p);
    WrapBelow(pos - p);
    LandsShort(pos, p);
  }

  lemma LandsShort(pos: nat, p: nat)
    requires pos < p < WORD / 4 && p > MIGRATE_BATCH
    ensures Wrap(WORD + pos - p + MIGRATE_BATCH) != pos
  {
    if p > pos + MIGRATE_BATCH {
      WrapShort(pos - p + MIGRATE_BATCH);
    } else {
      WrapOver(pos - p + MIGRATE_BATCH);
    }
  }

  lemma SweptIsSixteen<K, V>(t: Slots<K, V>, s: nat, t1: Slots<K, V>, p: nat)
    requires Swept(t, s, t1, p) && MIGRATE_BATCH < p < |t|
    ensures SweptLen(t1, s) == MIGRATE_BATCH
  {
    assert SweptAt(t, s, t1, p, MIGRATE_BATCH);
  }

  /** If a batch ends where it was, it has swept as many slots as the entry there is from its home. */
  lemma SweptIsProbe<K, V>(t: Slots<K, V>, h: K -> nat, pos: nat)
    requires SlotsOk(t, h, HashSlots.NONE) && pos < |t| < WORD / 4
    requires Wrap(StartOf(t, pos) + SweptLen(t, StartSlot(t, pos))) == pos
    ensures pos < t[pos].ProbeLen() == SweptLen(t, StartSlot(t, pos))
  {
    var p, n := t[pos].ProbeLen(), SweptLen(t, StartSlot(t, pos));
    assert Home(pos, |t|) == pos;
    ProbeLenBound(t, h, pos);
    if p <= pos {
      WrapSmall(pos - p);
      BatchPasses(t, h, pos);
      WrapSmall(pos - p + n);
    } else {
      WrapBelow(pos - p);
      if p > pos + n {
        WrapShort(pos + n - p);
      } else {
        WrapOver(pos + n - p);
      }
    }
  }
}
