/**
 The trace ring (shared/dtracef.c), as values: events are laid out one after another in segments
 of the buffer, and a zero where the next event would be ends a segment's events.
 */
module TraceRing {
  import opened Wrappers

  /** Sizes in 64-bit words: segments of 8192 bytes, a buffer of 16 MiB. */
  const SEGMENT := 1024
  const SEGMENTS := 2048
  const BUFFER := 2048 * 1024

  /** Where segment k starts, how far a position is into its segment, and the next segment's start from there on. */
  function Base(k: nat): nat {
    1024 * k
  }

  function Offset(pos: nat): nat {
    pos % 1024
  }

  function RoundUp(pos: nat): nat {
    (pos + 1023) / 1024 * 1024
  }
  const HEADER := 3
  const MAX_ARGS := 127

  datatype Event = Event(nr: nat, task: nat, time: nat, args: seq<nat>)

  function Words(e: Event): (w: seq<nat>)
    ensures |w| == HEADER + |e.args|
  {
    [e.nr, e.task, e.time] + e.args
  }

  function AllWords(s: seq<Event>): seq<nat> {
    if s == [] then [] else AllWords(s[..|s| - 1]) + Words(s[|s| - 1])
  }

  function Flat(ss: seq<seq<Event>>): seq<Event> {
    if ss == [] then [] else ss[0] + Flat(ss[1..])
  }

  // ---------------------------------------------------------------- Segments

  /** Segment k of the buffer holds these events and a terminator. */
  ghost predicate SegmentHolds(b: seq<nat>, k: nat, s: seq<Event>) {
    var w := AllWords(s);
    && |w| < SEGMENT && Base(k + 1) <= |b|
    && b[Base(k)..Base(k) + |w|] == w && b[Base(k) + |w|] == 0
  }

  /** Events have the number of arguments that their site says, and sites have numbers from 1 on. */
  ghost predicate EventOk(sites: seq<nat>, e: Event) {
    1 <= e.nr < |sites| && |e.args| == sites[e.nr] <= MAX_ARGS
  }

  ghost predicate SegmentOk(b: seq<nat>, sites: seq<nat>, segs: seq<seq<Event>>, k: int) {
    0 <= k < |segs| ==>
      SegmentHolds(b, k, segs[k]) && forall i :: 0 <= i < |segs[k]| ==> EventOk(sites, segs[k][i])
  }

  ghost predicate SegmentsOk(b: seq<nat>, sites: seq<nat>, segs: seq<seq<Event>>) {
    |b| == BUFFER && |segs| == SEGMENTS &&
    forall k {:trigger SegmentOk(b, sites, segs, k)} :: SegmentOk(b, sites, segs, k)
  }

  ghost predicate InTime(s: seq<Event>) {
    forall i, j :: 0 <= i < j < |s| ==> s[i].time < s[j].time
  }

  /** Segments in the order in which they were written: those after the current one first. */
  function Ring(segs: seq<seq<Event>>, cur: nat): seq<seq<Event>>
    requires cur < |segs|
  {
    segs[cur + 1..] + segs[..cur + 1]
  }

  /**
   The buffer's words, the events in each segment, the segment that is being written and the position
   in it, whether the last segment has been passed, and everything ever recorded.
   */
  datatype State = State(b: seq<nat>, segs: seq<seq<Event>>, cur: nat, pos: nat, wrapped: bool, hist: seq<Event>) {
    /** The events that have not been overwritten, oldest first. */
    function Live(): seq<Event> {
      if cur < |segs| then Flat(Ring(segs, cur)) else []
    }
  }

  ghost predicate IsSuffix(s: seq<Event>, hist: seq<Event>) {
    |s| <= |hist| && hist[|hist| - |s|..] == s
  }

  /**
   The buffer holds the last of the recorded events: those of the current segment, up to pos, and
   those of the segments before it. Segments fill in order, and once around all have events.
   */
  ghost predicate RingOk(st: State, sites: seq<nat>) {
    && |st.b| == BUFFER && |st.segs| == SEGMENTS && st.cur < SEGMENTS
    && forall u {:trigger Look(u)} :: Look(u) ==> RingFacts(st, sites)
  }

  ghost predicate RingFacts(st: State, sites: seq<nat>)
    requires st.cur < |st.segs|
  {
    && SegmentsOk(st.b, sites, st.segs)
    && st.pos == Base(st.cur) + |AllWords(st.segs[st.cur])|
    && InTime(st.hist)
    && IsSuffix(st.Live(), st.hist)
    && Filled(st.segs, st.cur, st.wrapped, st.hist)
  }

  // ---------------------------------------------------------------- Flattening

  lemma {:induction false} FlatConcat(a: seq<seq<Event>>, b: seq<seq<Event>>)
    ensures Flat(a + b) == Flat(a) + Flat(b)
  {
    if a == [] {
      assert a + b == b;
    } else {
      assert (a + b)[1..] == a[1..] + b;
      FlatConcat(a[1..], b);
    }
  }

  lemma FlatOne(s: seq<Event>)
    ensures Flat([s]) == s
  {
    assert Flat([s]) == s + Flat([]);
  }

  lemma {:induction false} FlatEmpty(ss: seq<seq<Event>>)
    requires forall k :: 0 <= k < |ss| ==> ss[k] == []
    ensures Flat(ss) == []
  {
    if ss != [] {
      FlatEmpty(ss[1..]);
    }
  }

  /** First events of segments are in the order of the segments. */
  lemma FlatInTime(ss: seq<seq<Event>>, i: nat, j: nat)
    requires i < j < |ss| && ss[i] != [] && ss[j] != [] && InTime(Flat(ss))
    ensures ss[i][0].time < ss[j][0].time
  {
    FlatAt(ss, i);
    FlatAt(ss, j);
    assert ss[..j] == ss[..i] + ss[i..j];
    FlatConcat(ss[..i], ss[i..j]);
    assert Flat(ss[i..j]) == ss[i] + Flat(ss[i..j][1..]);
  }

  lemma FlatAt(ss: seq<seq<Event>>, i: nat)
    requires i < |ss| && ss[i] != []
    ensures |Flat(ss[..i])| < |Flat(ss)| && Flat(ss)[|Flat(ss[..i])|] == ss[i][0]
  {
    assert ss == ss[..i] + ss[i..];
    FlatConcat(ss[..i], ss[i..]);
    assert Flat(ss[i..]) == ss[i] + Flat(ss[i..][1..]);
  }

  // ---------------------------------------------------------------- The words of a segment

  lemma AllWordsAppend(s: seq<Event>, e: Event)
    ensures AllWords(s + [e]) == AllWords(s) + Words(e)
  {
    assert (s + [e])[..|s|] == s;
  }

  /** Where the words of event j are among those of its segment. */
  lemma {:induction false} EventWords(s: seq<Event>, j: nat)
    requires j < |s|
    ensures |AllWords(s[..j])| + |Words(s[j])| == |AllWords(s[..j + 1])| <= |AllWords(s)|
    ensures AllWords(s)[|AllWords(s[..j])|..|AllWords(s[..j + 1])|] == Words(s[j])
    decreases |s|
  {
    assert s[..j + 1][..j] == s[..j];
    if j == |s| - 1 {
      assert s[..j + 1] == s;
    } else {
      var front := s[..|s| - 1];
      EventWords(front, j);
      assert front[..j] == s[..j] && front[..j + 1] == s[..j + 1];
    }
  }

  // ---------------------------------------------------------------- Recording

  /** An event's words and a terminator are stored at pos. */
  function Put(b: seq<nat>, pos: nat, e: Event): (r: seq<nat>)
    requires pos + |Words(e)| + 1 <= |b|
    ensures |r| == |b|
  {
    b[..pos] + Words(e) + [0] + b[pos + |Words(e)| + 1..]
  }

  lemma PutAt(b: seq<nat>, base: nat, w: seq<nat>, e: Event)
    requires base + |w| + |Words(e)| + 1 <= |b| && b[base..base + |w|] == w
    ensures var b', end := Put(b, base + |w|, e), base + |w| + |Words(e)|;
      b'[base..end] == w + Words(e) && b'[end] == 0
  {
    var pos := base + |w|;
    var b' := Put(b, pos, e);
    assert b'[base..pos] == b[base..pos];
    assert b'[pos..pos + |Words(e)|] == Words(e);
    assert b'[base..pos + |Words(e)|] == b'[base..pos] + b'[pos..pos + |Words(e)|];
  }

  /** The event goes behind the words that are there, within the segment. */
  lemma PutHolds(b: seq<nat>, k: nat, s: seq<Event>, e: Event, at: nat)
    requires |AllWords(s)| + |Words(e)| + 1 <= SEGMENT && Base(k + 1) <= |b|
    requires at == Base(k) + |AllWords(s)| && b[Base(k)..at] == AllWords(s)
    ensures SegmentHolds(Put(b, at, e), k, s + [e])
  {
    AllWordsAppend(s, e);
    PutAt(b, Base(k), AllWords(s), e);
  }

  /** Other segments stay as they are. */
  lemma PutElsewhere(b: seq<nat>, k: nat, s: seq<Event>, pos: nat, e: Event, n: nat)
    requires SegmentHolds(b, k, s) && k != n
    requires Base(n) <= pos && pos + |Words(e)| + 1 <= Base(n + 1) <= |b|
    ensures SegmentHolds(Put(b, pos, e), k, s)
  {
    var b', w := Put(b, pos, e), AllWords(s);
    if k < n {
      assert Base(k + 1) <= Base(n);
      assert b'[Base(k)..Base(k) + |w|] == b[Base(k)..Base(k) + |w|];
    } else {
      assert Base(n + 1) <= Base(k);
      assert b'[Base(k)..Base(k) + |w|] == b[Base(k)..Base(k) + |w|];
    }
  }

  lemma SuffixGrows(s: seq<Event>, hist: seq<Event>, e: Event)
    requires IsSuffix(s, hist)
    ensures IsSuffix(s + [e], hist + [e])
  {
  }

  lemma SuffixDrops(a: seq<Event>, s: seq<Event>, hist: seq<Event>)
    requires IsSuffix(a + s, hist)
    ensures IsSuffix(s, hist)
  {
    assert hist[|hist| - |s|..] == hist[|hist| - |a + s|..][|a|..];
  }

  /** Where the next event goes, in which segment, behind which of its events. */
  datatype Spot = Spot(seg: nat, before: seq<Event>)

  function SpotFor(segs: seq<seq<Event>>, cur: nat, size: nat): Spot
    requires cur < |segs|
  {
    if |AllWords(segs[cur])| + size + 1 <= SEGMENT then Spot(cur, segs[cur])
    else Spot(if cur + 1 == |segs| then 0 else cur + 1, [])
  }

  lemma RingGrows(segs: seq<seq<Event>>, cur: nat, e: Event)
    requires cur < |segs|
    ensures Flat(Ring(segs[cur := segs[cur] + [e]], cur)) == Flat(Ring(segs, cur)) + [e]
  {
    var front := segs[cur + 1..] + segs[..cur];
    var segs' := segs[cur := segs[cur] + [e]];
    assert Ring(segs, cur) == front + [segs[cur]];
    assert Ring(segs', cur) == front + [segs[cur] + [e]];
    FlatConcat(front, [segs[cur]]);
    FlatConcat(front, [segs[cur] + [e]]);
    FlatOne(segs[cur]);
    FlatOne(segs[cur] + [e]);
  }

  /** The oldest segment is given up for the event. */
  lemma RingAdvances(segs: seq<seq<Event>>, cur: nat, e: Event)
    requires cur < |segs|
    ensures var n := if cur + 1 == |segs| then 0 else cur + 1;
      Flat(Ring(segs, cur)) == segs[n] + Flat(Ring(segs, cur)[1..]) && Flat(Ring(segs[n := [e]], n)) == Flat(Ring(segs, cur)[1..]) + [e]
  {
    var n := if cur + 1 == |segs| then 0 else cur + 1;
    var r := Ring(segs, cur);
    assert r[0] == segs[n];
    assert Ring(segs[n := [e]], n) == r[1..] + [[e]];
    FlatConcat(r[1..], [[e]]);
    FlatOne([e]);
  }

  /** Which segments have events. */
  ghost predicate Filled(segs: seq<seq<Event>>, cur: nat, wrapped: bool, hist: seq<Event>) {
    && |segs| == SEGMENTS && cur < SEGMENTS
    && (segs[cur] == [] <==> hist == []) && (wrapped ==> hist != [])
    && (forall k :: 0 <= k < cur ==> segs[k] != [])
    && (forall k :: cur < k < SEGMENTS ==> (segs[k] != [] <==> wrapped))
  }

  lemma RecordFills(segs: seq<seq<Event>>, cur: nat, wrapped: bool, hist: seq<Event>, e: Event)
    requires Filled(segs, cur, wrapped, hist) && |Words(e)| + 1 <= SEGMENT
    ensures var spot := SpotFor(segs, cur, |Words(e)|);
      Filled(segs[spot.seg := spot.before + [e]], spot.seg, wrapped || (spot.seg == 0 && cur == SEGMENTS - 1), hist + [e])
  {
  }

  lemma RecordLives(segs: seq<seq<Event>>, cur: nat, hist: seq<Event>, e: Event)
    requires cur < |segs| && IsSuffix(Flat(Ring(segs, cur)), hist)
    ensures var spot := SpotFor(segs, cur, |Words(e)|);
      IsSuffix(Flat(Ring(segs[spot.seg := spot.before + [e]], spot.seg)), hist + [e])
  {
    var spot := SpotFor(segs, cur, |Words(e)|);
    var n := spot.seg;
    if |AllWords(segs[cur])| + |Words(e)| + 1 <= SEGMENT {
      RingGrows(segs, cur, e);
      SuffixGrows(Flat(Ring(segs, cur)), hist, e);
    } else {
      RingAdvances(segs, cur, e);
      assert [] + [e] == [e];
      SuffixDrops(segs[n], Flat(Ring(segs, cur)[1..]), hist);
      SuffixGrows(Flat(Ring(segs, cur)[1..]), hist, e);
    }
  }

  /** Where an event is stored. */
  function Place(st: State, e: Event): nat
    requires st.cur < |st.segs|
  {
    var spot := SpotFor(st.segs, st.cur, |Words(e)|);
    Base(spot.seg) + |AllWords(spot.before)|
  }

  function Recorded(st: State, e: Event): State
    requires st.cur < |st.segs| && Place(st, e) + |Words(e)| < |st.b|
  {
    var spot, at := SpotFor(st.segs, st.cur, |Words(e)|), Place(st, e);
    State(Put(st.b, at, e), st.segs[spot.seg := spot.before + [e]], spot.seg, at + |Words(e)|,
      st.wrapped || (spot.seg == 0 && st.cur == SEGMENTS - 1), st.hist + [e])
  }

  /** An event goes into one segment, with room for a terminator behind it. */
  lemma PlaceFits(st: State, e: Event)
    requires |st.b| == BUFFER && |st.segs| == SEGMENTS && st.cur < SEGMENTS && |Words(e)| + 1 <= SEGMENT
    ensures var spot := SpotFor(st.segs, st.cur, |Words(e)|);
      && spot.seg < SEGMENTS && |AllWords(spot.before)| + |Words(e)| + 1 <= SEGMENT
      && Place(st, e) == Base(spot.seg) + |AllWords(spot.before)|
      && Place(st, e) + |Words(e)| + 1 <= Base(spot.seg + 1) <= |st.b|
  {
    assert AllWords([]) == [];
  }

  /** Recording an event keeps the ring. */
  lemma RecordKeeps(st: State, sites: seq<nat>, e: Event)
    requires RingOk(st, sites) && EventOk(sites, e)
    requires st.hist != [] ==> st.hist[|st.hist| - 1].time < e.time
    ensures Place(st, e) + |Words(e)| < |st.b| && RingOk(Recorded(st, e), sites)
  {
    PlaceFits(st, e);
    assert RingFacts(st, sites) by {
      assert Look(0);
    }
    RecordFacts(st, sites, e);
  }

  lemma RecordFacts(st: State, sites: seq<nat>, e: Event)
    requires |st.b| == BUFFER && |st.segs| == SEGMENTS && st.cur < SEGMENTS && RingFacts(st, sites) && EventOk(sites, e)
    requires st.hist != [] ==> st.hist[|st.hist| - 1].time < e.time
    requires Place(st, e) + |Words(e)| < |st.b|
    ensures Recorded(st, e).cur < |Recorded(st, e).segs| && RingFacts(Recorded(st, e), sites)
  {
    PlaceFits(st, e);
    var spot := SpotFor(st.segs, st.cur, |Words(e)|);
    var segs' := st.segs[spot.seg := spot.before + [e]];
    RecordSegments(st.b, sites, st.segs, spot.seg, spot.before, e, Place(st, e));
    AllWordsAppend(spot.before, e);
    assert segs'[spot.seg] == spot.before + [e];
    RecordLives(st.segs, st.cur, st.hist, e);
    RecordFills(st.segs, st.cur, st.wrapped, st.hist, e);
    InTimeGrows(st.hist, e);
  }

  /** The events that a reader still finds when e is recorded: all, or all but the oldest segment's if e needs a new one. */
  function Kept(st: State, e: Event): seq<Event> {
    if st.cur >= |st.segs| then [] else
      var n := SpotFor(st.segs, st.cur, |Words(e)|).seg;
      if n == st.cur || |st.segs[n]| > |st.Live()| then st.Live() else st.Live()[|st.segs[n]|..]
  }

  /** What a reader would find goes on to be the last of what was recorded; a new segment costs the oldest one. */
  lemma RecordedLives(st: State, sites: seq<nat>, e: Event)
    requires RingOk(st, sites) && EventOk(sites, e) && Place(st, e) + |Words(e)| < |st.b|
    ensures Recorded(st, e).Live() == Kept(st, e) + [e]
    ensures var n := SpotFor(st.segs, st.cur, |Words(e)|).seg;
      n != st.cur ==> st.segs[n] <= st.Live() && Kept(st, e) == st.Live()[|st.segs[n]|..]
  {
    assert Look(0);
    var spot := SpotFor(st.segs, st.cur, |Words(e)|);
    if spot.seg == st.cur {
      RingGrows(st.segs, st.cur, e);
    } else {
      RingAdvances(st.segs, st.cur, e);
      assert [] + [e] == [e];
    }
  }

  /** Whether an event fits behind position pos, with a terminator, in pos' segment of 8192 bytes. */
  predicate HasRoom(pos: nat, args: nat) {
    pos % 1024 + (3 + args) + 1 <= 8192 / 8
  }

  /** The start of the segment after pos, in a buffer of 16 MiB. */
  function NextStart(pos: nat): nat {
    (pos / 1024 + 1) * 1024 % (16 * 1024 * 1024 / 8)
  }

  /** An event goes right behind the last one if it has room there, and then nothing is lost; and else to the start of
      the next segment. */
  lemma PlaceInWords(st: State, sites: seq<nat>, e: Event)
    requires RingOk(st, sites)
    ensures Place(st, e) == if HasRoom(st.pos, |e.args|) then st.pos else NextStart(st.pos)
    ensures HasRoom(st.pos, |e.args|) ==> Kept(st, e) == st.Live()
  {
    assert Look(0);
    assert SegmentOk(st.b, sites, st.segs, st.cur);
    var within := |AllWords(st.segs[st.cur])|;
    assert st.pos == 1024 * st.cur + within;
    WithinSegment(st.cur, within);
    StartAfter(st.cur, within);
    assert AllWords([]) == [];
  }

  lemma WithinSegment(k: nat, within: nat)
    requires within < 1024
    ensures (1024 * k + within) % 1024 == within
    ensures (1024 * k + within) / 1024 == k
  {
  }

  lemma StartAfter(k: nat, within: nat)
    requires within < 1024 && k < 2048
    ensures NextStart(1024 * k + within) == if k + 1 == 2048 then 0 else 1024 * (k + 1)
  {
    WithinSegment(k, within);
    var next := (k + 1) * 1024;
    if k + 1 < 2048 {
      assert 0 <= next < 2097152;
      assert next % 2097152 == next;
    }
  }

  lemma LiveIsSuffix(st: State, sites: seq<nat>)
    requires RingOk(st, sites)
    ensures IsSuffix(st.Live(), st.hist)
  {
    assert Look(0);
  }

  lemma InTimeGrows(s: seq<Event>, e: Event)
    requires InTime(s) && (s != [] ==> s[|s| - 1].time < e.time)
    ensures InTime(s + [e])
  {
  }

  lemma RecordSegments(b: seq<nat>, sites: seq<nat>, segs: seq<seq<Event>>, n: nat, before: seq<Event>, e: Event, at: nat)
    requires SegmentsOk(b, sites, segs) && n < SEGMENTS && EventOk(sites, e)
    requires before == segs[n] || before == []
    requires |AllWords(before)| + |Words(e)| + 1 <= SEGMENT && at == Base(n) + |AllWords(before)|
    ensures at + |Words(e)| + 1 <= Base(n + 1) <= |b|
    ensures SegmentsOk(Put(b, at, e), sites, segs[n := before + [e]])
  {
    assert Base(n + 1) <= BUFFER;
    var b', segs' := Put(b, at, e), segs[n := before + [e]];
    RecordInto(b, sites, segs, n, before, e, at);
    forall k ensures SegmentOk(b', sites, segs', k) {
      assert SegmentOk(b, sites, segs, k);
      if 0 <= k < |segs| && k != n {
        PutElsewhere(b, k, segs[k], at, e, n);
      }
    }
  }

  lemma RecordInto(b: seq<nat>, sites: seq<nat>, segs: seq<seq<Event>>, n: nat, before: seq<Event>, e: Event, at: nat)
    requires SegmentsOk(b, sites, segs) && n < SEGMENTS && EventOk(sites, e)
    requires before == segs[n] || before == []
    requires |AllWords(before)| + |Words(e)| + 1 <= SEGMENT && at == Base(n) + |AllWords(before)|
    requires at + |Words(e)| + 1 <= Base(n + 1) <= |b|
    ensures SegmentOk(Put(b, at, e), sites, segs[n := before + [e]], n)
  {
    assert SegmentOk(b, sites, segs, n);
    if before == [] {
      assert AllWords(before) == [] && b[Base(n)..Base(n)] == [];
    }
    PutHolds(b, n, before, e, at);
    var segs' := segs[n := before + [e]];
    assert segs'[n] == before + [e];
    forall i | 0 <= i < |segs'[n]| ensures EventOk(sites, segs'[n][i]) {
      assert i < |before| ==> segs'[n][i] == segs[n][i];
    }
  }

  // ---------------------------------------------------------------- Reading

  /** The segment with the oldest events. */
  function Start(st: State): nat {
    if st.wrapped && st.cur + 1 < SEGMENTS then st.cur + 1 else 0
  }

  /** The segments in the order in which a reader visits them. */
  function Visits(st: State): seq<seq<Event>>
    requires Start(st) <= |st.segs|
  {
    st.segs[Start(st)..] + st.segs[..Start(st)]
  }

  lemma VisitsLive(st: State, sites: seq<nat>)
    requires RingOk(st, sites)
    ensures Flat(Visits(st)) == st.Live()
  {
    assert Look(0);
    if st.cur + 1 == SEGMENTS {
      assert Visits(st) == st.segs == Ring(st.segs, st.cur);
    } else if st.wrapped {
      assert Visits(st) == Ring(st.segs, st.cur);
    } else {
      var used, unused := st.segs[..st.cur + 1], st.segs[st.cur + 1..];
      assert Visits(st) == used + unused && Ring(st.segs, st.cur) == unused + used;
      FlatEmpty(unused);
      FlatConcat(used, unused);
      FlatConcat(unused, used);
    }
  }

  lemma Within(b: seq<nat>, base: nat, w: seq<nat>, off: nat, end: nat)
    requires base + |w| <= |b| && b[base..base + |w|] == w && off < end <= |w|
    ensures b[base + off..base + end] == w[off..end] && b[base + off] == w[off]
  {
    forall i | off <= i < end ensures b[base + i] == w[i] {
      assert b[base..base + |w|][i] == w[i];
    }
  }

  /** Event j of segment k is in the buffer, or the terminator behind the last one is. */
  ghost predicate EventAt(b: seq<nat>, k: nat, s: seq<Event>, j: nat)
    requires j <= |s|
  {
    var off := |AllWords(s[..j])|;
    && off < SEGMENT && Base(k + 1) <= |b|
    && (j == |s| ==> b[Base(k) + off] == 0)
    && (j < |s| ==> WordsAt(b, Base(k) + off, s[j]) && off + |Words(s[j])| == |AllWords(s[..j + 1])| < SEGMENT)
  }

  ghost predicate WordsAt(b: seq<nat>, pos: nat, e: Event) {
    pos + |Words(e)| <= |b| && b[pos] == e.nr && b[pos..pos + |Words(e)|] == Words(e)
  }

  lemma HeldAt(b: seq<nat>, k: nat, s: seq<Event>, j: nat)
    requires SegmentHolds(b, k, s) && j <= |s|
    ensures EventAt(b, k, s, j)
  {
    if j == |s| {
      assert s[..j] == s;
    } else {
      EventWords(s, j);
      Within(b, Base(k), AllWords(s), |AllWords(s[..j])|, |AllWords(s[..j + 1])|);
    }
  }

  lemma Holds(st: State, sites: seq<nat>, k: nat, j: nat)
    requires RingOk(st, sites) && k < SEGMENTS && j <= |st.segs[k]|
    ensures EventAt(st.b, k, st.segs[k], j) && (j < |st.segs[k]| ==> EventOk(sites, st.segs[k][j]))
  {
    assert Look(0);
    assert SegmentOk(st.b, sites, st.segs, k);
    HeldAt(st.b, k, st.segs[k], j);
  }

  /** What the start of a segment tells. */
  lemma FirstWords(st: State, sites: seq<nat>, k: nat)
    requires RingOk(st, sites) && k < SEGMENTS
    ensures Base(k + 1) <= |st.b|
    ensures st.b[Base(k)] == 0 <==> st.segs[k] == []
    ensures st.segs[k] != [] ==> st.b[Base(k) + 2] == st.segs[k][0].time
  {
    Holds(st, sites, k, 0);
    assert st.segs[k][..0] == [] && AllWords([]) == [];
    if st.segs[k] != [] {
      var e, pos := st.segs[k][0], Base(k);
      assert st.b[pos..pos + |Words(e)|][2] == Words(e)[2];
    }
  }

  /** Where a segment is in the order of writing. */
  function RingIndex(cur: nat, k: nat): nat
    requires cur < SEGMENTS && k < SEGMENTS
  {
    if k > cur then k - cur - 1 else SEGMENTS - 1 - cur + k
  }

  lemma InRing(segs: seq<seq<Event>>, cur: nat, k: nat)
    requires |segs| == SEGMENTS && cur < SEGMENTS && k < SEGMENTS
    ensures RingIndex(cur, k) < |Ring(segs, cur)| && Ring(segs, cur)[RingIndex(cur, k)] == segs[k]
  {
  }

  /** A segment's first event is older than the first segment's exactly if the segment has not been written again. */
  lemma OlderIsBehind(st: State, sites: seq<nat>, k: nat)
    requires RingOk(st, sites) && 0 < k < SEGMENTS && st.segs[0] != [] && st.segs[k] != []
    ensures st.segs[k][0].time < st.segs[0][0].time <==> k > st.cur
  {
    var r, i0, ik := Ring(st.segs, st.cur), RingIndex(st.cur, 0), RingIndex(st.cur, k);
    InRing(st.segs, st.cur, 0);
    InRing(st.segs, st.cur, k);
    assert IsSuffix(Flat(r), st.hist) && InTime(st.hist) by {
      assert Look(0);
    }
    LiveInTime(Flat(r), st.hist);
    if k > st.cur {
      FlatInTime(r, ik, i0);
    } else {
      FlatInTime(r, i0, ik);
    }
  }

  lemma LiveInTime(s: seq<Event>, hist: seq<Event>)
    requires IsSuffix(s, hist) && InTime(hist)
    ensures InTime(s)
  {
    var d := |hist| - |s|;
    assert forall i :: 0 <= i < |s| ==> s[i] == hist[d + i];
  }

  /** The n-th segment that a reader visits. */
  function SegmentAt(start: nat, n: nat): nat
    requires start < SEGMENTS && n < SEGMENTS
  {
    if start + n < SEGMENTS then start + n else start + n - SEGMENTS
  }

  /** A reader that has read all of n segments and j events of the next one. */
  ghost predicate Reading(st: State, n: nat, j: nat, pos: nat, events: seq<Event>)
    requires |st.segs| == SEGMENTS && Start(st) < SEGMENTS
  {
    n <= SEGMENTS && forall u {:trigger Look(u)} :: Look(u) ==> ReadingFacts(st, n, j, pos, events)
  }

  ghost predicate ReadingFacts(st: State, n: nat, j: nat, pos: nat, events: seq<Event>)
    requires |st.segs| == SEGMENTS && Start(st) < SEGMENTS
  {
    if n < SEGMENTS then
      var k := SegmentAt(Start(st), n);
      && j <= |st.segs[k]|
      && events == Flat(Visits(st)[..n]) + st.segs[k][..j]
      && (pos == Base(k) + |AllWords(st.segs[k][..j])| || (pos == BUFFER && k == 0 && j == 0 && n > 0))
    else
      n == SEGMENTS && pos == BUFFER && Start(st) == 0 && events == Flat(Visits(st))
  }

  lemma ReadStarts(st: State, sites: seq<nat>)
    requires RingOk(st, sites)
    ensures Start(st) < SEGMENTS && Reading(st, 0, 0, Base(Start(st)), [])
  {
    assert Flat(Visits(st)[..0]) == [];
    assert st.segs[Start(st)][..0] == [];
  }

  /** Past the end of the buffer a reader goes on at its beginning. */
  lemma ReadWraps(st: State, sites: seq<nat>, n: nat, j: nat, pos: nat, events: seq<Event>)
    requires RingOk(st, sites) && Start(st) < SEGMENTS && Reading(st, n, j, pos, events) && pos >= BUFFER
    ensures pos == BUFFER
    ensures n == SEGMENTS ==> Start(st) == 0 && events == Flat(Visits(st))
    ensures n < SEGMENTS ==> Start(st) != 0 && Reading(st, n, j, 0, events)
  {
    assert Look(0);
    if n < SEGMENTS {
      var k := SegmentAt(Start(st), n);
      Holds(st, sites, k, j);
      assert Base(k + 1) <= BUFFER;
      assert AllWords(st.segs[k][..0]) == [];
    }
  }

  /** At a terminator a reader goes on to the next segment; it is done when that is where it started. */
  lemma ReadSkips(st: State, sites: seq<nat>, n: nat, j: nat, pos: nat, events: seq<Event>)
    requires RingOk(st, sites) && Start(st) < SEGMENTS && Reading(st, n, j, pos, events) && pos < BUFFER && st.b[pos] == 0
    ensures n < SEGMENTS
    ensures var next := RoundUp(pos + 1);
      if next == Base(Start(st)) then events == Flat(Visits(st)) else Reading(st, n + 1, 0, next, events)
  {
    assert ReadingFacts(st, n, j, pos, events) by {
      assert Look(0);
    }
    SegmentRead(st, sites, n, j, pos, events);
    var k := SegmentAt(Start(st), n);
    AtNextStart(k, pos);
    if n + 1 == SEGMENTS {
      assert Visits(st)[..n + 1] == Visits(st);
    } else {
      var k' := SegmentAt(Start(st), n + 1);
      assert AllWords(st.segs[k'][..0]) == [] && events + st.segs[k'][..0] == events;
    }
  }

  /** A terminator is met when a segment has been read. */
  lemma SegmentRead(st: State, sites: seq<nat>, n: nat, j: nat, pos: nat, events: seq<Event>)
    requires RingOk(st, sites) && Start(st) < SEGMENTS && ReadingFacts(st, n, j, pos, events) && pos < BUFFER && st.b[pos] == 0
    ensures n < SEGMENTS && events == Flat(Visits(st)[..n + 1])
    ensures var k := SegmentAt(Start(st), n); Base(k) <= pos < Base(k + 1)
  {
    var k := SegmentAt(Start(st), n);
    Holds(st, sites, k, j);
    assert j == |st.segs[k]| && st.segs[k][..j] == st.segs[k];
    FlatNext(Visits(st), n);
  }

  lemma FlatNext(v: seq<seq<Event>>, n: nat)
    requires n < |v|
    ensures Flat(v[..n + 1]) == Flat(v[..n]) + v[n]
  {
    assert v[..n + 1] == v[..n] + [v[n]];
    FlatConcat(v[..n], [v[n]]);
    FlatOne(v[n]);
  }

  lemma AtNextStart(k: nat, pos: nat)
    requires Base(k) <= pos < Base(k + 1)
    ensures RoundUp(pos + 1) == Base(k + 1)
  {
    assert (pos + 1024) / 1024 == k + 1;
  }

  /** Anywhere else there is an event to be read. */
  lemma ReadsOne(st: State, sites: seq<nat>, n: nat, j: nat, pos: nat, events: seq<Event>)
    requires RingOk(st, sites) && Start(st) < SEGMENTS && Reading(st, n, j, pos, events) && pos < BUFFER && st.b[pos] != 0
    ensures n < SEGMENTS
    ensures var k := SegmentAt(Start(st), n);
      j < |st.segs[k]| &&
      var e := st.segs[k][j];
      && EventOk(sites, e) && pos + |Words(e)| < |st.b| && WordsAt(st.b, pos, e)
      && Reading(st, n, j + 1, pos + |Words(e)|, events + [e]) && pos + |Words(e)| != Base(Start(st))
  {
    assert ReadingFacts(st, n, j, pos, events) by {
      assert Look(0);
    }
    EventMet(st, sites, n, j, pos, events);
  }

  lemma EventMet(st: State, sites: seq<nat>, n: nat, j: nat, pos: nat, events: seq<Event>)
    requires RingOk(st, sites) && Start(st) < SEGMENTS && ReadingFacts(st, n, j, pos, events) && pos < BUFFER && st.b[pos] != 0
    ensures n < SEGMENTS
    ensures var k := SegmentAt(Start(st), n);
      j < |st.segs[k]| &&
      var e := st.segs[k][j];
      && EventOk(sites, e) && pos + |Words(e)| < |st.b| && WordsAt(st.b, pos, e)
      && ReadingFacts(st, n, j + 1, pos + |Words(e)|, events + [e]) && pos + |Words(e)| != Base(Start(st))
  {
    var k := SegmentAt(Start(st), n);
    Holds(st, sites, k, j);
    var s := st.segs[k];
    assert j < |s|;
    OneMoreRead(Flat(Visits(st)[..n]), s, j);
    InsideSegment(k, Start(st), |AllWords(s[..j])|, |Words(s[j])|);
  }

  lemma OneMoreRead(front: seq<Event>, s: seq<Event>, j: nat)
    requires j < |s|
    ensures front + s[..j] + [s[j]] == front + s[..j + 1]
  {
    assert s[..j + 1] == s[..j] + [s[j]];
  }

  lemma InsideSegment(k: nat, start: nat, off: nat, size: nat)
    requires 0 < size && off + size < SEGMENT
    ensures Base(k) + off + size != Base(start) && Base(k) + off + size < Base(k + 1)
  {
  }
}
