/**
 Recording trace events in a ring of segments, and reading them back (shared/dtracef.c:67-90,
 237-268, 334-363). Events carry the number of their site, which says how many arguments they have.
 */
module Dtracef {
  import opened TraceRing
  import opened Wrappers

  datatype Errno = OK | EINVAL

  class Trace {
    const sites: seq<nat>
    const base: array<nat>
    var pos: nat
    ghost var st: State

    ghost predicate Valid()
      reads this, base
    {
      base[..] == st.b && pos == st.pos && RingOk(st, sites)
    }

    constructor (sites: seq<nat>)
      ensures Valid() && st.hist == [] && this.sites == sites && fresh(base)
    {
      this.sites := sites;
      base := new nat[BUFFER](_ => 0);
      pos := 0;
      new;
      st := State(base[..], seq(SEGMENTS, _ => []), 0, 0, false, []);
      EmptyRing(base[..], sites);
    }

    /** Finds room for an event, and stores its header and what ends the segment for now. */
    method GetEvent(ghost e: Event, nr: nat, task: nat, now: nat) returns (at: nat)
      requires Valid() && nr < |sites| && EventOk(sites, e) && e.nr == nr && e.task == task && e.time == now
      modifies this`pos, base
      ensures at == Place(st, e) && at + |Words(e)| < base.Length && pos == at + |Words(e)|
      ensures base[..] == st.b[at := nr][at + 1 := task][at + 2 := now][pos := 0]
    {
      var size := HEADER + sites[nr];
      FindsRoom(st, sites, e);
      var remaining := SEGMENT - Offset(pos);
      if size + 1 > remaining {
        pos := pos + remaining;
      }
      if pos == base.Length {
        pos := 0;
      }
      at := pos;
      pos := pos + size;
      base[at] := nr;
      base[at + 1] := task;
      base[at + 2] := now;
      base[at + HEADER + sites[nr]] := 0;
    }

    /** Records an event, later than all others. */
    method Record(nr: nat, task: nat, now: nat, args: seq<nat>)
      requires Valid() && EventOk(sites, Event(nr, task, now, args))
      requires st.hist != [] ==> st.hist[|st.hist| - 1].time < now
      modifies this, base
      ensures Valid() && st.hist == old(st.hist) + [Event(nr, task, now, args)]
      ensures pos == 3 + |args| + if HasRoom(old(pos), |args|) then old(pos) else NextStart(old(pos))
      ensures HasRoom(old(pos), |args|) ==> st.Live() == old(st.Live()) + [Event(nr, task, now, args)]
      ensures IsSuffix(st.Live(), st.hist) && st.Live() == Kept(old(st), Event(nr, task, now, args)) + [Event(nr, task, now, args)]
    {
      ghost var e := Event(nr, task, now, args);
      RecordKeeps(st, sites, e);
      RecordedLives(st, sites, e);
      PlaceInWords(st, sites, e);
      LiveIsSuffix(Recorded(st, e), sites);
      var at := GetEvent(e, nr, task, now);
      HeaderStored(st.b, at, e);
      StoreArgs(at, args, st.b, e);
      st := Recorded(st, e);
    }

    /** The macro stores each argument in the event. */
    method StoreArgs(at: nat, args: seq<nat>, ghost b: seq<nat>, ghost e: Event)
      requires args == e.args && at + |Words(e)| < |b| == base.Length && base[..] == Stored(b, at, e, 0)
      modifies base
      ensures base[..] == Put(b, at, e)
    {
      for i := 0 to |args|
        invariant base[..] == Stored(b, at, e, i)
      {
        ghost var was := base[..];
        base[at + HEADER + i] := args[i];
        assert base[..] == was[at + HEADER + i := args[i]];
        StoreOne(b, at, e, i);
      }
      AllStored(b, at, e);
    }

    // -------------------------------------------------------------- Reading

    /** Finds the segment with the oldest events: the first one that is older than the one at the start. */
    method FindOldest() returns (off: nat)
      requires Valid()
      ensures Start(st) < SEGMENTS && off == Base(Start(st))
    {
      FirstWords(st, sites, 0);
      var oldest, k := base[2], 0;
      while 8192 * k <= LAST_HEADER
        invariant 0 < k ==> st.segs[0] != []
        invariant k <= st.cur + 1
        decreases SEGMENTS - k
      {
        FirstWords(st, sites, k);
        OldestFound(st, sites, k);
        if base[Base(k)] == 0 {
          return 0;
        }
        if base[Base(k) + 2] < oldest {
          return Base(k);
        }
        k := k + 1;
      }
      off := 0;
    }

    /** Reads the events, oldest first, and stops where it started. */
    method PrintTrace() returns (ret: Errno, events: seq<Event>)
      requires Valid()
      ensures ret == OK && events == st.Live() && IsSuffix(events, st.hist)
    {
      LiveIsSuffix(st, sites);
      VisitsLive(st, sites);
      ReadStarts(st, sites);
      var start := FindOldest();
      var pos: nat := start;
      events := [];
      ghost var n, j := 0, 0;
      while true
        invariant Reading(st, n, j, pos, events)
        decreases SEGMENTS - n, if pos == BUFFER then 1 else 0, BUFFER - pos
      {
        if pos >= base.Length {
          ReadWraps(st, sites, n, j, pos, events);
          pos := 0;
        } else if base[pos] == 0 {
          ReadSkips(st, sites, n, j, pos, events);
          pos := RoundUp(pos + 1);
          n, j := n + 1, 0;
        } else {
          ReadsOne(st, sites, n, j, pos, events);
          if base[pos] >= |sites| {
            return EINVAL, events;
          }
          var e := ReadEvent(pos);
          WordsTell(e, st.segs[SegmentAt(Start(st), n)][j]);
          events := events + [e];
          pos := pos + HEADER + sites[e.nr];
          j := j + 1;
        }
        if pos == start {
          break;
        }
      }
      ret := OK;
    }

    method ReadEvent(pos: nat) returns (e: Event)
      requires pos < base.Length && base[pos] < |sites| && pos + HEADER + sites[base[pos]] <= base.Length
      ensures Words(e) == base[pos..pos + HEADER + sites[base[pos]]] && e.nr == base[pos] && |e.args| == sites[base[pos]]
    {
      e := Event(base[pos], base[pos + 1], base[pos + 2], base[pos + HEADER..pos + HEADER + sites[base[pos]]]);
    }
  }

  /** The last place at which an event's header of 24 bytes could be, as the search has it. */
  const LAST_HEADER := 16 * 1024 * 1024 / 24 * 24

  /** What the search makes of the segment at k, none of those before it being older than the first. */
  lemma OldestFound(st: State, sites: seq<nat>, k: nat)
    requires RingOk(st, sites) && k < SEGMENTS && k <= st.cur + 1 && (k > 0 ==> st.segs[0] != [])
    ensures st.segs[k] == [] ==> Start(st) == 0
    ensures st.segs[k] != [] && k > 0 && st.segs[k][0].time < st.segs[0][0].time ==> Start(st) == k
    ensures st.segs[k] != [] && k > 0 && st.segs[k][0].time >= st.segs[0][0].time ==> k <= st.cur
    ensures k == st.cur + 1 && st.segs[k] != [] ==> st.segs[k][0].time < st.segs[0][0].time
  {
    assert Look(0);
    if k > 0 && st.segs[k] != [] {
      OlderIsBehind(st, sites, k);
    }
  }

  lemma WordsTell(e: Event, f: Event)
    requires Words(e) == Words(f)
    ensures e == f
  {
    assert Words(e)[0] == e.nr && Words(e)[1] == e.task && Words(e)[2] == e.time;
    assert e.args == Words(e)[HEADER..] && f.args == Words(f)[HEADER..];
  }

  lemma HeaderStored(b: seq<nat>, at: nat, e: Event)
    requires at + |Words(e)| < |b|
    ensures b[at := e.nr][at + 1 := e.task][at + 2 := e.time][at + |Words(e)| := 0] == Stored(b, at, e, 0)
  {
  }

  /** The buffer once the header, the end mark and the first i arguments are stored. */
  ghost function Stored(b: seq<nat>, at: nat, e: Event, i: nat): seq<nat>
    requires at + |Words(e)| < |b| && i <= |e.args|
  {
    b[..at] + [e.nr, e.task, e.time] + e.args[..i] + b[at + HEADER + i..at + |Words(e)|] + [0] + b[at + |Words(e)| + 1..]
  }

  lemma StoreOne(b: seq<nat>, at: nat, e: Event, i: nat)
    requires at + |Words(e)| < |b| && i < |e.args|
    ensures Stored(b, at, e, i)[at + HEADER + i := e.args[i]] == Stored(b, at, e, i + 1)
  {
  }

  lemma AllStored(b: seq<nat>, at: nat, e: Event)
    requires at + |Words(e)| < |b|
    ensures Stored(b, at, e, |e.args|) == Put(b, at, e)
  {
  }

  lemma EmptyRing(b: seq<nat>, sites: seq<nat>)
    requires |b| == BUFFER && forall i :: 0 <= i < |b| ==> b[i] == 0
    ensures RingOk(State(b, seq(SEGMENTS, _ => []), 0, 0, false, []), sites)
  {
    var segs: seq<seq<Event>> := seq(SEGMENTS, _ => []);
    forall k ensures SegmentOk(b, sites, segs, k) {
      if 0 <= k < |segs| {
        assert Base(k + 1) <= BUFFER;
      }
    }
    FlatEmpty(Ring(segs, 0));
  }

  /** Where the code finds room for an event is where it goes: behind the current segment's, or at the next segment's start. */
  lemma FindsRoom(st: State, sites: seq<nat>, e: Event)
    requires RingOk(st, sites) && EventOk(sites, e)
    ensures var size, remaining := |Words(e)|, SEGMENT - Offset(st.pos);
      var moved := if size + 1 > remaining then st.pos + remaining else st.pos;
      var at := if moved == |st.b| then 0 else moved;
      at == Place(st, e) && at + size < |st.b|
  {
    var off := Written(st, sites);
    RoomNumbers(st.cur, off, st.pos, |Words(e)|);
    assert AllWords([]) == [];
  }

  /** How much of the current segment is written. */
  lemma Written(st: State, sites: seq<nat>) returns (off: nat)
    requires RingOk(st, sites)
    ensures off == |AllWords(st.segs[st.cur])| < SEGMENT && st.pos == Base(st.cur) + off
  {
    assert Look(0);
    assert SegmentOk(st.b, sites, st.segs, st.cur);
    off := |AllWords(st.segs[st.cur])|;
  }

  lemma RoomNumbers(cur: nat, off: nat, pos: nat, size: nat)
    requires cur < SEGMENTS && off < SEGMENT && pos == Base(cur) + off && size + 1 <= SEGMENT
    ensures var remaining := SEGMENT - Offset(pos);
      var moved := if size + 1 > remaining then pos + remaining else pos;
      var at := if moved == BUFFER then 0 else moved;
      && at == (if off + size + 1 <= SEGMENT then Base(cur) + off else if cur + 1 == SEGMENTS then 0 else Base(cur + 1))
      && at + size < BUFFER
  {
    assert Offset(pos) == off;
  }
}
