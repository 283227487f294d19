/**
 Releases at the lock server (devd/rlock.c:255-266, 493-541): a client that goes down to a mode on its own
 while it is asked to go down to SH_RD leaves that revoke pending with nobody in its way. Whether the
 invariant holds after the requests have been processed depends on what is in the queue.
 */
module RlockRelease {
  import opened RlockModes

  // ---------------------------------------------------------------- The condition

  /** The queue's first writer is another client than id, and meets it reading: from the start, or by an earlier request. */
  predicate MeetsWriter(q: seq<Request>, id: Id, reading: bool) {
    if q == [] then false
    else if q[0].mode == EX_WR then reading && q[0].client != id
    else MeetsWriter(q[1..], id, reading || q[0].client == id)
  }

  /** The queue begins with requests of client c, alone so far and with mode last; then the first writer meets id reading. */
  predicate AloneThenMeets(q: seq<Request>, c: Id, last: Mode, id: Id) {
    if q == [] then false
    else if q[0].client == c then AloneThenMeets(q[1..], c, q[0].mode, id)
    else last == SH_RD && MeetsWriter(q, id, false)
  }

  /** Whether the handlers' invariant survives a release by the client at index i. */
  predicate ReleaseFits(l: Lists, i: nat, mode: Mode)
    requires i < |l.granted|
  {
    var id := l.granted[i].id;
    || l.granted[i].revoked != SH_RD
    || (l.queue != [] && if mode == SH_RD then MeetsWriter(l.queue, id, true) else AloneThenMeets(l.queue[1..], l.queue[0].client, SH_RD, id))
  }

  /** No client asks for a mode again that it has asked for before, or for a lower one. */
  ghost predicate RisingRequests(q: seq<Request>) {
    forall i, j :: 0 <= i < j < |q| && q[i].client == q[j].client ==> q[i].mode < q[j].mode
  }

  /** When each client's requests rise, the condition is just about the first writer in the queue. */
  lemma RisingFits(l: Lists, i: nat, mode: Mode)
    requires Inv(l) && i < |l.granted| && l.granted[i].revoked == SH_RD && RisingRequests(l.queue)
    ensures ReleaseFits(l, i, mode) <==> l.queue != [] && MeetsWriter(l.queue, l.granted[i].id, mode == SH_RD)
  {
    assert l.granted[i] in l.granted;
    if l.queue != [] {
      var q := l.queue;
      assert Blocks(l.granted[i], q[0]) && q[0].mode == SH_RD;
      if |q| > 1 && q[1].client == q[0].client {
        assert q[1].mode == EX_WR;
        assert |q| > 2 ==> q[2].client != q[0].client;
        assert q[1..][0] == q[1] && q[1..][1..] == q[2..];
        assert !AloneThenMeets(q[2..], q[0].client, EX_WR, l.granted[i].id);
        assert !MeetsWriter(q[1..], l.granted[i].id, false);
      }
    }
  }

  // ---------------------------------------------------------------- A revoke that nobody is waiting for

  /** Client id has mode m, and a revoke to SH_RD pending although that is no more than it has; no one else has one. */
  ghost predicate Stray(l: Lists, id: Id, m: Mode) {
    && GoodLists(l) && m <= SH_RD && Client(id, m, SH_RD) in l.granted
    && forall x :: x in l.granted && x.id != id ==> x.revoked == NULL
  }

  lemma StrayOne(l: Lists, id: Id, m: Mode, x: Client)
    requires Stray(l, id, m) && x in l.granted && x.id == id
    ensures x == Client(id, m, SH_RD)
  {
    Found(l.granted, x);
    Found(l.granted, Client(id, m, SH_RD));
  }

  lemma {:induction false} ScanSees(g: seq<Client>, req: Request)
    requires Sorted(g)
    ensures Scan(g, req).saw <==> Blocked(g, req)
    decreases |g|
  {
    if g != [] {
      RestOf(g, req);
      if g[0].id != req.client && Compatible(g[0].granted, req.mode) {
        RestCompatible(g, req);
      } else {
        ScanSees(g[1..], req);
      }
    }
  }

  /** The scan leaves those alone who are not in the way. */
  lemma {:induction false} ScanSpares(g: seq<Client>, req: Request, x: Client)
    requires x in g && !Blocks(x, req)
    ensures x in Scan(g, req).g
    decreases |g|
  {
    if x != g[0] {
      var j :| 0 <= j < |g| && g[j] == x;
      assert g[1..][j - 1] == x;
      ScanSpares(g[1..], req, x);
    }
  }

  lemma {:induction false} ScanFree(g: seq<Client>, req: Request)
    requires !Blocked(g, req)
    ensures Scan(g, req) == Scanned(g, [], false)
    decreases |g|
  {
    if g != [] {
      RestOf(g, req);
      ScanFree(g[1..], req);
      assert [g[0]] + g[1..] == g;
    }
  }

  /** If no one has been told yet, the scan tells everyone in the way. */
  lemma {:induction false} ScanTellsAll(g: seq<Client>, req: Request)
    requires Sorted(g) && forall x :: x in g ==> x.revoked != MostCompatible(req.mode)
    ensures Scan(g, req).g == RevokeAll(g, req)
    decreases |g|
  {
    if g != [] {
      assert g[0] in g;
      RestOf(g, req);
      var rest := g[1..];
      assert forall x :: x in rest ==> x in g;
      if g[0].id != req.client && Compatible(g[0].granted, req.mode) {
        RestCompatible(g, req);
      } else {
        ScanTellsAll(rest, req);
        assert RevokeAll(g, req) == [RevokeOne(g[0], req)] + RevokeAll(rest, req);
      }
    }
  }

  /** The head is blocked, but not by id: its revoke has no reason then. */
  lemma StrayStays(l: Lists, id: Id, m: Mode, x: Client)
    requires Stray(l, id, m) && l.queue != [] && x in l.granted && Blocks(x, l.queue[0])
    requires l.queue[0].client == id || m <= NONE
    ensures !Inv(Process(l).l)
  {
    var req, e := l.queue[0], Client(id, m, SH_RD);
    assert Blocked(l.granted, req);
    ScanSees(l.granted, req);
    ScanSpares(l.granted, req, e);
    ProcessNext(l);
    assert e in Process(l).l.granted && !Blocks(e, req);
  }

  /** The queue is empty: nothing should be pending. */
  lemma StrayAtEnd(l: Lists, id: Id, m: Mode)
    requires Stray(l, id, m) && l.queue == []
    ensures !Inv(Process(l).l)
  {
    assert Client(id, m, SH_RD) in Process(l).l.granted;
  }

  /** Everyone whom a writer has to wait for is told, as no one has been yet. */
  lemma WriterTells(l: Lists, id: Id, req: Request)
    requires Stray(l, id, SH_RD) && req.mode == EX_WR && req.client != id
    ensures AllPending(RevokeAll(l.granted, req), req)
  {
    var g := l.granted;
    RevokedIn(g, req);
    forall y | y in RevokeAll(g, req) ensures y.revoked == if Blocks(y, req) then NONE else NULL {
      var x :| x in g && y == RevokeOne(x, req);
      if x.id == id {
        StrayOne(l, id, SH_RD, x);
      }
    }
  }

  /** A writer meets id reading: the revoke is replaced by one that has a reason. */
  lemma StrayReplaced(l: Lists, id: Id)
    requires Stray(l, id, SH_RD) && l.queue != [] && l.queue[0].mode == EX_WR && l.queue[0].client != id
    ensures Inv(Process(l).l)
  {
    var g, req, e := l.granted, l.queue[0], Client(id, SH_RD, SH_RD);
    assert Blocks(e, req) && Blocked(g, req);
    ScanSees(g, req);
    ScanTellsAll(g, req);
    ProcessNext(l);
    OnlyRevoked(g, req);
    WriterTells(l, id, req);
    RevokedIn(g, req);
    assert RevokeOne(e, req) in RevokeAll(g, req) && Blocks(RevokeOne(e, req), req);
  }

  /** The head is granted, and the rest processed. */
  lemma StrayGoesOn(l: Lists, id: Id, m: Mode)
    requires Stray(l, id, m) && l.queue != [] && !Blocked(l.granted, l.queue[0])
    requires l.queue[0].client == id ==> l.queue[0].mode == SH_RD
    ensures Stray(GrantHead(l), id, if l.queue[0].client == id then SH_RD else m)
    ensures Process(l).l == Process(GrantHead(l)).l
    ensures forall c {:trigger Entry(GrantHead(l).granted, c)} ::
      Entry(GrantHead(l).granted, c).granted == if c == l.queue[0].client then l.queue[0].mode else Entry(l.granted, c).granted
  {
    var req := l.queue[0];
    ScanFree(l.granted, req);
    ProcessNext(l);
    GrantGood(l);
    Found(l.granted, Client(id, m, SH_RD));
    forall c ensures Entry(GrantHead(l).granted, c).granted == if c == req.client then req.mode else Entry(l.granted, c).granted {
      EntryAfter(l, c);
    }
    var cl := Entry(l.granted, req.client).(granted := req.mode);
    if req.client != id {
      NullEntry(l, id, m, req.client);
    }
    assert forall x :: x in GrantHead(l).granted && x.id != id ==> x.revoked == NULL;
  }

  lemma NullEntry(l: Lists, id: Id, m: Mode, c: Id)
    requires Stray(l, id, m) && c != id
    ensures Entry(l.granted, c).revoked == NULL
  {
    if IndexOf(l.granted, c) < |l.granted| {
      assert Entry(l.granted, c) in l.granted;
    }
  }

  lemma EntryAfter(l: Lists, c: Id)
    requires GoodLists(l) && l.queue != [] && !Blocked(l.granted, l.queue[0])
    ensures Entry(GrantHead(l).granted, c).granted == if c == l.queue[0].client then l.queue[0].mode else Entry(l.granted, c).granted
  {
    var g, g', req := l.granted, GrantHead(l).granted, l.queue[0];
    GrantGood(l);
    if c == req.client {
      Found(g', Entry(g, c).(granted := req.mode));
    } else if IndexOf(g, c) < |g| {
      assert Entry(g, c) in g;
      Found(g', Entry(g, c));
    } else {
      forall k | 0 <= k < |g'| ensures g'[k].id != c {
        assert g'[k] in g';
      }
    }
  }

  // ---------------------------------------------------------------- The requests that are granted meanwhile

  /** A client with this entry. */
  ghost predicate Reads(l: Lists, c: Id) {
    Entry(l.granted, c).granted >= SH_RD
  }

  lemma ReadsIn(l: Lists, c: Id)
    requires Reads(l, c)
    ensures Entry(l.granted, c) in l.granted && Entry(l.granted, c).id == c
  {
  }

  /** Two readers keep all others from writing. */
  lemma NoWriters(l: Lists, c: Id, d: Id, req: Request)
    requires GoodLists(l) && Reads(l, c) && Reads(l, d) && c != d && req.mode == SH_RD
    ensures !Blocked(l.granted, req)
  {
    ReadsIn(l, c);
    ReadsIn(l, d);
    forall x | x in l.granted ensures !Blocks(x, req) {
      CompatibleMeans(x.granted, Entry(l.granted, c).granted);
      CompatibleMeans(x.granted, Entry(l.granted, d).granted);
      CompatibleMeans(Entry(l.granted, c).granted, Entry(l.granted, d).granted);
      Found(l.granted, x);
    }
  }

  lemma StrayEntry(l: Lists, id: Id, m: Mode)
    requires Stray(l, id, m)
    ensures Entry(l.granted, id) == Client(id, m, SH_RD)
  {
    Found(l.granted, Client(id, m, SH_RD));
  }

  /** id reading, beside another client c that does. */
  lemma {:induction false} StrayReads(l: Lists, id: Id, c: Id)
    requires Stray(l, id, SH_RD) && c != id && Reads(l, c)
    ensures Inv(Process(l).l) <==> MeetsWriter(l.queue, id, true)
    decreases |l.queue|
  {
    StrayEntry(l, id, SH_RD);
    if l.queue == [] {
      StrayAtEnd(l, id, SH_RD);
    } else if l.queue[0].mode == SH_RD {
      NoWriters(l, id, c, l.queue[0]);
      StrayGoesOn(l, id, SH_RD);
      StrayReads(GrantHead(l), id, c);
    } else if l.queue[0].client == id {
      ReadsIn(l, c);
      StrayStays(l, id, SH_RD, Entry(l.granted, c));
    } else {
      StrayReplaced(l, id);
    }
  }

  /** id does not read, but two other clients do. */
  lemma {:induction false} StrayIdle(l: Lists, id: Id, m: Mode, c: Id, d: Id)
    requires Stray(l, id, m) && m <= NONE && c != id && d != id && c != d && Reads(l, c) && Reads(l, d)
    ensures Inv(Process(l).l) <==> MeetsWriter(l.queue, id, false)
    decreases |l.queue|
  {
    if l.queue == [] {
      StrayAtEnd(l, id, m);
    } else if l.queue[0].mode == SH_RD {
      NoWriters(l, c, d, l.queue[0]);
      StrayGoesOn(l, id, m);
      if l.queue[0].client == id {
        StrayReads(GrantHead(l), id, c);
      } else {
        StrayIdle(GrantHead(l), id, m, c, d);
      }
    } else {
      var x := if l.queue[0].client == c then d else c;
      ReadsIn(l, x);
      StrayStays(l, id, m, Entry(l.granted, x));
    }
  }

  /** Client c has mode last, and no one else reading or writes. */
  ghost predicate Alone(l: Lists, c: Id, last: Mode) {
    last >= SH_RD && Entry(l.granted, c).granted == last && forall x :: x in l.granted && x.id != c ==> x.granted <= NONE
  }

  lemma {:induction false} StrayAlone(l: Lists, id: Id, m: Mode, c: Id, last: Mode)
    requires Stray(l, id, m) && m <= NONE && c != id && Alone(l, c, last)
    ensures Inv(Process(l).l) <==> AloneThenMeets(l.queue, c, last, id)
    decreases |l.queue|
  {
    if l.queue == [] {
      StrayAtEnd(l, id, m);
      return;
    }
    var req := l.queue[0];
    ReadsIn(l, c);
    if req.client == c {
      AloneGoesOn(l, id, m, c, last);
      StrayAlone(GrantHead(l), id, m, c, req.mode);
    } else if last == EX_WR || req.mode == EX_WR {
      StrayStays(l, id, m, Entry(l.granted, c));
    } else {
      forall x | x in l.granted ensures !Blocks(x, req) {
        Found(l.granted, x);
      }
      StrayGoesOn(l, id, m);
      if req.client == id {
        StrayReads(GrantHead(l), id, c);
      } else {
        StrayIdle(GrantHead(l), id, m, c, req.client);
      }
    }
  }

  lemma AloneGoesOn(l: Lists, id: Id, m: Mode, c: Id, last: Mode)
    requires Stray(l, id, m) && m <= NONE && c != id && Alone(l, c, last) && l.queue != [] && l.queue[0].client == c
    ensures Stray(GrantHead(l), id, m) && Alone(GrantHead(l), c, l.queue[0].mode) && Process(l).l == Process(GrantHead(l)).l
  {
    forall x | x in l.granted ensures !Blocks(x, l.queue[0]) {
    }
    StrayGoesOn(l, id, m);
    GrantGood(l);
  }

  // ---------------------------------------------------------------- Releases

  /** What the lists are when a writer that is asked to go down to SH_RD releases its mode. */
  lemma ReleasedIsStray(l: Lists, i: nat, mode: Mode)
    requires Inv(l) && i < |l.granted| && mode < l.granted[i].granted && l.granted[i].revoked == SH_RD
    ensures l.queue != [] && l.queue[0].mode == SH_RD && l.queue[0].client != l.granted[i].id && mode <= SH_RD
    ensures Stray(Released(l, i, mode), l.granted[i].id, mode) && Released(l, i, mode).queue == l.queue
    ensures forall x :: x in Released(l, i, mode).granted && x.id != l.granted[i].id ==> x.granted <= NONE
  {
    var was := l.granted[i];
    assert was in l.granted && Blocks(was, l.queue[0]);
    Lowered(l, i, was.(granted := mode));
    forall x | x in l.granted && x.id != was.id ensures x.granted <= NONE && x.revoked == NULL {
      CompatibleMeans(x.granted, was.granted);
    }
  }

  /** A release keeps the handlers' invariant if and only if the condition holds. */
  lemma ReleaseKeeps(l: Lists, i: nat, mode: Mode)
    requires Inv(l) && i < |l.granted| && mode < l.granted[i].granted
    ensures Inv(AfterRelease(l, i, mode)) <==> ReleaseFits(l, i, mode)
  {
    if l.granted[i].revoked != SH_RD {
      ReleaseReady(l, i, mode);
      ProcessKeeps(Released(l, i, mode));
    } else {
      var id, c, r := l.granted[i].id, l.queue[0].client, Released(l, i, mode);
      ReleasedIsStray(l, i, mode);
      forall x | x in r.granted ensures !Blocks(x, r.queue[0]) {
        if x.id == id {
          StrayOne(r, id, mode, x);
        }
      }
      StrayGoesOn(r, id, mode);
      if mode == SH_RD {
        StrayReads(GrantHead(r), id, c);
      } else {
        GrantGood(r);
        forall x | x in GrantHead(r).granted && x.id != c ensures x.granted <= NONE {
          if x.id == id {
            StrayOne(r, id, mode, x);
          }
        }
        StrayAlone(GrantHead(r), id, mode, c, SH_RD);
      }
    }
  }

  // ---------------------------------------------------------------- A release that races a revoke

  /**
   A run from the beginning. A writer releases its mode while it is asked to go down to SH_RD, and leaves that
   revoke pending for good. Once its confirm arrives the server counts the client as a reader beside another
   client that it has granted EX_WR.
   */
  lemma RaceBreaksGrants() returns (l0: Lists, l1: Lists, l2: Lists, l3: Lists, l4: Lists, l5: Lists)
    ensures l0 == AfterRequest(Lists([], []), 1, EX_WR)
    ensures l1 == AfterRequest(l0, 2, SH_RD)
    ensures |l1.granted| > 0 && l1.granted[0].revoked == SH_RD && l2 == AfterRelease(l1, 0, NULL)
    ensures !Inv(l2) && l3 == AfterRequest(l2, 3, EX_WR)
    ensures |l3.granted| > 0 && l4 == AfterConfirm(l3, 0)
    ensures |l4.granted| > 1 && l5 == AfterConfirm(l4, 1)
    ensures !AllCompatible(l5.granted)
  {
    var a, b, c := Client(1, EX_WR, NULL), Client(2, SH_RD, NULL), Client(3, EX_WR, NULL);
    l0 := AfterRequest(Lists([], []), 1, EX_WR);
    RaceStep0(a);
    var rb, rc := Request(2, SH_RD), Request(3, EX_WR);
    RaceStep1(a, rb);
    RaceStep2(a.(revoked := SH_RD), b, rb);
    RaceStep3(a.(granted := NULL, revoked := SH_RD), b, rc);
    RaceStep4(a.(granted := NULL, revoked := SH_RD), b.(revoked := NONE), c, rc);
    RaceStep5(a.(granted := NULL, revoked := SH_RD), c);
    l1 := AfterRequest(l0, 2, SH_RD);
    l2 := AfterRelease(l1, 0, NULL);
    assert l2.granted[1].revoked == SH_RD && l2.granted[1] in l2.granted;
    l3 := AfterRequest(l2, 3, EX_WR);
    l4 := AfterConfirm(l3, 0);
    l5 := AfterConfirm(l4, 1);
  }

  lemma RaceStep0(a: Client)
    requires a == Client(1, EX_WR, NULL)
    ensures AfterRequest(Lists([], []), 1, EX_WR) == Lists([a], [])
  {
    var r, none: seq<Client> := Request(1, EX_WR), [];
    assert Requested(Lists([], []), 1, EX_WR) == Lists(none, [r]);
    assert WithClient(none, 1) == [Client(1, NULL, NULL)];
    assert [Client(1, NULL, NULL)][0 := a] == [a];
    assert Granted(none, r) == [a];
    ProcessNext(Lists(none, [r]));
    assert Process(Lists([a], [])).l == Lists([a], []);
  }

  lemma RaceStep1(a: Client, rb: Request)
    requires a == Client(1, EX_WR, NULL) && rb == Request(2, SH_RD)
    ensures AfterRequest(Lists([a], []), 2, SH_RD) == Lists([a.(revoked := SH_RD)], [rb])
  {
    var l := Lists([a], [rb]);
    assert Requested(Lists([a], []), 2, SH_RD) == l;
    assert Scan([a], rb) == Scanned([a.(revoked := SH_RD)], [Revoke(1, SH_RD)], true);
  }

  lemma RaceStep2(a: Client, b: Client, rb: Request)
    requires a == Client(1, EX_WR, SH_RD) && b == Client(2, SH_RD, NULL) && rb == Request(2, SH_RD)
    ensures AfterRelease(Lists([a], [rb]), 0, NULL) == Lists([b, a.(granted := NULL)], [])
  {
    var a' := a.(granted := NULL);
    assert [a][0 := a'] == [a'];
    assert Released(Lists([a], [rb]), 0, NULL) == Lists([a'], [rb]);
    assert Scan([a'], rb) == Scanned([a'], [], false);
    var new' := Client(2, NULL, NULL);
    assert IndexOf([a'], 2) == 1;
    assert [a', new'][1 := b] == [a', b];
    assert Without([a', b], 1) == [a'];
    assert Granted([a'], rb) == [b, a'];
    assert Process(Lists([b, a'], [])).l == Lists([b, a'], []);
    ProcessNext(Lists([a'], [rb]));
  }

  lemma RaceStep3(a: Client, b: Client, rc: Request)
    requires a == Client(1, NULL, SH_RD) && b == Client(2, SH_RD, NULL) && rc == Request(3, EX_WR)
    ensures AfterRequest(Lists([b, a], []), 3, EX_WR) == Lists([b.(revoked := NONE), a], [rc])
  {
    assert Requested(Lists([b, a], []), 3, EX_WR) == Lists([b, a], [rc]);
    assert [b, a][1..] == [a];
    assert Scan([a], rc) == Scanned([a], [], false);
    assert Scan([b, a], rc).g == [b.(revoked := NONE)] + [a];
    ProcessNext(Lists([b, a], [rc]));
  }

  lemma RaceStep4(a: Client, b: Client, c: Client, rc: Request)
    requires a == Client(1, NULL, SH_RD) && b == Client(2, SH_RD, NONE) && c == Client(3, EX_WR, NULL) && rc == Request(3, EX_WR)
    ensures AfterConfirm(Lists([b, a], [rc]), 0) == Lists([c, a], [])
  {
    var b' := Client(2, NONE, NULL);
    assert [b, a][0 := b'] == [b', a];
    assert Without([b', a], 0) == [a];
    assert Confirmed(Lists([b, a], [rc]), 0) == Lists([a], [rc]);
    assert Scan([a], rc) == Scanned([a], [], false);
    var new' := Client(3, NULL, NULL);
    assert IndexOf([a], 3) == 1;
    assert [a, new'][1 := c] == [a, c];
    assert Without([a, c], 1) == [a];
    assert Granted([a], rc) == [c, a];
    assert Process(Lists([c, a], [])).l == Lists([c, a], []);
    ProcessNext(Lists([a], [rc]));
  }

  lemma RaceStep5(a: Client, c: Client)
    requires a == Client(1, NULL, SH_RD) && c == Client(3, EX_WR, NULL)
    ensures !AllCompatible(AfterConfirm(Lists([c, a], []), 1).granted)
  {
    var a' := Client(1, SH_RD, NULL);
    assert [c, a][1 := a'] == [c, a'];
    assert Confirmed(Lists([c, a], []), 1) == Lists([c, a'], []);
    var l := Process(Lists([c, a'], [])).l;
    assert l == Lists([c, a'], []);
    assert l.granted[0] == c && l.granted[1] == a' && c in l.granted && a' in l.granted;
  }
}
