/**
 Releases that reach the server while a revoke is pending with their client (devd/rlock.c:443-541).
 Two runs from the beginning, one with a revoke to NONE and one with a revoke to SH_RD, both end with
 one client reading while another one writes: the confirm that answers the old revoke is taken after
 the client has been granted a mode anew.
 */
module RlockRaces {
  import opened RlockModes
  import opened RlockProtocol

  // ---------------------------------------------------------------- Runs of two clients

  const IDLE := Peer(NULL, [], [], [])

  /** A run that ends in this state. */
  ghost predicate Reaches(ns: seq<Net>, races: set<Mode>, l: Lists, p: Peer, q: Peer) {
    Run(ns, races) && ns[|ns| - 1] == Net(l, [p, q])
  }

  lemma Extends(ns: seq<Net>, races: set<Mode>, n: Net) returns (ns': seq<Net>)
    requires Run(ns, races) && Step(ns[|ns| - 1], n, races)
    ensures Run(ns', races) && ns'[|ns'| - 1] == n
  {
    ns' := ns + [n];
    forall i | 0 <= i < |ns'| - 1 ensures Step(ns'[i], ns'[i + 1], races) {
      assert ns'[i] == ns[i] && (i + 1 < |ns| ==> ns'[i + 1] == ns[i + 1]);
    }
  }

  lemma Starts(races: set<Mode>) returns (ns: seq<Net>)
    ensures Reaches(ns, races, Lists([], []), IDLE, IDLE)
  {
    ns := [Net(Lists([], []), [IDLE, IDLE])];
  }

  /** Equal, part by part. */
  ghost predicate Same(p: Peer, p': Peer) {
    p.held == p'.held && p.asked == p'.asked && p.up == p'.up && p.down == p'.down
  }

  /** The first client takes a step. */
  lemma MovesFirst(ns: seq<Net>, races: set<Mode>, l: Lists, p: Peer, q: Peer, step: Peer, p': Peer) returns (ns': seq<Net>)
    requires Reaches(ns, races, l, p, q) && PeerStep(p, step) && Same(step, p')
    ensures Reaches(ns', races, l, p', q)
  {
    var n, n' := Net(l, [p, q]), Net(l, [p', q]);
    assert n.peers[0 := p'] == n'.peers && PeerStep(n.peers[0], p');
    assert n' == n.(peers := n.peers[0 := p']);
    assert ClientStep(n, n');
    ns' := Extends(ns, races, n');
  }

  lemma MovesSecond(ns: seq<Net>, races: set<Mode>, l: Lists, p: Peer, q: Peer, step: Peer, q': Peer) returns (ns': seq<Net>)
    requires Reaches(ns, races, l, p, q) && PeerStep(q, step) && Same(step, q')
    ensures Reaches(ns', races, l, p, q')
  {
    var n, n' := Net(l, [p, q]), Net(l, [p, q']);
    assert n.peers[1 := q'] == n'.peers && PeerStep(n.peers[1], q');
    assert n' == n.(peers := n.peers[1 := q']);
    assert ClientStep(n, n');
    ns' := Extends(ns, races, n');
  }

  /** A client that asks, and one that releases. */
  function Asks(p: Peer, m: Mode): (p': Peer)
    requires MayAsk(p, m)
    ensures PeerStep(p, p')
  {
    ClientAsks(p, m)
  }

  function LetsGo(p: Peer, m: Mode): (p': Peer)
    requires MayRelease(p, m)
    ensures PeerStep(p, p')
  {
    ClientReleases(p, m)
  }

  function Sent(p: Peer, msgs: seq<Msg>, c: Id): Peer {
    p.(down := p.down + MsgsTo(msgs, c))
  }

  lemma OneMessage(msg: Msg)
    ensures MsgsTo([msg], msg.to) == [match msg case Grant(_, m) => Granting(m) case Revoke(_, m) => Revoking(m)]
    ensures forall c: Id :: c != msg.to ==> MsgsTo([msg], c) == []
  {
    assert [msg][1..] == [];
    forall c: Id ensures MsgsTo([msg], c) == (if msg.to != c then [] else
        match msg case Grant(_, m) => [Granting(m)] case Revoke(_, m) => [Revoking(m)]) + MsgsTo([], c) {
    }
  }

  /** The lists after a message that the server accepts, before it processes requests. */
  ghost predicate Accepts(l: Lists, c: Id, u: Up, l': Lists) {
    var g, i := l.granted, IndexOf(l.granted, c);
    match u
    case Asking(m) => l' == Requested(l, c, m)
    case Confirming(m) => m < EX_WR && i < |g| && m <= g[i].revoked && l' == Confirmed(l, i)
    case Releasing(m) => m < EX_WR && i < |g| && m < g[i].granted && l' == Released(l, i, m)
  }

  /** The server takes a message of the first client. */
  lemma TakesFirst(ns: seq<Net>, races: set<Mode>, l: Lists, p: Peer, q: Peer, l': Lists, o: Outcome, p': Peer, q': Peer)
      returns (ns': seq<Net>)
    requires Reaches(ns, races, l, p, q) && p.up != [] && Accepts(l, 0, p.up[0], l') && Process(l') == o
    requires p.up[0].Releasing? ==> Entry(l.granted, 0).revoked in races
    requires Same(Sent(p.(up := p.up[1..]), o.msgs, 0), p') && Same(Sent(q, o.msgs, 1), q')
    ensures Reaches(ns', races, o.l, p', q')
  {
    var n, n', p0 := Net(l, [p, q]), Net(o.l, [p', q']), p.(up := p.up[1..]);
    assert n.peers[0 := p0] == [p0, q];
    assert Deliver([p0, q], o.msgs) == [p', q'];
    assert ServerTakes(n, 0) == n';
    assert ServerStep(n, 0, n');
    ns' := Extends(ns, races, n');
  }

  /** The server takes a message of the second client, not a release. */
  lemma TakesSecond(ns: seq<Net>, races: set<Mode>, l: Lists, p: Peer, q: Peer, l': Lists, o: Outcome, p': Peer, q': Peer)
      returns (ns': seq<Net>)
    requires Reaches(ns, races, l, p, q) && q.up != [] && !q.up[0].Releasing? && Accepts(l, 1, q.up[0], l') && Process(l') == o
    requires Same(Sent(p, o.msgs, 0), p') && Same(Sent(q.(up := q.up[1..]), o.msgs, 1), q')
    ensures Reaches(ns', races, o.l, p', q')
  {
    var n, n', q0 := Net(l, [p, q]), Net(o.l, [p', q']), q.(up := q.up[1..]);
    assert n.peers[1 := q0] == [p, q0];
    assert Deliver([p, q0], o.msgs) == [p', q'];
    assert ServerTakes(n, 1) == n';
    assert ServerStep(n, 1, n');
    ns' := Extends(ns, races, n');
  }

  // ---------------------------------------------------------------- What the server does in these runs

  /** The only client is granted its first request. */
  lemma GrantsFirst(c: Id, m: Mode)
    requires m != NULL
    ensures Process(Lists([], [Request(c, m)])) == Outcome(Lists([Client(c, m, NULL)], []), [Grant(c, m)])
  {
    var none: seq<Client>, req := [], Request(c, m);
    assert WithClient(none, c) == [Client(c, NULL, NULL)];
    assert [Client(c, NULL, NULL)][0 := Client(c, m, NULL)] == [Client(c, m, NULL)];
    assert Granted(none, req) == [Client(c, m, NULL)];
    GrantsLast(none, req, [Client(c, m, NULL)]);
  }

  /** The only request is granted. */
  lemma GrantsLast(g: seq<Client>, req: Request, g': seq<Client>)
    requires Scan(g, req) == Scanned(g, [], false) && Granted(g, req) == g' && Grants(g, req) == [Grant(req.client, req.mode)]
    ensures Process(Lists(g, [req])) == Outcome(Lists(g', []), [Grant(req.client, req.mode)])
  {
    ProcessNext(Lists(g, [req]));
    assert Process(Lists(g', [])) == Outcome(Lists(g', []), []);
    assert [req][1..] == [];
  }

  /** The other client's mode is in the way. */
  lemma RevokesOne(e: Client, req: Request)
    requires e.id != req.client && !Compatible(e.granted, req.mode) && e.revoked != MostCompatible(req.mode)
    ensures var to := MostCompatible(req.mode);
      Process(Lists([e], [req])) == Outcome(Lists([e.(revoked := to)], [req]), [Revoke(e.id, to)])
  {
    var to := MostCompatible(req.mode);
    assert [e][1..] == [];
    assert Scan([e], req) == Scanned([e.(revoked := to)], [Revoke(e.id, to)], true);
    ProcessNext(Lists([e], [req]));
  }

  /** A reader joins another reader, or one who holds nothing. */
  lemma GrantsReader(d: Client, c: Id)
    requires d.id != c && d.granted <= SH_RD
    ensures var e := Client(c, SH_RD, NULL);
      Process(Lists([d], [Request(c, SH_RD)])) == Outcome(Lists(if d.granted == SH_RD then [d, e] else [e, d], []), [Grant(c, SH_RD)])
  {
    var e, req := Client(c, SH_RD, NULL), Request(c, SH_RD);
    assert Scan([d], req) == Scanned([d], [], false);
    assert [d][1..] == [];
    assert IndexOf([d], c) == 1;
    assert WithClient([d], c) == [d, Client(c, NULL, NULL)];
    assert [d, Client(c, NULL, NULL)][1 := e] == [d, e];
    assert Without([d, e], 1) == [d];
    GrantsLast([d], req, if d.granted == SH_RD then [d, e] else [e, d]);
  }

  /** The only client is granted more. */
  lemma GrantsMore(c: Id)
    ensures Process(Lists([Client(c, SH_RD, NULL)], [Request(c, EX_WR)]))
      == Outcome(Lists([Client(c, EX_WR, NULL)], []), [Grant(c, EX_WR)])
  {
    var d, e, req := Client(c, SH_RD, NULL), Client(c, EX_WR, NULL), Request(c, EX_WR);
    assert [d][1..] == [] && [d] + [] == [d];
    assert Scan([d], req) == Scanned([d], [], false);
    assert [d][0 := e] == [e];
    GrantsLast([d], req, [e]);
  }

  /** Any two clients hold modes that go together. */
  ghost predicate KeptApart(n: Net) {
    forall a: Id, b: Id :: a < |n.peers| && b < |n.peers| && a != b ==> Compatible(n.peers[a].held, n.peers[b].held)
  }

  // ---------------------------------------------------------------- A release that crosses a revoke to NONE

  function Reader(c: Id): Client {
    Client(c, SH_RD, NULL)
  }

  function Writer(c: Id): Client {
    Client(c, EX_WR, NULL)
  }

  /** The first client reads, and the second one asks to write. */
  lemma WriterWaits(races: set<Mode>) returns (ns: seq<Net>)
    ensures Reaches(ns, races, Lists([Client(0, SH_RD, NONE)], [Request(1, EX_WR)]),
      Peer(SH_RD, [], [], [Revoking(NONE)]), Peer(NULL, [EX_WR], [], []))
  {
    var l0, l1, l2 := Lists([], []), Lists([Reader(0)], []), Lists([Client(0, SH_RD, NONE)], [Request(1, EX_WR)]);
    var p1, p2, p3 := Peer(NULL, [SH_RD], [Asking(SH_RD)], []), Peer(NULL, [SH_RD], [], [Granting(SH_RD)]), Peer(SH_RD, [], [], []);
    var p4, q4, q5 := Peer(SH_RD, [], [], [Revoking(NONE)]), Peer(NULL, [EX_WR], [Asking(EX_WR)], []), Peer(NULL, [EX_WR], [], []);
    OneMessage(Grant(0, SH_RD));
    OneMessage(Revoke(0, NONE));
    ns := Starts(races);
    ns := MovesFirst(ns, races, l0, IDLE, IDLE, Asks(IDLE, SH_RD), p1);
    GrantsFirst(0, SH_RD);
    ns := TakesFirst(ns, races, l0, p1, IDLE, Lists([], [Request(0, SH_RD)]), Outcome(l1, [Grant(0, SH_RD)]), p2, IDLE);
    ns := MovesFirst(ns, races, l1, p2, IDLE, ClientReceives(p2), p3);
    ns := MovesSecond(ns, races, l1, p3, IDLE, Asks(IDLE, EX_WR), q4);
    RevokesOne(Reader(0), Request(1, EX_WR));
    ns := TakesSecond(ns, races, l1, p3, q4, Lists([Reader(0)], [Request(1, EX_WR)]), Outcome(l2, [Revoke(0, NONE)]), p4, q5);
  }

  /** The first client releases its mode before it knows of the revoke, which so lets the second one write, and asks anew. */
  lemma ReaderAsksAnew(ns0: seq<Net>) returns (ns: seq<Net>)
    requires Reaches(ns0, {NONE}, Lists([Client(0, SH_RD, NONE)], [Request(1, EX_WR)]),
      Peer(SH_RD, [], [], [Revoking(NONE)]), Peer(NULL, [EX_WR], [], []))
    ensures Reaches(ns, {NONE}, Lists([Client(1, EX_WR, SH_RD)], [Request(0, SH_RD)]),
      Peer(NULL, [SH_RD], [], [Revoking(NONE)]), Peer(NULL, [EX_WR], [], [Granting(EX_WR), Revoking(SH_RD)]))
  {
    var l5, l7, l9 := Lists([Client(0, SH_RD, NONE)], [Request(1, EX_WR)]), Lists([Writer(1)], []), Lists([Client(1, EX_WR, SH_RD)], [Request(0, SH_RD)]);
    var p5, p6, p7 := Peer(SH_RD, [], [], [Revoking(NONE)]), Peer(NULL, [], [Releasing(NULL)], [Revoking(NONE)]), Peer(NULL, [], [], [Revoking(NONE)]);
    var p8, p9 := Peer(NULL, [SH_RD], [Asking(SH_RD)], [Revoking(NONE)]), Peer(NULL, [SH_RD], [], [Revoking(NONE)]);
    var q5, q7, q9 := Peer(NULL, [EX_WR], [], []), Peer(NULL, [EX_WR], [], [Granting(EX_WR)]), Peer(NULL, [EX_WR], [], [Granting(EX_WR), Revoking(SH_RD)]);
    OneMessage(Grant(1, EX_WR));
    OneMessage(Revoke(1, SH_RD));
    ns := MovesFirst(ns0, {NONE}, l5, p5, q5, LetsGo(p5, NULL), p6);
    assert Released(l5, 0, NULL) == Lists([], [Request(1, EX_WR)]);
    GrantsFirst(1, EX_WR);
    ns := TakesFirst(ns, {NONE}, l5, p6, q5, Lists([], [Request(1, EX_WR)]), Outcome(l7, [Grant(1, EX_WR)]), p7, q7);
    ns := MovesFirst(ns, {NONE}, l7, p7, q7, Asks(p7, SH_RD), p8);
    RevokesOne(Writer(1), Request(0, SH_RD));
    ns := TakesFirst(ns, {NONE}, l7, p8, q7, Lists([Writer(1)], [Request(0, SH_RD)]), Outcome(l9, [Revoke(1, SH_RD)]), p9, q9);
  }

  /** The writer goes down to reading beside it. */
  lemma BothRead(ns0: seq<Net>) returns (ns: seq<Net>)
    requires Reaches(ns0, {NONE}, Lists([Client(1, EX_WR, SH_RD)], [Request(0, SH_RD)]),
      Peer(NULL, [SH_RD], [], [Revoking(NONE)]), Peer(NULL, [EX_WR], [], [Granting(EX_WR), Revoking(SH_RD)]))
    ensures Reaches(ns, {NONE}, Lists([Reader(1), Reader(0)], []),
      Peer(NULL, [SH_RD], [], [Revoking(NONE), Granting(SH_RD)]), Peer(SH_RD, [], [], []))
  {
    var l9, l12 := Lists([Client(1, EX_WR, SH_RD)], [Request(0, SH_RD)]), Lists([Reader(1), Reader(0)], []);
    var p9, p12 := Peer(NULL, [SH_RD], [], [Revoking(NONE)]), Peer(NULL, [SH_RD], [], [Revoking(NONE), Granting(SH_RD)]);
    var q9, q10 := Peer(NULL, [EX_WR], [], [Granting(EX_WR), Revoking(SH_RD)]), Peer(EX_WR, [], [], [Revoking(SH_RD)]);
    var q11, q12 := Peer(SH_RD, [], [Confirming(SH_RD)], []), Peer(SH_RD, [], [], []);
    OneMessage(Grant(0, SH_RD));
    ns := MovesSecond(ns0, {NONE}, l9, p9, q9, ClientReceives(q9), q10);
    ns := MovesSecond(ns, {NONE}, l9, p9, q10, ClientReceives(q10), q11);
    assert Confirmed(l9, 0) == Lists([Reader(1)], [Request(0, SH_RD)]);
    GrantsReader(Reader(1), 0);
    ns := TakesSecond(ns, {NONE}, l9, p9, q11, Lists([Reader(1)], [Request(0, SH_RD)]), Outcome(l12, [Grant(0, SH_RD)]), p12, q12);
  }

  /** The first client's confirm of the old revoke is taken for an end to what it was granted since. */
  lemma ReaderForgotten(ns0: seq<Net>) returns (ns: seq<Net>)
    requires Reaches(ns0, {NONE}, Lists([Reader(1), Reader(0)], []),
      Peer(NULL, [SH_RD], [], [Revoking(NONE), Granting(SH_RD)]), Peer(SH_RD, [], [], []))
    ensures Reaches(ns, {NONE}, Lists([Writer(1)], []), Peer(SH_RD, [], [], []), Peer(EX_WR, [], [], []))
  {
    var l12, l15, l17 := Lists([Reader(1), Reader(0)], []), Lists([Reader(1)], []), Lists([Writer(1)], []);
    var p12, p13 := Peer(NULL, [SH_RD], [], [Revoking(NONE), Granting(SH_RD)]), Peer(NULL, [SH_RD], [Confirming(NULL)], [Granting(SH_RD)]);
    var p14, p15 := Peer(SH_RD, [], [Confirming(NULL)], []), Peer(SH_RD, [], [], []);
    var q12, q16, q17, q18 := p15, Peer(SH_RD, [EX_WR], [Asking(EX_WR)], []), Peer(SH_RD, [EX_WR], [], [Granting(EX_WR)]), Peer(EX_WR, [], [], []);
    OneMessage(Grant(1, EX_WR));
    ns := MovesFirst(ns0, {NONE}, l12, p12, q12, ClientReceives(p12), p13);
    ns := MovesFirst(ns, {NONE}, l12, p13, q12, ClientReceives(p13), p14);
    assert Confirmed(l12, 1) == l15;
    ns := TakesFirst(ns, {NONE}, l12, p14, q12, l15, Outcome(l15, []), p15, q12);
    ns := MovesSecond(ns, {NONE}, l15, p15, q12, Asks(q12, EX_WR), q16);
    GrantsMore(1);
    ns := TakesSecond(ns, {NONE}, l15, p15, q16, Lists([Reader(1)], [Request(1, EX_WR)]), Outcome(l17, [Grant(1, EX_WR)]), p15, q17);
    ns := MovesSecond(ns, {NONE}, l17, p15, q17, ClientReceives(q17), q18);
  }

  /** A release that crosses a revoke to NONE: in the end nothing is in flight, and one client reads while the other one writes. */
  lemma NoneRace() returns (ns: seq<Net>)
    ensures Reaches(ns, {NONE}, Lists([Writer(1)], []), Peer(SH_RD, [], [], []), Peer(EX_WR, [], [], []))
    ensures !KeptApart(ns[|ns| - 1])
  {
    ns := WriterWaits({NONE});
    ns := ReaderAsksAnew(ns);
    ns := BothRead(ns);
    ns := ReaderForgotten(ns);
    assert !Compatible(ns[|ns| - 1].peers[0].held, ns[|ns| - 1].peers[1].held);
  }

  // ---------------------------------------------------------------- A release that crosses a revoke to SH_RD

  /** The first client writes, and the second one asks to read. */
  lemma ReaderWaits(races: set<Mode>) returns (ns: seq<Net>)
    ensures Reaches(ns, races, Lists([Client(0, EX_WR, SH_RD)], [Request(1, SH_RD)]),
      Peer(EX_WR, [], [], [Revoking(SH_RD)]), Peer(NULL, [SH_RD], [], []))
  {
    var l0, l1, l2 := Lists([], []), Lists([Writer(0)], []), Lists([Client(0, EX_WR, SH_RD)], [Request(1, SH_RD)]);
    var p1, p2, p3 := Peer(NULL, [EX_WR], [Asking(EX_WR)], []), Peer(NULL, [EX_WR], [], [Granting(EX_WR)]), Peer(EX_WR, [], [], []);
    var p4, q4, q5 := Peer(EX_WR, [], [], [Revoking(SH_RD)]), Peer(NULL, [SH_RD], [Asking(SH_RD)], []), Peer(NULL, [SH_RD], [], []);
    OneMessage(Grant(0, EX_WR));
    OneMessage(Revoke(0, SH_RD));
    ns := Starts(races);
    ns := MovesFirst(ns, races, l0, IDLE, IDLE, Asks(IDLE, EX_WR), p1);
    GrantsFirst(0, EX_WR);
    ns := TakesFirst(ns, races, l0, p1, IDLE, Lists([], [Request(0, EX_WR)]), Outcome(l1, [Grant(0, EX_WR)]), p2, IDLE);
    ns := MovesFirst(ns, races, l1, p2, IDLE, ClientReceives(p2), p3);
    ns := MovesSecond(ns, races, l1, p3, IDLE, Asks(IDLE, SH_RD), q4);
    RevokesOne(Writer(0), Request(1, SH_RD));
    ns := TakesSecond(ns, races, l1, p3, q4, Lists([Writer(0)], [Request(1, SH_RD)]), Outcome(l2, [Revoke(0, SH_RD)]), p4, q5);
  }

  /** The first client releases its mode before it knows of the revoke, which so lets the second one read. */
  lemma WriterLetsGo(ns0: seq<Net>) returns (ns: seq<Net>)
    requires Reaches(ns0, {SH_RD}, Lists([Client(0, EX_WR, SH_RD)], [Request(1, SH_RD)]),
      Peer(EX_WR, [], [], [Revoking(SH_RD)]), Peer(NULL, [SH_RD], [], []))
    ensures Reaches(ns, {SH_RD}, Lists([Reader(1), Client(0, NULL, SH_RD)], []),
      Peer(NULL, [], [], [Revoking(SH_RD)]), Peer(SH_RD, [], [], []))
  {
    var l5, l7 := Lists([Client(0, EX_WR, SH_RD)], [Request(1, SH_RD)]), Lists([Reader(1), Client(0, NULL, SH_RD)], []);
    var p5, p6, p7 := Peer(EX_WR, [], [], [Revoking(SH_RD)]), Peer(NULL, [], [Releasing(NULL)], [Revoking(SH_RD)]), Peer(NULL, [], [], [Revoking(SH_RD)]);
    var q5, q7, q8 := Peer(NULL, [SH_RD], [], []), Peer(NULL, [SH_RD], [], [Granting(SH_RD)]), Peer(SH_RD, [], [], []);
    OneMessage(Grant(1, SH_RD));
    ns := MovesFirst(ns0, {SH_RD}, l5, p5, q5, LetsGo(p5, NULL), p6);
    var l6 := Lists([Client(0, NULL, SH_RD)], [Request(1, SH_RD)]);
    assert Released(l5, 0, NULL) == l6;
    GrantsReader(Client(0, NULL, SH_RD), 1);
    ns := TakesFirst(ns, {SH_RD}, l5, p6, q5, l6, Outcome(l7, [Grant(1, SH_RD)]), p7, q7);
    ns := MovesSecond(ns, {SH_RD}, l7, p7, q7, ClientReceives(q7), q8);
  }

  /** A client in whose way no one is, not even itself with a revoke pending, is granted the mode to read. */
  lemma GrantsPending()
    ensures Process(Lists([Reader(1), Client(0, NULL, SH_RD)], [Request(0, SH_RD)]))
      == Outcome(Lists([Reader(1), Client(0, SH_RD, SH_RD)], []), [Grant(0, SH_RD)])
  {
    var g, g', req := [Reader(1), Client(0, NULL, SH_RD)], [Reader(1), Client(0, SH_RD, SH_RD)], Request(0, SH_RD);
    assert g[1..] == [Client(0, NULL, SH_RD)];
    assert IndexOf(g, 0) == 1 && WithClient(g, 0) == g;
    assert g[1 := Client(0, SH_RD, SH_RD)] == g';
    assert Scan(g, req) == Scanned(g, [], false);
    GrantsLast(g, req, g');
  }

  /** A writer's request has a second revoke sent to the other reader, which has not answered the first. */
  lemma RevokesAgain()
    ensures Process(Lists([Reader(1), Client(0, SH_RD, SH_RD)], [Request(1, EX_WR)]))
      == Outcome(Lists([Reader(1), Client(0, SH_RD, NONE)], [Request(1, EX_WR)]), [Revoke(0, NONE)])
  {
    var e, e', req := Client(0, SH_RD, SH_RD), Client(0, SH_RD, NONE), Request(1, EX_WR);
    assert [e][1..] == [];
    assert Scan([e], req) == Scanned([e'], [Revoke(0, NONE)], true);
    assert [Reader(1), e][1..] == [e] && [Reader(1)] + [e'] == [Reader(1), e'];
    ProcessNext(Lists([Reader(1), e], [req]));
  }

  /** It is granted the mode to read anew. */
  lemma ReadsAnew(ns0: seq<Net>) returns (ns: seq<Net>)
    requires Reaches(ns0, {SH_RD}, Lists([Reader(1), Client(0, NULL, SH_RD)], []),
      Peer(NULL, [], [], [Revoking(SH_RD)]), Peer(SH_RD, [], [], []))
    ensures Reaches(ns, {SH_RD}, Lists([Reader(1), Client(0, SH_RD, SH_RD)], []),
      Peer(NULL, [SH_RD], [], [Revoking(SH_RD), Granting(SH_RD)]), Peer(SH_RD, [], [], []))
  {
    var l8, l10 := Lists([Reader(1), Client(0, NULL, SH_RD)], []), Lists([Reader(1), Client(0, SH_RD, SH_RD)], []);
    var p8, p9 := Peer(NULL, [], [], [Revoking(SH_RD)]), Peer(NULL, [SH_RD], [Asking(SH_RD)], [Revoking(SH_RD)]);
    var p10, q8 := Peer(NULL, [SH_RD], [], [Revoking(SH_RD), Granting(SH_RD)]), Peer(SH_RD, [], [], []);
    OneMessage(Grant(0, SH_RD));
    ns := MovesFirst(ns0, {SH_RD}, l8, p8, q8, Asks(p8, SH_RD), p9);
    GrantsPending();
    ns := TakesFirst(ns, {SH_RD}, l8, p9, q8, Lists(l8.granted, [Request(0, SH_RD)]), Outcome(l10, [Grant(0, SH_RD)]), p10, q8);
  }

  /** It is then asked to go down to NONE for the second client to write. */
  lemma TwoRevokes(ns0: seq<Net>) returns (ns: seq<Net>)
    requires Reaches(ns0, {SH_RD}, Lists([Reader(1), Client(0, SH_RD, SH_RD)], []),
      Peer(NULL, [SH_RD], [], [Revoking(SH_RD), Granting(SH_RD)]), Peer(SH_RD, [], [], []))
    ensures Reaches(ns, {SH_RD}, Lists([Reader(1), Client(0, SH_RD, NONE)], [Request(1, EX_WR)]),
      Peer(NULL, [SH_RD], [], [Revoking(SH_RD), Granting(SH_RD), Revoking(NONE)]), Peer(SH_RD, [EX_WR], [], []))
  {
    var l10 := Lists([Reader(1), Client(0, SH_RD, SH_RD)], []);
    var l12 := Lists([Reader(1), Client(0, SH_RD, NONE)], [Request(1, EX_WR)]);
    var p10 := Peer(NULL, [SH_RD], [], [Revoking(SH_RD), Granting(SH_RD)]);
    var p12 := Peer(NULL, [SH_RD], [], [Revoking(SH_RD), Granting(SH_RD), Revoking(NONE)]);
    var q8, q11, q12 := Peer(SH_RD, [], [], []), Peer(SH_RD, [EX_WR], [Asking(EX_WR)], []), Peer(SH_RD, [EX_WR], [], []);
    OneMessage(Revoke(0, NONE));
    ns := MovesSecond(ns0, {SH_RD}, l10, p10, q8, Asks(q8, EX_WR), q11);
    RevokesAgain();
    ns := TakesSecond(ns, {SH_RD}, l10, p10, q11, Lists(l10.granted, [Request(1, EX_WR)]), Outcome(l12, [Revoke(0, NONE)]), p12, q12);
  }

  /** Its answer to the first revoke is taken for one to the second. */
  lemma OneAnswer(ns0: seq<Net>) returns (ns: seq<Net>)
    requires Reaches(ns0, {SH_RD}, Lists([Reader(1), Client(0, SH_RD, NONE)], [Request(1, EX_WR)]),
      Peer(NULL, [SH_RD], [], [Revoking(SH_RD), Granting(SH_RD), Revoking(NONE)]), Peer(SH_RD, [EX_WR], [], []))
    ensures Reaches(ns, {SH_RD}, Lists([Writer(1)], []), Peer(SH_RD, [], [], [Revoking(NONE)]), Peer(EX_WR, [], [], []))
  {
    var l12, l15 := Lists([Reader(1), Client(0, SH_RD, NONE)], [Request(1, EX_WR)]), Lists([Writer(1)], []);
    var p12 := Peer(NULL, [SH_RD], [], [Revoking(SH_RD), Granting(SH_RD), Revoking(NONE)]);
    var p13 := Peer(NULL, [SH_RD], [Confirming(NULL)], [Granting(SH_RD), Revoking(NONE)]);
    var p14, p15 := Peer(SH_RD, [], [Confirming(NULL)], [Revoking(NONE)]), Peer(SH_RD, [], [], [Revoking(NONE)]);
    var q12, q15, q16 := Peer(SH_RD, [EX_WR], [], []), Peer(SH_RD, [EX_WR], [], [Granting(EX_WR)]), Peer(EX_WR, [], [], []);
    OneMessage(Grant(1, EX_WR));
    ns := MovesFirst(ns0, {SH_RD}, l12, p12, q12, ClientReceives(p12), p13);
    ns := MovesFirst(ns, {SH_RD}, l12, p13, q12, ClientReceives(p13), p14);
    var l14 := Lists([Reader(1)], [Request(1, EX_WR)]);
    assert Confirmed(l12, 1) == l14;
    GrantsMore(1);
    ns := TakesFirst(ns, {SH_RD}, l12, p14, q12, l14, Outcome(l15, [Grant(1, EX_WR)]), p15, q15);
    ns := MovesSecond(ns, {SH_RD}, l15, p15, q15, ClientReceives(q15), q16);
  }

  /** A release that crosses a revoke to SH_RD: in the end one client reads while the other one writes. */
  lemma ReadRace() returns (ns: seq<Net>)
    ensures Reaches(ns, {SH_RD}, Lists([Writer(1)], []), Peer(SH_RD, [], [], [Revoking(NONE)]), Peer(EX_WR, [], [], []))
    ensures !KeptApart(ns[|ns| - 1])
  {
    ns := ReaderWaits({SH_RD});
    ns := WriterLetsGo(ns);
    ns := ReadsAnew(ns);
    ns := TwoRevokes(ns);
    ns := OneAnswer(ns);
    assert !Compatible(ns[|ns| - 1].peers[0].held, ns[|ns| - 1].peers[1].held);
  }

  // ---------------------------------------------------------------- When clients are kept apart

  /** Clients are kept apart at every point of every run in which releases cross revokes to these modes only. */
  ghost predicate Excludes(races: set<Mode>) {
    forall ns: seq<Net>, i: nat {:trigger KeptApart(ns[i]), Run(ns, races)} :: Run(ns, races) && i < |ns| ==> KeptApart(ns[i])
  }

  lemma MoreRaces(ns: seq<Net>, races: set<Mode>, races': set<Mode>)
    requires Run(ns, races) && races <= races'
    ensures Run(ns, races')
  {
    forall i | 0 <= i < |ns| - 1 ensures Step(ns[i], ns[i + 1], races') {
      assert Step(ns[i], ns[i + 1], races);
    }
  }

  /** Mutual exclusion holds if and only if no release crosses a revoke, whichever mode it is to. */
  lemma ExclusionExactly(races: set<Mode>)
    ensures Excludes(races) <==> NONE !in races && SH_RD !in races
  {
    if NONE in races || SH_RD in races {
      var ns;
      if NONE in races {
        ns := NoneRace();
        MoreRaces(ns, {NONE}, races);
      } else {
        ns := ReadRace();
        MoreRaces(ns, {SH_RD}, races);
      }
    } else {
      forall ns: seq<Net>, i: nat | Run(ns, races) && i < |ns| ensures KeptApart(ns[i]) {
        forall a: Id, b: Id | a < |ns[i].peers| && b < |ns[i].peers| && a != b
          ensures Compatible(ns[i].peers[a].held, ns[i].peers[b].held) {
          MutualExclusion(ns, races, i, a, b);
        }
      }
    }
  }
}
