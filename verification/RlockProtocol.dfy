/**
 The lock protocol between the server (devd/rlock.c:30-34, 315-541) and any number of clients, over
 channels that keep messages in order. Clients ask for higher and higher modes, go down and confirm
 when asked to, and release modes on their own when they wait for no grant. However messages
 interleave, no two clients ever hold modes that do not go together, as long as no release reaches
 the server while a revoke is pending with its client. RlockRaces has what happens otherwise.
 */
module RlockProtocol {
  import opened RlockModes
  import opened Wrappers

  /** Messages to the server and from the server. */
  datatype Up = Asking(mode: Mode) | Confirming(mode: Mode) | Releasing(mode: Mode)
  datatype Down = Granting(mode: Mode) | Revoking(mode: Mode)

  /** A client: the mode that it holds, those it has asked for and not been granted, and its two channels. */
  datatype Peer = Peer(held: Mode, asked: seq<Mode>, up: seq<Up>, down: seq<Down>)

  /** The server's lists for one key, and the clients by number. */
  datatype Net = Net(l: Lists, peers: seq<Peer>)

  // ---------------------------------------------------------------- What is in flight

  function QueueAsks(q: seq<Request>, c: Id): seq<Mode> {
    if q == [] then [] else (if q[0].client == c then [q[0].mode] else []) + QueueAsks(q[1..], c)
  }

  function UpAsks(up: seq<Up>): seq<Mode> {
    if up == [] then [] else (if up[0].Asking? then [up[0].mode] else []) + UpAsks(up[1..])
  }

  function DownGrants(down: seq<Down>): seq<Mode> {
    if down == [] then [] else (if down[0].Granting? then [down[0].mode] else []) + DownGrants(down[1..])
  }

  /** The confirms on the way to the server. */
  function UpConfirms(up: seq<Up>): seq<Mode> {
    if up == [] then [] else (if up[0].Confirming? then [up[0].mode] else []) + UpConfirms(up[1..])
  }

  /** The releases on the way to the server. */
  function UpReleases(up: seq<Up>): seq<Mode> {
    if up == [] then [] else (if up[0].Releasing? then [up[0].mode] else []) + UpReleases(up[1..])
  }

  lemma {:induction false} QueueAsksAppend(q: seq<Request>, r: Request, c: Id)
    ensures QueueAsks(q + [r], c) == QueueAsks(q, c) + (if r.client == c then [r.mode] else [])
  {
    if q != [] {
      assert (q + [r])[1..] == q[1..] + [r];
      QueueAsksAppend(q[1..], r, c);
    } else {
      assert q + [r] == [r];
    }
  }

  lemma {:induction false} UpAsksAppend(up: seq<Up>, u: Up)
    ensures UpAsks(up + [u]) == UpAsks(up) + (if u.Asking? then [u.mode] else [])
  {
    if up != [] {
      assert (up + [u])[1..] == up[1..] + [u];
      UpAsksAppend(up[1..], u);
    } else {
      assert up + [u] == [u];
    }
  }

  lemma {:induction false} UpConfirmsAppend(up: seq<Up>, u: Up)
    ensures UpConfirms(up + [u]) == UpConfirms(up) + (if u.Confirming? then [u.mode] else [])
  {
    if up != [] {
      assert (up + [u])[1..] == up[1..] + [u];
      UpConfirmsAppend(up[1..], u);
    } else {
      assert up + [u] == [u];
    }
  }

  lemma {:induction false} UpReleasesAppend(up: seq<Up>, u: Up)
    ensures UpReleases(up + [u]) == UpReleases(up) + (if u.Releasing? then [u.mode] else [])
  {
    if up != [] {
      assert (up + [u])[1..] == up[1..] + [u];
      UpReleasesAppend(up[1..], u);
    } else {
      assert up + [u] == [u];
    }
  }

  lemma UpAppend(up: seq<Up>, u: Up)
    ensures UpAsks(up + [u]) == if u.Asking? then UpAsks(up) + [u.mode] else UpAsks(up)
    ensures UpConfirms(up + [u]) == if u.Confirming? then UpConfirms(up) + [u.mode] else UpConfirms(up)
    ensures UpReleases(up + [u]) == if u.Releasing? then UpReleases(up) + [u.mode] else UpReleases(up)
  {
    UpAsksAppend(up, u);
    UpConfirmsAppend(up, u);
    UpReleasesAppend(up, u);
    assert UpAsks(up) + [] == UpAsks(up) && UpConfirms(up) + [] == UpConfirms(up) && UpReleases(up) + [] == UpReleases(up);
  }

  lemma DownFirst(down: seq<Down>)
    requires down != []
    ensures DownGrants(down) == if down[0].Granting? then [down[0].mode] + DownGrants(down[1..]) else DownGrants(down[1..])
  {
    assert [] + DownGrants(down[1..]) == DownGrants(down[1..]);
  }

  /** The first message and the others. */
  lemma UpFirst(up: seq<Up>)
    requires up != []
    ensures UpAsks(up) == if up[0].Asking? then [up[0].mode] + UpAsks(up[1..]) else UpAsks(up[1..])
    ensures UpConfirms(up) == if up[0].Confirming? then [up[0].mode] + UpConfirms(up[1..]) else UpConfirms(up[1..])
    ensures UpReleases(up) == if up[0].Releasing? then [up[0].mode] + UpReleases(up[1..]) else UpReleases(up[1..])
  {
    assert [] + UpAsks(up[1..]) == UpAsks(up[1..]);
    assert [] + UpConfirms(up[1..]) == UpConfirms(up[1..]);
    assert [] + UpReleases(up[1..]) == UpReleases(up[1..]);
  }

  lemma {:induction false} DownAppend(down: seq<Down>, d: Down)
    ensures DownGrants(down + [d]) == DownGrants(down) + (if d.Granting? then [d.mode] else [])
  {
    if down != [] {
      assert (down + [d])[1..] == down[1..] + [d];
      DownAppend(down[1..], d);
    } else {
      assert down + [d] == [d];
    }
  }

  // ---------------------------------------------------------------- One client

  ghost predicate AllGrants(down: seq<Down>) {
    forall i :: 0 <= i < |down| ==> down[i].Granting?
  }

  ghost predicate Rising(s: seq<Mode>) {
    && (forall i :: 0 <= i < |s| ==> s[i] >= SH_RD)
    && forall i :: 0 <= i < |s| - 1 ==> s[i] < s[i + 1]
  }

  /** The mode that a client will hold once it has received every grant on its way. */
  function Coming(p: Peer): Mode {
    var grants := DownGrants(p.down);
    if grants == [] then p.held else grants[|grants| - 1]
  }

  /** Nothing is in front of a release but releases. */
  ghost predicate ReleasesFirst(up: seq<Up>) {
    up == [] || if up[0].Releasing? then ReleasesFirst(up[1..]) else UpReleases(up) == []
  }

  lemma {:induction false} FirstAppend(up: seq<Up>, u: Up)
    requires ReleasesFirst(up) && (u.Releasing? ==> UpAsks(up) == UpConfirms(up) == [])
    ensures ReleasesFirst(up + [u])
  {
    if up != [] {
      UpFirst(up);
      UpAppend(up, u);
      assert (up + [u])[1..] == up[1..] + [u];
      if up[0].Releasing? {
        FirstAppend(up[1..], u);
      }
    } else {
      assert [u][1..] == [];
    }
  }

  lemma NoneFirst(up: seq<Up>)
    requires UpReleases(up) == []
    ensures ReleasesFirst(up)
  {
  }

  /** A client that waits for no grant, and has confirmed what it was asked to, has only releases on their way. */
  lemma {:induction false} OnlyReleases(up: seq<Up>)
    requires UpAsks(up) == UpConfirms(up) == []
    ensures ReleasesFirst(up) && (UpReleases(up) == [] ==> up == [])
  {
    if up != [] {
      UpFirst(up);
      OnlyReleases(up[1..]);
    }
  }

  /** The releases lead down from mode m to mode h. */
  ghost predicate Descends(m: Mode, releases: seq<Mode>, h: Mode)
    decreases |releases|
  {
    if releases == [] then Rank(h) == Rank(m) else Rank(releases[0]) <= Rank(m) && Descends(releases[0], releases[1..], h)
  }

  /** No revoke is on its way, nor its confirm. */
  ghost predicate Quiet(e: Client, p: Peer) {
    AllGrants(p.down) && UpConfirms(p.up) == [] && ReleasesFirst(p.up) && Descends(e.granted, UpReleases(p.up), Coming(p))
  }

  /** A revoke is on its way, behind any grants. */
  ghost predicate Told(e: Client, p: Peer) {
    && p.down != [] && p.down[|p.down| - 1] == Revoking(e.revoked) && AllGrants(p.down[..|p.down| - 1])
    && UpConfirms(p.up) == UpReleases(p.up) == [] && Rank(Coming(p)) == Rank(e.granted)
  }

  /** Its confirm is on its way, before any release. */
  ghost predicate Answered(e: Client, p: Peer) {
    && p.down == [] && UpConfirms(p.up) == [e.revoked] && Descends(e.revoked, UpReleases(p.up), p.held)
    && (UpReleases(p.up) != [] ==> p.up[0] == Confirming(e.revoked) && ReleasesFirst(p.up[1..]))
  }

  /** The revoke crosses a release that was on its way. */
  ghost predicate Crossed(e: Client, p: Peer) {
    p.up != [] && p.up[0].Releasing? && Rank(p.held) <= Rank(e.granted)
  }

  ghost predicate PhaseOk(asks: seq<Mode>, e: Client, p: Peer) {
    && (UpReleases(p.up) != [] ==> asks == DownGrants(p.down) == [])
    && if e.revoked == NULL then Quiet(e, p) else Rank(e.revoked) < Rank(e.granted) && (Told(e, p) || Answered(e, p) || Crossed(e, p))
  }

  /** What a client has asked for is being granted, queued, or on its way to the server, in this order. */
  ghost predicate AsksOk(asks: seq<Mode>, p: Peer) {
    && p.asked == DownGrants(p.down) + asks + UpAsks(p.up)
    && Rising(p.asked)
    && (p.asked != [] ==> p.held < p.asked[0])
  }

  ghost predicate PeerOk(l: Lists, p: Peer, c: Id) {
    AsksOk(QueueAsks(l.queue, c), p) && PhaseOk(QueueAsks(l.queue, c), Entry(l.granted, c), p)
  }

  /** The server knows nothing of a client. */
  ghost predicate Unknown(l: Lists, c: Id) {
    Entry(l.granted, c) == Client(c, NULL, NULL)
  }

  ghost predicate PeersOk(n: Net) {
    && (forall c: Id {:trigger n.peers[c]} :: c < |n.peers| ==> PeerOk(n.l, n.peers[c], c))
    && (forall c: Id {:trigger Unknown(n.l, c)} :: c >= |n.peers| ==> Unknown(n.l, c))
    && (forall i :: 0 <= i < |n.l.queue| ==> n.l.queue[i].client < |n.peers|)
  }

  ghost predicate NetInv(n: Net) {
    Inv(n.l) && PeersOk(n)
  }

  // ---------------------------------------------------------------- Exclusion

  lemma {:induction false} RisingEnds(s: seq<Mode>, i: nat)
    requires Rising(s) && i < |s|
    ensures s[i] <= s[|s| - 1]
    decreases |s| - i
  {
    if i < |s| - 1 {
      RisingEnds(s, i + 1);
    }
  }

  lemma {:induction false} DescendsTo(m: Mode, releases: seq<Mode>, h: Mode)
    requires Descends(m, releases, h)
    ensures Rank(h) <= Rank(m)
    decreases |releases|
  {
    if releases != [] {
      DescendsTo(releases[0], releases[1..], h);
    }
  }

  lemma DescendsSame(m: Mode, m': Mode, releases: seq<Mode>, h: Mode)
    requires Descends(m, releases, h) && Rank(m') == Rank(m)
    ensures Descends(m', releases, h)
  {
  }

  /** One more release. */
  lemma {:induction false} DescendsOn(m: Mode, releases: seq<Mode>, h: Mode, h': Mode)
    requires Descends(m, releases, h) && Rank(h') <= Rank(h)
    ensures Descends(m, releases + [h'], h')
    decreases |releases|
  {
    if releases != [] {
      DescendsOn(releases[0], releases[1..], h, h');
      assert (releases + [h'])[1..] == releases[1..] + [h'];
    } else {
      assert [h'][1..] == [];
    }
  }

  /** A client never holds, and is never on the way to, more than the server has granted it. */
  lemma HeldIsGranted(l: Lists, p: Peer, c: Id)
    requires PeerOk(l, p, c)
    ensures Rank(p.held) <= Rank(Entry(l.granted, c).granted)
    ensures forall i :: 0 <= i < |DownGrants(p.down)| ==> Rank(DownGrants(p.down)[i]) <= Rank(Entry(l.granted, c).granted)
  {
    var grants := DownGrants(p.down);
    ComingIsGranted(QueueAsks(l.queue, c), Entry(l.granted, c), p);
    if grants != [] {
      assert forall i :: 0 <= i < |grants| ==> p.asked[i] == grants[i];
      assert Rising(grants);
      RisingEnds(grants, 0);
      forall i | 0 <= i < |grants| ensures grants[i] <= Coming(p) {
        RisingEnds(grants, i);
      }
    }
  }

  lemma ComingIsGranted(asks: seq<Mode>, e: Client, p: Peer)
    requires PhaseOk(asks, e, p)
    ensures Rank(Coming(p)) <= Rank(e.granted)
  {
    if e.revoked == NULL {
      DescendsTo(e.granted, UpReleases(p.up), Coming(p));
    } else if Answered(e, p) {
      DescendsTo(e.revoked, UpReleases(p.up), p.held);
    }
  }

  lemma EntriesCompatible(g: seq<Client>, a: Id, b: Id)
    requires AllCompatible(g) && a != b
    ensures Compatible(Entry(g, a).granted, Entry(g, b).granted)
  {
    if IndexOf(g, a) < |g| && IndexOf(g, b) < |g| {
      assert Entry(g, a) in g && Entry(g, b) in g;
    }
  }

  /** No two clients hold modes that do not go together. */
  lemma Exclusion(n: Net, a: Id, b: Id)
    requires NetInv(n) && a < |n.peers| && b < |n.peers| && a != b
    ensures Compatible(n.peers[a].held, n.peers[b].held)
  {
    HeldIsGranted(n.l, n.peers[a], a);
    HeldIsGranted(n.l, n.peers[b], b);
    EntriesCompatible(n.l.granted, a, b);
    LowerTogether(n.peers[a].held, n.peers[b].held, Entry(n.l.granted, a).granted, Entry(n.l.granted, b).granted);
  }

  lemma LowerTogether(a: Mode, b: Mode, a': Mode, b': Mode)
    requires Compatible(a', b') && Rank(a) <= Rank(a') && Rank(b) <= Rank(b')
    ensures Compatible(a, b)
  {
    CompatibleMeans(a, b);
    CompatibleMeans(a', b');
  }

  // ---------------------------------------------------------------- Steps of clients

  function ClientAsks(p: Peer, m: Mode): Peer {
    p.(asked := p.asked + [m], up := p.up + [Asking(m)])
  }

  /** A client only asks for more than it holds or has asked for already. */
  predicate MayAsk(p: Peer, m: Mode) {
    m >= SH_RD && m > p.held && (p.asked != [] ==> m > p.asked[|p.asked| - 1])
  }

  /** A client takes the first message on its way: the mode granted to it, or a revoke that it confirms. */
  function ClientReceives(p: Peer): Peer
    requires p.down != []
  {
    match p.down[0]
    case Granting(m) => p.(held := m, asked := if p.asked == [] then [] else p.asked[1..], down := p.down[1..])
    case Revoking(m) =>
      var h := if p.held < m then p.held else m;
      p.(held := h, up := p.up + [Confirming(h)], down := p.down[1..])
  }

  /** A client that waits for no grant may release the mode that it holds, or part of it. */
  predicate MayRelease(p: Peer, m: Mode) {
    p.asked == [] && m < p.held
  }

  function ClientReleases(p: Peer, m: Mode): Peer {
    p.(held := m, up := p.up + [Releasing(m)])
  }

  lemma AskKeeps(l: Lists, p: Peer, c: Id, m: Mode)
    requires PeerOk(l, p, c) && MayAsk(p, m)
    ensures PeerOk(l, ClientAsks(p, m), c)
  {
    AskRises(QueueAsks(l.queue, c), p, m);
    AskPhase(QueueAsks(l.queue, c), Entry(l.granted, c), p, m);
  }

  lemma AskPhase(asks: seq<Mode>, e: Client, p: Peer, m: Mode)
    requires PhaseOk(asks, e, p)
    ensures PhaseOk(asks, e, ClientAsks(p, m))
  {
    UpAppend(p.up, Asking(m));
    if e.revoked == NULL {
      FirstAppend(p.up, Asking(m));
    } else if Answered(e, p) && UpReleases(p.up) != [] {
      AnsweredOn(p.up, Asking(m));
    }
  }

  lemma AnsweredOn(up: seq<Up>, u: Up)
    requires up != [] && up[0].Confirming? && ReleasesFirst(up[1..])
    requires u.Releasing? ==> UpAsks(up) == UpConfirms(up[1..]) == []
    ensures (up + [u])[0] == up[0] && ReleasesFirst((up + [u])[1..])
  {
    UpFirst(up);
    FirstAppend(up[1..], u);
    assert (up + [u])[1..] == up[1..] + [u];
  }

  lemma AskRises(asks: seq<Mode>, p: Peer, m: Mode)
    requires AsksOk(asks, p) && MayAsk(p, m)
    ensures AsksOk(asks, ClientAsks(p, m))
  {
    UpAppend(p.up, Asking(m));
    var front := DownGrants(p.down) + asks;
    assert front + (UpAsks(p.up) + [m]) == front + UpAsks(p.up) + [m];
    RisingAppend(p.asked, m);
  }

  lemma RisingAppend(s: seq<Mode>, m: Mode)
    requires Rising(s) && m >= SH_RD && (s != [] ==> m > s[|s| - 1])
    ensures Rising(s + [m])
  {
  }

  lemma ReceiveKeeps(l: Lists, p: Peer, c: Id)
    requires PeerOk(l, p, c) && p.down != []
    ensures PeerOk(l, ClientReceives(p), c)
  {
    var asks := QueueAsks(l.queue, c);
    match p.down[0]
    case Granting(m) =>
      GrantArrives(asks, p, m);
      GrantComes(asks, Entry(l.granted, c), p, m);
    case Revoking(m) =>
      RevokeArrives(asks, p, m);
      RevokeComes(asks, Entry(l.granted, c), p, m);
  }

  lemma GrantArrives(asks: seq<Mode>, p: Peer, m: Mode)
    requires AsksOk(asks, p) && p.down != [] && p.down[0] == Granting(m)
    ensures AsksOk(asks, ClientReceives(p))
  {
    var rest := DownGrants(p.down[1..]);
    assert DownGrants(p.down) == [m] + rest;
    assert [m] + rest + asks + UpAsks(p.up) == [m] + (rest + asks + UpAsks(p.up));
    assert p.asked[1..] == rest + asks + UpAsks(p.up);
    RisingRest(p.asked);
  }

  lemma RisingRest(s: seq<Mode>)
    requires Rising(s) && s != []
    ensures Rising(s[1..]) && (|s| > 1 ==> s[0] < s[1..][0])
  {
    assert forall i :: 0 <= i < |s[1..]| ==> s[1..][i] == s[i + 1];
  }

  lemma GrantComes(asks: seq<Mode>, e: Client, p: Peer, m: Mode)
    requires PhaseOk(asks, e, p) && p.down != [] && p.down[0] == Granting(m)
    ensures PhaseOk(asks, e, ClientReceives(p))
  {
    var p' := ClientReceives(p);
    assert DownGrants(p.down) == [m] + DownGrants(p.down[1..]);
    assert Coming(p') == Coming(p);
    if e.revoked != NULL {
      assert p'.down[..|p'.down| - 1] == p.down[..|p.down| - 1][1..];
    }
  }

  lemma RevokeArrives(asks: seq<Mode>, p: Peer, m: Mode)
    requires AsksOk(asks, p) && p.down != [] && p.down[0] == Revoking(m)
    ensures AsksOk(asks, ClientReceives(p))
  {
    var h := ClientReceives(p).held;
    UpAppend(p.up, Confirming(h));
    DownFirst(p.down);
  }

  lemma RevokeComes(asks: seq<Mode>, e: Client, p: Peer, m: Mode)
    requires PhaseOk(asks, e, p) && p.down != [] && p.down[0] == Revoking(m)
    ensures PhaseOk(asks, e, ClientReceives(p))
  {
    UpAppend(p.up, Confirming(ClientReceives(p).held));
    DownFirst(p.down);
    if e.revoked != NULL && Told(e, p) {
      ToldAnswers(e, p, m);
    }
  }

  lemma ToldAnswers(e: Client, p: Peer, m: Mode)
    requires Told(e, p) && p.down[0] == Revoking(m) && Rank(e.revoked) < Rank(e.granted)
    ensures Answered(e, ClientReceives(p))
  {
    assert |p.down| == 1;
    DownFirst(p.down);
    assert DownGrants(p.down) == [];
    UpAppend(p.up, Confirming(ClientReceives(p).held));
  }

  lemma ReleaseKeeps(l: Lists, p: Peer, c: Id, m: Mode)
    requires PeerOk(l, p, c) && MayRelease(p, m)
    ensures PeerOk(l, ClientReleases(p, m), c)
  {
    UpAppend(p.up, Releasing(m));
    ReleasePhase(QueueAsks(l.queue, c), Entry(l.granted, c), p, m);
  }

  /** A client that waits for no grant has nothing on its way to the server but releases, and confirms. */
  lemma ReleasePhase(asks: seq<Mode>, e: Client, p: Peer, m: Mode)
    requires PhaseOk(asks, e, p) && asks == DownGrants(p.down) == UpAsks(p.up) == [] && m < p.held
    ensures PhaseOk(asks, e, ClientReleases(p, m))
  {
    if e.revoked == NULL {
      QuietReleases(e, p, m);
    } else if Told(e, p) {
      ToldReleases(e, p, m);
    } else if Answered(e, p) {
      AnsweredReleases(e, p, m);
    } else {
      assert ClientReleases(p, m).up[0] == p.up[0];
    }
  }

  lemma QuietReleases(e: Client, p: Peer, m: Mode)
    requires Quiet(e, p) && DownGrants(p.down) == UpAsks(p.up) == [] && m < p.held
    ensures Quiet(e, ClientReleases(p, m))
  {
    UpAppend(p.up, Releasing(m));
    FirstAppend(p.up, Releasing(m));
    DescendsOn(e.granted, UpReleases(p.up), p.held, m);
  }

  lemma ToldReleases(e: Client, p: Peer, m: Mode)
    requires Told(e, p) && DownGrants(p.down) == UpAsks(p.up) == [] && m < p.held
    ensures Crossed(e, ClientReleases(p, m))
  {
    OnlyReleases(p.up);
  }

  lemma AnsweredReleases(e: Client, p: Peer, m: Mode)
    requires Answered(e, p) && UpAsks(p.up) == [] && m < p.held
    ensures Answered(e, ClientReleases(p, m))
  {
    UpAppend(p.up, Releasing(m));
    DescendsOn(e.revoked, UpReleases(p.up), p.held, m);
    AnswerFirst(e, p);
    OnlyReleases(p.up[1..]);
    AnsweredOn(p.up, Releasing(m));
  }

  lemma AnswerFirst(e: Client, p: Peer)
    requires Answered(e, p) && UpAsks(p.up) == []
    ensures p.up != [] && p.up[0] == Confirming(e.revoked) && UpAsks(p.up[1..]) == UpConfirms(p.up[1..]) == []
  {
    assert UpConfirms(p.up)[0] == e.revoked;
    UpFirst(p.up);
  }

  // ---------------------------------------------------------------- Messages from the server

  function MsgsTo(msgs: seq<Msg>, c: Id): seq<Down> {
    if msgs == [] then [] else
      (if msgs[0].to != c then []
       else match msgs[0] case Grant(_, m) => [Granting(m)] case Revoke(_, m) => [Revoking(m)])
      + MsgsTo(msgs[1..], c)
  }

  function Deliver(peers: seq<Peer>, msgs: seq<Msg>): seq<Peer> {
    seq(|peers|, c requires 0 <= c < |peers| => peers[c].(down := peers[c].down + MsgsTo(msgs, c)))
  }

  lemma {:induction false} MsgsToConcat(a: seq<Msg>, b: seq<Msg>, c: Id)
    ensures MsgsTo(a + b, c) == MsgsTo(a, c) + MsgsTo(b, c)
  {
    if a == [] {
      assert a + b == b;
    } else {
      assert (a + b)[1..] == a[1..] + b;
      MsgsToConcat(a[1..], b, c);
    }
  }

  lemma DeliverBoth(peers: seq<Peer>, a: seq<Msg>, b: seq<Msg>)
    ensures Deliver(Deliver(peers, a), b) == Deliver(peers, a + b)
  {
    forall c: Id | c < |peers| ensures Deliver(Deliver(peers, a), b)[c] == Deliver(peers, a + b)[c] {
      MsgsToConcat(a, b, c);
    }
  }

  lemma DeliverNothing(peers: seq<Peer>)
    ensures Deliver(peers, []) == peers
  {
    forall c: Id | c < |peers| ensures Deliver(peers, [])[c] == peers[c] {
      assert peers[c].down + [] == peers[c].down;
    }
  }

  /** The server processes requests and sends what comes of it. */
  ghost function ServerProcesses(n: Net): Net {
    Net(Process(n.l).l, Deliver(n.peers, Process(n.l).msgs))
  }

  // ---------------------------------------------------------------- What the server's steps do to a client's entry

  lemma EntryIn(g: seq<Client>, cl: Client)
    requires Distinct(g) && cl in g
    ensures Entry(g, cl.id) == cl
  {
    Found(g, cl);
  }

  lemma EntryNotIn(g: seq<Client>, c: Id)
    requires forall x :: x in g ==> x.id != c
    ensures Entry(g, c) == Client(c, NULL, NULL)
  {
    if IndexOf(g, c) < |g| {
      assert g[IndexOf(g, c)] in g;
    }
  }

  /** Lists with the same entries say the same of every client. */
  lemma SameEntries(g: seq<Client>, g': seq<Client>, c: Id)
    requires Distinct(g) && Distinct(g') && Permuted(g, g')
    ensures Entry(g', c) == Entry(g, c)
  {
    if IndexOf(g, c) < |g| {
      assert Entry(g, c) in g;
      EntryIn(g', Entry(g, c));
    } else {
      forall x | x in g' ensures x.id != c {
        assert x in g;
        EntryIn(g, x);
      }
      EntryNotIn(g', c);
    }
  }

  lemma EntrySet(g: seq<Client>, i: nat, cl: Client, c: Id)
    requires Distinct(g) && i < |g| && cl.id == g[i].id
    ensures Distinct(g[i := cl]) && Entry(g[i := cl], c) == if c == cl.id then cl else Entry(g, c)
  {
    var g' := g[i := cl];
    if c == cl.id {
      assert g'[i] == cl;
      EntryIn(g', cl);
    } else if IndexOf(g, c) < |g| {
      assert g'[IndexOf(g, c)] == g[IndexOf(g, c)];
      EntryIn(g', Entry(g, c));
    } else {
      forall x | x in g' ensures x.id != c {
        var j :| 0 <= j < |g'| && g'[j] == x;
        assert j != i ==> g[j] == x && x in g;
      }
      EntryNotIn(g', c);
    }
  }

  lemma EntryWithClient(g: seq<Client>, id: Id, c: Id)
    requires Distinct(g)
    ensures Entry(WithClient(g, id), c) == Entry(g, c)
  {
    var g1 := WithClient(g, id);
    if IndexOf(g, id) == |g| {
      forall x | x in g ensures x.id != id {
        var j :| 0 <= j < |g| && g[j] == x;
      }
      assert g1[|g|] == Client(id, NULL, NULL);
      if c == id {
        EntryIn(g1, Client(id, NULL, NULL));
      } else if IndexOf(g, c) < |g| {
        assert g1[IndexOf(g, c)] == Entry(g, c);
        EntryIn(g1, Entry(g, c));
      } else {
        forall x | x in g1 ensures x.id != c {
          var j :| 0 <= j < |g1| && g1[j] == x;
          assert j < |g| ==> g[j] == x;
        }
        EntryNotIn(g1, c);
      }
    }
  }

  lemma EntryGranted(l: Lists, c: Id)
    requires Ready(l) && l.queue != [] && !Blocked(l.granted, l.queue[0])
    ensures var req := l.queue[0];
      Entry(Granted(l.granted, req), c) == if c == req.client then Client(c, req.mode, NULL) else Entry(l.granted, c)
    ensures Entry(l.granted, c).revoked == NULL
    ensures Entry(l.granted, l.queue[0].client).granted != l.queue[0].mode ==> Grants(l.granted, l.queue[0]) == [Grant(l.queue[0].client, l.queue[0].mode)]
  {
    var g, req := l.granted, l.queue[0];
    GrantKeeps(l);
    if IndexOf(g, c) < |g| {
      assert Entry(g, c) in g;
    }
    var g1, i := WithClient(g, req.client), IndexOf(g, req.client);
    WithClientKeeps(g, req.client);
    EntryWithClient(g, req.client, c);
    EntryWithClient(g, req.client, req.client);
    assert g1[i] in g1 && g1[i] == Entry(g1, req.client);
    if g1[i].granted != req.mode {
      var cl := g1[i].(granted := req.mode);
      EntrySet(g1, i, cl, c);
      GrantPermutes(l);
      SameEntries(g1[i := cl], Granted(g, req), c);
    }
  }

  lemma GrantPermutes(l: Lists)
    requires Ready(l) && l.queue != [] && !Blocked(l.granted, l.queue[0])
    ensures var g, req := l.granted, l.queue[0]; var g1, i := WithClient(g, req.client), IndexOf(g, req.client);
      i < |g1| && (g1[i].granted != req.mode ==> Permuted(g1[i := g1[i].(granted := req.mode)], Granted(g, req)) && Distinct(Granted(g, req)))
  {
    var g, req := l.granted, l.queue[0];
    GrantKeeps(l);
    var g1, i := WithClient(g, req.client), IndexOf(g, req.client);
    WithClientKeeps(g, req.client);
    var cl := g1[i].(granted := req.mode);
    forall x | x in g1 && x.id != cl.id ensures Compatible(x.granted, cl.granted) {
      assert x in g && !Blocks(x, req);
    }
    SetMode(g1, i, cl);
  }

  lemma EntryRevoked(g: seq<Client>, req: Request, c: Id)
    requires Distinct(g)
    ensures Entry(RevokeAll(g, req), c) == RevokeOne(Entry(g, c), req)
    ensures MsgsTo(Revokes(g, req), c) == RevokesTo(Entry(g, c), req)
  {
    var g' := RevokeAll(g, req);
    assert Distinct(g') by {
      assert forall i :: 0 <= i < |g| ==> g'[i].id == g[i].id;
    }
    RevokedIn(g, req);
    if IndexOf(g, c) < |g| {
      assert Entry(g, c) in g;
      EntryIn(g', RevokeOne(Entry(g, c), req));
    } else {
      forall y | y in g' ensures y.id != c {
        var x :| x in g && y == RevokeOne(x, req);
        EntryIn(g, x);
      }
      EntryNotIn(g', c);
    }
    RevokesSent(g, req, c);
  }

  function RevokesTo(e: Client, req: Request): seq<Down> {
    if Blocks(e, req) && e.revoked != MostCompatible(req.mode) then [Revoking(MostCompatible(req.mode))] else []
  }

  lemma {:induction false} RevokesSent(g: seq<Client>, req: Request, c: Id)
    requires Distinct(g)
    ensures MsgsTo(Revokes(g, req), c) == RevokesTo(Entry(g, c), req)
    decreases |g|
  {
    if g != [] {
      var rest, to := g[1..], MostCompatible(req.mode);
      RestOf(g, req);
      RevokesSent(rest, req, c);
      var first := if Blocks(g[0], req) && g[0].revoked != to then [Revoke(g[0].id, to)] else [];
      MsgsToConcat(first, Revokes(rest, req), c);
      if g[0].id == c {
        NotInRest(g);
      }
    }
  }

  lemma NotInRest(g: seq<Client>)
    requires Distinct(g) && g != []
    ensures Entry(g[1..], g[0].id) == Client(g[0].id, NULL, NULL)
  {
    var rest := g[1..];
    forall x | x in rest ensures x.id != g[0].id {
      var j :| 0 <= j < |rest| && rest[j] == x;
      assert g[j + 1] == x;
    }
    EntryNotIn(rest, g[0].id);
  }

  // ---------------------------------------------------------------- Steps of the server

  /** A request is granted: its client will have a mode higher than all that it had before. */
  lemma PeerGranted(l: Lists, p: Peer, c: Id)
    requires l.queue != [] && PeerOk(l, p, c) && Entry(l.granted, c).revoked == NULL
    requires var req := l.queue[0];
      Entry(Granted(l.granted, req), c) == if c == req.client then Client(c, req.mode, NULL) else Entry(l.granted, c)
    requires var req := l.queue[0]; c == req.client && Entry(l.granted, c).granted != req.mode ==> Grants(l.granted, req) == [Grant(c, req.mode)]
    ensures PeerOk(GrantHead(l), p.(down := p.down + MsgsTo(Grants(l.granted, l.queue[0]), c)), c)
  {
    var req, e := l.queue[0], Entry(l.granted, c);
    GrantMsgs(l.granted, req, c);
    if req.client == c {
      var asks := QueueAsks(l.queue, c);
      assert asks[0] == req.mode && asks[1..] == QueueAsks(l.queue[1..], c);
      AskedIsHigher(asks, p, e);
      GrantSent(asks, p, e, req.mode);
    } else {
      assert p.down + [] == p.down;
    }
  }

  lemma GrantMsgs(g: seq<Client>, req: Request, c: Id)
    ensures req.client != c ==> MsgsTo(Grants(g, req), c) == []
    ensures req.client == c && Grants(g, req) == [Grant(c, req.mode)] ==> MsgsTo(Grants(g, req), c) == [Granting(req.mode)]
  {
    assert MsgsTo([Grant(c, req.mode)], c) == [Granting(req.mode)] + MsgsTo([], c);
    assert MsgsTo([Grant(req.client, req.mode)], c)[0..] == MsgsTo([Grant(req.client, req.mode)], c);
  }

  lemma AskedIsHigher(asks: seq<Mode>, p: Peer, e: Client)
    requires AsksOk(asks, p) && PhaseOk(asks, e, p) && e.revoked == NULL && asks != []
    ensures Rank(asks[0]) > Rank(e.granted) && asks[0] > Coming(p)
  {
    var grants := DownGrants(p.down);
    assert p.asked[|grants|] == asks[0];
    if grants != [] {
      assert p.asked[|grants| - 1] == grants[|grants| - 1];
    }
  }

  lemma GrantSent(asks: seq<Mode>, p: Peer, e: Client, m: Mode)
    requires AsksOk(asks, p) && PhaseOk(asks, e, p) && e.revoked == NULL && asks != [] && asks[0] == m
    ensures AsksOk(asks[1..], p.(down := p.down + [Granting(m)]))
    ensures PhaseOk(asks[1..], Client(e.id, m, NULL), p.(down := p.down + [Granting(m)]))
  {
    DownAppend(p.down, Granting(m));
    var grants := DownGrants(p.down);
    assert grants + [m] + asks[1..] == grants + asks;
  }

  /** A client in the way of a blocked request gets one revoke, behind everything already on its way. */
  lemma PeerRevoked(l: Lists, p: Peer, c: Id)
    requires Ready(l) && l.queue != [] && Blocked(l.granted, l.queue[0]) && PeerOk(l, p, c)
    ensures PeerOk(l.(granted := RevokeAll(l.granted, l.queue[0])), p.(down := p.down + MsgsTo(Revokes(l.granted, l.queue[0]), c)), c)
  {
    var req, e := l.queue[0], Entry(l.granted, c);
    EntryRevoked(l.granted, req, c);
    if Blocks(e, req) {
      assert e in l.granted;
      MostCompatibleIsGreatest(req.mode, e.granted);
      if e.revoked != MostCompatible(req.mode) {
        RevokeSent(QueueAsks(l.queue, c), p, e, MostCompatible(req.mode));
      } else {
        assert p.down + [] == p.down;
      }
    } else {
      assert p.down + [] == p.down;
    }
  }

  lemma RevokeSent(asks: seq<Mode>, p: Peer, e: Client, to: Mode)
    requires AsksOk(asks, p) && PhaseOk(asks, e, p) && e.revoked == NULL && to != NULL && Rank(to) < Rank(e.granted)
    ensures AsksOk(asks, p.(down := p.down + [Revoking(to)])) && PhaseOk(asks, e.(revoked := to), p.(down := p.down + [Revoking(to)]))
  {
    DownAppend(p.down, Revoking(to));
    assert DownGrants(p.down) + [] == DownGrants(p.down);
    assert (p.down + [Revoking(to)])[..|p.down|] == p.down;
    if UpReleases(p.up) != [] {
      DescendsTo(e.granted, UpReleases(p.up), p.held);
    }
  }

  /** A request whose turn comes sends a grant, since it is for more than the server has granted its client. */
  lemma TurnSends(n: Net)
    requires Ready(n.l) && PeersOk(n) && n.l.queue != [] && !Blocked(n.l.granted, n.l.queue[0])
    ensures Rank(n.l.queue[0].mode) > Rank(Entry(n.l.granted, n.l.queue[0].client).granted)
    ensures Grants(n.l.granted, n.l.queue[0]) == [Grant(n.l.queue[0].client, n.l.queue[0].mode)]
  {
    var c := n.l.queue[0].client;
    EntryGranted(n.l, c);
    assert PeerOk(n.l, n.peers[c], c);
    AskedIsHigher(QueueAsks(n.l.queue, c), n.peers[c], Entry(n.l.granted, c));
  }

  /** The requests that leave the queue are those that are granted, in order. */
  ghost predicate AllAnswered(l: Lists, out: Outcome) {
    l.queue == Answers(out.msgs) + out.l.queue
  }

  lemma FirstAnswered(l: Lists, first: seq<Msg>, l1: Lists, out: Outcome)
    requires l.queue != [] && Answers(first) == [l.queue[0]] && l1.queue == l.queue[1..] && AllAnswered(l1, out)
    ensures AllAnswered(l, Outcome(out.l, first + out.msgs))
  {
    AnswersConcat(first, out.msgs);
    FirstOf(l.queue, Answers(out.msgs), out.l.queue);
  }

  lemma FirstOf<T>(q: seq<T>, a: seq<T>, b: seq<T>)
    requires q != [] && q[1..] == a + b
    ensures q == [q[0]] + a + b
  {
    assert q == [q[0]] + q[1..];
  }

  lemma HeadGranted(n: Net, n1: Net)
    requires Ready(n.l) && PeersOk(n) && n.l.queue != [] && !Blocked(n.l.granted, n.l.queue[0])
    requires n1 == Net(GrantHead(n.l), Deliver(n.peers, Grants(n.l.granted, n.l.queue[0])))
    ensures PeersOk(n1)
  {
    forall c: Id | c < |n1.peers| ensures PeerOk(n1.l, n1.peers[c], c) {
      EntryGranted(n.l, c);
      PeerGranted(n.l, n.peers[c], c);
    }
    forall c: Id | c >= |n1.peers| ensures Unknown(n1.l, c) {
      assert Unknown(n.l, c);
      EntryGranted(n.l, c);
    }
  }

  /** Processing requests keeps the invariant of every client. */
  lemma {:induction false} ProcessKeepsPeers(n: Net)
    requires Ready(n.l) && PeersOk(n)
    ensures NetInv(ServerProcesses(n)) && AllAnswered(n.l, Process(n.l))
    decreases |n.l.queue|
  {
    ProcessKeeps(n.l);
    if n.l.queue == [] {
      DeliverNothing(n.peers);
    } else if Blocked(n.l.granted, n.l.queue[0]) {
      ProcessStops(n.l);
      RevokesAnswer(n.l.granted, n.l.queue[0]);
      var n' := ServerProcesses(n);
      forall c: Id | c < |n'.peers| ensures PeerOk(n'.l, n'.peers[c], c) {
        PeerRevoked(n.l, n.peers[c], c);
      }
      forall c: Id | c >= |n'.peers| ensures Unknown(n'.l, c) {
        assert Unknown(n.l, c);
        EntryRevoked(n.l.granted, n.l.queue[0], c);
      }
    } else {
      ProcessGrants(n.l);
      var n1 := Net(GrantHead(n.l), Deliver(n.peers, Grants(n.l.granted, n.l.queue[0])));
      HeadGranted(n, n1);
      ProcessKeepsPeers(n1);
      TurnSends(n);
      GrantAnswers(n.l.granted, n.l.queue[0]);
      FirstAnswered(n.l, Grants(n.l.granted, n.l.queue[0]), n1.l, Process(n1.l));
      DeliverBoth(n.peers, Grants(n.l.granted, n.l.queue[0]), Process(n1.l).msgs);
    }
  }

  /** The server takes a client's first message: a request, a confirm or a release. */
  ghost function ServerTakes(n: Net, c: Id): Net
    requires c < |n.peers| && n.peers[c].up != []
  {
    var up, i := n.peers[c].up, IndexOf(n.l.granted, c);
    var peers := n.peers[c := n.peers[c].(up := up[1..])];
    match up[0]
    case Asking(m) => ServerProcesses(Net(Requested(n.l, c, m), peers))
    case Confirming(m) =>
      if m < EX_WR && i < |n.l.granted| && m <= n.l.granted[i].revoked then ServerProcesses(Net(Confirmed(n.l, i), peers))
      else Net(n.l, peers)
    case Releasing(m) =>
      if m < EX_WR && i < |n.l.granted| && m < n.l.granted[i].granted then ServerProcesses(Net(Released(n.l, i, m), peers))
      else Net(n.l, peers)
  }

  /** What the server sends then. */
  ghost function ServerSends(n: Net, c: Id): seq<Msg>
    requires c < |n.peers| && n.peers[c].up != []
  {
    var up, i := n.peers[c].up, IndexOf(n.l.granted, c);
    match up[0]
    case Asking(m) => Process(Requested(n.l, c, m)).msgs
    case Confirming(m) =>
      if m < EX_WR && i < |n.l.granted| && m <= n.l.granted[i].revoked then Process(Confirmed(n.l, i)).msgs else []
    case Releasing(m) =>
      if m < EX_WR && i < |n.l.granted| && m < n.l.granted[i].granted then Process(Released(n.l, i, m)).msgs else []
  }

  lemma SendsDelivered(n: Net, c: Id)
    requires c < |n.peers| && n.peers[c].up != []
    ensures ServerTakes(n, c).peers == Deliver(n.peers[c := n.peers[c].(up := n.peers[c].up[1..])], ServerSends(n, c))
  {
    DeliverNothing(n.peers[c := n.peers[c].(up := n.peers[c].up[1..])]);
  }

  /** The request that the server takes, if it is one. */
  function Taken(n: Net, c: Id): seq<Request>
    requires c < |n.peers| && n.peers[c].up != []
  {
    match n.peers[c].up[0] case Asking(m) => [Request(c, m)] case _ => []
  }

  /** The requests in the queue and the one taken are those granted, and then those in the queue afterwards. */
  ghost predicate AnsweredInTurn(n: Net, c: Id)
    requires c < |n.peers| && n.peers[c].up != []
  {
    n.l.queue + Taken(n, c) == Answers(ServerSends(n, c)) + ServerTakes(n, c).l.queue
  }

  /** A confirm or a release that has been noted. */
  lemma ProcessedInTurn(n: Net, c: Id, n1: Net)
    requires Ready(n1.l) && PeersOk(n1) && n1.l.queue == n.l.queue && c < |n.peers| && n.peers[c].up != []
    requires ServerTakes(n, c) == ServerProcesses(n1) && ServerSends(n, c) == Process(n1.l).msgs && Taken(n, c) == []
    ensures NetInv(ServerTakes(n, c)) && AnsweredInTurn(n, c)
  {
    ProcessKeepsPeers(n1);
    assert n.l.queue + [] == n.l.queue;
  }

  lemma AskTaken(n: Net, c: Id)
    requires NetInv(n) && c < |n.peers| && n.peers[c].up != [] && n.peers[c].up[0].Asking?
    ensures NetInv(ServerTakes(n, c)) && AnsweredInTurn(n, c)
  {
    var p, m := n.peers[c], n.peers[c].up[0].mode;
    var n1 := Net(Requested(n.l, c, m), n.peers[c := p.(up := p.up[1..])]);
    forall d: Id | d < |n1.peers| ensures PeerOk(n1.l, n1.peers[d], d) {
      QueueAsksAppend(n.l.queue, Request(c, m), d);
      if d == c {
        AskMoves(QueueAsks(n.l.queue, c), p, m);
        AskPasses(QueueAsks(n.l.queue, c), Entry(n.l.granted, c), p, m);
      } else {
        assert QueueAsks(n.l.queue, d) + [] == QueueAsks(n.l.queue, d);
      }
    }
    forall d: Id | d >= |n1.peers| ensures Unknown(n1.l, d) {
      assert Unknown(n.l, d);
    }
    AskedIsRead(QueueAsks(n.l.queue, c), p, m);
    RequestReady(n.l, c, m);
    ProcessKeepsPeers(n1);
  }

  lemma Regroup(a: seq<Mode>, b: seq<Mode>, m: Mode, c: seq<Mode>)
    ensures a + (b + [m]) + c == a + b + ([m] + c)
  {
  }

  lemma AskMoves(asks: seq<Mode>, p: Peer, m: Mode)
    requires AsksOk(asks, p) && p.up != [] && p.up[0] == Asking(m)
    ensures AsksOk(asks + [m], p.(up := p.up[1..]))
  {
    var grants := DownGrants(p.down);
    UpFirst(p.up);
    Regroup(grants, asks, m, UpAsks(p.up[1..]));
  }

  /** No release is behind a request: its client was not waiting for a grant then. */
  lemma AskPasses(asks: seq<Mode>, e: Client, p: Peer, m: Mode)
    requires PhaseOk(asks, e, p) && p.up != [] && p.up[0] == Asking(m)
    ensures PhaseOk(asks + [m], e, p.(up := p.up[1..]))
  {
    UpFirst(p.up);
  }

  lemma AskedIsRead(asks: seq<Mode>, p: Peer, m: Mode)
    requires AsksOk(asks, p) && p.up != [] && p.up[0] == Asking(m)
    ensures m >= SH_RD
  {
    assert UpAsks(p.up) == [m] + UpAsks(p.up[1..]);
    assert p.asked[|DownGrants(p.down) + asks|] == m;
  }

  /** A confirm arrives when its client holds no more than it is then granted, and no grant is on its way. */
  lemma ConfirmPending(asks: seq<Mode>, e: Client, e': Client, p: Peer, m: Mode)
    requires PhaseOk(asks, e, p) && p.up != [] && p.up[0] == Confirming(m)
    ensures e.revoked == m != NULL && UpAsks(p.up[1..]) == UpAsks(p.up)
    ensures e'.revoked == NULL && Rank(e'.granted) == Rank(m) ==> PhaseOk(asks, e', p.(up := p.up[1..]))
  {
    UpFirst(p.up);
    assert UpConfirms(p.up)[0] == m;
    if UpReleases(p.up[1..]) == [] {
      NoneFirst(p.up[1..]);
    }
    if Rank(e'.granted) == Rank(m) {
      DescendsSame(m, e'.granted, UpReleases(p.up[1..]), p.held);
    }
  }

  lemma ConfirmTaken(n: Net, c: Id)
    requires NetInv(n) && c < |n.peers| && n.peers[c].up != [] && n.peers[c].up[0].Confirming?
    ensures NetInv(ServerTakes(n, c)) && AnsweredInTurn(n, c)
  {
    var g, p, m, asks := n.l.granted, n.peers[c], n.peers[c].up[0].mode, QueueAsks(n.l.queue, c);
    var e, i := Entry(g, c), IndexOf(g, c);
    ConfirmPending(asks, e, e, p, m);
    assert e in g;
    if n.l.queue != [] {
      MostCompatibleIsGreatest(n.l.queue[0].mode, e.granted);
    }
    ConfirmReady(n.l, i);
    var n1 := Net(Confirmed(n.l, i), n.peers[c := p.(up := p.up[1..])]);
    forall d: Id | d < |n1.peers| ensures PeerOk(n1.l, n1.peers[d], d) {
      EntryLowered(n.l, i, e.(granted := e.revoked, revoked := NULL), d);
      ConfirmPending(asks, e, Entry(n1.l.granted, c), p, m);
    }
    forall d: Id | d >= |n1.peers| ensures Unknown(n1.l, d) {
      assert Unknown(n.l, d);
      EntryLowered(n.l, i, e.(granted := e.revoked, revoked := NULL), d);
    }
    ProcessedInTurn(n, c, n1);
  }

  lemma ReleasePending(asks: seq<Mode>, e: Client, e': Client, p: Peer, m: Mode)
    requires PhaseOk(asks, e, p) && p.up != [] && p.up[0] == Releasing(m) && e.revoked == NULL
    ensures Rank(m) <= Rank(e.granted) && UpAsks(p.up[1..]) == UpAsks(p.up)
    ensures e'.revoked == NULL && Rank(e'.granted) == Rank(m) ==> PhaseOk(asks, e', p.(up := p.up[1..]))
  {
    UpFirst(p.up);
    assert UpReleases(p.up)[0] == m && UpReleases(p.up)[1..] == UpReleases(p.up[1..]);
    if Rank(e'.granted) == Rank(m) {
      DescendsSame(m, e'.granted, UpReleases(p.up[1..]), Coming(p));
    }
  }

  lemma ReleaseIgnored(n: Net, c: Id)
    requires c < |n.peers| && n.peers[c].up != [] && n.peers[c].up[0].Releasing?
    requires var m, i := n.peers[c].up[0].mode, IndexOf(n.l.granted, c);
      !(m < EX_WR && i < |n.l.granted| && m < n.l.granted[i].granted)
    ensures AnsweredInTurn(n, c)
  {
    assert ServerSends(n, c) == [] && Taken(n, c) == [] && ServerTakes(n, c).l == n.l;
    assert n.l.queue + [] == [] + n.l.queue;
  }

  /** A release that finds no revoke pending. */
  lemma ReleaseTaken(n: Net, c: Id)
    requires NetInv(n) && c < |n.peers| && n.peers[c].up != [] && n.peers[c].up[0].Releasing? && Entry(n.l.granted, c).revoked == NULL
    ensures NetInv(ServerTakes(n, c)) && AnsweredInTurn(n, c)
  {
    var g, p, m, asks := n.l.granted, n.peers[c], n.peers[c].up[0].mode, QueueAsks(n.l.queue, c);
    var e, i, p' := Entry(g, c), IndexOf(g, c), p.(up := p.up[1..]);
    ReleasePending(asks, e, e, p, m);
    if m < EX_WR && i < |g| && m < g[i].granted {
      ReleaseReady(n.l, i, m);
      var n1 := Net(Released(n.l, i, m), n.peers[c := p']);
      forall d: Id | d < |n1.peers| ensures PeerOk(n1.l, n1.peers[d], d) {
        EntryLowered(n.l, i, g[i].(granted := m), d);
        ReleasePending(asks, e, Entry(n1.l.granted, c), p, m);
      }
      forall d: Id | d >= |n1.peers| ensures Unknown(n1.l, d) {
        assert Unknown(n.l, d);
        EntryLowered(n.l, i, g[i].(granted := m), d);
      }
      ProcessedInTurn(n, c, n1);
    } else {
      OnePeer(n, c, p');
      ReleaseIgnored(n, c);
    }
  }

  /** After a client went down, and nothing is pending with it, its mode is the new one as far as others can tell. */
  lemma EntryLowered(l: Lists, i: nat, cl: Client, d: Id)
    requires GoodLists(l) && i < |l.granted| && cl.id == l.granted[i].id && cl.granted <= l.granted[i].granted && cl.revoked == NULL
    ensures var l' := Settled(l.(granted := l.granted[i := cl]), i); var e := Entry(l'.granted, d);
      && l'.queue == l.queue
      && if d != cl.id then e == Entry(l.granted, d) else e.revoked == NULL && Rank(e.granted) == Rank(cl.granted)
  {
    var g := l.granted;
    EntrySet(g, i, cl, d);
    if cl.granted <= NONE {
      EntryWithout(g[i := cl], i, d);
    } else {
      LoweredPermutes(l, i, cl);
      SameEntries(g[i := cl], Reordered(g[i := cl], i), d);
    }
  }

  lemma LoweredPermutes(l: Lists, i: nat, cl: Client)
    requires GoodLists(l) && i < |l.granted| && cl.id == l.granted[i].id && cl.granted <= l.granted[i].granted
    ensures var g1 := l.granted[i := cl]; Permuted(g1, Reordered(g1, i)) && Distinct(Reordered(g1, i))
  {
    var g, was := l.granted, l.granted[i];
    assert was in g;
    forall x | x in g && x.id != cl.id ensures Compatible(x.granted, cl.granted) {
      assert Compatible(was.granted, x.granted);
      LowerCompatible(was.granted, x.granted, cl.granted);
      CompatibleMeans(cl.granted, x.granted);
    }
    SetMode(g, i, cl);
  }

  lemma EntryWithout(g: seq<Client>, i: nat, d: Id)
    requires Distinct(g) && i < |g|
    ensures Entry(Without(g, i), d) == if d == g[i].id then Client(d, NULL, NULL) else Entry(g, d)
  {
    var w := Without(g, i);
    forall j | 0 <= j < |w| ensures w[j] == g[if j < i then j else j + 1] && w[j] in g && w[j].id != g[i].id {
    }
    if d == g[i].id {
      EntryNotIn(w, d);
    } else if IndexOf(g, d) < |g| {
      var j := IndexOf(g, d);
      assert w[if j < i then j else j - 1] == g[j];
      EntryIn(w, g[j]);
    } else {
      forall x | x in w ensures x.id != d {
        assert x in g;
        EntryIn(g, x);
      }
      EntryNotIn(w, d);
    }
  }

  // ---------------------------------------------------------------- Every run

  /** A client asks, receives, or releases. */
  ghost predicate ClientStep(n: Net, n': Net) {
    exists c: Id, p: Peer :: c < |n.peers| && PeerStep(n.peers[c], p) && n' == n.(peers := n.peers[c := p])
  }

  ghost predicate PeerStep(p: Peer, p': Peer) {
    || (exists m: Mode :: MayAsk(p, m) && p' == ClientAsks(p, m))
    || (p.down != [] && p' == ClientReceives(p))
    || (exists m: Mode :: MayRelease(p, m) && p' == ClientReleases(p, m))
  }

  /** The server takes a message. */
  ghost predicate ServerStep(n: Net, c: Id, n': Net) {
    c < |n.peers| && n.peers[c].up != [] && n' == ServerTakes(n, c)
  }

  /** The client's first message is a release, and crosses a revoke to mode m. */
  ghost predicate Races(n: Net, c: Id, m: Mode)
    requires c < |n.peers|
  {
    n.peers[c].up != [] && n.peers[c].up[0].Releasing? && Entry(n.l.granted, c).revoked == m
  }

  /** Any step, but releases that cross revokes only if the revoke is to one of these modes. */
  ghost predicate Step(n: Net, n': Net, races: set<Mode>) {
    || ClientStep(n, n')
    || exists c: Id :: ServerStep(n, c, n') && forall m: Mode :: m != NULL && Races(n, c, m) ==> m in races
  }

  lemma PeerStepKeeps(l: Lists, c: Id, p: Peer, p': Peer)
    requires PeerOk(l, p, c) && PeerStep(p, p')
    ensures PeerOk(l, p', c)
  {
    if m: Mode :| MayAsk(p, m) && p' == ClientAsks(p, m) {
      AskKeeps(l, p, c, m);
    } else if p.down != [] && p' == ClientReceives(p) {
      ReceiveKeeps(l, p, c);
    } else {
      var m: Mode :| MayRelease(p, m) && p' == ClientReleases(p, m);
      ReleaseKeeps(l, p, c, m);
    }
  }

  /** Any step keeps the invariant of the whole system, unless a release finds a revoke pending. */
  lemma StepKeeps(n: Net, n': Net, races: set<Mode>)
    requires NetInv(n) && Step(n, n', races) && NONE !in races && SH_RD !in races
    ensures NetInv(n')
  {
    if ClientStep(n, n') {
      var c: Id, p: Peer :| c < |n.peers| && PeerStep(n.peers[c], p) && n' == n.(peers := n.peers[c := p]);
      PeerStepKeeps(n.l, c, n.peers[c], p);
      OnePeer(n, c, p);
    } else {
      var c: Id :| ServerStep(n, c, n') && forall m: Mode :: m != NULL && Races(n, c, m) ==> m in races;
      ServerStepKeeps(n, c, races);
    }
  }

  lemma ServerStepKeeps(n: Net, c: Id, races: set<Mode>)
    requires NetInv(n) && c < |n.peers| && n.peers[c].up != [] && NONE !in races && SH_RD !in races
    requires forall m: Mode :: m != NULL && Races(n, c, m) ==> m in races
    ensures NetInv(ServerTakes(n, c)) && AnsweredInTurn(n, c)
  {
    match n.peers[c].up[0]
    case Asking(_) => AskTaken(n, c);
    case Confirming(_) => ConfirmTaken(n, c);
    case Releasing(_) =>
      assert Races(n, c, Entry(n.l.granted, c).revoked);
      NoWriteRevoked(n.l, c);
      ReleaseTaken(n, c);
  }

  /** Revokes are to NONE or SH_RD. */
  lemma NoWriteRevoked(l: Lists, c: Id)
    requires Inv(l)
    ensures Entry(l.granted, c).revoked != EX_WR
  {
    if IndexOf(l.granted, c) < |l.granted| {
      assert Entry(l.granted, c) in l.granted;
    }
  }

  // ---------------------------------------------------------------- No one waits in silence

  /** A message is on its way from or to this client. */
  predicate Busy(p: Peer) {
    p.up != [] || p.down != []
  }

  /** While a client waits for a grant some message is on its way: from or to it, or from or to one that is in its way. */
  lemma NoStall(n: Net, c: Id) returns (d: Id)
    requires NetInv(n) && c < |n.peers| && n.peers[c].asked != []
    ensures d < |n.peers| && Busy(n.peers[d])
    ensures d != c ==> n.l.queue != [] && Blocks(Entry(n.l.granted, d), n.l.queue[0]) && Entry(n.l.granted, d).revoked == MostCompatible(n.l.queue[0].mode)
  {
    d := c;
    if !Busy(n.peers[c]) {
      var q := n.l.queue;
      assert QueueAsks(q, c) != [];
      var x :| x in n.l.granted && Blocks(x, q[0]);
      EntryIn(n.l.granted, x);
      d := x.id;
      assert x.revoked != NULL;
      assert d >= |n.peers| ==> Unknown(n.l, d);
      assert PeerOk(n.l, n.peers[d], d);
    }
  }

  lemma OnePeer(n: Net, c: Id, p: Peer)
    requires NetInv(n) && c < |n.peers| && PeerOk(n.l, p, c)
    ensures NetInv(n.(peers := n.peers[c := p]))
  {
  }

  /** At first no client holds anything and nothing is in flight. */
  ghost predicate Initial(n: Net) {
    n.l == Lists([], []) && forall c :: 0 <= c < |n.peers| ==> n.peers[c] == Peer(NULL, [], [], [])
  }

  ghost predicate Run(ns: seq<Net>, races: set<Mode>) {
    ns != [] && Initial(ns[0]) && forall i :: 0 <= i < |ns| - 1 ==> Step(ns[i], ns[i + 1], races)
  }

  lemma {:induction false} RunKeeps(ns: seq<Net>, races: set<Mode>, i: nat)
    requires Run(ns, races) && NONE !in races && SH_RD !in races && i < |ns|
    ensures NetInv(ns[i])
  {
    if i > 0 {
      RunKeeps(ns, races, i - 1);
      StepKeeps(ns[i - 1], ns[i], races);
    }
  }

  /** In every run in which no release finds a revoke pending, at every point, any two clients hold modes that go together. */
  lemma MutualExclusion(ns: seq<Net>, races: set<Mode>, i: nat, a: Id, b: Id)
    requires Run(ns, races) && NONE !in races && SH_RD !in races
    requires i < |ns| && a < |ns[i].peers| && b < |ns[i].peers| && a != b
    ensures Compatible(ns[i].peers[a].held, ns[i].peers[b].held)
  {
    RunKeeps(ns, races, i);
    Exclusion(ns[i], a, b);
  }

  /** In every such run, while a client waits for a grant some message is on its way. */
  lemma NoneStalled(ns: seq<Net>, races: set<Mode>, i: nat, c: Id) returns (d: Id)
    requires Run(ns, races) && NONE !in races && SH_RD !in races
    requires i < |ns| && c < |ns[i].peers| && ns[i].peers[c].asked != []
    ensures d < |ns[i].peers| && Busy(ns[i].peers[d])
  {
    RunKeeps(ns, races, i);
    d := NoStall(ns[i], c);
  }

  // ---------------------------------------------------------------- Requests are granted in the order of their arrival

  /** A step, by the server if it says whose message the server takes, and by a client if not. */
  ghost predicate TracedStep(n: Net, who: Option<Id>, n': Net, races: set<Mode>) {
    forall u {:trigger Look(u)} :: Look(u) ==> NamedStep(n, who, n', races)
  }

  ghost predicate NamedStep(n: Net, who: Option<Id>, n': Net, races: set<Mode>) {
    match who
    case None => ClientStep(n, n')
    case Some(c) => ServerStep(n, c, n') && forall m: Mode :: m != NULL && Races(n, c, m) ==> m in races
  }

  /** A run with its steps' names. */
  ghost predicate Traced(ns: seq<Net>, whose: seq<Option<Id>>, races: set<Mode>) {
    |ns| == |whose| + 1 && Initial(ns[0]) && forall i :: 0 <= i < |whose| ==> TracedStep(ns[i], whose[i], ns[i + 1], races)
  }

  lemma IsStep(n: Net, who: Option<Id>, n': Net, races: set<Mode>)
    requires TracedStep(n, who, n', races)
    ensures Step(n, n', races)
  {
    assert Look(0);
  }

  lemma TracedIsRun(ns: seq<Net>, whose: seq<Option<Id>>, races: set<Mode>)
    requires Traced(ns, whose, races)
    ensures Run(ns, races)
  {
    forall i | 0 <= i < |ns| - 1 ensures Step(ns[i], ns[i + 1], races) {
      IsStep(ns[i], whose[i], ns[i + 1], races);
    }
  }

  /** Every run's steps can be named. */
  lemma {:induction false} TraceOf(ns: seq<Net>, races: set<Mode>) returns (whose: seq<Option<Id>>)
    requires Run(ns, races)
    ensures Traced(ns, whose, races)
    decreases |ns|
  {
    whose := [];
    if |ns| > 1 {
      var k := |ns| - 2;
      assert Step(ns[k], ns[k + 1], races);
      var who := NameOf(ns[k], ns[k + 1], races);
      var before := RunBefore(ns, races, k);
      whose := TraceOf(before, races);
      TracedMore(ns, whose, who, races);
      whose := whose + [who];
    }
  }

  lemma TracedMore(ns: seq<Net>, whose: seq<Option<Id>>, who: Option<Id>, races: set<Mode>)
    requires |ns| == |whose| + 2 && Traced(ns[..|whose| + 1], whose, races)
    requires TracedStep(ns[|whose|], who, ns[|whose| + 1], races)
    ensures Traced(ns, whose + [who], races)
  {
    var before, all := ns[..|whose| + 1], whose + [who];
    forall i | 0 <= i < |all| ensures TracedStep(ns[i], all[i], ns[i + 1], races) {
      assert i < |whose| ==> TracedStep(before[i], whose[i], before[i + 1], races);
    }
  }

  lemma RunBefore(ns: seq<Net>, races: set<Mode>, k: nat) returns (before: seq<Net>)
    requires Run(ns, races) && k < |ns|
    ensures before == ns[..k + 1] && Run(before, races)
  {
    before := ns[..k + 1];
    forall i | 0 <= i < |before| - 1 ensures Step(before[i], before[i + 1], races) {
      assert Step(ns[i], ns[i + 1], races);
    }
  }

  lemma NameOf(n: Net, n': Net, races: set<Mode>) returns (who: Option<Id>)
    requires Step(n, n', races)
    ensures TracedStep(n, who, n', races)
  {
    who := None;
    if !ClientStep(n, n') {
      var c: Id :| ServerStep(n, c, n') && forall m: Mode :: m != NULL && Races(n, c, m) ==> m in races;
      who := Some(c);
    }
  }

  /** The request that the server takes in a step, and those that its grants answer. */
  function TakenIn(n: Net, who: Option<Id>): seq<Request> {
    if who.None? || who.value >= |n.peers| || n.peers[who.value].up == [] then [] else Taken(n, who.value)
  }

  ghost function AnsweredIn(n: Net, who: Option<Id>): seq<Request> {
    if who.None? || who.value >= |n.peers| || n.peers[who.value].up == [] then [] else Answers(ServerSends(n, who.value))
  }

  lemma StepInTurn(n: Net, who: Option<Id>, n': Net, races: set<Mode>)
    requires NetInv(n) && TracedStep(n, who, n', races) && NONE !in races && SH_RD !in races
    ensures n.l.queue + TakenIn(n, who) == AnsweredIn(n, who) + n'.l.queue
  {
    assert Look(0);
    if who.Some? {
      ServerStepKeeps(n, who.value, races);
    } else {
      assert n.l.queue + [] == [] + n'.l.queue;
    }
  }

  /** The requests that the server takes in the first i steps. */
  ghost function Received(ns: seq<Net>, whose: seq<Option<Id>>, i: nat): seq<Request>
    requires i <= |whose| < |ns|
  {
    if i == 0 then [] else Received(ns, whose, i - 1) + TakenIn(ns[i - 1], whose[i - 1])
  }

  /** The requests that the server's grants of the first i steps answer. */
  ghost function Served(ns: seq<Net>, whose: seq<Option<Id>>, i: nat): seq<Request>
    requires i <= |whose| < |ns|
  {
    if i == 0 then [] else Served(ns, whose, i - 1) + AnsweredIn(ns[i - 1], whose[i - 1])
  }

  /** At every point of every run in which no release finds a revoke pending, the requests granted followed by those in
      the queue are the requests received, in the order in which they were. */
  lemma {:induction false} GrantedInOrder(ns: seq<Net>, whose: seq<Option<Id>>, races: set<Mode>, i: nat)
    requires Traced(ns, whose, races) && NONE !in races && SH_RD !in races && i <= |whose|
    ensures Received(ns, whose, i) == Served(ns, whose, i) + ns[i].l.queue
  {
    if i > 0 {
      GrantedInOrder(ns, whose, races, i - 1);
      TracedIsRun(ns, whose, races);
      RunKeeps(ns, races, i - 1);
      assert TracedStep(ns[i - 1], whose[i - 1], ns[i], races);
      StepInTurn(ns[i - 1], whose[i - 1], ns[i], races);
      Onward(Served(ns, whose, i - 1), ns[i - 1].l.queue, TakenIn(ns[i - 1], whose[i - 1]), AnsweredIn(ns[i - 1], whose[i - 1]),
        ns[i].l.queue);
    }
  }

  lemma Onward<T>(a: seq<T>, q: seq<T>, taken: seq<T>, answered: seq<T>, q': seq<T>)
    requires q + taken == answered + q'
    ensures a + q + taken == a + answered + q'
  {
    assert a + q + taken == a + (q + taken);
  }
}
