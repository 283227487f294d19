/**
 What the lock server knows of one key (devd/rlock.c:24-107, 184-293): modes, clients with the
 modes granted to them, and the queue of requests; and how the server moves on from one state to
 the next, as values.
 */
module RlockModes {

  type Mode = m: int | 0 <= m <= 3

  const NULL: Mode := 0
  const NONE: Mode := 1
  const SH_RD: Mode := 2
  const EX_WR: Mode := 3

  type Id = nat

  /** A client's mode, and the mode that it is asked to go down to, if it is. */
  datatype Client = Client(id: Id, granted: Mode, revoked: Mode)

  datatype Request = Request(client: Id, mode: Mode)

  datatype Msg = Grant(to: Id, mode: Mode) | Revoke(to: Id, mode: Mode)

  /** Clients by decreasing mode, and requests in the order in which they came. */
  datatype Lists = Lists(granted: seq<Client>, queue: seq<Request>)

  // ---------------------------------------------------------------- Modes

  predicate Compatible(a: Mode, b: Mode) {
    var lo, hi := if a > b then b else a, if a > b then a else b;
    hi < EX_WR || lo <= NONE
  }

  function MostCompatible(m: Mode): Mode {
    if m == EX_WR then NONE else SH_RD
  }

  /** Modes that are only written or read by one client at a time, but never both. */
  lemma CompatibleMeans(a: Mode, b: Mode)
    ensures Compatible(a, b) <==> !(a == EX_WR && b >= SH_RD) && !(b == EX_WR && a >= SH_RD)
    ensures Compatible(a, b) <==> Compatible(b, a)
  {
  }

  /** The mode that a revoke asks for is the greatest one that the request can live with. */
  lemma MostCompatibleIsGreatest(m: Mode, x: Mode)
    requires m >= SH_RD
    ensures Compatible(x, m) <==> x <= MostCompatible(m)
  {
  }

  /** Modes below SH_RD are all the same to other clients. */
  function Rank(m: Mode): nat {
    if m <= NONE then 0 else m - 1
  }

  // ---------------------------------------------------------------- Invariants

  /** EX_WR before SH_RD before the rest. */
  ghost predicate Sorted(g: seq<Client>) {
    forall i, j :: 0 <= i < j < |g| ==> Rank(g[i].granted) >= Rank(g[j].granted)
  }

  ghost predicate Distinct(g: seq<Client>) {
    forall i, j :: 0 <= i < |g| && 0 <= j < |g| && g[i].id == g[j].id ==> i == j
  }

  /** No two clients have been granted modes that cannot go together. */
  ghost predicate AllCompatible(g: seq<Client>) {
    forall x, y {:trigger x in g, y in g} :: x in g && y in g && x.id != y.id ==> Compatible(x.granted, y.granted)
  }

  /** The client stands in the way of the request. */
  predicate Blocks(cl: Client, req: Request) {
    cl.id != req.client && !Compatible(cl.granted, req.mode)
  }

  ghost predicate Blocked(g: seq<Client>, req: Request) {
    exists x :: x in g && Blocks(x, req)
  }

  /** Revokes are pending with exactly the clients in the request's way, all for the same mode. */
  ghost predicate AllPending(g: seq<Client>, req: Request) {
    forall x :: x in g ==> x.revoked == if Blocks(x, req) then MostCompatible(req.mode) else NULL
  }

  ghost predicate NonePending(g: seq<Client>) {
    forall x :: x in g ==> x.revoked == NULL
  }

  ghost predicate GoodLists(l: Lists) {
    && Sorted(l.granted) && Distinct(l.granted) && AllCompatible(l.granted)
    && forall i :: 0 <= i < |l.queue| ==> l.queue[i].mode >= SH_RD
  }

  /** Between handlers: the head of the queue is blocked, and everyone in its way has been told. */
  ghost predicate Inv(l: Lists) {
    && GoodLists(l)
    && (l.queue == [] ==> NonePending(l.granted))
    && (l.queue != [] ==> Blocked(l.granted, l.queue[0]) && AllPending(l.granted, l.queue[0]))
  }

  /** Before requests are processed: everyone in the way of the head has been told, or no one has been told anything. */
  ghost predicate Ready(l: Lists) {
    && GoodLists(l)
    && (NonePending(l.granted) || (l.queue != [] && AllPending(l.granted, l.queue[0])))
  }

  // ---------------------------------------------------------------- The list of clients

  /** A client's place in the list, or the list's length. */
  function IndexOf(g: seq<Client>, id: Id): (i: nat)
    ensures i <= |g| && (i < |g| ==> g[i].id == id)
    ensures forall j :: 0 <= j < i ==> g[j].id != id
  {
    if g == [] || g[0].id == id then 0 else 1 + IndexOf(g[1..], id)
  }

  function Without(g: seq<Client>, i: nat): seq<Client>
    requires i < |g|
  {
    g[..i] + g[i + 1..]
  }

  /** Where a client that is out of order goes: a writer first, a reader after a writer, others last. */
  function Place(g: seq<Client>, cl: Client): seq<Client> {
    if cl.granted == EX_WR then [cl] + g
    else if cl.granted == SH_RD then
      if g != [] && g[0].granted == EX_WR then [g[0], cl] + g[1..] else [cl] + g
    else g + [cl]
  }

  function Reordered(g: seq<Client>, i: nat): seq<Client>
    requires i < |g|
  {
    if OutOfOrder(g, i) then Place(Without(g, i), g[i]) else g
  }

  predicate OutOfOrder(g: seq<Client>, i: nat)
    requires i < |g|
  {
    (i + 1 < |g| && g[i].granted < g[i + 1].granted) || (i > 0 && g[i].granted > g[i - 1].granted)
  }

  /** At most one client writes. */
  ghost predicate OneWriter(g: seq<Client>) {
    forall i, j :: 0 <= i < |g| && 0 <= j < |g| && g[i].granted == EX_WR && g[j].granted == EX_WR ==> i == j
  }

  /** The same clients in another order. */
  ghost predicate Permuted(g: seq<Client>, g': seq<Client>) {
    && |g| == |g'|
    && (forall i :: 0 <= i < |g| ==> g[i] in g')
    && (forall i :: 0 <= i < |g'| ==> g'[i] in g)
  }

  /** Only one client's mode has changed: moving it restores the order, whatever the mode. */
  lemma ReorderSorts(g: seq<Client>, i: nat)
    requires i < |g| && Distinct(g) && Sorted(Without(g, i)) && OneWriter(Without(g, i))
    requires g[i].granted == EX_WR ==> forall j :: 0 <= j < |g| && j != i ==> g[j].granted <= NONE
    ensures Sorted(Reordered(g, i)) && Distinct(Reordered(g, i)) && Permuted(g, Reordered(g, i))
  {
    var w, g' := Without(g, i), Reordered(g, i);
    if !OutOfOrder(g, i) {
      SortedInPlace(g, i);
    } else {
      PlacePermutes(g, i);
      PlaceSorts(w, g[i]);
    }
  }

  /** A client whose mode fits its neighbours' stays where it is. Another goes before all others with its mode, or, if
      it has neither, to the end; and the others keep their order. */
  lemma ReorderMoves(g: seq<Client>, i: nat) returns (j: nat)
    requires i < |g|
    ensures var g' := Reordered(g, i);
      && j < |g'| == |g| && g'[j] == g[i] && Without(g', j) == Without(g, i)
      && if (i == 0 || g[i - 1].granted >= g[i].granted) && (i + 1 == |g| || g[i].granted >= g[i + 1].granted) then j == i
        else if g[i].granted < SH_RD then j == |g| - 1
        else forall k :: 0 <= k < j ==> g'[k].granted > g[i].granted
  {
    var w, cl := Without(g, i), g[i];
    if !OutOfOrder(g, i) {
      j := i;
    } else {
      j := if cl.granted < SH_RD then |w| else if cl.granted == SH_RD && w != [] && w[0].granted == EX_WR then 1 else 0;
      assert Without(Place(w, cl), j) == w;
    }
  }

  lemma SortedInPlace(g: seq<Client>, i: nat)
    requires i < |g| && Sorted(Without(g, i))
    requires i + 1 < |g| ==> Rank(g[i].granted) >= Rank(g[i + 1].granted)
    requires i > 0 ==> Rank(g[i - 1].granted) >= Rank(g[i].granted)
    ensures Sorted(g)
  {
    var w := Without(g, i);
    forall j, k | 0 <= j < k < |g| ensures Rank(g[j].granted) >= Rank(g[k].granted) {
      var j', k' := if j < i then j else if j == i then i else j - 1, if k < i then k else if k == i then i - 1 else k - 1;
      if j != i && k != i {
        assert w[j'] == g[j] && w[k'] == g[k];
      } else if k == i && j < i - 1 {
        assert w[j] == g[j] && w[i - 1] == g[i - 1];
      } else if j == i && k > i + 1 {
        assert w[i] == g[i + 1] && w[k - 1] == g[k];
      }
    }
  }

  lemma PlaceSorts(w: seq<Client>, cl: Client)
    requires Sorted(w) && OneWriter(w)
    requires cl.granted == EX_WR ==> forall j :: 0 <= j < |w| ==> w[j].granted <= NONE
    ensures Sorted(Place(w, cl))
  {
    forall j | 0 < j < |w| ensures w[j].granted <= SH_RD {
      assert Rank(w[0].granted) >= Rank(w[j].granted);
    }
    assert forall j :: 0 <= j < |w| ==> Rank(w[0].granted) >= Rank(w[j].granted);
  }

  lemma WithoutHolds(g: seq<Client>, i: nat, j: nat)
    requires i < |g| && Distinct(g) && j < |g| && j != i
    ensures g[j] in Without(g, i) && g[j].id != g[i].id
  {
    assert g[j] == Without(g, i)[if j < i then j else j - 1];
  }

  lemma WithoutDistinct(g: seq<Client>, i: nat)
    requires i < |g| && Distinct(g)
    ensures Distinct(Without(g, i))
    ensures forall j :: 0 <= j < |g| - 1 ==> Without(g, i)[j] in g && Without(g, i)[j].id != g[i].id
  {
    forall j | 0 <= j < |g| - 1 ensures Without(g, i)[j] in g && Without(g, i)[j].id != g[i].id {
      assert Without(g, i)[j] == g[if j < i then j else j + 1];
    }
  }

  lemma PlacePermutes(g: seq<Client>, i: nat)
    requires i < |g| && Distinct(g)
    ensures Distinct(Place(Without(g, i), g[i])) && Permuted(g, Place(Without(g, i), g[i]))
  {
    var w, cl := Without(g, i), g[i];
    WithoutDistinct(g, i);
    PlaceDistinct(w, cl);
    forall j | 0 <= j < |g| ensures g[j] in Place(w, cl) {
      if j != i {
        WithoutHolds(g, i, j);
        PlaceKeeps(w, cl, g[j]);
      }
    }
  }

  lemma PlaceKeeps(w: seq<Client>, cl: Client, x: Client)
    requires x in w
    ensures x in Place(w, cl)
  {
    var j :| 0 <= j < |w| && w[j] == x;
    var p := Place(w, cl);
    assert p[j] == x || p[j + 1] == x;
  }

  lemma PlaceDistinct(w: seq<Client>, cl: Client)
    requires Distinct(w) && forall j :: 0 <= j < |w| ==> w[j].id != cl.id
    ensures Distinct(Place(w, cl)) && |Place(w, cl)| == |w| + 1 && cl in Place(w, cl)
    ensures forall x :: x in Place(w, cl) ==> x == cl || x in w
  {
    var p := Place(w, cl);
    if cl.granted == SH_RD && w != [] && w[0].granted == EX_WR {
      assert p[1] == cl;
    } else if cl.granted >= SH_RD {
      assert p[0] == cl;
    } else {
      assert p[|w|] == cl;
    }
  }

  // ---------------------------------------------------------------- Processing requests

  function RevokeOne(cl: Client, req: Request): Client {
    if Blocks(cl, req) then cl.(revoked := MostCompatible(req.mode)) else cl
  }

  /** Everyone in the way of the request has a revoke pending. */
  function RevokeAll(g: seq<Client>, req: Request): seq<Client> {
    seq(|g|, i requires 0 <= i < |g| => RevokeOne(g[i], req))
  }

  /** The revokes that are still to be sent. */
  function Revokes(g: seq<Client>, req: Request): seq<Msg> {
    if g == [] then [] else
      (if Blocks(g[0], req) && g[0].revoked != MostCompatible(req.mode) then [Revoke(g[0].id, MostCompatible(req.mode))] else [])
      + Revokes(g[1..], req)
  }

  datatype Scanned = Scanned(g: seq<Client>, msgs: seq<Msg>, saw: bool)

  /**
   The server's scan of the clients, which stops at the first other client that goes together with the
   request, or that has been told already.
   */
  function Scan(g: seq<Client>, req: Request): Scanned {
    if g == [] then Scanned([], [], false)
    else if g[0].id == req.client then
      var rest := Scan(g[1..], req);
      rest.(g := [g[0]] + rest.g)
    else if Compatible(g[0].granted, req.mode) then Scanned(g, [], false)
    else if g[0].revoked == MostCompatible(req.mode) then Scanned(g, [], true)
    else
      var rest := Scan(g[1..], req);
      Scanned([g[0].(revoked := MostCompatible(req.mode))] + rest.g, [Revoke(g[0].id, MostCompatible(req.mode))] + rest.msgs, true)
  }

  /** A scan that has come as far as rest: what it has made of the clients before, sent, and seen. */
  ghost predicate Scanning(all: Scanned, req: Request, front: seq<Client>, rest: seq<Client>, msgs: seq<Msg>, saw: bool) {
    var more := Scan(rest, req);
    all == Scanned(front + more.g, msgs + more.msgs, saw || more.saw)
  }

  lemma ScanSkips(all: Scanned, req: Request, front: seq<Client>, rest: seq<Client>, msgs: seq<Msg>, saw: bool)
    requires Scanning(all, req, front, rest, msgs, saw) && rest != [] && rest[0].id == req.client
    ensures Scanning(all, req, front + [rest[0]], rest[1..], msgs, saw)
  {
    assert front + ([rest[0]] + Scan(rest[1..], req).g) == front + [rest[0]] + Scan(rest[1..], req).g;
  }

  lemma ScanTells(all: Scanned, req: Request, front: seq<Client>, rest: seq<Client>, msgs: seq<Msg>, saw: bool)
    requires Scanning(all, req, front, rest, msgs, saw) && rest != [] && Blocks(rest[0], req)
    requires rest[0].revoked != MostCompatible(req.mode)
    ensures var to := MostCompatible(req.mode);
      Scanning(all, req, front + [rest[0].(revoked := to)], rest[1..], msgs + [Revoke(rest[0].id, to)], true)
  {
    var to, more := MostCompatible(req.mode), Scan(rest[1..], req);
    assert front + ([rest[0].(revoked := to)] + more.g) == front + [rest[0].(revoked := to)] + more.g;
    assert msgs + ([Revoke(rest[0].id, to)] + more.msgs) == msgs + [Revoke(rest[0].id, to)] + more.msgs;
  }

  /** Where the scan stops it has done what it does. */
  lemma ScanStops(all: Scanned, req: Request, front: seq<Client>, rest: seq<Client>, msgs: seq<Msg>, saw: bool)
    requires Scanning(all, req, front, rest, msgs, saw)
    ensures rest == [] ==> all == Scanned(front + rest, msgs, saw)
    ensures rest != [] && rest[0].id != req.client && Compatible(rest[0].granted, req.mode) ==> all == Scanned(front + rest, msgs, saw)
    ensures rest != [] && Blocks(rest[0], req) && rest[0].revoked == MostCompatible(req.mode) ==> all == Scanned(front + rest, msgs, true)
  {
    assert msgs + [] == msgs;
  }

  /** The client's entry is there. */
  function WithClient(g: seq<Client>, id: Id): seq<Client> {
    if IndexOf(g, id) == |g| then g + [Client(id, NULL, NULL)] else g
  }

  /** The client has the mode that it requested. */
  function Granted(g: seq<Client>, req: Request): seq<Client> {
    var g1, i := WithClient(g, req.client), IndexOf(g, req.client);
    if g1[i].granted == req.mode then g1 else Reordered(g1[i := g1[i].(granted := req.mode)], i)
  }

  function Grants(g: seq<Client>, req: Request): seq<Msg> {
    if WithClient(g, req.client)[IndexOf(g, req.client)].granted == req.mode then [] else [Grant(req.client, req.mode)]
  }

  /** The head of the queue is granted. */
  function GrantHead(l: Lists): Lists
    requires l.queue != []
  {
    Lists(Granted(l.granted, l.queue[0]), l.queue[1..])
  }

  /** What processing requests makes of the lists, and the messages that it sends. */
  datatype Outcome = Outcome(l: Lists, msgs: seq<Msg>)

  /** What the server does: requests are granted in order, up to one whose scan meets a client in its way. */
  ghost function Process(l: Lists): Outcome
    decreases |l.queue|
  {
    if l.queue == [] then Outcome(l, [])
    else
      var req := l.queue[0];
      var scan := Scan(l.granted, req);
      if scan.saw then Outcome(l.(granted := scan.g), scan.msgs)
      else
        var rest := Process(Lists(Granted(scan.g, req), l.queue[1..]));
        Outcome(rest.l, scan.msgs + Grants(scan.g, req) + rest.msgs)
  }

  /** What it is meant to do: look at every client, and tell everyone in the way of the first request that is blocked. */
  ghost function ProcessAll(l: Lists): Outcome
    decreases |l.queue|
  {
    if l.queue == [] then Outcome(l, [])
    else
      var req := l.queue[0];
      if Blocked(l.granted, req) then Outcome(l.(granted := RevokeAll(l.granted, req)), Revokes(l.granted, req))
      else
        var rest := ProcessAll(Lists(Granted(l.granted, req), l.queue[1..]));
        Outcome(rest.l, Grants(l.granted, req) + rest.msgs)
  }

  /** What the server's list says of a client. */
  function Entry(g: seq<Client>, c: Id): Client {
    if IndexOf(g, c) < |g| then g[IndexOf(g, c)] else Client(c, NULL, NULL)
  }

  /** The mode granted to a client. */
  ghost function ModeOf(g: seq<Client>, id: Id): Mode {
    var i := IndexOf(g, id);
    if i < |g| then g[i].granted else NULL
  }

  lemma Found(g: seq<Client>, cl: Client)
    requires Distinct(g) && cl in g
    ensures IndexOf(g, cl.id) < |g| && g[IndexOf(g, cl.id)] == cl
  {
    var i :| 0 <= i < |g| && g[i] == cl;
  }

  lemma GoodWriters(g: seq<Client>)
    requires Distinct(g) && AllCompatible(g)
    ensures OneWriter(g)
  {
    forall i, j | 0 <= i < |g| && 0 <= j < |g| && g[i].granted == EX_WR && g[j].granted == EX_WR ensures i == j {
      assert g[i] in g && g[j] in g;
      assert g[i].id != g[j].id ==> Compatible(g[i].granted, g[j].granted);
    }
  }

  /** One client's mode is set, to one that goes together with all the others'. */
  lemma SetMode(g: seq<Client>, i: nat, cl: Client)
    requires i < |g| && Sorted(g) && Distinct(g) && AllCompatible(g) && cl.id == g[i].id
    requires forall x :: x in g && x.id != cl.id ==> Compatible(x.granted, cl.granted)
    ensures var g' := Reordered(g[i := cl], i);
      Sorted(g') && Distinct(g') && AllCompatible(g') && Permuted(g[i := cl], g')
  {
    var g1 := g[i := cl];
    var w := Without(g1, i);
    GoodWriters(g);
    forall j | 0 <= j < |w| ensures w[j] == g[if j < i then j else j + 1] && w[j] in g {
    }
    forall j | 0 <= j < |g1| && j != i ensures g1[j] in g && g1[j].id != cl.id {
    }
    ReorderSorts(g1, i);
    CompatibleIn(g, i, cl);
  }

  lemma CompatibleIn(g: seq<Client>, i: nat, cl: Client)
    requires i < |g| && AllCompatible(g) && cl.id == g[i].id && Distinct(g)
    requires forall x :: x in g && x.id != cl.id ==> Compatible(x.granted, cl.granted)
    ensures AllCompatible(g[i := cl])
  {
    var g1 := g[i := cl];
    forall x | x in g1 ensures x == cl || (x in g && x.id != cl.id) {
      var j :| 0 <= j < |g1| && g1[j] == x;
      if j != i {
        assert g[j] == x;
      }
    }
    forall x, y | x in g1 && y in g1 && x.id != y.id ensures Compatible(x.granted, y.granted) {
      CompatibleMeans(x.granted, y.granted);
    }
  }

  /** A request that is not blocked is granted: its client's entry gets the mode, and nothing else changes. */
  lemma GrantGood(l: Lists)
    requires GoodLists(l) && l.queue != [] && !Blocked(l.granted, l.queue[0])
    ensures GoodLists(GrantHead(l))
    ensures var (g, g', req) := (l.granted, GrantHead(l).granted, l.queue[0]); var cl := Entry(g, req.client).(granted := req.mode);
      && cl in g'
      && (forall x :: x in g' ==> x == cl || (x in g && x.id != cl.id))
      && (forall x :: x in g && x.id != cl.id ==> x in g')
  {
    var g, req := l.granted, l.queue[0];
    var g1, i := WithClient(g, req.client), IndexOf(g, req.client);
    WithClientKeeps(g, req.client);
    var cl := g1[i].(granted := req.mode);
    forall x | x in g1 && x.id != cl.id ensures Compatible(x.granted, cl.granted) {
      assert x in g && !Blocks(x, req);
    }
    forall x | x in g && x.id != cl.id ensures x in g1 {
    }
    if g1[i].granted == req.mode {
      Found(g1, g1[i]);
    } else {
      SetMode(g1, i, cl);
      SetIn(g1, i, cl);
    }
  }

  lemma SetIn(g: seq<Client>, i: nat, cl: Client)
    requires i < |g| && Distinct(g) && cl.id == g[i].id
    ensures cl in g[i := cl]
    ensures forall x :: x in g[i := cl] ==> x == cl || (x in g && x.id != cl.id)
    ensures forall x :: x in g && x.id != cl.id ==> x in g[i := cl]
  {
    var g1 := g[i := cl];
    assert g1[i] == cl;
    forall x | x in g1 ensures x == cl || (x in g && x.id != cl.id) {
      var j :| 0 <= j < |g1| && g1[j] == x;
      if j != i {
        assert g[j] == x;
      }
    }
    forall x | x in g && x.id != cl.id ensures x in g1 {
      var j :| 0 <= j < |g| && g[j] == x;
      assert g1[j] == x;
    }
  }

  /** ... and when nothing else is pending, nothing is then. */
  lemma GrantKeeps(l: Lists)
    requires Ready(l) && l.queue != [] && !Blocked(l.granted, l.queue[0])
    ensures var l' := GrantHead(l);
      Ready(l') && NonePending(l.granted) && NonePending(l'.granted) && ModeOf(l'.granted, l.queue[0].client) == l.queue[0].mode
  {
    var g, req := l.granted, l.queue[0];
    assert NonePending(g) by {
      forall x | x in g ensures x.revoked == NULL {
        assert !Blocks(x, req);
      }
    }
    GrantGood(l);
    Found(GrantHead(l).granted, Entry(g, req.client).(granted := req.mode));
  }

  /** A request sends no grant if and only if its client has the mode already. */
  lemma NoGrantSent(g: seq<Client>, req: Request)
    requires Sorted(g) && Distinct(g) && AllCompatible(g)
    ensures Grants(g, req) == [] <==> Entry(g, req.client).granted == req.mode
    ensures Grants(g, req) != [] ==> Grants(g, req) == [Grant(req.client, req.mode)]
  {
    WithClientKeeps(g, req.client);
  }

  lemma WithClientKeeps(g: seq<Client>, id: Id)
    requires Sorted(g) && Distinct(g) && AllCompatible(g)
    ensures var g1 := WithClient(g, id);
      && Sorted(g1) && Distinct(g1) && AllCompatible(g1)
      && IndexOf(g, id) < |g1| && g1[IndexOf(g, id)] == Entry(g, id) && Entry(g, id).id == id && IndexOf(g1, id) == IndexOf(g, id)
      && (forall x :: x in g1 && x.id != id ==> x in g)
      && (forall x :: x in g ==> x in g1)
  {
    var i := IndexOf(g, id);
    if i == |g| {
      var g1 := g + [Client(id, NULL, NULL)];
      forall x | x in g1 ensures x == Client(id, NULL, NULL) || (x in g && x.id != id) {
      }
      Found(g1, Client(id, NULL, NULL));
      assert g1[IndexOf(g1, id)] == g1[|g|];
    }
  }

  // ---------------------------------------------------------------- What processing keeps

  lemma RevokedIn(g: seq<Client>, req: Request)
    ensures forall x :: x in g ==> RevokeOne(x, req) in RevokeAll(g, req)
    ensures forall y :: y in RevokeAll(g, req) ==> exists x :: x in g && y == RevokeOne(x, req)
  {
    var g' := RevokeAll(g, req);
    forall x | x in g ensures RevokeOne(x, req) in g' {
      var i :| 0 <= i < |g| && g[i] == x;
      assert g'[i] == RevokeOne(x, req);
    }
    forall y | y in g' ensures exists x :: x in g && y == RevokeOne(x, req) {
      var i :| 0 <= i < |g'| && g'[i] == y;
      assert g[i] in g && y == RevokeOne(g[i], req);
    }
  }

  lemma OnlyRevoked(g: seq<Client>, req: Request)
    requires Sorted(g) && Distinct(g) && AllCompatible(g)
    ensures var g' := RevokeAll(g, req); Sorted(g') && Distinct(g') && AllCompatible(g')
  {
    var g' := RevokeAll(g, req);
    assert forall i :: 0 <= i < |g| ==> g'[i].id == g[i].id && g'[i].granted == g[i].granted;
    forall x, y | x in g' && y in g' && x.id != y.id ensures Compatible(x.granted, y.granted) {
      var i :| 0 <= i < |g'| && g'[i] == x;
      var j :| 0 <= j < |g'| && g'[j] == y;
      assert g[i] in g && g[j] in g;
    }
  }

  /** When the head is blocked, telling everyone in its way restores the invariant. */
  lemma BlockedKeeps(l: Lists)
    requires Ready(l) && l.queue != [] && Blocked(l.granted, l.queue[0])
    ensures Inv(l.(granted := RevokeAll(l.granted, l.queue[0])))
  {
    var g, req := l.granted, l.queue[0];
    var g' := RevokeAll(g, req);
    OnlyRevoked(g, req);
    RevokedIn(g, req);
    forall y | y in g' ensures y.revoked == if Blocks(y, req) then MostCompatible(req.mode) else NULL {
      var x :| x in g && y == RevokeOne(x, req);
    }
    var b :| b in g && Blocks(b, req);
    assert RevokeOne(b, req) in g' && Blocks(RevokeOne(b, req), req);
  }

  // ---------------------------------------------------------------- The early exits of the scan

  /** Past the first other client that goes together with the request, all do. */
  lemma RestCompatible(g: seq<Client>, req: Request)
    requires Sorted(g) && g != [] && Compatible(g[0].granted, req.mode)
    ensures !Blocked(g, req) && RevokeAll(g, req) == g && Revokes(g, req) == []
    decreases |g|
  {
    forall i | 0 <= i < |g| ensures !Blocks(g[i], req) {
      CompatibleMeans(g[0].granted, req.mode);
      assert i > 0 ==> Rank(g[0].granted) >= Rank(g[i].granted);
    }
    NothingToDo(g, req);
  }

  lemma {:induction false} NothingToDo(g: seq<Client>, req: Request)
    requires forall i :: 0 <= i < |g| ==> !Blocks(g[i], req) || g[i].revoked == MostCompatible(req.mode)
    ensures RevokeAll(g, req) == g && Revokes(g, req) == []
    decreases |g|
  {
    if g != [] {
      forall i | 0 <= i < |g[1..]| ensures g[1..][i] == g[i + 1] {
      }
      NothingToDo(g[1..], req);
    }
  }

  /** Where everyone has been told or no one has, the scan does as much as looking at every client would. */
  lemma {:induction false} ScanIsEnough(g: seq<Client>, req: Request)
    requires Sorted(g) && (NonePending(g) || AllPending(g, req))
    ensures Scan(g, req) == Scanned(RevokeAll(g, req), Revokes(g, req), Blocked(g, req))
    decreases |g|
  {
    if g != [] {
      assert g[0] in g;
      var rest := g[1..];
      RestOf(g, req);
      if g[0].id == req.client {
        ScanIsEnough(rest, req);
        assert RevokeAll(g, req) == [g[0]] + RevokeAll(rest, req);
      } else if Compatible(g[0].granted, req.mode) {
        RestCompatible(g, req);
      } else if g[0].revoked == MostCompatible(req.mode) {
        forall i | 0 <= i < |g| ensures !Blocks(g[i], req) || g[i].revoked == MostCompatible(req.mode) {
          assert g[i] in g;
        }
        NothingToDo(g, req);
      } else {
        ScanIsEnough(rest, req);
        assert RevokeAll(g, req) == [RevokeOne(g[0], req)] + RevokeAll(rest, req);
      }
    }
  }

  lemma RestOf(g: seq<Client>, req: Request)
    requires g != []
    ensures Sorted(g) ==> Sorted(g[1..])
    ensures NonePending(g) ==> NonePending(g[1..])
    ensures AllPending(g, req) ==> AllPending(g[1..], req)
    ensures Blocked(g, req) <==> Blocks(g[0], req) || Blocked(g[1..], req)
  {
    forall x | x in g ensures x == g[0] || x in g[1..] {
      var i :| 0 <= i < |g| && g[i] == x;
      assert i > 0 ==> g[1..][i - 1] == x;
    }
    assert forall x :: x in g[1..] ==> x in g;
    assert g[0] in g;
  }

  /** The first request leaves the queue. */
  lemma ProcessNext(l: Lists)
    requires l.queue != []
    ensures var scan, req := Scan(l.granted, l.queue[0]), l.queue[0];
      && (scan.saw ==> Process(l) == Outcome(l.(granted := scan.g), scan.msgs))
      && (!scan.saw ==> Process(l) == Outcome(Process(Lists(Granted(scan.g, req), l.queue[1..])).l,
        scan.msgs + Grants(scan.g, req) + Process(Lists(Granted(scan.g, req), l.queue[1..])).msgs))
  {
  }

  lemma ProcessStops(l: Lists)
    requires Ready(l) && l.queue != [] && Blocked(l.granted, l.queue[0])
    ensures Process(l) == ProcessAll(l) == Outcome(l.(granted := RevokeAll(l.granted, l.queue[0])), Revokes(l.granted, l.queue[0]))
    ensures Inv(Process(l).l)
  {
    ScanIsEnough(l.granted, l.queue[0]);
    BlockedKeeps(l);
  }

  lemma ProcessGrants(l: Lists)
    requires Ready(l) && l.queue != [] && !Blocked(l.granted, l.queue[0])
    ensures Ready(GrantHead(l))
    ensures Process(l) == Outcome(Process(GrantHead(l)).l, Grants(l.granted, l.queue[0]) + Process(GrantHead(l)).msgs)
    ensures ProcessAll(l) == Outcome(ProcessAll(GrantHead(l)).l, Grants(l.granted, l.queue[0]) + ProcessAll(GrantHead(l)).msgs)
  {
    ScanIsEnough(l.granted, l.queue[0]);
    NotBlocked(l.granted, l.queue[0]);
    GrantKeeps(l);
    assert [] + Grants(l.granted, l.queue[0]) == Grants(l.granted, l.queue[0]);
  }

  /**
   Processing requests ends with the invariant: either no request is left, or the first one is blocked
   and everyone in its way has a revoke pending.
   */
  lemma {:induction false} ProcessKeeps(l: Lists)
    requires Ready(l)
    ensures Inv(Process(l).l)
    decreases |l.queue|
  {
    if l.queue == [] {
      assert NonePending(l.granted);
    } else if Blocked(l.granted, l.queue[0]) {
      ProcessStops(l);
    } else {
      ProcessGrants(l);
      ProcessKeeps(GrantHead(l));
    }
  }

  /** The early exits of the scan make no difference. */
  lemma {:induction false} ProcessIsEnough(l: Lists)
    requires Ready(l)
    ensures Process(l) == ProcessAll(l)
    decreases |l.queue|
  {
    if l.queue != [] {
      if Blocked(l.granted, l.queue[0]) {
        ProcessStops(l);
      } else {
        ProcessGrants(l);
        ProcessIsEnough(GrantHead(l));
      }
    }
  }

  lemma NotBlocked(g: seq<Client>, req: Request)
    requires !Blocked(g, req)
    ensures RevokeAll(g, req) == g && Revokes(g, req) == []
  {
    forall i | 0 <= i < |g| ensures !Blocks(g[i], req) {
      assert g[i] in g;
    }
    NothingToDo(g, req);
  }

  // ---------------------------------------------------------------- The order of requests

  /** The requests that the grants among these messages answer. */
  function Answers(msgs: seq<Msg>): seq<Request> {
    if msgs == [] then [] else Answer(msgs[0]) + Answers(msgs[1..])
  }

  function Answer(msg: Msg): seq<Request> {
    match msg case Grant(c, m) => [Request(c, m)] case Revoke(_, _) => []
  }

  lemma InThree<T>(a: seq<T>, b: seq<T>, c: seq<T>)
    ensures a + (b + c) == a + b + c
  {
  }

  lemma {:induction false} AnswersConcat(a: seq<Msg>, b: seq<Msg>)
    ensures Answers(a + b) == Answers(a) + Answers(b)
  {
    if a == [] {
      assert a + b == b;
    } else {
      assert (a + b)[1..] == a[1..] + b;
      AnswersConcat(a[1..], b);
      InThree(Answer(a[0]), Answers(a[1..]), Answers(b));
    }
  }

  lemma {:induction false} ScanAnswers(g: seq<Client>, req: Request)
    ensures Answers(Scan(g, req).msgs) == []
  {
    if g != [] {
      ScanAnswers(g[1..], req);
      AnswersConcat([Revoke(g[0].id, MostCompatible(req.mode))], Scan(g[1..], req).msgs);
      assert Answers([Revoke(g[0].id, MostCompatible(req.mode))]) == [];
    }
  }

  lemma {:induction false} RevokesAnswer(g: seq<Client>, req: Request)
    ensures Answers(Revokes(g, req)) == []
  {
    if g != [] {
      RevokesAnswer(g[1..], req);
      var first := if Blocks(g[0], req) && g[0].revoked != MostCompatible(req.mode) then [Revoke(g[0].id, MostCompatible(req.mode))] else [];
      AnswersConcat(first, Revokes(g[1..], req));
      assert Answers(first) == [];
    }
  }

  lemma GrantAnswers(g: seq<Client>, req: Request)
    ensures Answers(Grants(g, req)) == if Grants(g, req) == [] then [] else [req]
  {
    assert Answers([Grant(req.client, req.mode)]) == [req];
  }

  /** Some of the requests, in the same order. */
  ghost predicate Among(some: seq<Request>, all: seq<Request>) {
    some == [] || (all != [] &&
      var n, m := |some| - 1, |all| - 1;
      Among(some, all[..m]) || (some[n] == all[m] && Among(some[..n], all[..m])))
  }

  lemma AmongOneMore(some: seq<Request>, all: seq<Request>, req: Request)
    requires Among(some, all)
    ensures Among(some, all + [req]) && Among(some + [req], all + [req])
  {
    assert (all + [req])[..|all|] == all && (some + [req])[..|some|] == some;
  }

  /** The last part of the list. */
  predicate IsTail<T(==)>(tail: seq<T>, all: seq<T>) {
    |tail| <= |all| && tail == all[|all| - |tail|..]
  }

  /** Requests leave the queue from the front. */
  lemma {:induction false} ProcessIsTail(l: Lists)
    ensures IsTail(Process(l).l.queue, l.queue)
    decreases |l.queue|
  {
    if l.queue != [] {
      var scan := Scan(l.granted, l.queue[0]);
      if !scan.saw {
        var next := Lists(Granted(scan.g, l.queue[0]), l.queue[1..]);
        ProcessIsTail(next);
        var tail := Process(next).l.queue;
        assert next.queue[|next.queue| - |tail|..] == l.queue[|l.queue| - |tail|..];
      }
    }
  }

  // ---------------------------------------------------------------- Clients that have nothing

  /** A client without a mode that it has to give up, now or when it is asked for. */
  predicate Idle(cl: Client) {
    cl.granted < SH_RD && cl.revoked < SH_RD
  }

  ghost predicate NoneIdle(g: seq<Client>) {
    forall x {:trigger Idle(x)} :: x in g ==> !Idle(x)
  }

  ghost predicate AsksRead(q: seq<Request>) {
    forall i :: 0 <= i < |q| ==> q[i].mode >= SH_RD
  }

  lemma ReorderedIn(g: seq<Client>, i: nat)
    requires i < |g|
    ensures forall x :: x in Reordered(g, i) ==> x in g
  {
    var w := Without(g, i);
    assert forall x :: x in w ==> x in g;
    assert forall x :: x in Place(w, g[i]) ==> x in w || x == g[i];
  }

  lemma {:induction false} ScanNoneIdle(g: seq<Client>, req: Request)
    requires NoneIdle(g)
    ensures NoneIdle(Scan(g, req).g)
  {
    if g != [] {
      assert !Idle(g[0]);
      assert NoneIdle(g[1..]) by {
        assert forall x :: x in g[1..] ==> x in g;
      }
      ScanNoneIdle(g[1..], req);
      var told := g[0].(revoked := MostCompatible(req.mode));
      assert Blocks(g[0], req) ==> !Idle(told);
      forall x | x in Scan(g, req).g ensures !Idle(x) {
        assert x in Scan(g[1..], req).g || x == g[0] || x in g || (Blocks(g[0], req) && x == told);
      }
    }
  }

  lemma GrantedNoneIdle(g: seq<Client>, req: Request)
    requires NoneIdle(g) && req.mode >= SH_RD
    ensures NoneIdle(Granted(g, req))
  {
    var g1, i := WithClient(g, req.client), IndexOf(g, req.client);
    var g2 := g1[i := g1[i].(granted := req.mode)];
    forall j | 0 <= j < |g2| ensures !Idle(g2[j]) {
      assert j < |g| ==> g[j] in g;
    }
    if g1[i].granted == req.mode {
      assert g1 == g2;
    } else {
      ReorderedIn(g2, i);
    }
  }

  /** Processing requests leaves no client in the list that has nothing. */
  lemma {:induction false} ProcessNoneIdle(l: Lists)
    requires NoneIdle(l.granted) && AsksRead(l.queue)
    ensures NoneIdle(Process(l).l.granted) && AsksRead(Process(l).l.queue)
    decreases |l.queue|
  {
    if l.queue != [] {
      var scan := Scan(l.granted, l.queue[0]);
      ScanNoneIdle(l.granted, l.queue[0]);
      if !scan.saw {
        GrantedNoneIdle(scan.g, l.queue[0]);
        ProcessNoneIdle(Lists(Granted(scan.g, l.queue[0]), l.queue[1..]));
      }
    }
  }

  /** One client's entry has changed: it leaves if it has nothing any more. */
  lemma SettledNoneIdle(l: Lists, i: nat, cl: Client)
    requires i < |l.granted| && NoneIdle(l.granted)
    ensures NoneIdle(Settled(l.(granted := l.granted[i := cl]), i).granted)
  {
    var g := l.granted[i := cl];
    forall j | 0 <= j < |g| && j != i ensures !Idle(g[j]) {
      assert l.granted[j] in l.granted;
    }
    if Idle(cl) {
      var w := Without(g, i);
      forall j | 0 <= j < |w| ensures !Idle(w[j]) {
        assert w[j] == g[if j < i then j else j + 1];
      }
    } else {
      ReorderedIn(g, i);
    }
  }

  // ---------------------------------------------------------------- What clients do

  function Requested(l: Lists, client: Id, mode: Mode): Lists {
    l.(queue := l.queue + [Request(client, mode)])
  }

  /** A client that has nothing any more is forgotten; another takes its place in the order. */
  function Settled(l: Lists, i: nat): Lists
    requires i < |l.granted|
  {
    var cl := l.granted[i];
    l.(granted := if cl.granted <= NONE && cl.revoked <= NONE then Without(l.granted, i) else Reordered(l.granted, i))
  }

  /** The client is down to the mode that it was asked for. */
  function Confirmed(l: Lists, i: nat): Lists
    requires i < |l.granted|
  {
    Settled(l.(granted := l.granted[i := l.granted[i].(granted := l.granted[i].revoked, revoked := NULL)]), i)
  }

  /** The client has gone down to a mode on its own. */
  function Released(l: Lists, i: nat, mode: Mode): Lists
    requires i < |l.granted|
  {
    Settled(l.(granted := l.granted[i := l.granted[i].(granted := mode)]), i)
  }

  lemma RequestReady(l: Lists, client: Id, mode: Mode)
    requires Inv(l) && mode >= SH_RD
    ensures Ready(Requested(l, client, mode))
  {
  }

  /** A mode that goes together with another still does when it is lowered. */
  lemma LowerCompatible(a: Mode, b: Mode, c: Mode)
    requires Compatible(a, b) && c <= a
    ensures Compatible(c, b)
  {
  }

  /** One client's entry after it went down: with the mode granted to it before, and what is pending. */
  lemma Lowered(l: Lists, i: nat, cl: Client)
    requires GoodLists(l) && i < |l.granted| && cl.id == l.granted[i].id && cl.granted <= l.granted[i].granted
    ensures GoodLists(Settled(l.(granted := l.granted[i := cl]), i))
    ensures forall x :: x in Settled(l.(granted := l.granted[i := cl]), i).granted ==> x == cl || (x in l.granted && x.id != cl.id)
    ensures cl.granted > NONE || cl.revoked > NONE ==> cl in Settled(l.(granted := l.granted[i := cl]), i).granted
  {
    var g := l.granted;
    forall x | x in g && x.id != cl.id ensures Compatible(x.granted, cl.granted) {
      assert g[i] in g;
      assert Compatible(g[i].granted, x.granted);
      LowerCompatible(g[i].granted, x.granted, cl.granted);
      CompatibleMeans(cl.granted, x.granted);
    }
    SetMode(g, i, cl);
    var g1 := g[i := cl];
    forall x | x in g1 ensures x == cl || (x in g && x.id != cl.id) {
      var j :| 0 <= j < |g1| && g1[j] == x;
      assert g[j] in g;
    }
    assert g1[i] == cl;
    WithoutGood(g, g1, i);
  }

  lemma WithoutGood(g: seq<Client>, g1: seq<Client>, i: nat)
    requires i < |g| == |g1| && Sorted(g) && Distinct(g) && AllCompatible(g) && g1 == g[i := g1[i]]
    ensures var w := Without(g1, i); Sorted(w) && Distinct(w) && AllCompatible(w) && forall x :: x in w ==> x in g && x.id != g[i].id
  {
    var w := Without(g1, i);
    forall j | 0 <= j < |w| ensures w[j] == g[if j < i then j else j + 1] && w[j] in g {
    }
  }

  /** A confirmed revoke leaves the lists ready for processing, as does a confirm that nobody asked for. */
  lemma ConfirmReady(l: Lists, i: nat)
    requires Inv(l) && i < |l.granted|
    ensures Ready(Confirmed(l, i))
  {
    var was := l.granted[i];
    var cl := was.(granted := was.revoked, revoked := NULL);
    assert was in l.granted;
    if l.queue != [] {
      MostCompatibleIsGreatest(l.queue[0].mode, was.granted);
      MostCompatibleIsGreatest(l.queue[0].mode, cl.granted);
    }
    Lowered(l, i, cl);
  }

  /** A release leaves the lists ready unless its client has been asked to go down to SH_RD. */
  lemma ReleaseReady(l: Lists, i: nat, mode: Mode)
    requires Inv(l) && i < |l.granted| && mode < l.granted[i].granted
    ensures Ready(Released(l, i, mode)) <==> l.granted[i].revoked != SH_RD
  {
    var was := l.granted[i];
    var cl := was.(granted := mode);
    assert was in l.granted;
    Lowered(l, i, cl);
    if l.queue != [] {
      MostCompatibleIsGreatest(l.queue[0].mode, was.granted);
      MostCompatibleIsGreatest(l.queue[0].mode, mode);
    }
  }

  /** The lists after a request, and after a confirm or a release by the client at index i. */
  ghost function AfterRequest(l: Lists, client: Id, mode: Mode): Lists {
    Process(Requested(l, client, mode)).l
  }

  ghost function AfterConfirm(l: Lists, i: nat): Lists
    requires i < |l.granted|
  {
    Process(Confirmed(l, i)).l
  }

  ghost function AfterRelease(l: Lists, i: nat, mode: Mode): Lists
    requires i < |l.granted|
  {
    Process(Released(l, i, mode)).l
  }
}
