/**
 The lock server's message handlers for one key (devd/rlock.c:209-541). Each handler runs without
 interruption. Between handlers the granted modes go together, and the first request in the queue
 is blocked by exactly the clients that have a revoke pending.
 */
module Rlock {
  import opened RlockModes
  import opened RlockRelease

  datatype Errno = OK | EINVAL | EPROTO

  lemma MessagesInOrder(a: seq<Msg>, b: seq<Msg>, c: seq<Msg>, d: seq<Msg>)
    ensures a + (b + c + d) == a + b + c + d
  {
  }

  lemma ServesNext(g: seq<Client>, queue: seq<Request>, sent: seq<Msg>, served: seq<Request>)
    requires queue != [] && Among(Answers(sent), served)
    ensures served + queue == served + [queue[0]] + queue[1..]
    ensures Among(Answers(sent + Grants(g, queue[0])), served + [queue[0]])
  {
    var some := Answers(sent);
    GrantAnswers(g, queue[0]);
    AnswersConcat(sent, Grants(g, queue[0]));
    AmongOneMore(some, served, queue[0]);
    assert some + [] == some;
  }

  /** What a request leads to. */
  lemma RequestComes(l: Lists, client: Id, mode: Mode, served: seq<Request>)
    requires mode >= SH_RD
    ensures Inv(l) ==> Inv(AfterRequest(l, client, mode))
    ensures NoneIdle(l.granted) && AsksRead(l.queue) ==>
      NoneIdle(AfterRequest(l, client, mode).granted) && AsksRead(AfterRequest(l, client, mode).queue)
    ensures IsTail(AfterRequest(l, client, mode).queue, l.queue + [Request(client, mode)])
    ensures served + l.queue + [Request(client, mode)] == served + (l.queue + [Request(client, mode)])
  {
    var l' := Requested(l, client, mode);
    if Inv(l) {
      RequestReady(l, client, mode);
      ProcessKeeps(l');
    }
    if NoneIdle(l.granted) && AsksRead(l.queue) {
      ProcessNoneIdle(l');
    }
    ProcessIsTail(l');
  }

  class RlockLists {
    var granted: seq<Client>
    var queue: seq<Request>
    /** Everything that has been sent, in order. */
    var sent: seq<Msg>
    /** The requests received so far, and those that have been served. */
    ghost var received: seq<Request>
    ghost var served: seq<Request>

    ghost function State(): Lists
      reads this
    {
      Lists(granted, queue)
    }

    /** Requests are served in the order in which they were received, those not served are in the queue, and grants
        go out in that order. */
    ghost predicate InOrder()
      reads this
    {
      received == served + queue && Among(Answers(sent), served)
    }

    /** Every client in the list has a mode to give up, now or when it is asked for, and every request is for one. */
    ghost predicate NoneLeft()
      reads this
    {
      NoneIdle(granted) && AsksRead(queue)
    }

    constructor ()
      ensures Inv(State()) && InOrder() && NoneLeft() && sent == [] && received == []
    {
      granted, queue, sent := [], [], [];
      received, served := [], [];
    }

    /** Restores the order of the list after a change of one client's mode. */
    method MaintainGrantedOrder(i: nat)
      requires i < |granted|
      modifies this`granted
      ensures granted == Reordered(old(granted), i)
    {
      var cl := granted[i];
      if (i + 1 < |granted| && cl.granted < granted[i + 1].granted) || (i > 0 && cl.granted > granted[i - 1].granted) {
        granted := granted[..i] + granted[i + 1..];
        if cl.granted == EX_WR {
          granted := [cl] + granted;
        } else if cl.granted == SH_RD {
          if granted != [] && granted[0].granted == EX_WR {
            granted := [granted[0], cl] + granted[1..];
          } else {
            granted := [cl] + granted;
          }
        } else {
          granted := granted + [cl];
        }
      }
    }

    /** The client's entry, made if it is not there. */
    method GetClient(id: Id) returns (i: nat)
      modifies this`granted
      ensures granted == WithClient(old(granted), id) && i == IndexOf(old(granted), id) < |granted|
    {
      i := IndexOf(granted, id);
      if i == |granted| {
        granted := granted + [Client(id, NULL, NULL)];
      }
    }

    /** Looks for clients in the way of a request, and sends revokes to them. */
    method ScanClients(req: Request) returns (sawIncompat: bool)
      modifies this`granted, this`sent
      ensures var scan := Scan(old(granted), req);
        granted == scan.g && sent == old(sent) + scan.msgs && sawIncompat == scan.saw
    {
      var compat := MostCompatible(req.mode);
      sawIncompat := false;
      ghost var all, front, rest, msgs := Scan(granted, req), [], granted, [];
      var i := 0;
      while i < |granted|
        invariant i == |front| && granted == front + rest && sent == old(sent) + msgs
        invariant Scanning(all, req, front, rest, msgs, sawIncompat)
        decreases |granted| - i
      {
        var cl := granted[i];
        assert cl == rest[0];
        ScanStops(all, req, front, rest, msgs, sawIncompat);
        if cl.id == req.client {
          ScanSkips(all, req, front, rest, msgs, sawIncompat);
          front, rest := front + [cl], rest[1..];
          i := i + 1;
          continue;
        }
        if Compatible(cl.granted, req.mode) {
          return;
        }
        if cl.revoked == compat {
          return true;
        }
        ScanTells(all, req, front, rest, msgs, sawIncompat);
        sawIncompat := true;
        sent := sent + [Revoke(cl.id, compat)];
        granted := granted[i := cl.(revoked := compat)];
        front, rest, msgs := front + [cl.(revoked := compat)], rest[1..], msgs + [Revoke(cl.id, compat)];
        i := i + 1;
      }
      ScanStops(all, req, front, rest, msgs, sawIncompat);
    }

    /** Grants the first request and takes it from the queue. */
    method GrantFirst()
      requires queue != []
      modifies this
      ensures State() == Lists(Granted(old(granted), old(queue[0])), old(queue)[1..])
      ensures sent == old(sent) + Grants(old(granted), old(queue[0]))
      ensures received == old(received) && served == old(served) + [old(queue[0])] && (old(InOrder()) ==> InOrder())
    {
      var req := queue[0];
      if InOrder() {
        ServesNext(granted, queue, sent, served);
      }
      var i := GetClient(req.client);
      if granted[i].granted != req.mode {
        sent := sent + [Grant(req.client, req.mode)];
        granted := granted[i := granted[i].(granted := req.mode)];
        MaintainGrantedOrder(i);
      }
      queue := queue[1..];
      served := served + [req];
    }

    /** Scans for the first request, and grants it unless some client is in its way. */
    method ProcessFirst() returns (sawIncompat: bool)
      requires queue != []
      modifies this
      ensures sawIncompat ==> State() == Process(old(State())).l && sent == old(sent) + Process(old(State())).msgs
      ensures !sawIncompat ==> Process(State()).l == Process(old(State())).l && |queue| < |old(queue)|
      ensures !sawIncompat ==> sent + Process(State()).msgs == old(sent) + Process(old(State())).msgs
      ensures received == old(received) && old(served) <= served && (old(InOrder()) ==> InOrder())
    {
      ghost var l := State();
      ProcessNext(l);
      ScanAnswers(granted, queue[0]);
      AnswersConcat(sent, Scan(granted, queue[0]).msgs);
      assert Answers(sent) + [] == Answers(sent);
      sawIncompat := ScanClients(queue[0]);
      if !sawIncompat {
        ghost var was, rest := sent, Process(Lists(Granted(granted, queue[0]), queue[1..])).msgs;
        MessagesInOrder(old(sent), Scan(l.granted, queue[0]).msgs, Grants(granted, queue[0]), rest);
        GrantFirst();
      }
    }

    /** Grants requests in order, up to one that has to wait for revokes to be confirmed. */
    method ProcessRequests()
      modifies this
      ensures State() == Process(old(State())).l && sent == old(sent) + Process(old(State())).msgs
      ensures received == old(received) && old(served) <= served && (old(InOrder()) ==> InOrder())
    {
      while queue != []
        invariant received == old(received) && old(served) <= served && (old(InOrder()) ==> InOrder())
        invariant Process(State()).l == Process(old(State())).l
        invariant sent + Process(State()).msgs == old(sent) + Process(old(State())).msgs
        decreases |queue|
      {
        var sawIncompat := ProcessFirst();
        if sawIncompat {
          return;
        }
      }
    }

    /** Forgets a client that has nothing any more, or puts it in order; goes on with the requests. */
    method TryFreeOrProcess(i: nat)
      requires i < |granted|
      modifies this
      ensures State() == Process(Settled(old(State()), i)).l && sent == old(sent) + Process(Settled(old(State()), i)).msgs
      ensures received == old(received) && old(served) <= served && (old(InOrder()) ==> InOrder())
    {
      if granted[i].granted <= NONE && granted[i].revoked <= NONE {
        granted := granted[..i] + granted[i + 1..];
      } else {
        MaintainGrantedOrder(i);
      }
      ProcessRequests();
    }

    // -------------------------------------------------------------- Messages from clients

    /** A client asks for a mode. */
    method HandleRequest(client: Id, mode: Mode) returns (ret: Errno)
      modifies this
      ensures ret == if mode < SH_RD then EINVAL else OK
      ensures State() == if ret == OK then AfterRequest(old(State()), client, mode) else old(State())
      ensures sent == if ret == OK then old(sent) + Process(Requested(old(State()), client, mode)).msgs else old(sent)
      ensures Inv(old(State())) ==> Inv(State())
      ensures ret == OK ==> IsTail(queue, old(queue) + [Request(client, mode)])
      ensures received == if ret == OK then old(received) + [Request(client, mode)] else old(received)
      ensures old(served) <= served && (old(InOrder()) ==> InOrder())
      ensures old(NoneLeft()) ==> NoneLeft()
    {
      if mode < SH_RD {
        return EINVAL;
      }
      RequestComes(State(), client, mode, served);
      received := received + [Request(client, mode)];
      queue := queue + [Request(client, mode)];
      ProcessRequests();
      return OK;
    }

    /** A client confirms that it has gone down to the mode that it was asked for. */
    method HandleConfirm(client: Id, mode: Mode) returns (ret: Errno)
      modifies this
      ensures var i := IndexOf(old(granted), client);
        if mode < EX_WR && i < |old(granted)| && mode <= old(granted)[i].revoked then
          var all := Process(Confirmed(old(State()), i));
          ret == OK && State() == all.l && sent == old(sent) + all.msgs
        else
          ret == EPROTO && State() == old(State()) && sent == old(sent)
      ensures Inv(old(State())) ==> Inv(State())
      ensures received == old(received) && old(served) <= served && (old(InOrder()) ==> InOrder())
      ensures old(NoneLeft()) ==> NoneLeft()
    {
      if mode >= EX_WR {
        return EPROTO;
      }
      var i := IndexOf(granted, client);
      if i == |granted| || mode > granted[i].revoked {
        return EPROTO;
      }
      if Inv(State()) {
        ConfirmReady(State(), i);
        ProcessKeeps(Confirmed(State(), i));
      }
      if NoneLeft() {
        SettledNoneIdle(State(), i, granted[i].(granted := granted[i].revoked, revoked := NULL));
        ProcessNoneIdle(Confirmed(State(), i));
      }
      granted := granted[i := granted[i].(granted := granted[i].revoked, revoked := NULL)];
      TryFreeOrProcess(i);
      return OK;
    }

    /** A client has gone down to a mode on its own. That keeps the invariant exactly if it fits what was asked of the client. */
    method HandleRelease(client: Id, mode: Mode) returns (ret: Errno)
      modifies this
      ensures var i := IndexOf(old(granted), client);
        if mode < EX_WR && i < |old(granted)| && mode < old(granted)[i].granted then
          var all := Process(Released(old(State()), i, mode));
          ret == OK && State() == all.l && sent == old(sent) + all.msgs && (Inv(old(State())) ==> (Inv(State()) <==> ReleaseFits(old(State()), i, mode)))
        else
          ret == EPROTO && State() == old(State()) && sent == old(sent)
      ensures received == old(received) && old(served) <= served && (old(InOrder()) ==> InOrder())
      ensures old(NoneLeft()) ==> NoneLeft()
    {
      if mode >= EX_WR {
        return EPROTO;
      }
      var i := IndexOf(granted, client);
      if i == |granted| || mode >= granted[i].granted {
        return EPROTO;
      }
      if Inv(State()) {
        ReleaseKeeps(State(), i, mode);
      }
      if NoneLeft() {
        SettledNoneIdle(State(), i, granted[i].(granted := mode));
        ProcessNoneIdle(Released(State(), i, mode));
      }
      granted := granted[i := granted[i].(granted := mode)];
      TryFreeOrProcess(i);
      return OK;
    }
  }
}
