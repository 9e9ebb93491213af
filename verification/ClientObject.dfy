/** `DaemonConnection` (`frontend/src/lib/daemon.ts`) with its fields, method by method. */
module ClientObject {
  import opened Wrappers
  import opened ClientMachine
  import opened ClientLaws

  type HandlerId = nat

  // ---- Subscriptions -------------------------------------------------------------------------

  type Subscribers = m: map<string, set<HandlerId>> | forall t :: t in m ==> m[t] != {}
    witness map[]

  function HandlersOf(m: Subscribers, typ: string): set<HandlerId> {
    if typ in m then m[typ] else {}
  }

  function WithHandler(m: Subscribers, typ: string, h: HandlerId): Subscribers {
    m[typ := HandlersOf(m, typ) + {h}]
  }

  /** The last handler of a type takes the type with it. */
  function WithoutHandler(m: Subscribers, typ: string, h: HandlerId): Subscribers {
    if typ !in m then m
    else if m[typ] - {h} == {} then m - {typ}
    else m[typ := m[typ] - {h}]
  }

  /** Unsubscribing undoes subscribing, unless the handler was subscribed before: a second subscription
      of a handler goes with the first. */
  lemma UnsubscribeUndoes(m: Subscribers, typ: string, h: HandlerId)
    ensures WithoutHandler(WithHandler(m, typ, h), typ, h) == m <==> h !in HandlersOf(m, typ)
    ensures forall t :: HandlersOf(WithoutHandler(m, typ, h), t) == HandlersOf(m, t) - if t == typ then {h} else {}
  {
    var m' := WithoutHandler(WithHandler(m, typ, h), typ, h);
    assert HandlersOf(m', typ) == HandlersOf(m, typ) - {h};
    if h !in HandlersOf(m, typ) {
      assert HandlersOf(m, typ) + {h} - {h} == HandlersOf(m, typ);
    }
  }

  /** The record of settled calls, after some of `ids` are rejected. */
  lemma SettleMore(b: Book, done: set<CallId>, how: Outcome, id: CallId)
    requires id !in done
    ensures var b' := Settle(b, done, how);
            Settle(b, done + {id}, how) == b'.(inflight := b'.inflight - {id},
                                               settles := b'.settles + multiset{id},
                                               outcomes := b'.outcomes[id := how])
  {
    var b', c := Settle(b, done, how), Settle(b, done + {id}, how);
    assert c.settles == b'.settles + multiset{id};
    assert c.outcomes == b'.outcomes[id := how];
    assert c.inflight == b'.inflight - {id};
  }

  lemma NothingInFlight(b: Book, how: Outcome)
    ensures Settle(b, b.inflight.Keys, how).inflight == map[]
  {
  }

  /** What the browser keeps for the connection. */
  datatype Browser = Browser(
    sockets: seq<ReadyState>,
    timers: nat,
    expiries: nat,
    refreshes: nat,
    ttls: set<CallId>)

  /** What happened so far. */
  datatype Past = Past(
    connects: nat,
    issued: map<CallId, Kind>,
    settles: multiset<CallId>,
    outcomes: map<CallId, Outcome>,
    armed: seq<nat>)

  class DaemonConnection {
    const hasRefresh: bool
    var status: Status
    var closed: bool
    var reconnectAttempt: nat
    var socket: Option<SocketId>
    var inflight: map<CallId, Kind>
    var subscribers: Subscribers
    var browser: Browser
    ghost var past: Past

    ghost function Calls(): Book
      reads this
    {
      Book(inflight, browser.ttls, past.issued, past.settles, past.outcomes)
    }

    ghost function View(): State
      reads this
    {
      State(hasRefresh, status, closed, reconnectAttempt, socket, Calls(),
            browser.sockets, browser.timers, browser.expiries, browser.refreshes, past.connects, past.armed)
    }

    /** The object has a history: every law about reachable states holds of it. */
    ghost predicate Valid()
      reads this
    {
      Reachable(View())
    }

    constructor (hasRefresh: bool)
      ensures Valid() && View() == Init(hasRefresh) && subscribers == map[]
    {
      this.hasRefresh := hasRefresh;
      status, closed, reconnectAttempt, socket, inflight := Idle, false, 0, None, map[];
      subscribers := map[];
      browser := Browser([], 0, 0, 0, {});
      past := Past(0, map[], multiset{}, map[], []);
      new;
      InitReachable(hasRefresh);
    }

    /** Whether the call was accepted: connect() throws when the status is neither idle nor closed. */
    method Connect(throws: bool) returns (accepted: bool)
      requires Valid()
      modifies this
      ensures Valid() && View() == Step(old(View()), Event.Connect(throws)) && subscribers == old(subscribers)
      ensures accepted <==> old(status) in {Idle, Closed}
    {
      hide Reachable, ClientMachine.OpenSocket;
      ghost var s := View();
      ReachableStep(s, Event.Connect(throws));
      assert Step(s, Event.Connect(throws))
          == if s.status != Idle && s.status != Closed then s
             else ClientMachine.OpenSocket(s.(closed := false, status := Connecting, connects := s.connects + 1),
                     throws);
      hide *;
      if status != Idle && status != Closed { return false; }
      closed := false;
      status := Connecting;
      past := past.(connects := past.connects + 1);
      OpenSocket(throws);
      return true;
    }

    method Rpc(id: CallId)
      requires id !in past.issued
      requires Valid()
      modifies this
      ensures Valid() && View() == Step(old(View()), CallRpc(id)) && subscribers == old(subscribers)
    {
      hide Reachable, Settle;
      ReachableStep(View(), CallRpc(id));
      past := past.(issued := past.issued[id := Kind.Rpc]);
      if closed {
        Reject(id, AlreadyClosed);
        return;
      }
      inflight := inflight[id := Kind.Rpc];
      Send(id);
    }

    method Notify(id: CallId)
      requires id !in past.issued
      requires Valid()
      modifies this
      ensures Valid() && View() == Step(old(View()), CallNotify(id)) && subscribers == old(subscribers)
    {
      hide Reachable, Settle;
      ReachableStep(View(), CallNotify(id));
      past := past.(issued := past.issued[id := Kind.Notify]);
      if closed { return; }
      inflight := inflight[id := Kind.Notify];
      browser := browser.(ttls := browser.ttls + {id});
      Send(id);
    }

    method Subscribe(typ: string, h: HandlerId)
      modifies `subscribers
      ensures subscribers == WithHandler(old(subscribers), typ, h)
    {
      if typ !in subscribers {
        assert {} + {h} == {h};
        subscribers := subscribers[typ := {h}];
      } else {
        subscribers := subscribers[typ := subscribers[typ] + {h}];
      }
    }

    method Unsubscribe(typ: string, h: HandlerId)
      modifies `subscribers
      ensures subscribers == WithoutHandler(old(subscribers), typ, h)
    {
      if typ !in subscribers { return; }
      var handlers := subscribers[typ] - {h};
      if |handlers| == 0 {
        subscribers := subscribers - {typ};
      } else {
        subscribers := subscribers[typ := handlers];
      }
    }

    method Close()
      requires Valid()
      modifies this
      ensures Valid() && View() == Step(old(View()), Event.Close) && subscribers == old(subscribers)
      ensures closed && inflight == map[]
    {
      hide Reachable, Settle, DropSocket, RejectInflight;
      ghost var s := View();
      ReachableStep(s, Event.Close);
      assert Step(s, Event.Close) == DropSocket(RejectInflight(s.(closed := true, status := Closed), ClosedByClient));
      hide Step;
      closed := true;
      status := Closed;
      RejectAll(ClosedByClient);
      CloseSocket();
    }

    /** `socket?.close(1000, ...)` and `socket = null`. */
    method CloseSocket()
      modifies `socket, `browser
      ensures View() == DropSocket(old(View()))
    {
      if socket.Some? && socket.value < |browser.sockets| && browser.sockets[socket.value] in {CONNECTING, OPEN} {
        browser := browser.(sockets := browser.sockets[socket.value := CLOSING]);
      }
      socket := None;
    }

    /** Calls the reject or resolve callback of a call and takes it out of the map. */
    method Reject(id: CallId, how: Outcome)
      modifies `inflight, `past
      ensures Calls() == Settle(old(Calls()), {id}, how)
      ensures past.connects == old(past.connects) && past.armed == old(past.armed)
    {
      ghost var b := Calls();
      past := past.(settles := past.settles + multiset{id});
      past := past.(outcomes := past.outcomes[id := how]);
      inflight := inflight - {id};
      assert Settle(b, {}, how) == b by { SettleNone(b, how); }
      SettleMore(b, {}, how, id);
      assert {} + {id} == {id};
    }

    method Send(id: CallId)
      modifies `inflight, `past
      ensures View() == ClientMachine.Send(old(View()), id)
    {
      if socket == None || !(socket.value < |browser.sockets| && browser.sockets[socket.value] == OPEN) {
        Reject(id, NotOpen);
      }
    }

    method OpenSocket(throws: bool)
      modifies `socket, `browser, `status, `reconnectAttempt, `past, `inflight
      ensures View() == ClientMachine.OpenSocket(old(View()), throws)
    {
      hide ClientMachine.ScheduleReconnect;
      if throws {
        ScheduleReconnect();
        return;
      }
      socket := Some(|browser.sockets|);
      browser := browser.(sockets := browser.sockets + [CONNECTING]);
    }

    method OnOpen(ws: SocketId, expiry: Expiry)
      requires Enabled(View(), SocketOpens(ws, expiry))
      requires Valid()
      modifies this
      ensures Valid() && View() == Step(old(View()), SocketOpens(ws, expiry)) && subscribers == old(subscribers)
    {
      hide Reachable;
      ghost var s := View();
      ReachableStep(s, SocketOpens(ws, expiry));
      assert ws < |browser.sockets|;
      assert Step(s, SocketOpens(ws, expiry))
          == ClientMachine.ScheduleExpiryRefresh(
               s.(sockets := s.sockets[ws := OPEN], attempt := 0, armed := [], status := Ready), expiry);
      hide *;
      browser := browser.(sockets := browser.sockets[ws := OPEN]);
      reconnectAttempt := 0;
      past := past.(armed := []);
      status := Ready;
      ScheduleExpiryRefresh(expiry);
    }

    /** Returns the handlers called: each subscribed to the type of an event frame, once. */
    method OnMessage(ws: SocketId, frame: Frame) returns (called: seq<HandlerId>)
      requires Enabled(View(), SocketReceives(ws, frame))
      requires Valid()
      modifies this
      ensures Valid() && View() == Step(old(View()), SocketReceives(ws, frame)) && subscribers == old(subscribers)
      ensures forall h :: h in called <==> frame.EventFrame? && h in HandlersOf(subscribers, frame.typ)
      ensures |called| == if frame.EventFrame? then |HandlersOf(subscribers, frame.typ)| else 0
    {
      hide Reachable;
      ReachableStep(View(), SocketReceives(ws, frame));
      called := [];
      match frame {
        case EventFrame(typ) =>
          if typ !in subscribers { return; }
          var handlers := subscribers[typ];
          while handlers != {}
            invariant handlers <= subscribers[typ]
            invariant forall h :: h in called <==> h in subscribers[typ] && h !in handlers
            invariant |called| + |handlers| == |subscribers[typ]|
            decreases handlers
          {
            var h :| h in handlers;
            called := called + [h];
            handlers := handlers - {h};
          }
        case Response(id) =>
          if id in inflight { Reject(id, Resolved); }
        case Error(id, invalidToken) =>
          if id in inflight {
            if invalidToken { BeginRefresh(); }
            Reject(id, DaemonError);
          }
        case Malformed =>
      }
    }

    /** The server starts to close the connection: the browser changes `readyState` and calls nobody. */
    method ServerCloses(ws: SocketId)
      requires Enabled(View(), SocketClosing(ws))
      requires Valid()
      modifies `browser
      ensures Valid() && View() == Step(old(View()), SocketClosing(ws))
    {
      hide Reachable;
      ReachableStep(View(), SocketClosing(ws));
      browser := browser.(sockets := browser.sockets[ws := CLOSING]);
    }

    method OnClose(ws: SocketId, code: nat)
      requires Enabled(View(), SocketCloses(ws, code))
      requires Valid()
      modifies this
      ensures Valid() && View() == Step(old(View()), SocketCloses(ws, code)) && subscribers == old(subscribers)
    {
      hide Reachable, ClientMachine.ScheduleReconnect, ClientMachine.BeginRefresh;
      ghost var s := View();
      ghost var gone := s.(sockets := s.sockets[ws := CLOSED], socket := None);
      ReachableStep(s, SocketCloses(ws, code));
      assert IsAuthClose(code) <==> code == 1008 || code == 4401;
      assert Step(s, SocketCloses(ws, code))
          == if s.closed then gone
             else if code == 1008 || code == 4401 then ClientMachine.BeginRefresh(gone)
             else ClientMachine.ScheduleReconnect(if s.status == Ready then gone.(status := Reconnecting) else gone);
      hide *;
      browser := browser.(sockets := browser.sockets[ws := CLOSED]);
      var wasReady := status == Ready;
      socket := None;
      if closed { return; }
      if code == 1008 || code == 4401 {
        BeginRefresh();
        return;
      }
      if wasReady { status := Reconnecting; }
      ScheduleReconnect();
    }

    method RejectAll(how: Outcome)
      modifies `inflight, `past
      ensures View() == RejectInflight(old(View()), how) && inflight == map[]
    {
      ghost var b := Calls();
      var ids := inflight.Keys;
      ghost var done: set<CallId> := {};
      SettleNone(b, how);
      hide Settle;
      while ids != {}
        invariant done + ids == b.inflight.Keys && done !! ids
        invariant Calls() == Settle(b, done, how).(inflight := b.inflight)
        invariant past.connects == old(past.connects) && past.armed == old(past.armed)
        decreases ids
      {
        var id :| id in ids;
        SettleMore(b, done, how, id);
        past := past.(settles := past.settles + multiset{id});
        past := past.(outcomes := past.outcomes[id := how]);
        ids := ids - {id};
        done := done + {id};
      }
      NothingInFlight(b, how);
      inflight := map[];
    }

    method ScheduleReconnect()
      modifies `status, `reconnectAttempt, `browser, `past, `inflight
      ensures View() == ClientMachine.ScheduleReconnect(old(View()))
    {
      hide Settle, Backoff, RejectInflight;
      if closed { return; }
      if reconnectAttempt >= MAX_RECONNECT_ATTEMPTS {
        status := Failed;
        RejectAll(Exhausted);
        return;
      }
      past := past.(armed := past.armed + [Backoff(reconnectAttempt)]);
      reconnectAttempt := reconnectAttempt + 1;
      status := Reconnecting;
      browser := browser.(timers := browser.timers + 1);
    }

    method OnReconnectTimer(throws: bool)
      requires browser.timers > 0
      requires Valid()
      modifies this
      ensures Valid() && View() == Step(old(View()), ReconnectTimer(throws)) && subscribers == old(subscribers)
    {
      hide Reachable;
      ReachableStep(View(), ReconnectTimer(throws));
      hide ClientMachine.ScheduleReconnect;
      browser := browser.(timers := browser.timers - 1);
      if closed { return; }
      OpenSocket(throws);
    }

    method OnNotifyTimer(id: CallId)
      requires id in browser.ttls
      requires Valid()
      modifies this
      ensures Valid() && View() == Step(old(View()), NotifyTimer(id)) && subscribers == old(subscribers)
    {
      hide Reachable;
      ReachableStep(View(), NotifyTimer(id));
      browser := browser.(ttls := browser.ttls - {id});
      inflight := inflight - {id};
    }

    method ScheduleExpiryRefresh(expiry: Expiry)
      modifies `status, `browser
      ensures View() == ClientMachine.ScheduleExpiryRefresh(old(View()), expiry)
    {
      if expiry == Never || !hasRefresh { return; }
      if expiry == Due {
        BeginRefresh();
        return;
      }
      browser := browser.(expiries := browser.expiries + 1);
    }

    method OnExpiryTimer()
      requires browser.expiries > 0
      requires Valid()
      modifies this
      ensures Valid() && View() == Step(old(View()), ExpiryTimer) && subscribers == old(subscribers)
    {
      hide Reachable;
      ReachableStep(View(), ExpiryTimer);
      browser := browser.(expiries := browser.expiries - 1);
      if closed { return; }
      BeginRefresh();
    }

    /** `refreshAndReopen` up to its await, ... */
    method BeginRefresh()
      modifies `status, `browser
      ensures View() == ClientMachine.BeginRefresh(old(View()))
    {
      if !hasRefresh || closed { return; }
      status := Reconnecting;
      browser := browser.(refreshes := browser.refreshes + 1);
    }

    /** ... when the refresh answers, ... */
    method FinishRefresh(throws: bool)
      requires browser.refreshes > 0
      requires Valid()
      modifies this
      ensures Valid() && View() == Step(old(View()), RefreshAnswers(throws)) && subscribers == old(subscribers)
    {
      hide Reachable, DropSocket, ClientMachine.OpenSocket;
      ghost var s := View();
      ReachableStep(s, RefreshAnswers(throws));
      assert Enabled(s, RefreshAnswers(throws));
      assert Step(s, RefreshAnswers(throws))
          == ClientMachine.OpenSocket(DropSocket(s.(refreshes := s.refreshes - 1)).(attempt := 0, armed := []), throws);
      hide *;
      browser := browser.(refreshes := browser.refreshes - 1);
      assert View() == s.(refreshes := s.refreshes - 1);
      CloseSocket();
      ghost var dropped := View();
      reconnectAttempt := 0;
      past := past.(armed := []);
      assert View() == dropped.(attempt := 0, armed := []);
      OpenSocket(throws);
    }

    /** ... and when it fails. */
    method FailRefresh()
      requires browser.refreshes > 0
      requires Valid()
      modifies this
      ensures Valid() && View() == Step(old(View()), RefreshRejects) && subscribers == old(subscribers)
      ensures status == Failed && inflight == map[]
    {
      hide Reachable, Settle, RejectInflight;
      ghost var s := View();
      ReachableStep(s, RefreshRejects);
      assert Step(s, RefreshRejects)
          == RejectInflight(s.(refreshes := s.refreshes - 1, status := Failed), RefreshFailed);
      hide Step;
      browser := browser.(refreshes := browser.refreshes - 1);
      status := Failed;
      RejectAll(RefreshFailed);
    }
  }
}
