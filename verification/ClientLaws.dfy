/** What every run of the browser's connection promises, and where its promises end. */
module ClientLaws {
  import opened Wrappers
  import opened ClientMachine

  lemma InvKept(s: State, e: Event)
    requires Inv(s) && Enabled(s, e)
    ensures Inv(Step(s, e))
  {
    SlotsKept(s, e);
    BackedOffKept(s, e);
    InRangeKept(s, e);
    AloneKept(s, e);
  }

  lemma {:induction false} RunKeepsInv(s: State, es: seq<Event>, t: State)
    requires Inv(s) && IsRun(s, es, t)
    ensures Inv(t)
    decreases |es|
  {
    hide Step, Enabled, Inv;
    if es != [] {
      InvKept(s, es[0]);
      RunKeepsInv(Step(s, es[0]), es[1..], t);
    }
  }

  lemma ReachableInv(s: State)
    requires Reachable(s)
    ensures Inv(s)
  {
    var hasRefresh, es :| IsRun(Init(hasRefresh), es, s);
    assert Inv(Init(hasRefresh)) by { hide IsRun; assert Live(Init(hasRefresh)) == {}; }
    RunKeepsInv(Init(hasRefresh), es, s);
  }

  // ---- Settle once ---------------------------------------------------------------------------

  /** In every interleaving each rpc() is in flight or settled once; and a closed connection has
      nothing in flight. */
  lemma SettledOnce(s: State, id: CallId)
    requires Reachable(s)
    ensures id in s.book.issued && s.book.issued[id] == Rpc ==> One(id in s.book.inflight) + s.book.settles[id] == 1
    ensures s.book.settles[id] <= 1 && (s.book.settles[id] == 1 ==> id in s.book.outcomes && id !in s.book.inflight)
    ensures s.closed ==> s.book.inflight == map[]
  {
    ReachableInv(s);
    assert Accounted(s.book, id);
  }

  /** What can settle a call: a frame with its own id, the rejection of all calls in flight at once, or
      its own send when the connection is closed or its socket not open. */
  ghost predicate Cause(s: State, e: Event, t: State, id: CallId)
    requires id in t.book.outcomes
  {
    match t.book.outcomes[id]
    case Resolved => Answers(s, e, id) && e.frame.Response?
    case DaemonError => Answers(s, e, id) && e.frame.Error?
    case AlreadyClosed => e == CallRpc(id) && s.closed
    case NotOpen => Calls(e, id) && !s.closed && !CanSend(s)
    case ClosedByClient => e.Close? && t.book.inflight == map[] && id in s.book.inflight
    case RefreshFailed => e.RefreshRejects? && t.book.inflight == map[] && id in s.book.inflight
    case Exhausted =>
      Loses(s, e) && s.attempt >= MAX_RECONNECT_ATTEMPTS && t.book.inflight == map[] && id in s.book.inflight
  }

  predicate Calls(e: Event, id: CallId) {
    (e.CallRpc? || e.CallNotify?) && e.id == id
  }

  /** A step leaves a settled call as it is, and settles another one only for a cause. */
  ghost predicate SettlesFor(s: State, e: Event, t: State, id: CallId) {
    if t.book.settles[id] > s.book.settles[id] then id in t.book.outcomes && Cause(s, e, t, id)
    else
      && t.book.settles[id] == s.book.settles[id]
      && (id in s.book.outcomes ==> id in t.book.outcomes && t.book.outcomes[id] == s.book.outcomes[id])
  }

  lemma CauseOf(s: State, e: Event, t: State, id: CallId)
    requires id in SettledBy(s, e).0 && (e.CallRpc? || e.CallNotify? || id in s.book.inflight)
    requires id in t.book.outcomes && t.book.outcomes[id] == SettledBy(s, e).1
    requires RejectsAll(s, e) ==> t.book.inflight == map[]
    ensures Cause(s, e, t, id)
  {
    hide CanSend;
  }

  lemma EnteredKeeps(s: State, e: Event, id: CallId)
    ensures Entered(s, e).settles == s.book.settles && Entered(s, e).outcomes == s.book.outcomes
    ensures id in SettledBy(s, e).0 ==> e.CallRpc? || e.CallNotify? || id in s.book.inflight
  {
  }

  lemma SettleEffect(s: State, e: Event, t: State, id: CallId)
    requires t.book == Settle(Entered(s, e), SettledBy(s, e).0, SettledBy(s, e).1)
    requires RejectsAll(s, e) ==> t.book.inflight == map[]
    ensures SettlesFor(s, e, t, id)
  {
    hide Entered, SettledBy, RejectsAll, Cause, Settle;
    EnteredKeeps(s, e, id);
    OutcomeOf(Entered(s, e), SettledBy(s, e).0, SettledBy(s, e).1, id);
    if id in SettledBy(s, e).0 { CauseOf(s, e, t, id); }
  }

  lemma SettledOnlyBy(s: State, e: Event, id: CallId)
    requires Reachable(s) && Enabled(s, e)
    ensures SettlesFor(s, e, Step(s, e), id)
    ensures s.book.settles[id] == 1 ==> Step(s, e).book.settles[id] == 1
  {
    ReachableStep(s, e);
    hide Reachable, Step, Enabled, Settle, Entered, SettledBy, RejectsAll, Cause;
    SettledOnce(Step(s, e), id);
    BookStep(s, e);
    if RejectsAll(s, e) { AllRejected(s, e); }
    SettleEffect(s, e, Step(s, e), id);
  }

  lemma OutcomeOf(b: Book, ids: set<CallId>, how: Outcome, id: CallId)
    ensures var b' := Settle(b, ids, how);
            && b'.settles[id] == b.settles[id] + One(id in ids)
            && (id in ids ==> id in b'.outcomes && b'.outcomes[id] == how)
            && (id !in ids && id in b.outcomes ==> id in b'.outcomes && b'.outcomes[id] == b.outcomes[id])
  {
  }

  lemma AllRejected(s: State, e: Event)
    requires Enabled(s, e) && RejectsAll(s, e)
    ensures Step(s, e).book.inflight == map[]
  {
    BookStep(s, e);
    hide Step;
    assert SettledBy(s, e).0 == s.book.inflight.Keys && Entered(s, e).inflight == s.book.inflight;
  }

  /** Conversely every such cause settles: in particular each call in flight is rejected when the client
      closes, when a refresh fails and when the attempts are exhausted. */
  lemma CausesSettle(s: State, e: Event, id: CallId)
    requires Reachable(s) && Enabled(s, e)
    requires || Answers(s, e, id) || (RejectsAll(s, e) && id in s.book.inflight)
             || (Calls(e, id) && !s.closed && !CanSend(s)) || (e == CallRpc(id) && s.closed)
    ensures s.book.settles[id] == 0 && Step(s, e).book.settles[id] == 1 && id !in Step(s, e).book.inflight
  {
    ReachableInv(s);
    InvKept(s, e);
    assert Accounted(s.book, id) && Accounted(Step(s, e).book, id);
    BookStep(s, e);
    hide Step, Inv, Reachable;
  }

  /** A settled call never settles again, and keeps its outcome. */
  lemma {:induction false} SettledForGood(s: State, es: seq<Event>, t: State, id: CallId)
    requires Reachable(s) && IsRun(s, es, t) && s.book.settles[id] == 1
    ensures t.book.settles[id] == 1 && id in s.book.outcomes && id in t.book.outcomes
    ensures t.book.outcomes[id] == s.book.outcomes[id]
    decreases |es|
  {
    SettledOnce(s, id);
    if es != [] {
      SettledOnlyBy(s, es[0], id);
      ReachableStep(s, es[0]);
      SettledForGood(Step(s, es[0]), es[1..], t, id);
    }
  }

  lemma {:induction false} RunSnoc(s: State, es: seq<Event>, t: State, e: Event)
    requires IsRun(s, es, t) && Enabled(t, e)
    ensures IsRun(s, es + [e], Step(t, e))
    decreases |es|
  {
    hide Step, Enabled;
    if es == [] {
      assert ([] + [e])[1..] == [];
    } else {
      RunSnoc(Step(s, es[0]), es[1..], t, e);
      assert (es + [e])[0] == es[0] && (es + [e])[1..] == es[1..] + [e];
    }
  }

  lemma ReachableStep(s: State, e: Event)
    requires Reachable(s) && Enabled(s, e)
    ensures Reachable(Step(s, e))
  {
    var hasRefresh, es :| IsRun(Init(hasRefresh), es, s);
    RunSnoc(Init(hasRefresh), es, s, e);
  }

  // ---- Reconnecting --------------------------------------------------------------------------

  function Total(delays: seq<nat>): nat {
    if delays == [] then 0 else Total(delays[..|delays| - 1]) + delays[|delays| - 1]
  }

  lemma {:induction false} TotalDoubles(delays: seq<nat>)
    requires forall k :: 0 <= k < |delays| ==> delays[k] == INITIAL_BACKOFF_MS * Pow2(k)
    ensures Total(delays) == INITIAL_BACKOFF_MS * (Pow2(|delays|) - 1)
  {
    if delays != [] {
      TotalDoubles(delays[..|delays| - 1]);
      assert Pow2(|delays|) == 2 * Pow2(|delays| - 1);
    }
  }

  lemma {:induction false} Pow2Grows(a: nat, b: nat)
    requires a <= b
    ensures Pow2(a) <= Pow2(b)
  {
    if a < b { Pow2Grows(a, b - 1); }
  }

  /** Since the counter was last reset at most five reconnect timers were armed, the k-th for 250 * 2^k
      milliseconds; together they wait no more than 7750. */
  lemma ReconnectBound(s: State)
    requires Reachable(s)
    ensures |s.armed| <= 5
    ensures forall k :: 0 <= k < |s.armed| ==> s.armed[k] == 250 * Pow2(k)
    ensures Total(s.armed) == 250 * (Pow2(|s.armed|) - 1) <= 7750
  {
    ReachableInv(s);
    TotalDoubles(s.armed);
    Pow2Grows(|s.armed|, 5);
    assert Pow2(5) == 32;
  }

  lemma Rescheduled(s: State)
    requires BackedOff(s) && !s.closed
    ensures var t := ScheduleReconnect(s);
            if |s.armed| < 5 then
              && t.status == Reconnecting && t.book == s.book
              && t.armed == s.armed + [250 * Pow2(|s.armed|)] && t.timers == s.timers + 1
            else
              && t.status == Failed && t.book.inflight == map[]
              && (forall id :: id in s.book.inflight ==> id in t.book.outcomes && t.book.outcomes[id] == Exhausted)
              && t.armed == s.armed && t.timers == s.timers
  {
    if |s.armed| < 5 { BackoffDoubles(|s.armed|); }
    hide Backoff, Pow2;
  }

  /** What is left of a connection when the reconnect is scheduled. */
  function Lost(s: State, e: Event): (t: State)
    requires Enabled(s, e) && Loses(s, e)
    ensures t.book == s.book && t.attempt == s.attempt && t.armed == s.armed && !t.closed
    ensures t.timers == s.timers - One(e.ReconnectTimer?)
  {
    match e
    case Connect(_) => s.(closed := false, status := Connecting, connects := s.connects + 1)
    case ReconnectTimer(_) => s.(timers := s.timers - 1)
    case SocketCloses(ws, _) =>
      s.(socket := None, sockets := s.sockets[ws := CLOSED],
        status := if s.status == Ready then Reconnecting else s.status)
  }

  lemma LossReschedules(s: State, e: Event)
    requires Enabled(s, e) && Loses(s, e)
    ensures Step(s, e) == ScheduleReconnect(Lost(s, e))
  {
    hide ScheduleReconnect;
  }

  /** Losing a connection, or an attempt at one, arms the next timer and leaves the calls in flight
      alone, exactly as long as there are attempts left; the next loss fails the connection and rejects
      every call in flight. */
  lemma LossRejectsExactly(s: State, e: Event)
    requires Reachable(s) && Enabled(s, e) && Loses(s, e)
    ensures var t := Step(s, e); var fired := One(e.ReconnectTimer?);
            if |s.armed| < 5 then
              && t.status == Reconnecting && t.book == s.book
              && t.armed == s.armed + [250 * Pow2(|s.armed|)] && t.timers == s.timers - fired + 1
            else
              && t.status == Failed && t.book.inflight == map[]
              && (forall id :: id in s.book.inflight ==> id in t.book.outcomes && t.book.outcomes[id] == Exhausted)
              && t.armed == s.armed && t.timers == s.timers - fired
  {
    ReachableInv(s);
    LossReschedules(s, e);
    hide Step, Enabled, ScheduleReconnect, Reachable, Pow2, Loses;
    Rescheduled(Lost(s, e));
  }

  /** A refresh that answers leaves every call in flight, although the socket it was sent on is closed. */
  lemma RefreshKeepsCalls(s: State, throws: bool)
    requires s.refreshes > 0
    ensures Step(s, RefreshAnswers(throws)).book == s.book
  {
    var e := RefreshAnswers(throws);
    assert SettledBy(s, e) == ({}, Resolved) && Entered(s, e) == s.book && Enabled(s, e);
    hide *;
    BookStep(s, e);
    SettleNone(s.book, Resolved);
  }

  // ---- One attempt ---------------------------------------------------------------------------

  /** The sockets not yet closed and the reconnect timers pending. */
  function Attempts(s: State): nat {
    |Live(s)| + s.timers
  }

  /** The steps that start an attempt on their own account: an accepted connect(), or a refresh that
      answers, if it gets a socket or arms a timer. */
  predicate Starts(s: State, e: Event) {
    match e
    case Connect(throws) => s.status in {Idle, Closed} && (!throws || s.attempt < MAX_RECONNECT_ATTEMPTS)
    case RefreshAnswers(throws) => !throws || !s.closed
    case _ => false
  }

  lemma OpeningAttempts(s: State, throws: bool)
    ensures Attempts(OpenSocket(s, throws))
         == Attempts(s) + One(!throws || (!s.closed && s.attempt < MAX_RECONNECT_ATTEMPTS))
  {
    hide Backoff, Settle;
    LiveGrows(s);
    assert Live(OpenSocket(s, throws)) == Live(s) + if throws then {} else {|s.sockets|};
  }

  lemma DroppingAttempts(s: State)
    ensures Attempts(DropSocket(s)) == Attempts(s)
  {
    if s.socket.Some? && StateOf(s, s.socket.value) in {CONNECTING, OPEN} { LiveChanges(s, s.socket.value, CLOSING); }
    assert Live(DropSocket(s)) == Live(s);
  }

  lemma StartChanges(s: State, e: Event)
    requires Enabled(s, e) && (e.Connect? || e.RefreshAnswers?)
    ensures Attempts(Step(s, e)) == Attempts(s) + One(Starts(s, e))
  {
    hide OpenSocket, DropSocket, Live, Settle;
    match e {
      case Connect(throws) =>
        var u := s.(closed := false, status := Connecting, connects := s.connects + 1);
        SameAttempts(s, u);
        OpeningAttempts(u, throws);
      case RefreshAnswers(throws) =>
        var u := s.(refreshes := s.refreshes - 1);
        DroppingAttempts(u);
        SameAttempts(s, u);
        SameAttempts(DropSocket(u), DropSocket(u).(attempt := 0, armed := []));
        OpeningAttempts(DropSocket(u).(attempt := 0, armed := []), throws);
        assert DropSocket(u).closed == s.closed by { DropKeepsClosed(u); }
      case _ =>
    }
  }

  lemma DropKeepsClosed(s: State)
    ensures DropSocket(s).closed == s.closed
  {
  }

  lemma SameAttempts(s: State, t: State)
    requires t.sockets == s.sockets && t.timers == s.timers
    ensures Attempts(t) == Attempts(s)
  {
  }

  lemma LossChanges(s: State, e: Event)
    requires Enabled(s, e) && e.SocketCloses?
    ensures Attempts(Step(s, e)) <= Attempts(s)
  {
    hide Backoff, Settle;
    LiveChanges(s, e.ws, CLOSED);
    assert Live(Step(s, e)) == Live(s) - {e.ws};
  }

  lemma OthersChange(s: State, e: Event)
    requires Enabled(s, e) && !e.Connect? && !e.RefreshAnswers? && !e.SocketCloses? && !e.ReconnectTimer?
    ensures Attempts(Step(s, e)) == Attempts(s)
  {
    hide Backoff, Settle;
    if e.SocketOpens? { LiveChanges(s, e.ws, OPEN); }
    if e.SocketClosing? { LiveChanges(s, e.ws, CLOSING); }
    if e.Close? { DroppingAttempts(s); }
    assert Live(Step(s, e)) == if e.Close? then Live(DropSocket(s)) else Live(s);
  }

  lemma TimerChanges(s: State, e: Event)
    requires Enabled(s, e) && e.ReconnectTimer?
    ensures Attempts(Step(s, e)) <= Attempts(s)
  {
    hide OpenSocket, Live;
    var u := s.(timers := s.timers - 1);
    assert Live(u) == Live(s) by { assert u.sockets == s.sockets; SocketsMakeLive(s, u); }
    OpeningAttempts(u, e.throws);
  }

  lemma SocketsMakeLive(s: State, t: State)
    requires t.sockets == s.sockets
    ensures Live(t) == Live(s)
  {
  }

  /** A step from a state with at most one attempt leads to one with at most one exactly if it does not
      start an attempt while there is one.  Reconnecting always replaces the lost one. */
  lemma StepKeepsSingleExactly(s: State, e: Event)
    requires Enabled(s, e) && Attempts(s) <= 1
    ensures Attempts(Step(s, e)) <= 1 <==> (Starts(s, e) ==> Attempts(s) == 0)
  {
    hide Step, Enabled, Attempts;
    match e {
      case Connect(_) => StartChanges(s, e);
      case RefreshAnswers(_) => StartChanges(s, e);
      case SocketCloses(_, _) => LossChanges(s, e);
      case ReconnectTimer(_) => TimerChanges(s, e);
      case _ => OthersChange(s, e);
    }
  }

  ghost predicate SingleThroughout(s: State, es: seq<Event>)
    decreases |es|
  {
    Attempts(s) <= 1 && (es != [] ==> Enabled(s, es[0]) && SingleThroughout(Step(s, es[0]), es[1..]))
  }

  /** Every start of the run finds no attempt alive. */
  ghost predicate StartsAlone(s: State, es: seq<Event>)
    decreases |es|
  {
    es != [] ==>
      && Enabled(s, es[0]) && (Starts(s, es[0]) ==> Attempts(s) == 0)
      && StartsAlone(Step(s, es[0]), es[1..])
  }

  /** A run has at most one attempt at every moment exactly if each of its starts comes when there is
      none, however often it connects and refreshes. */
  lemma {:induction false} SingleRunExactly(s: State, es: seq<Event>)
    requires Attempts(s) <= 1
    ensures SingleThroughout(s, es) <==> StartsAlone(s, es)
    decreases |es|
  {
    hide Step, Enabled, Attempts, Starts;
    if es != [] && Enabled(s, es[0]) {
      StepKeepsSingleExactly(s, es[0]);
      if Attempts(Step(s, es[0])) <= 1 { SingleRunExactly(Step(s, es[0]), es[1..]); }
    }
  }

  /** With one connect() and no refresh callback at most one socket or reconnect timer is alive. */
  lemma SingleAttempt(s: State)
    requires Reachable(s) && !s.hasRefresh && s.connects <= 1
    ensures |Live(s)| + s.timers <= 1
  {
    ReachableInv(s);
  }

  predicate NoConnect(es: seq<Event>) {
    forall i :: 0 <= i < |es| ==> !es[i].Connect?
  }

  /** Nothing is left that could still change a closed connection. */
  predicate AtRest(s: State) {
    s.refreshes == 0 && forall ws :: 0 <= ws < |s.sockets| ==> s.sockets[ws] != CONNECTING
  }

  lemma RestStep(s: State, e: Event)
    requires s.closed && s.status == Closed && AtRest(s) && Enabled(s, e) && !e.Connect?
    ensures var t := Step(s, e); t.closed && t.status == Closed && AtRest(t) && |t.sockets| == |s.sockets|
  {
    hide Settle;
  }

  lemma {:induction false} RestRun(s: State, es: seq<Event>, t: State)
    requires s.closed && s.status == Closed && AtRest(s) && NoConnect(es) && IsRun(s, es, t)
    ensures t.closed && t.status == Closed && |t.sockets| == |s.sockets|
    decreases |es|
  {
    hide Step, Enabled, AtRest;
    if es != [] {
      RestStep(s, es[0]);
      RestRun(Step(s, es[0]), es[1..], t);
    }
  }

  ghost predicate StaysClosed(s: State) {
    forall es, t :: NoConnect(es) && IsRun(s, es, t) ==> t.status == Closed
  }

  lemma OneStepRun(s: State, e: Event)
    requires Enabled(s, e)
    ensures IsRun(s, [e], Step(s, e))
  {
    assert [e][1..] == [];
  }

  /** A closed connection stays closed until the next connect() exactly if no refresh is under way and
      no socket is still connecting.  The code checks neither. */
  lemma FinalExactly(s: State)
    requires s.closed && s.status == Closed
    ensures StaysClosed(s) <==> AtRest(s)
  {
    if AtRest(s) {
      forall es, t | NoConnect(es) && IsRun(s, es, t) ensures t.status == Closed { RestRun(s, es, t); }
    } else if s.refreshes > 0 {
      OneStepRun(s, RefreshRejects);
      assert NoConnect([RefreshRejects]) && Step(s, RefreshRejects).status == Failed;
    } else {
      var ws :| 0 <= ws < |s.sockets| && s.sockets[ws] == CONNECTING;
      OneStepRun(s, SocketOpens(ws, Never));
      assert NoConnect([SocketOpens(ws, Never)]) && Step(s, SocketOpens(ws, Never)).status == Ready;
    }
  }

  /** With one connect() and no refresh callback both hold: after close() no socket is ever opened and
      the status stays closed. */
  lemma CloseIsFinal(s: State, es: seq<Event>, t: State)
    requires Reachable(s) && !s.hasRefresh && s.connects <= 1 && s.closed
    requires NoConnect(es) && IsRun(s, es, t)
    ensures t.status == Closed && |t.sockets| == |s.sockets|
    ensures forall ws :: 0 <= ws < |t.sockets| ==> t.sockets[ws] in {CLOSING, CLOSED}
  {
    ReachableInv(s);
    forall ws | 0 <= ws < |s.sockets| ensures s.sockets[ws] in {CLOSING, CLOSED} {
      assert ws in Live(s) || s.sockets[ws] == CLOSED;
    }
    hide IsRun;
    ClosingRun(s, es, t);
  }

  predicate Shut(s: State) {
    forall ws :: 0 <= ws < |s.sockets| ==> s.sockets[ws] in {CLOSING, CLOSED}
  }

  lemma {:induction false} ClosingRun(s: State, es: seq<Event>, t: State)
    requires s.closed && s.status == Closed && s.refreshes == 0 && Shut(s) && NoConnect(es) && IsRun(s, es, t)
    ensures t.closed && t.status == Closed && |t.sockets| == |s.sockets| && Shut(t)
    decreases |es|
  {
    if es != [] {
      RestStep(s, es[0]);
      assert Shut(Step(s, es[0])) by { hide Settle; }
      ClosingRun(Step(s, es[0]), es[1..], t);
    }
  }

  // ---- An authentication close without a refresh callback ------------------------------------

  /** The connection says `ready`, has no socket, and nothing will ever change that. */
  predicate Stranded(s: State) {
    !s.hasRefresh && InRange(s) && !s.closed && s.status == Ready && s.socket == None && Live(s) == {} && s.timers == 0
  }

  /** An authentication close strands a connection exactly if it is ready and open, cannot refresh, and
      has no other attempt under way. */
  lemma StrandsExactly(s: State, ws: SocketId, code: nat)
    requires InRange(s) && IsAuthClose(code) && Enabled(s, SocketCloses(ws, code))
    ensures Stranded(Step(s, SocketCloses(ws, code))) <==>
              !s.hasRefresh && !s.closed && s.status == Ready && Attempts(s) == 1
    ensures Step(s, SocketCloses(ws, code)).book == s.book
  {
    hide Settle;
    var t := Step(s, SocketCloses(ws, code));
    LiveChanges(s, ws, CLOSED);
    assert Live(t) == Live(s) - {ws};
    assert |Live(t)| == |Live(s)| - 1;
    assert Live(t) == {} <==> |Live(t)| == 0;
    InRangeKept(s, SocketCloses(ws, code));
  }

  lemma AuthCloseStrands(s: State, ws: SocketId, code: nat)
    requires Reachable(s) && !s.hasRefresh && s.connects <= 1 && s.status == Ready
    requires IsAuthClose(code) && Enabled(s, SocketCloses(ws, code))
    ensures Stranded(Step(s, SocketCloses(ws, code)))
    ensures Step(s, SocketCloses(ws, code)).book == s.book
  {
    ReachableInv(s);
    LiveChanges(s, ws, CLOSED);
    hide Step, Enabled, Reachable;
    StrandsExactly(s, ws, code);
  }

  lemma StrandedStep(s: State, e: Event)
    requires Stranded(s) && Enabled(s, e) && !e.Close?
    ensures Stranded(Step(s, e))
    ensures SettledBy(s, e).0 == if e.CallRpc? || e.CallNotify? then {e.id} else {}
  {
    forall ws: SocketId ensures StateOf(s, ws) == CLOSED { assert StateOf(s, ws) != CLOSED ==> ws in Live(s); }
    hide Settle, Backoff;
  }

  /** Until the client calls close(), connect() is refused, every new rpc() is rejected, and the calls
      that were in flight neither resolve nor reject. */
  lemma {:induction false} StrandedForGood(s: State, es: seq<Event>, t: State, id: CallId)
    requires Stranded(s) && IsRun(s, es, t) && (forall i :: 0 <= i < |es| ==> !es[i].Close?)
    ensures Stranded(t)
    ensures id in s.book.issued && id in s.book.inflight && id !in s.book.ttls ==>
              id in t.book.inflight && t.book.settles[id] == s.book.settles[id]
    ensures CallRpc(id) in es ==> id in t.book.outcomes && t.book.outcomes[id] == NotOpen
    decreases |es|
  {
    if es != [] {
      var e, u := es[0], Step(s, es[0]);
      StrandedStep(s, e);
      BookStep(s, e);
      assert es == [e] + es[1..];
      StrandedForGood(u, es[1..], t, id);
      hide Step, IsRun, Stranded;
      if e == CallRpc(id) { RejectedForGood(u, es[1..], t, id); }
    }
  }

  lemma {:induction false} RejectedForGood(s: State, es: seq<Event>, t: State, id: CallId)
    requires Stranded(s) && IsRun(s, es, t) && (forall i :: 0 <= i < |es| ==> !es[i].Close?)
    requires id in s.book.issued && id in s.book.outcomes
    ensures id in t.book.outcomes && t.book.outcomes[id] == s.book.outcomes[id]
    decreases |es|
  {
    if es != [] {
      StrandedStep(s, es[0]);
      BookStep(s, es[0]);
      RejectedForGood(Step(s, es[0]), es[1..], t, id);
    }
  }

  /** A connection that has opened and whose client waits for an answer. */
  lemma Waiting() returns (s: State)
    ensures Reachable(s) && !s.hasRefresh && s.connects == 1 && s.status == Ready && s.sockets == [OPEN]
    ensures s.book.inflight == map[0 := Rpc] && s.book.issued == map[0 := Rpc]
  {
    s := Init(false);
    InitReachable(false);
    Then(false, s, Connect(false));
    s := Step(s, Connect(false));
    assert s.sockets == [CONNECTING];
    Then(false, s, SocketOpens(0, Never));
    s := Step(s, SocketOpens(0, Never));
    assert s.sockets == [OPEN] && CanSend(s);
    Then(false, s, CallRpc(0));
    s := Step(s, CallRpc(0));
  }

  /** A server that closes a connection with 1008 right after an rpc() brings it about: that call is
      never settled. */
  lemma StrandedWithCall()
    ensures exists s :: Reachable(s) && Stranded(s)
                    && s.book.inflight == map[0 := Rpc] && s.book.issued == map[0 := Rpc]
  {
    var s := Waiting();
    hide Reachable, Step, Stranded;
    Then(false, s, SocketCloses(0, POLICY_VIOLATION));
    AuthCloseStrands(s, 0, POLICY_VIOLATION);
  }

  // ---- Something is always under way ---------------------------------------------------------

  /** While the application is told that the connection is there or coming, a socket, a reconnect timer
      or a refresh is. */
  predicate Busy(s: State) {
    !s.closed && s.status in {Connecting, Ready, Reconnecting} ==> Attempts(s) > 0 || s.refreshes > 0
  }

  /** An authentication close that nothing follows: there is no refresh callback, no other socket or
      timer, and no refresh under way. */
  predicate GivesUpSilently(s: State, e: Event) {
    && e.SocketCloses? && IsAuthClose(e.code) && !s.hasRefresh && !s.closed
    && s.status in {Connecting, Ready, Reconnecting} && Attempts(s) == 1 && s.refreshes == 0
  }

  lemma BusyAfterStart(s: State, e: Event)
    requires Enabled(s, e) && (e.Connect? || e.RefreshAnswers?)
    ensures Busy(s) ==> Busy(Step(s, e))
  {
    StartChanges(s, e);
    hide Attempts, Settle, Backoff;
  }

  lemma BusyAfterTimer(s: State, e: Event)
    requires Enabled(s, e) && e.ReconnectTimer?
    ensures Busy(Step(s, e))
  {
    var u := s.(timers := s.timers - 1);
    OpeningAttempts(u, e.throws);
    hide Attempts, Settle, Backoff;
  }

  lemma BusyAfterLoss(s: State, e: Event)
    requires Enabled(s, e) && e.SocketCloses?
    ensures Busy(Step(s, e)) <==> !GivesUpSilently(s, e)
  {
    hide Settle, Backoff;
    LiveChanges(s, e.ws, CLOSED);
    assert Live(Step(s, e)) == Live(s) - {e.ws};
    assert |Live(s) - {e.ws}| == |Live(s)| - 1;
    hide Live;
  }

  lemma BusyAfterRest(s: State, e: Event)
    requires Enabled(s, e) && !e.Connect? && !e.RefreshAnswers? && !e.SocketCloses? && !e.ReconnectTimer?
    ensures Busy(s) ==> Busy(Step(s, e))
  {
    OthersChange(s, e);
    if e.SocketOpens? { LiveChanges(s, e.ws, OPEN); assert Live(s) != {}; }
    hide Attempts, Settle, Backoff;
  }

  /** Every step keeps that, except exactly the silent one. */
  lemma StepKeepsBusyExactly(s: State, e: Event)
    requires Enabled(s, e) && Busy(s)
    ensures Busy(Step(s, e)) <==> !GivesUpSilently(s, e)
  {
    hide Step, Enabled, Busy;
    match e {
      case Connect(_) => BusyAfterStart(s, e);
      case RefreshAnswers(_) => BusyAfterStart(s, e);
      case SocketCloses(_, _) => BusyAfterLoss(s, e);
      case ReconnectTimer(_) => BusyAfterTimer(s, e);
      case _ => BusyAfterRest(s, e);
    }
  }

  ghost predicate BusyThroughout(s: State, es: seq<Event>)
    decreases |es|
  {
    Busy(s) && (es != [] ==> Enabled(s, es[0]) && BusyThroughout(Step(s, es[0]), es[1..]))
  }

  ghost predicate NeverSilent(s: State, es: seq<Event>)
    decreases |es|
  {
    es != [] ==>
      Enabled(s, es[0]) && !GivesUpSilently(s, es[0]) && NeverSilent(Step(s, es[0]), es[1..])
  }

  /** So in every run the status tells the truth at every moment exactly if no authentication close came
      that nothing followed. */
  lemma {:induction false} BusyRunExactly(s: State, es: seq<Event>)
    requires Busy(s)
    ensures BusyThroughout(s, es) <==> NeverSilent(s, es)
    decreases |es|
  {
    hide Step, Enabled, Busy, GivesUpSilently;
    if es != [] && Enabled(s, es[0]) {
      StepKeepsBusyExactly(s, es[0]);
      if Busy(Step(s, es[0])) { BusyRunExactly(Step(s, es[0]), es[1..]); }
    }
  }

  // ---- Close events of other sockets ---------------------------------------------------------

  /** A close event makes the connection forget an open socket exactly if it has one and the event is of
      another. */
  lemma CloseForgetsExactly(s: State, ws: SocketId, code: nat)
    requires Enabled(s, SocketCloses(ws, code))
    ensures var t := Step(s, SocketCloses(ws, code));
            && t.socket == None
            && ((exists w :: s.socket == Some(w) && StateOf(t, w) == OPEN) <==> CanSend(s) && s.socket != Some(ws))
  {
    hide Settle, Backoff;
    var t := Step(s, SocketCloses(ws, code));
    assert t.sockets == s.sockets[ws := CLOSED];
    if CanSend(s) && s.socket != Some(ws) { assert StateOf(t, s.socket.value) == OPEN; }
  }

  // ---- Where one connect() and no refresh are needed -----------------------------------------

  lemma Then(hasRefresh: bool, s: State, e: Event)
    requires Reachable(s) && Enabled(s, e) && s.hasRefresh == hasRefresh
    ensures Reachable(Step(s, e)) && Step(s, e).hasRefresh == hasRefresh
  {
    ReachableStep(s, e);
    ConnectsStep(s, e);
  }

  lemma InitReachable(hasRefresh: bool)
    ensures Reachable(Init(hasRefresh))
  {
    assert IsRun(Init(hasRefresh), [], Init(hasRefresh));
  }

  /** A connection that was closed while a reconnect timer was pending. */
  lemma ClosedWhileWaiting() returns (s: State)
    ensures Reachable(s) && !s.hasRefresh && s.connects == 1 && s.timers == 1 && s.attempt == 1
    ensures s.sockets == [CLOSED] && s.closed && s.status == Closed
  {
    s := Init(false);
    InitReachable(false);
    Then(false, s, Connect(false));
    s := Step(s, Connect(false));
    assert s.sockets == [CONNECTING];
    Then(false, s, SocketCloses(0, 1006));
    s := Step(s, SocketCloses(0, 1006));
    assert s.sockets == [CLOSED];
    Then(false, s, Close);
    s := Step(s, Close);
  }

  /** A reconnect timer outlives close(): after a second connect() it opens a second socket. */
  lemma StaleTimerOpensSecondSocket()
    ensures exists s :: Reachable(s) && !s.hasRefresh && s.connects == 2
                    && s.sockets == [CLOSED, CONNECTING, CONNECTING]
  {
    var s := ClosedWhileWaiting();
    var s1 := Step(s, Connect(false));
    Then(false, s, Connect(false));
    assert s1.sockets == [CLOSED, CONNECTING];
    var s2 := Step(s1, ReconnectTimer(false));
    Then(false, s1, ReconnectTimer(false));
    assert s2.sockets == [CLOSED, CONNECTING, CONNECTING];
  }

  /** A connection that has opened, and whose expiry timer has started a refresh. */
  lemma Refreshing() returns (s: State)
    ensures Reachable(s) && s.hasRefresh && s.connects == 1 && s.refreshes == 1 && s.timers == 0 && s.attempt == 0
    ensures s.sockets == [OPEN] && s.socket == Some(0) && !s.closed && s.status == Reconnecting
  {
    s := Init(true);
    InitReachable(true);
    Then(true, s, Connect(false));
    s := Step(s, Connect(false));
    assert s.sockets == [CONNECTING];
    Then(true, s, SocketOpens(0, Later));
    s := Step(s, SocketOpens(0, Later));
    assert s.sockets == [OPEN];
    Then(true, s, ExpiryTimer);
    s := Step(s, ExpiryTimer);
  }

  /** The old socket's close event acts on the connection a refresh has just opened: the connection
      forgets its open socket and arms a timer for another one. */
  lemma StaleCloseForgetsOpenSocket()
    ensures exists s :: Reachable(s) && s.connects == 1 && s.sockets == [CLOSED, OPEN]
                    && s.socket == None && s.timers == 1
  {
    var s := Refreshing();
    var s1 := Step(s, RefreshAnswers(false));
    Then(true, s, RefreshAnswers(false));
    assert s1.sockets == [CLOSING, CONNECTING];
    var s2 := Step(s1, SocketOpens(1, Never));
    Then(true, s1, SocketOpens(1, Never));
    var s3 := Step(s2, SocketCloses(0, 1000));
    Then(true, s2, SocketCloses(0, 1000));
    assert s3.sockets == [CLOSED, OPEN];
  }

  /** A refresh that answers after close() opens a socket, and the closed connection becomes ready. */
  lemma RefreshReopensClosed()
    ensures exists s :: Reachable(s) && s.connects == 1 && s.closed && s.status == Ready && s.sockets == [CLOSING, OPEN]
  {
    var s := Refreshing();
    var s1 := Step(s, Close);
    Then(true, s, Close);
    assert s1.sockets == [CLOSING];
    var s2 := Step(s1, RefreshAnswers(false));
    Then(true, s1, RefreshAnswers(false));
    assert s2.sockets == [CLOSING, CONNECTING];
    var s3 := Step(s2, SocketOpens(1, Never));
    Then(true, s2, SocketOpens(1, Never));
  }
}
