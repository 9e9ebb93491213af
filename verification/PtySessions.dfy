/** PTY sessions (`pty/handler.go`) under the goroutines that share them: one thread per connection
    (its serial read loop, then its cleanup), and per session the wait loop and the grace timer. */
module PtySessions {
  import opened Wrappers

  type ConnId = nat
  type SessionId = nat

  const MAX_PTYS_PER_CONN: nat := 4

  datatype Signal = SIGTERM | SIGKILL
  datatype Milestone = LeftRegistry | ExitPublished | DoneClosed

  /** How far the teardown of a session has come.  `closing` is set in all but the first. */
  datatype Teardown =
    | Untouched
    | Claimed     // the compare-and-swap succeeded
    | Signalled   // SIGTERM sent
    | Waiting     // the grace goroutine runs
    | Expired     // its timer fired
    | Spared      // done seen in time
    | Killed      // SIGKILL sent

  datatype Session = Session(
    conn: ConnId,
    teardown: Teardown,
    exited: bool,               // cmd.Wait has returned
    signals: seq<Signal>,       // sent to the process group, in order
    life: seq<Milestone>)       // what the wait loop has done, in order

  /** The thread of a connection. */
  datatype Thread =
    | Serving                                                         // between two requests
    | Opening                                                         // the cap was checked, not yet registered
    | Tearing(todo: seq<SessionId>, leaving: bool)                    // in Close, or in OnDisconnect
    | Killing(target: SessionId, todo: seq<SessionId>, leaving: bool) // won the swap, before SIGTERM
    | Arming(target: SessionId, todo: seq<SessionId>, leaving: bool)  // before starting the grace goroutine
    | Gone

  datatype State = State(
    sessions: map<SessionId, Session>,   // every session ever started
    registry: set<SessionId>,
    threads: map<ConnId, Thread>)

  const INIT: State := State(map[], {}, map[])

  datatype Event =
    | Connect(conn: ConnId)
    | Check(conn: ConnId)                          // countByConn, in Open and in StartAgent
    | Fail(conn: ConnId)                           // the spawn fails
    | Register(conn: ConnId, id: SessionId)
    | Close(conn: ConnId, id: SessionId)           // lookup
    | Disconnect(conn: ConnId, owned: seq<SessionId>)
    | Swap(conn: ConnId)
    | SendTerm(conn: ConnId)
    | Arm(conn: ConnId)
    | Return(conn: ConnId)
    | Exit(id: SessionId)                          // the process ends, Wait returns
    | Unregister(id: SessionId)
    | Publish(id: SessionId)
    | Finish(id: SessionId)                        // close(done)
    | SeeDone(id: SessionId)
    | Expire(id: SessionId)
    | SendKill(id: SessionId)

  /** The registered sessions of a connection. */
  function Owned(s: State, c: ConnId): set<SessionId> {
    set id | id in s.registry && id in s.sessions && s.sessions[id].conn == c
  }

  predicate InPhase(s: State, c: ConnId, t: Thread) {
    c in s.threads && s.threads[c] == t
  }

  predicate IsTearing(s: State, c: ConnId) {
    c in s.threads && s.threads[c].Tearing?
  }

  function Put(s: State, id: SessionId, x: Session): State {
    s.(sessions := s.sessions[id := x])
  }

  function Thereafter(s: State, c: ConnId, t: Thread): State {
    s.(threads := s.threads[c := t])
  }

  ghost predicate Enabled(s: State, e: Event) {
    match e
    case Connect(c) => c !in s.threads
    case Check(c) => InPhase(s, c, Serving)
    case Fail(c) => InPhase(s, c, Opening)
    case Register(c, id) => InPhase(s, c, Opening) && id !in s.sessions
    case Close(c, id) => InPhase(s, c, Serving)
    case Disconnect(c, owned) =>
      InPhase(s, c, Serving) && forall id :: id in owned <==> id in Owned(s, c)
    case Swap(c) => IsTearing(s, c) && s.threads[c].todo != [] && s.threads[c].todo[0] in s.sessions
    case SendTerm(c) => c in s.threads && s.threads[c].Killing? && s.threads[c].target in s.sessions
    case Arm(c) => c in s.threads && s.threads[c].Arming? && s.threads[c].target in s.sessions
    case Return(c) => IsTearing(s, c) && s.threads[c].todo == []
    case Exit(id) => id in s.sessions && !s.sessions[id].exited
    case Unregister(id) => id in s.sessions && s.sessions[id].exited && s.sessions[id].life == []
    case Publish(id) => id in s.sessions && s.sessions[id].life == [LeftRegistry]
    case Finish(id) => id in s.sessions && s.sessions[id].life == [LeftRegistry, ExitPublished]
    case SeeDone(id) => id in s.sessions && s.sessions[id].teardown == Waiting && DoneClosed in s.sessions[id].life
    case Expire(id) => id in s.sessions && s.sessions[id].teardown == Waiting
    case SendKill(id) => id in s.sessions && s.sessions[id].teardown == Expired
  }

  ghost function Step(s: State, e: Event): State
    requires Enabled(s, e)
  {
    match e
    case Connect(c) => Thereafter(s, c, Serving)
    case Check(c) =>
      if |Owned(s, c)| >= MAX_PTYS_PER_CONN then s else Thereafter(s, c, Opening)
    case Fail(c) => Thereafter(s, c, Serving)
    case Register(c, id) =>
      Thereafter(Put(s, id, Session(c, Untouched, false, [], [])), c, Serving).(registry := s.registry + {id})
    case Close(c, id) =>
      if id in s.registry then Thereafter(s, c, Tearing([id], false)) else s
    case Disconnect(c, owned) => Thereafter(s, c, Tearing(owned, true))
    case Swap(c) =>
      var t := s.threads[c];
      var x := s.sessions[t.todo[0]];
      if x.teardown == Untouched then
        Thereafter(Put(s, t.todo[0], x.(teardown := Claimed)), c, Killing(t.todo[0], t.todo[1..], t.leaving))
      else Thereafter(s, c, Tearing(t.todo[1..], t.leaving))
    case SendTerm(c) =>
      var t := s.threads[c];
      var x := s.sessions[t.target];
      Thereafter(Put(s, t.target, x.(teardown := Signalled, signals := x.signals + [SIGTERM])), c,
                 Arming(t.target, t.todo, t.leaving))
    case Arm(c) =>
      var t := s.threads[c];
      Thereafter(Put(s, t.target, s.sessions[t.target].(teardown := Waiting)), c, Tearing(t.todo, t.leaving))
    case Return(c) => Thereafter(s, c, if s.threads[c].leaving then Gone else Serving)
    case Exit(id) => Put(s, id, s.sessions[id].(exited := true))
    case Unregister(id) =>
      Put(s, id, s.sessions[id].(life := s.sessions[id].life + [LeftRegistry])).(registry := s.registry - {id})
    case Publish(id) => Put(s, id, s.sessions[id].(life := s.sessions[id].life + [ExitPublished]))
    case Finish(id) => Put(s, id, s.sessions[id].(life := s.sessions[id].life + [DoneClosed]))
    case SeeDone(id) => Put(s, id, s.sessions[id].(teardown := Spared))
    case Expire(id) => Put(s, id, s.sessions[id].(teardown := Expired))
    case SendKill(id) =>
      Put(s, id, s.sessions[id].(teardown := Killed, signals := s.sessions[id].signals + [SIGKILL]))
  }

  ghost predicate IsRun(s: State, es: seq<Event>, t: State)
    decreases |es|
  {
    if es == [] then t == s
    else Enabled(s, es[0]) && IsRun(Step(s, es[0]), es[1..], t)
  }

  // ---- Invariants ----------------------------------------------------------------------------

  /** The signals a session has got, by how far its teardown is. */
  predicate SignalsFit(x: Session) {
    match x.teardown
    case Untouched => x.signals == []
    case Claimed => x.signals == []
    case Signalled => x.signals == [SIGTERM]
    case Waiting => x.signals == [SIGTERM]
    case Expired => x.signals == [SIGTERM]
    case Spared => x.signals == [SIGTERM] && DoneClosed in x.life
    case Killed => x.signals == [SIGTERM, SIGKILL]
  }

  predicate LifeFits(x: Session) {
    || x.life == []
    || (x.exited && x.life == [LeftRegistry])
    || (x.exited && x.life == [LeftRegistry, ExitPublished])
    || (x.exited && x.life == [LeftRegistry, ExitPublished, DoneClosed])
  }

  ghost predicate SessionsFit(s: State) {
    && s.registry <= s.sessions.Keys
    && forall id :: id in s.sessions ==>
         SignalsFit(s.sessions[id]) && LifeFits(s.sessions[id]) && (id in s.registry <==> s.sessions[id].life == [])
  }

  /** A thread about to signal a session has won the swap for it. */
  predicate HasWon(s: State, c: ConnId)
    requires c in s.threads
  {
    match s.threads[c]
    case Killing(id, _, _) => id in s.sessions && s.sessions[id].teardown == Claimed
    case Arming(id, _, _) => id in s.sessions && s.sessions[id].teardown == Signalled
    case _ => true
  }

  /** ... and nobody else has. */
  ghost predicate OneWinner(s: State) {
    && (forall c :: c in s.threads ==> HasWon(s, c))
    && (forall c, d :: c in s.threads && d in s.threads ==> c == d || !BothEngaged(s.threads[c], s.threads[d]))
  }

  predicate BothEngaged(t: Thread, u: Thread) {
    (t.Killing? || t.Arming?) && (u.Killing? || u.Arming?) && t.target == u.target
  }

  /** The cap counts a connection that has passed the check and not registered yet as one more. */
  predicate CapHolds(s: State, c: ConnId)
    requires c in s.threads
  {
    |Owned(s, c)| + (if s.threads[c] == Opening then 1 else 0) <= MAX_PTYS_PER_CONN
  }

  ghost predicate WithinCap(s: State) {
    && (forall c :: c in s.threads ==> CapHolds(s, c))
    && (forall id :: id in s.sessions ==> s.sessions[id].conn in s.threads)
  }

  predicate Leaving(t: Thread) {
    match t
    case Gone => true
    case Tearing(_, leaving) => leaving
    case Killing(_, _, leaving) => leaving
    case Arming(_, _, leaving) => leaving
    case _ => false
  }

  predicate Pending(t: Thread, id: SessionId) {
    match t
    case Tearing(todo, _) => id in todo
    case Killing(target, todo, _) => id == target || id in todo
    case Arming(target, todo, _) => id == target || id in todo
    case _ => false
  }

  predicate Closing(s: State, id: SessionId) {
    id in s.sessions && s.sessions[id].teardown != Untouched
  }

  /** A thread tears down sessions that were registered.  A leaving one tears down its own only, and
      has claimed all it still has registered, or will. */
  ghost predicate CleansUp(s: State) {
    forall c, id :: c in s.threads ==> CleansUpOne(s, c, id)
  }

  ghost predicate CleansUpOne(s: State, c: ConnId, id: SessionId)
    requires c in s.threads
  {
    && (Leaving(s.threads[c]) && id in Owned(s, c) ==> Closing(s, id) || Pending(s.threads[c], id))
    && (Pending(s.threads[c], id) ==> id in s.sessions && (Leaving(s.threads[c]) ==> s.sessions[id].conn == c))
  }

  ghost predicate Inv(s: State) {
    SessionsFit(s) && OneWinner(s) && WithinCap(s) && CleansUp(s)
  }

  // ---- Frames: what a step can touch ---------------------------------------------------------

  function Actor(e: Event): Option<ConnId> {
    match e
    case Connect(c) => Some(c)
    case Check(c) => Some(c)
    case Fail(c) => Some(c)
    case Register(c, _) => Some(c)
    case Close(c, _) => Some(c)
    case Disconnect(c, _) => Some(c)
    case Swap(c) => Some(c)
    case SendTerm(c) => Some(c)
    case Arm(c) => Some(c)
    case Return(c) => Some(c)
    case _ => None
  }

  /** The session whose record a step may change. */
  function Subject(s: State, e: Event): Option<SessionId> {
    match e
    case Register(_, id) => Some(id)
    case Swap(c) => if IsTearing(s, c) && s.threads[c].todo != [] then Some(s.threads[c].todo[0]) else None
    case SendTerm(c) => if c in s.threads && s.threads[c].Killing? then Some(s.threads[c].target) else None
    case Arm(c) => if c in s.threads && s.threads[c].Arming? then Some(s.threads[c].target) else None
    case Exit(id) => Some(id)
    case Unregister(id) => Some(id)
    case Publish(id) => Some(id)
    case Finish(id) => Some(id)
    case SeeDone(id) => Some(id)
    case Expire(id) => Some(id)
    case SendKill(id) => Some(id)
    case _ => None
  }

  lemma OtherThreads(s: State, e: Event, c: ConnId)
    requires Enabled(s, e) && Actor(e) != Some(c)
    ensures var t := Step(s, e);
            (c in t.threads <==> c in s.threads) && (c in s.threads ==> t.threads[c] == s.threads[c])
  {
  }

  lemma OtherSessions(s: State, e: Event, id: SessionId)
    requires Enabled(s, e) && Subject(s, e) != Some(id)
    ensures var t := Step(s, e);
            && (id in t.sessions <==> id in s.sessions) && (id in s.sessions ==> t.sessions[id] == s.sessions[id])
            && (id in t.registry <==> id in s.registry)
  {
  }

  /** Nobody ever forgets a session, its owner, or that its teardown has begun. */
  lemma SubjectSession(s: State, e: Event, id: SessionId)
    requires Enabled(s, e) && id in s.sessions
    ensures var t := Step(s, e);
            && id in t.sessions && t.sessions[id].conn == s.sessions[id].conn
            && (Closing(s, id) ==> Closing(t, id))
            && (id in t.registry ==> id in s.registry)
            && (s.sessions[id].life <= t.sessions[id].life) && (s.sessions[id].signals <= t.sessions[id].signals)
  {
  }

  // ---- Kept by every step --------------------------------------------------------------------

  lemma SessionsFitKept(s: State, e: Event)
    requires SessionsFit(s) && OneWinner(s) && Enabled(s, e)
    ensures SessionsFit(Step(s, e))
  {
    var t := Step(s, e);
    forall id | id in t.sessions
      ensures SignalsFit(t.sessions[id]) && LifeFits(t.sessions[id])
              && (id in t.registry <==> t.sessions[id].life == [])
    {
      if Subject(s, e) == Some(id) { SubjectFits(s, e, id); } else { OtherSessions(s, e, id); }
    }
    assert t.registry <= t.sessions.Keys;
  }

  lemma SubjectFits(s: State, e: Event, id: SessionId)
    requires SessionsFit(s) && OneWinner(s) && Enabled(s, e) && Subject(s, e) == Some(id)
    ensures var t := Step(s, e); id in t.sessions ==>
              SignalsFit(t.sessions[id]) && LifeFits(t.sessions[id])
              && (id in t.registry <==> t.sessions[id].life == [])
  {
    if Actor(e).Some? { assert Actor(e).value in s.threads && HasWon(s, Actor(e).value); }
  }

  lemma HasWonKept(s: State, e: Event, c: ConnId)
    requires OneWinner(s) && Enabled(s, e) && c in Step(s, e).threads
    ensures HasWon(Step(s, e), c)
  {
    if Actor(e) == Some(c) {
      assert c in s.threads ==> HasWon(s, c);
    } else {
      OtherThreads(s, e, c);
      assert HasWon(s, c);
      if Actor(e).Some? && Actor(e).value in s.threads { assert !BothEngaged(s.threads[c], s.threads[Actor(e).value]); }
    }
  }

  lemma WinnersDiffer(s: State, e: Event, c: ConnId, d: ConnId)
    requires OneWinner(s) && Enabled(s, e) && c in Step(s, e).threads && d in Step(s, e).threads && c != d
    ensures !BothEngaged(Step(s, e).threads[c], Step(s, e).threads[d])
  {
    var a := if Actor(e) == Some(d) then d else c;
    var other := if a == d then c else d;
    OtherThreads(s, e, other);
    assert HasWon(s, other);
    if Actor(e) == Some(a) {
      assert a in s.threads ==> !BothEngaged(s.threads[a], s.threads[other]);
    } else {
      OtherThreads(s, e, a);
      assert !BothEngaged(s.threads[c], s.threads[d]);
    }
  }

  lemma OneWinnerKept(s: State, e: Event)
    requires OneWinner(s) && Enabled(s, e)
    ensures OneWinner(Step(s, e))
  {
    hide Step, Enabled, HasWon, BothEngaged;
    var t := Step(s, e);
    forall c | c in t.threads ensures HasWon(t, c) { HasWonKept(s, e, c); }
    forall c, d | c in t.threads && d in t.threads && c != d ensures !BothEngaged(t.threads[c], t.threads[d]) {
      WinnersDiffer(s, e, c, d);
    }
  }

  lemma {:induction false} SubsetSize<T>(a: set<T>, b: set<T>)
    requires a <= b
    ensures |a| <= |b|
  {
    if a != {} {
      var x :| x in a;
      SubsetSize(a - {x}, b - {x});
    }
  }

  /** Only the connection itself adds to its registered sessions, by registering. */
  lemma OwnedStep(s: State, e: Event, c: ConnId)
    requires Enabled(s, e)
    ensures Owned(Step(s, e), c) <= Owned(s, c) + (if e.Register? && e.conn == c then {e.id} else {})
  {
    var t := Step(s, e);
    forall id | id in Owned(t, c) ensures id in Owned(s, c) || (e.Register? && e.conn == c && id == e.id) {
      if id in s.sessions { SubjectSession(s, e, id); } else { assert e.Register? && e.id == id; }
    }
  }

  lemma CapKept(s: State, e: Event, c: ConnId)
    requires WithinCap(s) && Enabled(s, e) && c in Step(s, e).threads
    ensures CapHolds(Step(s, e), c)
  {
    var t := Step(s, e);
    OwnedStep(s, e, c);
    SubsetSize(Owned(t, c), Owned(s, c) + if e.Register? && e.conn == c then {e.id} else {});
    if c in s.threads {
      assert CapHolds(s, c);
      if Actor(e) != Some(c) { OtherThreads(s, e, c); }
    } else {
      NobodyOwns(s, c);
    }
  }

  lemma NobodyOwns(s: State, c: ConnId)
    requires WithinCap(s) && c !in s.threads
    ensures Owned(s, c) == {}
  {
  }

  lemma WithinCapKept(s: State, e: Event)
    requires WithinCap(s) && Enabled(s, e)
    ensures WithinCap(Step(s, e))
  {
    var t := Step(s, e);
    forall c | c in t.threads ensures CapHolds(t, c) { CapKept(s, e, c); }
    forall id | id in t.sessions ensures t.sessions[id].conn in t.threads {
      if id in s.sessions { SubjectSession(s, e, id); }
    }
  }

  lemma CleansUpOneKept(s: State, e: Event, c: ConnId, id: SessionId)
    requires SessionsFit(s) && CleansUp(s) && Enabled(s, e) && c in Step(s, e).threads
    ensures CleansUpOne(Step(s, e), c, id)
  {
    if id in s.sessions { SubjectSession(s, e, id); }
    if c in s.threads { assert CleansUpOne(s, c, id); }
    if Actor(e) == Some(c) {
      PendingStep(s, e, c, id);
      if Leaving(Step(s, e).threads[c]) && id in Owned(Step(s, e), c) { OwnStep(s, e, c, id); }
      hide Step, Enabled;
    } else {
      OwnedStep(s, e, c);
      OtherThreads(s, e, c);
      hide Step, Enabled;
    }
  }

  /** What a thread's own step does to the sessions it still has to tear down. */
  lemma PendingStep(s: State, e: Event, c: ConnId, id: SessionId)
    requires SessionsFit(s) && Enabled(s, e) && Actor(e) == Some(c)
    ensures var t := Step(s, e);
            && c in t.threads
            && (Pending(t.threads[c], id) ==>
                  || (c in s.threads && Pending(s.threads[c], id) && Leaving(s.threads[c]) == Leaving(t.threads[c]))
                  || (e.Disconnect? && id in Owned(s, c))
                  || (e == Close(c, id) && id in s.sessions && !Leaving(t.threads[c])))
  {
    assert e.Swap? ==> s.threads[c].todo == [s.threads[c].todo[0]] + s.threads[c].todo[1..];
  }

  lemma OwnStep(s: State, e: Event, c: ConnId, id: SessionId)
    requires SessionsFit(s) && CleansUp(s) && Enabled(s, e) && Actor(e) == Some(c)
    requires Leaving(Step(s, e).threads[c]) && id in Owned(Step(s, e), c)
    ensures Closing(Step(s, e), id) || Pending(Step(s, e).threads[c], id)
  {
    assert c in s.threads && CleansUpOne(s, c, id);
    assert e.Swap? ==> s.threads[c].todo == [s.threads[c].todo[0]] + s.threads[c].todo[1..];
  }

  lemma InvKept(s: State, e: Event)
    requires Inv(s) && Enabled(s, e)
    ensures Inv(Step(s, e))
  {
    hide Step, Enabled, CleansUpOne;
    SessionsFitKept(s, e);
    OneWinnerKept(s, e);
    WithinCapKept(s, e);
    forall c, id | c in Step(s, e).threads ensures CleansUpOne(Step(s, e), c, id) { CleansUpOneKept(s, e, c, id); }
  }

  lemma {:induction false} RunKeepsInv(s: State, es: seq<Event>, t: State)
    requires Inv(s) && IsRun(s, es, t)
    ensures Inv(t)
    decreases |es|
  {
    hide Step, Enabled, Inv;
    if es != [] {
      InvKept(s, es[0]);
      RunKeepsInv(Step(s, es[0]), es[1..], t);
    }
  }

  /** The states a run of the daemon passes through. */
  ghost predicate Reachable(s: State) {
    exists es :: IsRun(INIT, es, s)
  }

  lemma ReachableInv(s: State)
    requires Reachable(s)
    ensures Inv(s)
  {
    var es :| IsRun(INIT, es, s);
    RunKeepsInv(INIT, es, s);
  }

  // ---- What every run promises ---------------------------------------------------------------

  /** Whoever closes a session, and however often, it gets at most one SIGTERM and after that at most
      one SIGKILL, which it is spared only if it has ended.  Its exit is published at most once: after
      the process has ended and the session has left the registry, and before `done` closes. */
  lemma TeardownIsSafe(s: State, id: SessionId)
    requires Reachable(s) && id in s.sessions
    ensures s.sessions[id].signals <= [SIGTERM, SIGKILL]
    ensures s.sessions[id].signals != [] ==> Closing(s, id)
    ensures s.sessions[id].teardown == Spared ==> DoneClosed in s.sessions[id].life
    ensures SIGKILL in s.sessions[id].signals <==> s.sessions[id].teardown == Killed
    ensures s.sessions[id].life <= [LeftRegistry, ExitPublished, DoneClosed]
    ensures s.sessions[id].life != [] ==> s.sessions[id].exited
    ensures id in s.registry <==> s.sessions[id].life == []
  {
    ReachableInv(s);
  }

  /** The count and the registration are separate critical sections, but a connection opens one
      session at a time. */
  lemma CapIsNeverExceeded(s: State, c: ConnId)
    requires Reachable(s)
    ensures |Owned(s, c)| <= MAX_PTYS_PER_CONN
    ensures InPhase(s, c, Opening) ==> |Owned(s, c)| < MAX_PTYS_PER_CONN
  {
    ReachableInv(s);
    if c in s.threads { assert CapHolds(s, c); } else { NobodyOwns(s, c); }
  }

  /** Once a connection's cleanup is over, every session it still has registered is being closed. */
  lemma GoneMeansClosing(s: State, c: ConnId, id: SessionId)
    requires Reachable(s) && InPhase(s, c, Gone) && id in Owned(s, c)
    ensures Closing(s, id)
  {
    ReachableInv(s);
    assert CleansUpOne(s, c, id);
  }

  lemma LeavingIsFinal(s: State, e: Event, c: ConnId)
    requires Enabled(s, e) && c in s.threads && Leaving(s.threads[c])
    ensures var t := Step(s, e);
            && c in t.threads && Leaving(t.threads[c]) && (s.threads[c] == Gone ==> t.threads[c] == Gone)
            && Owned(t, c) <= Owned(s, c)
  {
    OwnedStep(s, e, c);
    if Actor(e) != Some(c) { OtherThreads(s, e, c); }
  }

  /** No session is ever added for a connection that leaves or has left. */
  lemma {:induction false} NoneAddedAfterDisconnect(s: State, es: seq<Event>, t: State, c: ConnId)
    requires IsRun(s, es, t) && c in s.threads && Leaving(s.threads[c])
    ensures c in t.threads && Leaving(t.threads[c]) && (s.threads[c] == Gone ==> t.threads[c] == Gone)
    ensures Owned(t, c) <= Owned(s, c)
    decreases |es|
  {
    hide Step, Enabled, Owned, Leaving;
    if es != [] {
      LeavingIsFinal(s, es[0], c);
      NoneAddedAfterDisconnect(Step(s, es[0]), es[1..], t, c);
    }
  }

  /** The record of another connection's session changes only by the session's own goroutines or by
      what another connection does. */
  ghost predicate SameSession(s: State, t: State, id: SessionId) {
    id in s.sessions && id in t.sessions && t.sessions[id] == s.sessions[id] && (id in t.registry <==> id in s.registry)
  }

  /** No step a connection takes while it leaves touches another connection's session. */
  lemma LeavingSparesOthers(s: State, e: Event, c: ConnId, id: SessionId)
    requires Reachable(s) && Enabled(s, e) && Actor(e) == Some(c)
    requires e.Disconnect? || (c in s.threads && Leaving(s.threads[c]))
    requires id in s.sessions && s.sessions[id].conn != c
    ensures SameSession(s, Step(s, e), id)
  {
    ReachableInv(s);
    assert CleansUpOne(s, c, id);
    if Subject(s, e) != Some(id) { OtherSessions(s, e, id); }
  }

  /** The teardown of a session begins in a Close of it, by whatever connection, or in the cleanup of
      its own connection. */
  lemma ClaimedByWhom(s: State, e: Event, id: SessionId)
    requires Reachable(s) && Enabled(s, e) && id in s.sessions && !Closing(s, id) && Closing(Step(s, e), id)
    ensures && e.Swap? && Pending(s.threads[e.conn], id)
            && (Leaving(s.threads[e.conn]) ==> s.sessions[id].conn == e.conn)
  {
    ReachableInv(s);
    assert e.Swap? ==> CleansUpOne(s, e.conn, id);
  }

  /** A thread drops a session from its list only when its teardown has begun. */
  lemma OwnPending(s: State, e: Event, c: ConnId, id: SessionId)
    requires Enabled(s, e) && Actor(e) == Some(c) && c in s.threads && HasWon(s, c)
    requires Pending(s.threads[c], id) && id in s.sessions
    ensures c in Step(s, e).threads && (Pending(Step(s, e).threads[c], id) || Closing(Step(s, e), id))
  {
    assert e.Swap? ==> s.threads[c].todo == [s.threads[c].todo[0]] + s.threads[c].todo[1..];
  }

  lemma ThreadStays(s: State, e: Event, c: ConnId)
    requires Enabled(s, e) && c in s.threads
    ensures c in Step(s, e).threads
  {
  }

  lemma PendingStays(s: State, e: Event, c: ConnId, id: SessionId)
    requires Reachable(s) && Enabled(s, e) && c in s.threads && (Pending(s.threads[c], id) || Closing(s, id))
    ensures c in Step(s, e).threads && (Pending(Step(s, e).threads[c], id) || Closing(Step(s, e), id))
  {
    ReachableInv(s);
    assert CleansUpOne(s, c, id) && HasWon(s, c);
    ThreadStays(s, e, c);
    if Closing(s, id) {
      SubjectSession(s, e, id);
    } else if Actor(e) == Some(c) {
      OwnPending(s, e, c, id);
    } else {
      OtherThreads(s, e, c);
    }
    hide Step, Enabled, Inv, Reachable, HasWon;
  }

  lemma {:induction false} PendingRun(s: State, es: seq<Event>, t: State, c: ConnId, id: SessionId)
    requires Reachable(s) && IsRun(s, es, t) && c in s.threads && (Pending(s.threads[c], id) || Closing(s, id))
    ensures c in t.threads && (Pending(t.threads[c], id) || Closing(t, id))
    decreases |es|
  {
    if es != [] {
      hide Step, Enabled, Pending, Closing;
      PendingStays(s, es[0], c, id);
      ReachableStep(s, es[0]);
      PendingRun(Step(s, es[0]), es[1..], t, c, id);
    }
  }

  lemma {:induction false} RunSnoc(s: State, es: seq<Event>, t: State, e: Event)
    requires IsRun(s, es, t) && Enabled(t, e)
    ensures IsRun(s, es + [e], Step(t, e))
    decreases |es|
  {
    hide Step, Enabled;
    if es == [] {
      assert ([] + [e])[1..] == [];
    } else {
      assert (es + [e])[0] == es[0] && (es + [e])[1..] == es[1..] + [e];
      RunSnoc(Step(s, es[0]), es[1..], t, e);
    }
  }

  lemma ReachableStep(s: State, e: Event)
    requires Reachable(s) && Enabled(s, e)
    ensures Reachable(Step(s, e))
  {
    var es :| IsRun(INIT, es, s);
    RunSnoc(INIT, es, s, e);
  }

  /** Once a Close has been answered, the session it named is being closed if it was registered, whoever
      owns it; a Close of any other id does nothing. */
  lemma CloseTearsDown(s: State, es: seq<Event>, t: State, c: ConnId, id: SessionId)
    requires Reachable(s) && Enabled(s, Close(c, id)) && IsRun(Step(s, Close(c, id)), es, t)
    ensures id !in s.registry ==> Step(s, Close(c, id)) == s
    ensures id in s.registry && InPhase(t, c, Serving) ==> Closing(t, id)
  {
    if id in s.registry {
      ReachableStep(s, Close(c, id));
      var u := Step(s, Close(c, id));
      assert Pending(u.threads[c], id);
      hide Step, Enabled, IsRun, Reachable;
      PendingRun(u, es, t, c, id);
    }
  }

  // ---- Signals to processes that have ended --------------------------------------------------

  const LIFE: seq<Milestone> := [LeftRegistry, ExitPublished, DoneClosed]

  /** A signal some goroutine is about to send. */
  predicate Due(s: State, id: SessionId, signal: Signal) {
    match signal
    case SIGTERM => exists c :: c in s.threads && s.threads[c].Killing? && s.threads[c].target == id
    case SIGKILL => id in s.sessions && s.sessions[id].teardown == Expired
  }

  predicate Sends(s: State, e: Event, id: SessionId, signal: Signal) {
    match signal
    case SIGTERM => e.SendTerm? && e.conn in s.threads && s.threads[e.conn].Killing? && s.threads[e.conn].target == id
    case SIGKILL => e == SendKill(id)
  }

  lemma TermStaysDue(s: State, e: Event, id: SessionId)
    requires Enabled(s, e) && Due(s, id, SIGTERM) && !Sends(s, e, id, SIGTERM)
    ensures Due(Step(s, e), id, SIGTERM)
  {
    var c :| c in s.threads && s.threads[c].Killing? && s.threads[c].target == id;
    if Actor(e) != Some(c) { OtherThreads(s, e, c); }
    assert c in Step(s, e).threads && Step(s, e).threads[c] == s.threads[c];
  }

  lemma KillStaysDue(s: State, e: Event, id: SessionId)
    requires Enabled(s, e) && Due(s, id, SIGKILL) && e != SendKill(id)
    requires e.SendTerm? || e.Arm? ==> HasWon(s, e.conn)
    requires e.Register? ==> e.id != id
    ensures Due(Step(s, e), id, SIGKILL)
  {
    if Subject(s, e) != Some(id) { OtherSessions(s, e, id); }
  }

  /** Nothing cancels a signal that is due: not the end of the process, nor that it was waited for, nor
      that `done` closed. */
  lemma DueTillSent(s: State, e: Event, id: SessionId, signal: Signal)
    requires Reachable(s) && Enabled(s, e) && Due(s, id, signal) && !Sends(s, e, id, signal)
    ensures Due(Step(s, e), id, signal)
  {
    match signal {
      case SIGTERM => TermStaysDue(s, e, id);
      case SIGKILL =>
        ReachableInv(s);
        assert OneWinner(s);
        hide Reachable, Inv, Step;
        KillStaysDue(s, e, id);
    }
  }

  /** The process ends and its wait loop gets as far as one likes, before anybody else moves. */
  lemma {:induction false} WaitLoopRuns(s: State, id: SessionId, k: nat) returns (t: State)
    requires Reachable(s) && id in s.sessions && !s.sessions[id].exited && s.sessions[id].life == [] && k <= 3
    ensures Reachable(t) && t.threads == s.threads && id in t.sessions
    ensures t.sessions[id] == s.sessions[id].(exited := true, life := LIFE[..k])
  {
    if k == 0 {
      ReachableStep(s, Exit(id));
      t := Step(s, Exit(id));
    } else {
      var u := WaitLoopRuns(s, id, k - 1);
      var e := if k == 1 then Unregister(id) else if k == 2 then Publish(id) else Finish(id);
      assert LIFE[..k] == LIFE[..k - 1] + [LIFE[k - 1]];
      assert k == 2 ==> LIFE[..1] == [LeftRegistry];
      assert k == 3 ==> LIFE[..2] == [LeftRegistry, ExitPublished];
      assert Enabled(u, e);
      ReachableStep(u, e);
      t := Step(u, e);
    }
  }

  lemma OneServed() returns (s: State)
    ensures Reachable(s)
    ensures s == State(map[0 := Session(0, Untouched, false, [], [])], {0}, map[0 := Serving])
  {
    var s1, s2 := INIT.(threads := map[0 := Serving]), INIT.(threads := map[0 := Opening]);
    s := State(map[0 := Session(0, Untouched, false, [], [])], {0}, map[0 := Serving]);
    assert Owned(s1, 0) == {};
    assert Step(INIT, Connect(0)) == s1 && Step(s1, Check(0)) == s2 && Step(s2, Register(0, 0)) == s;
    assert Reachable(INIT) by { assert IsRun(INIT, [], INIT); }
    assert Enabled(INIT, Connect(0)) && Enabled(s1, Check(0)) && Enabled(s2, Register(0, 0));
    hide *;
    ReachableStep(INIT, Connect(0));
    ReachableStep(s1, Check(0));
    ReachableStep(s2, Register(0, 0));
  }

  lemma OneClosing() returns (s: State)
    ensures Reachable(s) && s.threads == map[0 := Killing(0, [], false)]
    ensures s.sessions == map[0 := Session(0, Claimed, false, [], [])]
  {
    var s0 := OneServed();
    var s1 := s0.(threads := map[0 := Tearing([0], false)]);
    s := State(map[0 := Session(0, Claimed, false, [], [])], {0}, map[0 := Killing(0, [], false)]);
    assert [0][1..] == [];
    assert Enabled(s0, Close(0, 0)) && Step(s0, Close(0, 0)) == s1;
    assert Enabled(s1, Swap(0)) && Step(s1, Swap(0)) == s;
    hide *;
    ReachableStep(s0, Close(0, 0));
    ReachableStep(s1, Swap(0));
  }

  lemma OneExpired() returns (s: State)
    ensures Reachable(s) && s.sessions == map[0 := Session(0, Expired, false, [SIGTERM], [])]
  {
    var s0 := OneClosing();
    ReachableStep(s0, SendTerm(0));
    var s1 := Step(s0, SendTerm(0));
    assert s1.sessions == map[0 := Session(0, Signalled, false, [SIGTERM], [])] by {
      assert [] + [SIGTERM] == [SIGTERM];
    }
    ReachableStep(s1, Arm(0));
    var s2 := Step(s1, Arm(0));
    assert s2.sessions == map[0 := Session(0, Waiting, false, [SIGTERM], [])];
    ReachableStep(s2, Expire(0));
    s := Step(s2, Expire(0));
    hide Reachable;
  }

  /** So either signal can go to a process group whose process has been waited for, at every stage of
      its wait loop, up to and after the close of `done`. */
  lemma LateSignals(signal: Signal, k: nat)
    requires k <= 3
    ensures exists s, id ::
              && Reachable(s) && Due(s, id, signal) && id in s.sessions
              && s.sessions[id].exited && s.sessions[id].life == LIFE[..k]
  {
    hide Reachable;
    match signal {
      case SIGTERM =>
        var s := OneClosing();
        var t := WaitLoopRuns(s, 0, k);
        assert Due(t, 0, SIGTERM) by { assert 0 in t.threads && t.threads[0].Killing?; }
      case SIGKILL =>
        var s := OneExpired();
        var t := WaitLoopRuns(s, 0, k);
        assert Due(t, 0, SIGKILL);
    }
  }

  /** A connection's goroutine is never stuck in the middle of a request or of its cleanup. */
  lemma NeverStuck(s: State, c: ConnId)
    requires Reachable(s) && c in s.threads && s.threads[c] != Gone
    ensures exists e :: Actor(e) == Some(c) && Enabled(s, e)
  {
    ReachableInv(s);
    assert HasWon(s, c);
    assert s.threads[c].Tearing? && s.threads[c].todo != [] ==> CleansUpOne(s, c, s.threads[c].todo[0]);
    hide Reachable, Inv;
    var e := match s.threads[c]
      case Serving => Check(c)
      case Opening => Fail(c)
      case Tearing(todo, _) => if todo == [] then Return(c) else Swap(c)
      case Killing(_, _, _) => SendTerm(c)
      case Arming(_, _, _) => Arm(c)
      case Gone => Return(c);
    assert Enabled(s, e) && Actor(e) == Some(c);
  }
}
