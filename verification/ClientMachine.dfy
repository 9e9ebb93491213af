/** The browser's connection to the daemon (`frontend/src/lib/daemon.ts`), as a machine whose steps are
    the calls of its methods and the callbacks of its sockets, timers and refreshes. */
module ClientMachine {
  import opened Wrappers

  type CallId = nat
  type SocketId = nat

  const INITIAL_BACKOFF_MS: nat := 250
  const MAX_BACKOFF_MS: nat := 5000
  const MAX_RECONNECT_ATTEMPTS: nat := 5

  /** Section 7.4.1 of RFC 6455, and a code from its private range. */
  const POLICY_VIOLATION: nat := 1008
  const UNAUTHORIZED: nat := 4401

  datatype Status = Idle | Connecting | Ready | Reconnecting | Failed | Closed
  datatype ReadyState = CONNECTING | OPEN | CLOSING | CLOSED
  datatype Kind = Rpc | Notify

  /** How the promise of a call was settled. */
  datatype Outcome = Resolved | DaemonError | AlreadyClosed | NotOpen | ClosedByClient | Exhausted | RefreshFailed

  datatype Frame = Response(id: CallId) | Error(id: CallId, invalidToken: bool) | EventFrame(typ: string) | Malformed

  /** What `scheduleExpiryRefresh` finds: no expiry time, one within the window, or one later. */
  datatype Expiry = Never | Due | Later

  /** The calls of the application: the map of calls in flight, and what became of all calls. */
  datatype Book = Book(
    inflight: map<CallId, Kind>,
    ttls: set<CallId>,         // pending notify timers
    issued: map<CallId, Kind>, // every call of rpc() and notify()
    settles: multiset<CallId>, // calls of a resolve or reject callback
    outcomes: map<CallId, Outcome>)

  datatype State = State(
    // the fields of the connection
    hasRefresh: bool,
    status: Status,
    closed: bool,
    attempt: nat,
    socket: Option<SocketId>,
    book: Book,
    // what may call back
    sockets: seq<ReadyState>,  // every socket created, by number
    timers: nat,               // pending reconnect timers
    expiries: nat,             // pending expiry timers
    refreshes: nat,            // refreshes that have not answered
    // history
    connects: nat,             // accepted calls of connect()
    armed: seq<nat>)           // delays of the reconnect timers since the counter was last reset

  function Init(hasRefresh: bool): State {
    State(hasRefresh, Idle, false, 0, None, Book(map[], {}, map[], multiset{}, map[]), [], 0, 0, 0, 0, [])
  }

  datatype Event =
    | Connect(throws: bool)  // `throws`: the WebSocket constructor does
    | CallRpc(id: CallId)
    | CallNotify(id: CallId)
    | Close
    | SocketOpens(ws: SocketId, expiry: Expiry)
    | SocketReceives(ws: SocketId, frame: Frame)
    | SocketClosing(ws: SocketId)
    | SocketCloses(ws: SocketId, code: nat)
    | ReconnectTimer(throws: bool)
    | NotifyTimer(id: CallId)
    | ExpiryTimer
    | RefreshAnswers(throws: bool)
    | RefreshRejects

  // ---- The methods ---------------------------------------------------------------------------

  function StateOf(s: State, ws: SocketId): ReadyState {
    if ws < |s.sockets| then s.sockets[ws] else CLOSED
  }

  /** Calls back for some calls in flight, and forgets them. */
  function Settle(b: Book, ids: set<CallId>, how: Outcome): Book {
    b.(inflight := b.inflight - ids,
       settles := b.settles + multiset(ids),
       outcomes := b.outcomes + (map id | id in ids :: how))
  }

  function RejectInflight(s: State, how: Outcome): State {
    s.(book := Settle(s.book, s.book.inflight.Keys, how))
  }

  predicate CanSend(s: State) {
    s.socket.Some? && StateOf(s, s.socket.value) == OPEN
  }

  /** A frame that cannot be sent rejects its call. */
  function Send(s: State, id: CallId): State {
    if CanSend(s) then s else s.(book := Settle(s.book, {id}, NotOpen))
  }

  function Pow2(k: nat): nat {
    if k == 0 then 1 else 2 * Pow2(k - 1)
  }

  function Backoff(attempt: nat): nat {
    var b := INITIAL_BACKOFF_MS * Pow2(attempt);
    if b < MAX_BACKOFF_MS then b else MAX_BACKOFF_MS
  }

  function ScheduleReconnect(s: State): State {
    if s.closed then s
    else if s.attempt >= MAX_RECONNECT_ATTEMPTS then RejectInflight(s.(status := Failed), Exhausted)
    else s.(armed := s.armed + [Backoff(s.attempt)], attempt := s.attempt + 1,
            status := Reconnecting, timers := s.timers + 1)
  }

  function OpenSocket(s: State, throws: bool): State {
    if throws then ScheduleReconnect(s)
    else s.(socket := Some(|s.sockets|), sockets := s.sockets + [CONNECTING])
  }

  /** `socket?.close(1000)` and `socket = null`. */
  function DropSocket(s: State): State {
    s.(socket := None,
       sockets := if s.socket.Some? && s.socket.value < |s.sockets| && s.sockets[s.socket.value] in {CONNECTING, OPEN}
                  then s.sockets[s.socket.value := CLOSING] else s.sockets)
  }

  /** `refreshAndReopen` up to its await. */
  function BeginRefresh(s: State): State {
    if !s.hasRefresh || s.closed then s else s.(status := Reconnecting, refreshes := s.refreshes + 1)
  }

  function ScheduleExpiryRefresh(s: State, expiry: Expiry): State {
    if expiry == Never || !s.hasRefresh then s
    else if expiry == Due then BeginRefresh(s)
    else s.(expiries := s.expiries + 1)
  }

  /** An answer settles its call; the error for an invalid token also starts a refresh. */
  function Dispatch(s: State, frame: Frame): State {
    match frame
    case Response(id) => if id in s.book.inflight then s.(book := Settle(s.book, {id}, Resolved)) else s
    case Error(id, invalidToken) =>
      if id in s.book.inflight then
        (if invalidToken then BeginRefresh(s) else s).(book := Settle(s.book, {id}, DaemonError))
      else s
    case _ => s
  }

  predicate IsAuthClose(code: nat) {
    code == POLICY_VIOLATION || code == UNAUTHORIZED
  }

  function OnClose(s: State, code: nat): State {
    var gone := s.(socket := None);
    if s.closed then gone
    else if IsAuthClose(code) then BeginRefresh(gone)
    else ScheduleReconnect(if s.status == Ready then gone.(status := Reconnecting) else gone)
  }

  function Issue(b: Book, id: CallId, kind: Kind): Book {
    b.(issued := b.issued[id := kind])
  }

  function Enter(b: Book, id: CallId, kind: Kind): Book {
    Issue(b, id, kind).(inflight := b.inflight[id := kind], ttls := if kind == Notify then b.ttls + {id} else b.ttls)
  }

  // ---- The machine ---------------------------------------------------------------------------

  predicate Enabled(s: State, e: Event) {
    match e
    case CallRpc(id) => id !in s.book.issued
    case CallNotify(id) => id !in s.book.issued
    case SocketOpens(ws, _) => StateOf(s, ws) == CONNECTING
    case SocketReceives(ws, _) => StateOf(s, ws) in {OPEN, CLOSING}
    case SocketClosing(ws) => StateOf(s, ws) == OPEN
    case SocketCloses(ws, _) => StateOf(s, ws) != CLOSED
    case ReconnectTimer(_) => s.timers > 0
    case NotifyTimer(id) => id in s.book.ttls
    case ExpiryTimer => s.expiries > 0
    case RefreshAnswers(_) => s.refreshes > 0
    case RefreshRejects => s.refreshes > 0
    case _ => true
  }

  function Step(s: State, e: Event): State
    requires Enabled(s, e)
  {
    match e
    case Connect(throws) =>
      if s.status != Idle && s.status != Closed then s
      else OpenSocket(s.(closed := false, status := Connecting, connects := s.connects + 1), throws)
    case CallRpc(id) =>
      if s.closed then s.(book := Settle(Issue(s.book, id, Rpc), {id}, AlreadyClosed))
      else Send(s.(book := Enter(s.book, id, Rpc)), id)
    case CallNotify(id) =>
      if s.closed then s.(book := Issue(s.book, id, Notify))
      else Send(s.(book := Enter(s.book, id, Notify)), id)
    case Close => DropSocket(RejectInflight(s.(closed := true, status := Closed), ClosedByClient))
    case SocketOpens(ws, expiry) =>
      ScheduleExpiryRefresh(s.(sockets := s.sockets[ws := OPEN], attempt := 0, armed := [], status := Ready), expiry)
    case SocketReceives(ws, frame) => Dispatch(s, frame)
    case SocketClosing(ws) => s.(sockets := s.sockets[ws := CLOSING])
    case SocketCloses(ws, code) => OnClose(s.(sockets := s.sockets[ws := CLOSED]), code)
    case ReconnectTimer(throws) =>
      var t := s.(timers := s.timers - 1);
      if s.closed then t else OpenSocket(t, throws)
    case NotifyTimer(id) => s.(book := s.book.(ttls := s.book.ttls - {id}, inflight := s.book.inflight - {id}))
    case ExpiryTimer =>
      var t := s.(expiries := s.expiries - 1);
      if s.closed then t else BeginRefresh(t)
    case RefreshAnswers(throws) =>
      OpenSocket(DropSocket(s.(refreshes := s.refreshes - 1)).(attempt := 0, armed := []), throws)
    case RefreshRejects =>
      RejectInflight(s.(refreshes := s.refreshes - 1, status := Failed), RefreshFailed)
  }

  ghost predicate IsRun(s: State, es: seq<Event>, t: State)
    decreases |es|
  {
    if es == [] then t == s
    else Enabled(s, es[0]) && IsRun(Step(s, es[0]), es[1..], t)
  }

  ghost predicate Reachable(s: State) {
    exists hasRefresh, es :: IsRun(Init(hasRefresh), es, s)
  }

  // ---- Invariants ----------------------------------------------------------------------------

  /** A call made with rpc() is in flight or has been settled, once; a notification is not settled twice. */
  predicate Accounted(b: Book, id: CallId) {
    if id !in b.issued then id !in b.inflight && id !in b.ttls && b.settles[id] == 0
    else
      && One(id in b.inflight) + b.settles[id] <= 1
      && (b.issued[id] == Rpc ==> One(id in b.inflight) + b.settles[id] == 1 && id !in b.ttls)
      && (id in b.inflight ==> b.inflight[id] == b.issued[id])
      && (b.settles[id] > 0 ==> id in b.outcomes)
  }

  ghost predicate Slots(s: State) {
    && (forall id :: Accounted(s.book, id))
    && (s.closed ==> s.book.inflight == map[])
  }

  predicate BackedOff(s: State) {
    && |s.armed| == s.attempt <= MAX_RECONNECT_ATTEMPTS
    && forall k :: 0 <= k < |s.armed| ==> s.armed[k] == INITIAL_BACKOFF_MS * Pow2(k)
  }

  predicate InRange(s: State) {
    && (s.socket.Some? ==> s.socket.value < |s.sockets|)
    && (!s.hasRefresh ==> s.refreshes == 0 && s.expiries == 0)
  }

  function Live(s: State): set<SocketId> {
    set ws: SocketId | ws < |s.sockets| && s.sockets[ws] != CLOSED
  }

  /** What holds as long as nobody connects twice and there is no refresh: at most one socket is not
      yet closed or one timer pending, and close() leaves no socket that could still open. */
  ghost predicate Single(s: State) {
    && |Live(s)| + s.timers <= 1
    && (s.connects == 0 ==> Live(s) == {} && s.timers == 0 && s.status in {Idle, Closed})
    && (forall ws :: ws in Live(s) && s.sockets[ws] != CLOSING ==> s.socket == Some(ws) && !s.closed)
    && (s.closed ==> s.status == Closed)
  }

  ghost predicate Alone(s: State) {
    !s.hasRefresh && s.connects <= 1 ==> Single(s)
  }

  ghost predicate Inv(s: State) {
    Slots(s) && BackedOff(s) && InRange(s) && Alone(s)
  }

  /** The steps in which a connection or an attempt at one is lost and another one may be scheduled. */
  predicate Loses(s: State, e: Event) {
    match e
    case Connect(throws) => throws && s.status in {Idle, Closed}
    case SocketCloses(_, code) => !s.closed && !IsAuthClose(code)
    case ReconnectTimer(throws) => throws && !s.closed
    case _ => false
  }

  /** A step that rejects every call in flight. */
  predicate RejectsAll(s: State, e: Event) {
    e.Close? || e.RefreshRejects? || (Loses(s, e) && s.attempt >= MAX_RECONNECT_ATTEMPTS)
  }

  function RejectionOf(e: Event): Outcome {
    match e
    case Close => ClosedByClient
    case RefreshRejects => RefreshFailed
    case _ => Exhausted
  }

  /** A frame that answers a call in flight. */
  predicate Answers(s: State, e: Event, id: CallId) {
    e.SocketReceives? && (e.frame.Response? || e.frame.Error?) && e.frame.id == id && id in s.book.inflight
  }

  /** The calls a step settles, and how. */
  function SettledBy(s: State, e: Event): (set<CallId>, Outcome) {
    if RejectsAll(s, e) then (s.book.inflight.Keys, RejectionOf(e))
    else match e
      case CallRpc(id) => if s.closed then ({id}, AlreadyClosed) else (if CanSend(s) then {} else {id}, NotOpen)
      case CallNotify(id) => (if s.closed || CanSend(s) then {} else {id}, NotOpen)
      case SocketReceives(_, Response(id)) => (if id in s.book.inflight then {id} else {}, Resolved)
      case SocketReceives(_, Error(id, _)) => (if id in s.book.inflight then {id} else {}, DaemonError)
      case _ => ({}, Resolved)
  }

  /** A new call is entered, a notify timer forgets its call; then some calls are settled. */
  function Entered(s: State, e: Event): Book {
    match e
    case CallRpc(id) => if s.closed then Issue(s.book, id, Rpc) else Enter(s.book, id, Rpc)
    case CallNotify(id) => if s.closed then Issue(s.book, id, Notify) else Enter(s.book, id, Notify)
    case NotifyTimer(id) => s.book.(ttls := s.book.ttls - {id}, inflight := s.book.inflight - {id})
    case _ => s.book
  }

  lemma SettleNone(b: Book, how: Outcome)
    ensures Settle(b, {}, how) == b
  {
  }

  lemma BookStep(s: State, e: Event)
    requires Enabled(s, e)
    ensures Step(s, e).book == var (ids, how) := SettledBy(s, e); Settle(Entered(s, e), ids, how)
    ensures Step(s, e).closed ==> s.closed || e.Close?
  {
    hide Settle;
    SettleNone(Entered(s, e), SettledBy(s, e).1);
  }

  lemma SettleAccounts(b: Book, ids: set<CallId>, how: Outcome, id: CallId)
    requires Accounted(b, id) && (id in ids ==> id in b.inflight)
    ensures Accounted(Settle(b, ids, how), id)
  {
  }

  lemma EnteredAccounts(s: State, e: Event, id: CallId)
    requires Accounted(s.book, id) && Enabled(s, e)
    ensures if e == CallRpc(id) && s.closed then Accounted(Settle(Entered(s, e), {id}, AlreadyClosed), id)
            else Accounted(Entered(s, e), id)
    ensures id in SettledBy(s, e).0 && !(e == CallRpc(id) && s.closed) ==> id in Entered(s, e).inflight
  {
  }

  lemma SlotsKept(s: State, e: Event)
    requires Slots(s) && Enabled(s, e)
    ensures Slots(Step(s, e))
  {
    BookStep(s, e);
    var t := Step(s, e);
    var (ids, how) := SettledBy(s, e);
    assert e.CallRpc? && s.closed ==> (ids, how) == ({e.id}, AlreadyClosed);
    assert t.closed ==> t.book.inflight == map[];
    hide Step, Entered, Settle, SettledBy, Enabled, Accounted;
    forall id ensures Accounted(t.book, id) {
      assert Accounted(s.book, id);
      EnteredAccounts(s, e, id);
      if !(e == CallRpc(id) && s.closed) { SettleAccounts(Entered(s, e), ids, how, id); }
    }
  }

  // ---- The backoff ---------------------------------------------------------------------------

  /** Within the five attempts the cap on the delay is never reached. */
  lemma BackoffDoubles(k: nat)
    requires k < MAX_RECONNECT_ATTEMPTS
    ensures Backoff(k) == INITIAL_BACKOFF_MS * Pow2(k)
  {
    assert Pow2(1) == 2 && Pow2(2) == 4 && Pow2(3) == 8 && Pow2(4) == 16;
  }

  /** A step leaves the counter alone, resets it, or arms one more timer. */
  lemma CounterStep(s: State, e: Event)
    requires Enabled(s, e)
    ensures var t := Step(s, e);
            || (t.attempt == s.attempt && t.armed == s.armed)
            || (t.attempt == 0 && t.armed == [])
            || (t.attempt == 1 && t.armed == [Backoff(0)])
            || (s.attempt < MAX_RECONNECT_ATTEMPTS
               && t.attempt == s.attempt + 1 && t.armed == s.armed + [Backoff(s.attempt)])
  {
    hide Backoff, Settle;
  }

  lemma BackedOffKept(s: State, e: Event)
    requires BackedOff(s) && Enabled(s, e)
    ensures BackedOff(Step(s, e))
  {
    CounterStep(s, e);
    if s.attempt < MAX_RECONNECT_ATTEMPTS { BackoffDoubles(s.attempt); }
    BackoffDoubles(0);
    hide Backoff, Pow2, Step;
  }

  lemma InRangeKept(s: State, e: Event)
    requires InRange(s) && Enabled(s, e)
    ensures InRange(Step(s, e))
  {
    hide Backoff, Settle;
  }

  // ---- One attempt at a time -----------------------------------------------------------------

  lemma LiveChanges(s: State, ws: SocketId, x: ReadyState)
    requires StateOf(s, ws) != CLOSED
    ensures Live(s.(sockets := s.sockets[ws := x])) == if x == CLOSED then Live(s) - {ws} else Live(s)
    ensures ws in Live(s)
  {
  }

  lemma LiveGrows(s: State)
    ensures Live(s.(sockets := s.sockets + [CONNECTING])) == Live(s) + {|s.sockets|}
  {
  }

  lemma OnlyOne(a: set<SocketId>, x: SocketId)
    requires x in a && |a| <= 1
    ensures a == {x} && a - {x} == {}
  {
    assert |a - {x}| == |a| - 1;
  }

  lemma SingleAfterSocket(s: State, e: Event)
    requires Single(s) && InRange(s) && !s.hasRefresh && Enabled(s, e)
    requires e.SocketOpens? || e.SocketClosing?
    ensures Single(Step(s, e))
  {
    hide Settle;
    LiveChanges(s, e.ws, if e.SocketOpens? then OPEN else CLOSING);
    OnlyOne(Live(s), e.ws);
  }

  lemma SingleAfterLoss(s: State, e: Event)
    requires Single(s) && InRange(s) && !s.hasRefresh && Enabled(s, e) && e.SocketCloses?
    ensures Single(Step(s, e))
  {
    hide Settle, Backoff;
    LiveChanges(s, e.ws, CLOSED);
    OnlyOne(Live(s), e.ws);
  }

  lemma SingleAfterOpening(s: State, e: Event)
    requires Single(s) && InRange(s) && !s.hasRefresh && Enabled(s, e) && Step(s, e).connects <= 1
    requires e.Connect? || e.ReconnectTimer?
    ensures Single(Step(s, e))
  {
    hide Settle, Backoff;
    LiveGrows(s);
  }

  lemma SingleAfterClose(s: State)
    requires Single(s) && InRange(s) && !s.hasRefresh
    ensures Single(Step(s, Close))
  {
    hide Settle;
    if s.socket.Some? && StateOf(s, s.socket.value) in {CONNECTING, OPEN} {
      LiveChanges(s, s.socket.value, CLOSING);
    }
  }

  lemma SingleAfterRest(s: State, e: Event)
    requires Single(s) && InRange(s) && !s.hasRefresh && Enabled(s, e)
    requires || e.CallRpc? || e.CallNotify? || e.SocketReceives? || e.NotifyTimer?
             || e.ExpiryTimer? || e.RefreshAnswers? || e.RefreshRejects?
    ensures Single(Step(s, e))
  {
    hide Settle;
    assert Live(Step(s, e)) == Live(s);
  }

  lemma AloneKept(s: State, e: Event)
    requires InRange(s) && Alone(s) && Enabled(s, e)
    ensures Alone(Step(s, e))
  {
    ConnectsStep(s, e);
    hide Step, Enabled, Single, InRange;
    if !s.hasRefresh && s.connects <= 1 && Step(s, e).connects <= 1 {
      match e {
        case SocketOpens(_, _) => SingleAfterSocket(s, e);
        case SocketClosing(_) => SingleAfterSocket(s, e);
        case SocketCloses(_, _) => SingleAfterLoss(s, e);
        case Connect(_) => SingleAfterOpening(s, e);
        case ReconnectTimer(_) => SingleAfterOpening(s, e);
        case Close => SingleAfterClose(s);
        case _ => SingleAfterRest(s, e);
      }
    }
  }

  lemma ConnectsStep(s: State, e: Event)
    requires Enabled(s, e)
    ensures Step(s, e).hasRefresh == s.hasRefresh
    ensures s.connects <= Step(s, e).connects && (!e.Connect? ==> Step(s, e).connects == s.connects)
  {
    hide Backoff, Settle;
  }
}
