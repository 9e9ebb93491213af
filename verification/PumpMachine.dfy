/** The write side of one WebSocket connection (`ws/pump.go`), as a machine whose steps are the
    single `select`s and channel operations of the goroutines that share it.

    Several producers call `Send` or `Publish` while the loop goroutine drains the buffered channel
    and while somebody closes the pump.  A producer is one goroutine, so it has at most one call in
    progress; everything else may interleave freely. */
module PumpMachine {
  import opened Wrappers

  /** Who submits: the read loop of the connection, one output loop, one wait loop, ... */
  type Producer = nat

  /** A frame is known by its producer and by its place among that producer's submissions.  The pump
      never looks inside a frame, so the payload stays with the producer. */
  datatype Frame = Frame(producer: Producer, serial: nat)

  const BUFFER_SIZE: nat := 256

  /** `close` closes the channel `done` and then the channel `out`. */
  datatype Closing = Open | DoneClosed | OutClosed

  /** The loop goroutine.  `Writing` remembers where the frame stands in the log of taken frames. */
  datatype Loop = Ranging | Writing(frame: Frame, at: nat) | Failing | Draining | Exited

  /** Where a call stands: before the select of `Send`, or before one of the four of `Publish`. */
  datatype Phase = Sending | Checking | Trying | Evicting | Retrying
  datatype Call = Call(frame: Frame, phase: Phase)

  datatype State = State(
    // the channels and the goroutines
    queue: seq<Frame>,
    closing: Closing,
    loop: Loop,
    calls: map<Producer, Call>,
    // what happened so far
    issued: map<Producer, nat>, // submissions per producer
    enqueued: seq<Frame>,
    taken: seq<Frame>,          // everything received from the channel, in order
    written: seq<Frame>,
    writtenAt: seq<nat>,        // places of the written frames in `taken`
    failed: seq<Frame>,         // frames whose write returned an error
    evicted: seq<Frame>,        // dropFn calls of Publish for the oldest frame ...
    evictors: seq<Frame>,       // ... and the frame each of these calls was publishing
    refused: seq<Frame>,        // dropFn calls of Send and Publish for their own frame
    drained: seq<Frame>,        // dropFn calls of the loop after a write error
    nilDrops: nat)              // dropFn calls without a frame

  datatype Event =
    | Submit(producer: Producer, phase: Phase)
    | Enqueue(producer: Producer)
    | Refuse(producer: Producer)
    | Pass(producer: Producer)
    | Full(producer: Producer)
    | Evict(producer: Producer)
    | EvictNothing(producer: Producer)
    | SendOnClosed(producer: Producer)
    | Receive | WriteOk | WriteError | BeginDrain | DrainOne | Exit
    | CloseDone | CloseOut

  datatype Outcome = Next(state: State) | Panicked | Disabled

  const INIT: State := State([], Open, Ranging, map[], map[], [], [], [], [], [], [], [], [], [], 0)

  function Issued(s: State, p: Producer): nat {
    if p in s.issued then s.issued[p] else 0
  }

  predicate At(s: State, p: Producer, phase: Phase) {
    p in s.calls && s.calls[p].phase == phase
  }

  /** Whether the frame is in the hands of a producer that is in the middle of a call. */
  predicate IsHeld(s: State, f: Frame) {
    f.producer in s.calls && s.calls[f.producer].frame == f
  }

  predicate HasRoom(s: State) {
    |s.queue| < BUFFER_SIZE
  }

  function MoveTo(s: State, p: Producer, phase: Phase): State
    requires p in s.calls
  {
    s.(calls := s.calls[p := s.calls[p].(phase := phase)])
  }

  function Return(s: State, p: Producer): State {
    s.(calls := s.calls - {p})
  }

  function TakeOldest(s: State): State
    requires s.queue != []
  {
    s.(queue := s.queue[1..], taken := s.taken + [s.queue[0]])
  }

  /** One atomic step.  Where several cases of a `select` are ready, several events are enabled. */
  function Step(s: State, e: Event): Outcome {
    match e
    case Submit(p, phase) =>
      if p !in s.calls && (phase == Sending || phase == Checking) then
        Next(s.(issued := s.issued[p := Issued(s, p) + 1],
                calls := s.calls[p := Call(Frame(p, Issued(s, p)), phase)]))
      else Disabled
    case Enqueue(p) =>
      // `case p.out <- f` of Send and of the second and fourth select of Publish
      if (At(s, p, Sending) || At(s, p, Trying) || At(s, p, Retrying)) && HasRoom(s) && s.closing != OutClosed then
        Next(Return(s, p).(queue := s.queue + [s.calls[p].frame], enqueued := s.enqueued + [s.calls[p].frame]))
      else Disabled
    case Refuse(p) =>
      // `case <-p.done` of Send and of the first and fourth select of Publish, and the default of the fourth
      if || ((At(s, p, Sending) || At(s, p, Checking) || At(s, p, Retrying)) && s.closing != Open)
         || (At(s, p, Retrying) && !HasRoom(s)) then
        Next(Return(s, p).(refused := s.refused + [s.calls[p].frame]))
      else Disabled
    case Pass(p) =>
      if At(s, p, Checking) && s.closing == Open then Next(MoveTo(s, p, Trying)) else Disabled
    case Full(p) =>
      if At(s, p, Trying) && !HasRoom(s) && s.closing != OutClosed then Next(MoveTo(s, p, Evicting)) else Disabled
    case Evict(p) =>
      if At(s, p, Evicting) && s.queue != [] then
        Next(TakeOldest(MoveTo(s, p, Retrying))
             .(evicted := s.evicted + [s.queue[0]], evictors := s.evictors + [s.calls[p].frame]))
      else Disabled
    case EvictNothing(p) =>
      // an empty open channel takes the default; an empty closed one yields nil, and dropFn gets that
      if At(s, p, Evicting) && s.queue == [] then
        Next(MoveTo(s, p, Retrying).(nilDrops := s.nilDrops + if s.closing == OutClosed then 1 else 0))
      else Disabled
    case SendOnClosed(p) =>
      if (At(s, p, Sending) || At(s, p, Trying) || At(s, p, Retrying)) && s.closing == OutClosed then Panicked
      else Disabled
    case Receive =>
      if s.loop == Ranging && s.queue != [] then
        Next(TakeOldest(s).(loop := Writing(s.queue[0], |s.taken|)))
      else Disabled
    case WriteOk =>
      if s.loop.Writing? then
        Next(s.(loop := Ranging, written := s.written + [s.loop.frame], writtenAt := s.writtenAt + [s.loop.at]))
      else Disabled
    case WriteError =>
      if s.loop.Writing? then Next(s.(loop := Failing, failed := s.failed + [s.loop.frame])) else Disabled
    case BeginDrain =>
      if s.loop == Failing && s.closing == OutClosed then Next(s.(loop := Draining)) else Disabled
    case DrainOne =>
      if s.loop == Draining && s.queue != [] then
        Next(TakeOldest(s).(drained := s.drained + [s.queue[0]]))
      else Disabled
    case Exit =>
      if (s.loop == Ranging || s.loop == Draining) && s.queue == [] && s.closing == OutClosed then
        Next(s.(loop := Exited))
      else Disabled
    case CloseDone => if s.closing == Open then Next(s.(closing := DoneClosed)) else Disabled
    case CloseOut => if s.closing == DoneClosed then Next(s.(closing := OutClosed)) else Disabled
  }

  /** Runs events from a given state; a panic or a disabled event ends the run. */
  function RunFrom(s: State, es: seq<Event>): Outcome {
    if es == [] then Next(s)
    else match RunFrom(s, es[..|es| - 1])
      case Next(t) => Step(t, es[|es| - 1])
      case other => other
  }

  /** The states some panic-free run of a fresh pump ends in. */
  ghost predicate Reachable(s: State) {
    exists es :: RunFrom(INIT, es) == Next(s)
  }

  // ---- Invariants ----------------------------------------------------------------------------

  /** In how many places the frame is: in a call, in the queue, in the loop's hands, written, lost by
      a failed write, or handed to dropFn. */
  function Places(s: State, f: Frame): nat {
    One(IsHeld(s, f)) + multiset(s.queue)[f] + One(s.loop.Writing? && s.loop.frame == f)
    + multiset(s.written)[f] + multiset(s.failed)[f] + DropCalls(s, f)
  }

  function DropCalls(s: State, f: Frame): nat {
    multiset(s.evicted)[f] + multiset(s.refused)[f] + multiset(s.drained)[f]
  }

  predicate WasSubmitted(s: State, f: Frame) {
    f.serial < Issued(s, f.producer)
  }

  /** Coarser places: a frame is held, refused, waiting, or received. */
  function Stations(s: State, f: Frame): nat {
    One(IsHeld(s, f)) + multiset(s.refused)[f] + multiset(s.queue)[f] + multiset(s.taken)[f]
  }

  ghost predicate Accounted(s: State) {
    forall f :: Stations(s, f) == One(WasSubmitted(s, f))
  }

  ghost predicate Bounded(s: State) {
    && |s.queue| <= BUFFER_SIZE
    && |s.failed| <= One(!s.loop.Ranging? && !s.loop.Writing?)
  }

  /** A call in progress carries its producer's latest submission. */
  ghost predicate Latest(s: State) {
    forall p :: p in s.calls ==> s.calls[p].frame.producer == p && s.calls[p].frame.serial + 1 == Issued(s, p)
  }

  /** The channel is a queue: what was received and what still waits is what was put in, and frames
      of one producer are put in in the order of submission. */
  ghost predicate Fifo(s: State) {
    && s.enqueued == s.taken + s.queue
    && (forall f :: f in s.enqueued ==> WasSubmitted(s, f) && !IsHeld(s, f))
    && (forall i, j :: 0 <= i < j < |s.enqueued| && s.enqueued[i].producer == s.enqueued[j].producer
          ==> s.enqueued[i].serial < s.enqueued[j].serial)
  }

  ghost predicate WrittenInOrder(s: State) {
    && |s.writtenAt| == |s.written|
    && (forall i :: 0 <= i < |s.writtenAt| ==> s.writtenAt[i] < |s.taken| && s.taken[s.writtenAt[i]] == s.written[i])
    && (forall i, j :: 0 <= i < j < |s.writtenAt| ==> s.writtenAt[i] < s.writtenAt[j])
    && (s.loop.Writing? ==>
          && s.loop.at < |s.taken| && s.taken[s.loop.at] == s.loop.frame
          && (forall i :: 0 <= i < |s.writtenAt| ==> s.writtenAt[i] < s.loop.at))
  }

  /** No call of Publish evicts twice. */
  ghost predicate OneEvictionEach(s: State) {
    && |s.evictors| == |s.evicted|
    && (forall i, j :: 0 <= i < j < |s.evictors| ==> s.evictors[i] != s.evictors[j])
    && (forall f :: f in s.evictors ==> WasSubmitted(s, f) && (IsHeld(s, f) ==> s.calls[f.producer].phase == Retrying))
  }

  /** Every frame received from the channel met exactly one of five ends. */
  ghost predicate TakenAccounted(s: State) {
    forall f :: multiset(s.taken)[f] == Ends(s, f)
  }

  function Ends(s: State, f: Frame): nat {
    One(s.loop.Writing? && s.loop.frame == f) + multiset(s.written)[f] + multiset(s.failed)[f]
    + multiset(s.evicted)[f] + multiset(s.drained)[f]
  }

  ghost predicate Inv(s: State) {
    Accounted(s) && TakenAccounted(s) && Bounded(s) && Latest(s) && Fifo(s) && WrittenInOrder(s) && OneEvictionEach(s)
  }

  predicate Dequeues(e: Event) {
    e.Evict? || e.Receive? || e.DrainOne?
  }

  lemma TakeOldestCounts(q: seq<Frame>, taken: seq<Frame>, f: Frame)
    requires q != []
    ensures multiset(q[1..])[f] + multiset(taken + [q[0]])[f] == multiset(q)[f] + multiset(taken)[f]
  {
    assert q == [q[0]] + q[1..];
  }

  /** The channel and the log of taken frames, after any step. */
  lemma ChannelStep(s: State, e: Event)
    requires Step(s, e).Next?
    ensures var t := Step(s, e).state;
            if Dequeues(e) then
              s.queue != [] && t.queue == s.queue[1..] && t.taken == s.taken + [s.queue[0]] && t.enqueued == s.enqueued
            else if e.Enqueue? then
              && t.queue == s.queue + [s.calls[e.producer].frame] && t.taken == s.taken
              && t.enqueued == s.enqueued + [s.calls[e.producer].frame]
            else t.queue == s.queue && t.taken == s.taken && t.enqueued == s.enqueued
    ensures e.Enqueue? ==> e.producer in s.calls
  {
  }

  lemma HeldStep(s: State, e: Event, f: Frame)
    requires Latest(s) && Step(s, e).Next?
    ensures e.Enqueue? || e.Refuse? ==> e.producer in s.calls
    ensures IsHeld(Step(s, e).state, f) <==>
              if e.Submit? then IsHeld(s, f) || f == Frame(e.producer, Issued(s, e.producer))
              else IsHeld(s, f) && !((e.Enqueue? || e.Refuse?) && f == s.calls[e.producer].frame)
  {
  }

  lemma IssuedStep(s: State, e: Event, f: Frame)
    requires Step(s, e).Next?
    ensures e.Refuse? ==> e.producer in s.calls
    ensures e.Submit? ==> e.producer !in s.calls
    ensures var t := Step(s, e).state;
            && (WasSubmitted(t, f) <==>
                  WasSubmitted(s, f) || (e.Submit? && f == Frame(e.producer, Issued(s, e.producer))))
            && t.refused == if e.Refuse? then s.refused + [s.calls[e.producer].frame] else s.refused
  {
  }

  /** The calls in progress, after any step. */
  lemma CallsStep(s: State, e: Event, f: Frame)
    requires Latest(s) && Step(s, e).Next?
    ensures e.Enqueue? || e.Refuse? ==> e.producer in s.calls
    ensures var t := Step(s, e).state;
            && (IsHeld(t, f) <==>
                  if e.Submit? then IsHeld(s, f) || f == Frame(e.producer, Issued(s, e.producer))
                  else IsHeld(s, f) && !((e.Enqueue? || e.Refuse?) && f == s.calls[e.producer].frame))
            && (WasSubmitted(t, f) <==>
                  WasSubmitted(s, f) || (e.Submit? && f == Frame(e.producer, Issued(s, e.producer))))
            && t.refused == if e.Refuse? then s.refused + [s.calls[e.producer].frame] else s.refused
    ensures e.Submit? ==> e.producer !in s.calls
  {
    hide Step, IsHeld, WasSubmitted, Latest;
    HeldStep(s, e, f);
    IssuedStep(s, e, f);
  }

  /** A step moves frames between stations; only a submission brings one in. */
  lemma StationsKept(s: State, e: Event, f: Frame)
    requires Latest(s) && Step(s, e).Next?
    ensures Stations(Step(s, e).state, f)
         == Stations(s, f) + One(e.Submit? && f == Frame(e.producer, Issued(s, e.producer)))
  {
    ChannelStep(s, e);
    CallsStep(s, e, f);
    hide Step;
    if Dequeues(e) { TakeOldestCounts(s.queue, s.taken, f); }
  }

  lemma AccountedKept(s: State, e: Event)
    requires Accounted(s) && Latest(s) && Step(s, e).Next?
    ensures Accounted(Step(s, e).state)
  {
    forall f ensures Stations(Step(s, e).state, f) == One(WasSubmitted(Step(s, e).state, f)) {
      hide Step, Stations;
      StationsKept(s, e, f);
      CallsStep(s, e, f);
    }
  }

  lemma EndsKeptByDequeue(s: State, e: Event, f: Frame)
    requires Dequeues(e) && Step(s, e).Next?
    requires multiset(s.taken)[f] == Ends(s, f)
    ensures multiset(Step(s, e).state.taken)[f] == Ends(Step(s, e).state, f)
  {
  }

  lemma EndsKeptByWrite(s: State, e: Event, f: Frame)
    requires (e.WriteOk? || e.WriteError?) && Step(s, e).Next?
    ensures Step(s, e).state.taken == s.taken && Ends(Step(s, e).state, f) == Ends(s, f)
  {
  }

  /** The rest neither receives from the channel nor settles what was received. */
  lemma EndsUntouched(s: State, e: Event)
    requires !Dequeues(e) && !e.WriteOk? && !e.WriteError? && Step(s, e).Next?
    ensures var t := Step(s, e).state;
            && t.taken == s.taken && t.written == s.written && t.failed == s.failed
            && t.evicted == s.evicted && t.drained == s.drained && t.loop.Writing? == s.loop.Writing?
            && (t.loop.Writing? ==> t.loop == s.loop)
  {
  }

  lemma EndsKept(s: State, e: Event, f: Frame)
    requires TakenAccounted(s) && Step(s, e).Next?
    ensures multiset(Step(s, e).state.taken)[f] == Ends(Step(s, e).state, f)
  {
    assert multiset(s.taken)[f] == Ends(s, f);
    hide Step, TakenAccounted;
    if Dequeues(e) {
      EndsKeptByDequeue(s, e, f);
    } else if e.WriteOk? || e.WriteError? {
      EndsKeptByWrite(s, e, f);
    } else {
      EndsUntouched(s, e);
    }
  }

  lemma TakenAccountedKept(s: State, e: Event)
    requires TakenAccounted(s) && Step(s, e).Next?
    ensures TakenAccounted(Step(s, e).state)
  {
    forall f ensures multiset(Step(s, e).state.taken)[f] == Ends(Step(s, e).state, f) {
      EndsKept(s, e, f);
    }
  }

  lemma LatestStep(s: State, e: Event, p: Producer)
    requires Step(s, e).Next? && p in Step(s, e).state.calls
    requires p in s.calls ==> s.calls[p].frame.producer == p && s.calls[p].frame.serial + 1 == Issued(s, p)
    ensures var t := Step(s, e).state;
            t.calls[p].frame.producer == p && t.calls[p].frame.serial + 1 == Issued(t, p)
  {
  }

  lemma LatestKept(s: State, e: Event)
    requires Latest(s) && Step(s, e).Next?
    ensures Latest(Step(s, e).state)
  {
    var t := Step(s, e).state;
    forall p | p in t.calls ensures t.calls[p].frame.producer == p && t.calls[p].frame.serial + 1 == Issued(t, p) {
      LatestStep(s, e, p);
    }
    hide Step;
  }

  lemma FifoKept(s: State, e: Event)
    requires Latest(s) && Fifo(s) && Step(s, e).Next?
    ensures Fifo(Step(s, e).state)
  {
    var t := Step(s, e).state;
    ChannelStep(s, e);
    forall f ensures f in t.enqueued ==> WasSubmitted(t, f) && !IsHeld(t, f) {
      CallsStep(s, e, f);
      hide Step;
    }
    hide Step;
    if e.Enqueue? {
      var f := s.calls[e.producer].frame;
      forall i | 0 <= i < |s.enqueued| && s.enqueued[i].producer == f.producer
        ensures s.enqueued[i].serial < f.serial
      {
        assert s.enqueued[i] in s.enqueued && !IsHeld(s, s.enqueued[i]);
      }
    }
  }

  lemma WrittenUntouched(s: State, e: Event)
    requires Step(s, e).Next? && !e.WriteOk? && !e.Receive?
    ensures var t := Step(s, e).state;
            && s.taken <= t.taken && t.written == s.written && t.writtenAt == s.writtenAt
            && (t.loop.Writing? ==> t.loop == s.loop)
  {
  }

  lemma WrittenInOrderByLoop(s: State, e: Event)
    requires WrittenInOrder(s) && Step(s, e).Next? && (e.WriteOk? || e.Receive?)
    ensures WrittenInOrder(Step(s, e).state)
  {
  }

  lemma WrittenInOrderKept(s: State, e: Event)
    requires WrittenInOrder(s) && Step(s, e).Next?
    ensures WrittenInOrder(Step(s, e).state)
  {
    if e.WriteOk? || e.Receive? {
      WrittenInOrderByLoop(s, e);
    } else {
      WrittenUntouched(s, e);
    }
    hide Step;
  }

  lemma EvictorsUntouched(s: State, e: Event)
    requires Step(s, e).Next? && !e.Evict?
    ensures Step(s, e).state.evictors == s.evictors && Step(s, e).state.evicted == s.evicted
  {
  }

  predicate DoneEvicting(s: State, f: Frame) {
    WasSubmitted(s, f) && (IsHeld(s, f) ==> s.calls[f.producer].phase == Retrying)
  }

  lemma DoneEvictingStays(s: State, e: Event, f: Frame)
    requires Latest(s) && Step(s, e).Next? && DoneEvicting(s, f)
    ensures DoneEvicting(Step(s, e).state, f)
  {
  }

  lemma EvictStep(s: State, p: Producer)
    requires Latest(s) && Step(s, Evict(p)).Next?
    ensures p in s.calls && s.calls[p].frame.producer == p && !DoneEvicting(s, s.calls[p].frame)
    ensures var t := Step(s, Evict(p)).state;
            && t.evictors == s.evictors + [s.calls[p].frame] && |t.evicted| == |s.evicted| + 1
            && DoneEvicting(t, s.calls[p].frame)
  {
  }

  lemma OneEvictionEachKept(s: State, e: Event)
    requires OneEvictionEach(s) && Latest(s) && Step(s, e).Next?
    ensures OneEvictionEach(Step(s, e).state)
  {
    var t := Step(s, e).state;
    if e.Evict? { EvictStep(s, e.producer); } else { EvictorsUntouched(s, e); }
    forall f | f in s.evictors ensures DoneEvicting(t, f) { DoneEvictingStays(s, e, f); }
    hide Step, Latest;
    if e.Evict? {
      var f := s.calls[e.producer].frame;
      assert forall i :: 0 <= i < |s.evictors| ==> s.evictors[i] in s.evictors && DoneEvicting(s, s.evictors[i]);
    }
  }

  lemma BoundedKept(s: State, e: Event)
    requires Bounded(s) && Step(s, e).Next?
    ensures Bounded(Step(s, e).state)
  {
  }

  lemma InvKept(s: State, e: Event, t: State)
    requires Inv(s) && Step(s, e) == Next(t)
    ensures Inv(t)
  {
    hide Step;
    AccountedKept(s, e);
    TakenAccountedKept(s, e);
    BoundedKept(s, e);
    LatestKept(s, e);
    FifoKept(s, e);
    WrittenInOrderKept(s, e);
    OneEvictionEachKept(s, e);
  }

  lemma {:induction false} RunInv(es: seq<Event>)
    requires RunFrom(INIT, es).Next?
    ensures Inv(RunFrom(INIT, es).state)
  {
    hide Step;
    if es != [] {
      RunInv(es[..|es| - 1]);
      InvKept(RunFrom(INIT, es[..|es| - 1]).state, es[|es| - 1], RunFrom(INIT, es).state);
    }
  }

  lemma ReachableInv(s: State)
    requires Reachable(s)
    ensures Inv(s)
  {
    var es :| RunFrom(INIT, es) == Next(s);
    RunInv(es);
  }

  // ---- The laws ------------------------------------------------------------------------------

  /** In every panic-free run each submitted frame is in exactly one place, no other frame is
      anywhere, the buffer keeps its bound, and at most one frame is lost by a failed write. */
  lemma Conservation(s: State)
    requires Reachable(s)
    ensures forall f :: Places(s, f) == One(WasSubmitted(s, f))
    ensures |s.queue| <= BUFFER_SIZE
    ensures |s.failed| <= 1
  {
    ReachableInv(s);
    forall f ensures Places(s, f) == One(WasSubmitted(s, f)) {
      assert Stations(s, f) == One(WasSubmitted(s, f));
      assert multiset(s.taken)[f] == Ends(s, f);
    }
  }

  /** What left the channel followed by what waits in it is what was put in: the queue is the most
      recent part of the log and frames leave from its old end. */
  lemma QueueIsLatestPart(s: State)
    requires Reachable(s)
    ensures s.taken + s.queue == s.enqueued
    ensures s.queue == s.enqueued[|s.taken|..]
  {
    ReachableInv(s);
    assert (s.taken + s.queue)[|s.taken|..] == s.queue;
  }

  /** Written frames keep the order in which they were enqueued. */
  lemma WrittenKeepsOrder(s: State)
    requires Reachable(s)
    ensures |s.writtenAt| == |s.written|
    ensures forall i :: 0 <= i < |s.written| ==>
              s.writtenAt[i] < |s.enqueued| && s.enqueued[s.writtenAt[i]] == s.written[i]
    ensures forall i, j :: 0 <= i < j < |s.written| ==> s.writtenAt[i] < s.writtenAt[j]
  {
    ReachableInv(s);
  }

  /** The frames of one producer reach the socket in the order in which it submitted them. */
  lemma WrittenKeepsSubmissionOrder(s: State, i: nat, j: nat)
    requires Reachable(s)
    requires i < j < |s.written| && s.written[i].producer == s.written[j].producer
    ensures s.written[i].serial < s.written[j].serial
  {
    ReachableInv(s);
    var a, b := s.writtenAt[i], s.writtenAt[j];
    assert s.enqueued[a] == s.written[i] && s.enqueued[b] == s.written[j];
  }

  /** A call of Publish evicts at most one frame. */
  lemma EvictsAtMostOnce(s: State, i: nat, j: nat)
    requires Reachable(s)
    requires i < |s.evictors| && j < |s.evictors| && s.evictors[i] == s.evictors[j]
    ensures i == j
  {
    ReachableInv(s);
  }

  /** What an eviction takes is the oldest frame in the buffer: everything enqueued before it has
      left already, and it stands at the front of what has not. */
  lemma EvictsOldest(s: State, p: Producer)
    requires Reachable(s) && Step(s, Evict(p)).Next?
    ensures var t := Step(s, Evict(p)).state;
            && |s.taken| < |s.enqueued|
            && t.evicted == s.evicted + [s.enqueued[|s.taken|]]
            && t.queue == s.enqueued[|s.taken| + 1..]
            && t.evictors == s.evictors + [s.calls[p].frame]
  {
    ReachableInv(s);
  }

  /** Once a call has returned, its frame was refused exactly if it was not put in: the answer of
      Publish tells which. */
  lemma AnswerIsExact(s: State, f: Frame)
    requires Reachable(s) && WasSubmitted(s, f) && !IsHeld(s, f)
    ensures f in s.enqueued <==> f !in s.refused
  {
    ReachableInv(s);
    assert Stations(s, f) == 1;
    assert multiset(s.enqueued)[f] == multiset(s.taken)[f] + multiset(s.queue)[f];
    assert f in s.refused <==> multiset(s.refused)[f] > 0;
    assert f in s.enqueued <==> multiset(s.enqueued)[f] > 0;
  }

  /** The call stands before a send on the channel. */
  predicate BeforeSend(c: Call) {
    c.phase == Sending || c.phase == Trying || c.phase == Retrying
  }

  ghost predicate ClosedQuietly(s: State) {
    s.closing != Open && forall p :: p in s.calls ==> s.calls[p].phase == Checking
  }

  lemma QuietStep(s: State, e: Event)
    requires ClosedQuietly(s)
    requires e.Submit? ==> e.phase == Checking
    ensures Step(s, e) != Panicked
    ensures Step(s, e).Next? ==> ClosedQuietly(Step(s, e).state) && Step(s, e).state.enqueued == s.enqueued
  {
  }

  /** Once close has begun with nobody in the middle of a call, Publish is safe for ever: only a
      Send, or a call that straddles the close, can hit the closed channel. */
  lemma {:induction false} QuietCloseNeverPanics(s: State, es: seq<Event>)
    requires ClosedQuietly(s)
    requires forall e :: e in es && e.Submit? ==> e.phase == Checking
    ensures RunFrom(s, es) != Panicked
    ensures RunFrom(s, es).Next? ==> ClosedQuietly(RunFrom(s, es).state) && RunFrom(s, es).state.enqueued == s.enqueued
  {
    hide Step;
    if es != [] {
      var before := RunFrom(s, es[..|es| - 1]);
      QuietCloseNeverPanics(s, es[..|es| - 1]);
      if before.Next? { QuietStep(before.state, es[|es| - 1]); }
    }
  }

  // ---- Calls nobody interferes with ----------------------------------------------------------

  /** The state one whole Publish leaves behind when its four selects run in a row. */
  function Published(s: State, p: Producer): State {
    var f := Frame(p, Issued(s, p));
    var t := s.(issued := s.issued[p := Issued(s, p) + 1], calls := s.calls - {p});
    if s.closing != Open then t.(refused := s.refused + [f])
    else if HasRoom(s) then t.(queue := s.queue + [f], enqueued := s.enqueued + [f])
    else t.(queue := s.queue[1..] + [f], enqueued := s.enqueued + [f], taken := s.taken + [s.queue[0]],
            evicted := s.evicted + [s.queue[0]], evictors := s.evictors + [f])
  }

  function PublishEvents(s: State, p: Producer): seq<Event> {
    [Submit(p, Checking)] +
    if s.closing != Open then [Refuse(p)]
    else [Pass(p)] + AttemptEvents(s, p)
  }

  function AttemptEvents(s: State, p: Producer): seq<Event> {
    if HasRoom(s) then [Enqueue(p)] else EvictingEvents(p)
  }

  function EvictingEvents(p: Producer): seq<Event> {
    [Full(p)] + ([Evict(p)] + [Enqueue(p)])
  }

  /** A step in front of a run. */
  lemma {:induction false} RunCons(s: State, e: Event, t: State, es: seq<Event>)
    requires Step(s, e) == Next(t)
    ensures RunFrom(s, [e] + es) == RunFrom(t, es)
  {
    hide Step;
    var all := [e] + es;
    if es == [] {
      assert all[..0] == [];
    } else {
      RunCons(s, e, t, es[..|es| - 1]);
      assert all[..|all| - 1] == [e] + es[..|es| - 1];
    }
  }

  lemma {:induction false} RunAppend(s: State, es: seq<Event>, t: State, more: seq<Event>)
    requires RunFrom(s, es) == Next(t)
    ensures RunFrom(s, es + more) == RunFrom(t, more)
  {
    hide Step;
    if more == [] {
      assert es + more == es;
    } else {
      RunAppend(s, es, t, more[..|more| - 1]);
      assert (es + more)[..|es + more| - 1] == es + more[..|more| - 1];
    }
  }

  lemma LogsGrow(s: State, e: Event)
    requires Step(s, e).Next?
    ensures var t := Step(s, e).state; s.enqueued <= t.enqueued && s.refused <= t.refused
  {
  }

  lemma {:induction false} LogsGrowInRuns(s: State, es: seq<Event>)
    requires RunFrom(s, es).Next?
    ensures var t := RunFrom(s, es).state; s.enqueued <= t.enqueued && s.refused <= t.refused
  {
    hide Step;
    if es != [] {
      LogsGrowInRuns(s, es[..|es| - 1]);
      LogsGrow(RunFrom(s, es[..|es| - 1]).state, es[|es| - 1]);
    }
  }

  lemma NeverBoth(s: State, f: Frame)
    requires Reachable(s)
    ensures !(f in s.enqueued && f in s.refused)
  {
    ReachableInv(s);
    assert Stations(s, f) == One(WasSubmitted(s, f));
    assert multiset(s.enqueued)[f] == multiset(s.taken)[f] + multiset(s.queue)[f];
    assert f in s.refused <==> multiset(s.refused)[f] > 0;
    assert f in s.enqueued <==> multiset(s.enqueued)[f] > 0;
  }

  lemma ReachableRun(s: State, e: Event, t: State, es: seq<Event>, u: State)
    requires Reachable(s) && Step(s, e) == Next(t) && RunFrom(t, es) == Next(u)
    ensures Reachable(u)
  {
    var before :| RunFrom(INIT, before) == Next(s);
    hide Step, RunFrom;
    RunSingle(s, e);
    RunAppend(INIT, before, s, [e]);
    RunAppend(INIT, before + [e], t, es);
  }

  /** The answer of Publish is true if its last select sends and false if it gives up.  For ever after it
      tells which: the frame was put in, or it was handed to dropFn by its own call, never both. */
  lemma AnswerTells(s: State, e: Event, t: State, es: seq<Event>, u: State)
    requires Reachable(s) && (e.Enqueue? || e.Refuse?) && Step(s, e) == Next(t) && RunFrom(t, es) == Next(u)
    ensures e.producer in s.calls
    ensures var f, answer := s.calls[e.producer].frame, e.Enqueue?;
            (f in u.enqueued <==> answer) && (f in u.refused <==> !answer)
  {
    var f := s.calls[e.producer].frame;
    assert if e.Enqueue? then t.enqueued == s.enqueued + [f] else t.refused == s.refused + [f];
    hide Step, RunFrom, Reachable;
    ReachableRun(s, e, t, es, u);
    LogsGrowInRuns(t, es);
    NeverBoth(u, f);
    assert if e.Enqueue? then f in t.enqueued else f in t.refused;
  }

  function Called(s: State, p: Producer, phase: Phase): State {
    s.(issued := s.issued[p := Issued(s, p) + 1], calls := s.calls[p := Call(Frame(p, Issued(s, p)), phase)])
  }

  lemma RunSingle(s: State, e: Event)
    ensures RunFrom(s, [e]) == Step(s, e)
  {
    assert [e][..0] == [];
  }

  lemma UninterruptedPublish(s: State, p: Producer)
    requires p !in s.calls && |s.queue| <= BUFFER_SIZE
    ensures RunFrom(s, PublishEvents(s, p)) == Next(Published(s, p))
  {
    SubmitStep(s, p);
    var s1 := Called(s, p, Checking);
    if s.closing != Open {
      hide Step, RunFrom;
      UninterruptedRefusal(s, p);
      RunSingle(s1, Refuse(p));
      RunCons(s, Submit(p, Checking), s1, [Refuse(p)]);
    } else {
      hide Step, RunFrom, Published, Called, EvictingEvents;
      UninterruptedAttempt(s, p);
      RunCons(s, Submit(p, Checking), s1, [Pass(p)] + AttemptEvents(s, p));
    }
  }

  lemma SubmitStep(s: State, p: Producer)
    requires p !in s.calls
    ensures Step(s, Submit(p, Checking)) == Next(Called(s, p, Checking))
  {
  }

  lemma UninterruptedRefusal(s: State, p: Producer)
    requires p !in s.calls && s.closing != Open
    ensures Step(Called(s, p, Checking), Refuse(p)) == Next(Published(s, p))
  {
    assert Called(s, p, Checking).calls - {p} == s.calls - {p};
  }

  lemma UninterruptedAttempt(s: State, p: Producer)
    requires p !in s.calls && |s.queue| <= BUFFER_SIZE && s.closing == Open
    ensures RunFrom(Called(s, p, Checking), [Pass(p)] + AttemptEvents(s, p)) == Next(Published(s, p))
  {
    var s1, s2 := Called(s, p, Checking), Called(s, p, Trying);
    assert Step(s1, Pass(p)) == Next(s2) by {
      assert Step(s1, Pass(p)).state.calls == s2.calls;
    }
    RunCons(s1, Pass(p), s2, AttemptEvents(s, p));
    if HasRoom(s) {
      assert s2.calls - {p} == s.calls - {p};
      assert Step(s2, Enqueue(p)) == Next(Published(s, p));
      RunSingle(s2, Enqueue(p));
    } else {
      UninterruptedEviction(s, p);
    }
  }

  /** The call of `p` has evicted and stands before its last select. */
  function Made(s: State, p: Producer): State
    requires s.queue != []
  {
    Called(s, p, Retrying)
    .(queue := s.queue[1..], taken := s.taken + [s.queue[0]],
      evicted := s.evicted + [s.queue[0]], evictors := s.evictors + [Frame(p, Issued(s, p))])
  }

  lemma MakesRoom(s: State, p: Producer)
    requires p !in s.calls && |s.queue| == BUFFER_SIZE && s.closing == Open
    ensures Step(Called(s, p, Trying), Full(p)) == Next(Called(s, p, Evicting))
    ensures Step(Called(s, p, Evicting), Evict(p)) == Next(Made(s, p))
  {
    var s2, s3, s4 := Called(s, p, Trying), Called(s, p, Evicting), Made(s, p);
    assert Step(s2, Full(p)).state.calls == s3.calls;
    assert Step(s3, Evict(p)).state.calls == s4.calls;
  }

  lemma FillsRoom(s: State, p: Producer)
    requires p !in s.calls && |s.queue| == BUFFER_SIZE && s.closing == Open
    ensures Step(Made(s, p), Enqueue(p)) == Next(Published(s, p))
  {
    assert Made(s, p).calls - {p} == s.calls - {p};
  }

  lemma UninterruptedEviction(s: State, p: Producer)
    requires p !in s.calls && |s.queue| == BUFFER_SIZE && s.closing == Open
    ensures RunFrom(Called(s, p, Trying), EvictingEvents(p)) == Next(Published(s, p))
  {
    MakesRoom(s, p);
    FillsRoom(s, p);
    hide Step, RunFrom, Made, Called, Published;
    RunSingle(Made(s, p), Enqueue(p));
    RunCons(Called(s, p, Evicting), Evict(p), Made(s, p), [Enqueue(p)]);
    RunCons(Called(s, p, Trying), Full(p), Called(s, p, Evicting), [Evict(p)] + [Enqueue(p)]);
  }
}
