/** Which states of the write pump have a future in which some goroutine panics. */
module Panics {
  import opened PumpMachine

  /** Events without a new call of Send. */
  predicate PublishOnly(es: seq<Event>) {
    forall e :: e in es && e.Submit? ==> e.phase == Checking
  }

  ghost predicate CanPanic(s: State) {
    exists es :: PublishOnly(es) && RunFrom(s, es) == Panicked
  }

  predicate HasSender(s: State) {
    exists p :: p in s.calls && BeforeSend(s.calls[p])
  }

  lemma StepCanPanic(s: State, e: Event, t: State)
    requires Step(s, e) == Next(t) && CanPanic(t) && (e.Submit? ==> e.phase == Checking)
    ensures CanPanic(s)
  {
    var es :| PublishOnly(es) && RunFrom(t, es) == Panicked;
    hide Step, RunFrom;
    RunCons(s, e, t, es);
    assert PublishOnly([e] + es);
  }

  /** A close at the wrong moment is enough. */
  lemma SenderCanPanic(s: State)
    requires HasSender(s)
    ensures CanPanic(s)
    decreases match s.closing case Open => 2 case DoneClosed => 1 case OutClosed => 0
  {
    match s.closing {
      case Open =>
        SenderCanPanic(s.(closing := DoneClosed));
        StepCanPanic(s, CloseDone, s.(closing := DoneClosed));
      case DoneClosed =>
        SenderCanPanic(s.(closing := OutClosed));
        StepCanPanic(s, CloseOut, s.(closing := OutClosed));
      case OutClosed =>
        var p :| p in s.calls && BeforeSend(s.calls[p]);
        RunSingle(s, SendOnClosed(p));
        assert PublishOnly([SendOnClosed(p)]);
    }
  }

  lemma EvicterCanPanic(s: State, p: Producer)
    requires p in s.calls && s.calls[p].phase == Evicting
    ensures CanPanic(s)
  {
    var e := if s.queue != [] then Evict(p) else EvictNothing(p);
    var t := Step(s, e).state;
    assert p in t.calls && BeforeSend(t.calls[p]);
    SenderCanPanic(t);
    StepCanPanic(s, e, t);
  }

  lemma CheckerCanPanic(s: State, p: Producer)
    requires s.closing == Open && p in s.calls && s.calls[p].phase == Checking
    ensures CanPanic(s)
  {
    var t := MoveTo(s, p, Trying);
    assert p in t.calls && BeforeSend(t.calls[p]);
    SenderCanPanic(t);
    StepCanPanic(s, Pass(p), t);
  }

  lemma {:induction false} BoundOf(ps: set<Producer>) returns (bound: Producer)
    ensures forall p :: p in ps ==> p < bound
  {
    bound := 0;
    if ps != {} {
      var p :| p in ps;
      var rest := BoundOf(ps - {p});
      bound := if p < rest then rest else p + 1;
      assert forall q :: q in ps ==> q == p || q in ps - {p};
    }
  }

  /** With no further Send a goroutine can still panic exactly if the pump is open or some call has got
      past the first select of Publish, or into Send, before it is closed. */
  lemma CanPanicExactly(s: State)
    ensures CanPanic(s) <==> !ClosedQuietly(s)
  {
    if ClosedQuietly(s) {
      forall es | PublishOnly(es) ensures RunFrom(s, es) != Panicked { QuietCloseNeverPanics(s, es); }
    } else if p :| p in s.calls && s.calls[p].phase != Checking {
      if s.calls[p].phase == Evicting { EvicterCanPanic(s, p); } else { SenderCanPanic(s); }
    } else if p :| p in s.calls {
      CheckerCanPanic(s, p);
    } else {
      var p := BoundOf(s.calls.Keys);
      var t := Called(s, p, Checking);
      CheckerCanPanic(t, p);
      SubmitStep(s, p);
      StepCanPanic(s, Submit(p, Checking), t);
    }
  }

  /** A Send makes a panic possible in every state, even when the pump has long been closed. */
  lemma SendCanAlwaysPanic(s: State)
    ensures exists p, es :: p !in s.calls && PublishOnly(es) && RunFrom(s, [Submit(p, Sending)] + es) == Panicked
  {
    var p := BoundOf(s.calls.Keys);
    var t := Called(s, p, Sending);
    assert p in t.calls && BeforeSend(t.calls[p]);
    SenderCanPanic(t);
    var es :| PublishOnly(es) && RunFrom(t, es) == Panicked;
    assert Step(s, Submit(p, Sending)) == Next(t);
    hide Step, RunFrom;
    RunCons(s, Submit(p, Sending), t, es);
  }
}
