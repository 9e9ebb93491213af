/** Bursts of publishes while the socket stalls, and what they cost. */
module Bursts {
  import opened PumpMachine

  /** The pump is open and nobody is in a call; its loop may be held up in a write. */
  ghost predicate Quiet(s: State) {
    Reachable(s) && s.calls == map[] && s.closing == Open
  }

  function Burst(s: State, p: Producer, n: nat): State {
    if n == 0 then s else Published(Burst(s, p, n - 1), p)
  }

  /** The frames of the next `n` submissions of `p`. */
  function NextFrames(s: State, p: Producer, n: nat): seq<Frame> {
    seq(n, i requires 0 <= i => Frame(p, Issued(s, p) + i))
  }

  function Excess(n: nat): nat {
    if n <= BUFFER_SIZE then 0 else n - BUFFER_SIZE
  }

  lemma PublishedIsAccepted(s: State, p: Producer)
    requires Quiet(s)
    ensures var t := Published(s, p);
            && Quiet(t) && Issued(t, p) == Issued(s, p) + 1
            && t.enqueued == s.enqueued + [Frame(p, Issued(s, p))]
            && t.refused == s.refused && t.written == s.written && t.loop == s.loop
  {
    hide Step, PublishEvents;
    var es :| RunFrom(INIT, es) == Next(s);
    ReachableInv(s);
    UninterruptedPublish(s, p);
    RunAppend(INIT, es, s, PublishEvents(s, p));
  }

  /** One more frame for a buffer that holds the latest part of `all`. */
  lemma PushOne(all: seq<Frame>, f: Frame)
    ensures var k, next := Excess(|all|), all + [f];
            && (|all| < BUFFER_SIZE ==> Excess(|next|) == 0 && k == 0)
            && (|all| >= BUFFER_SIZE ==>
                  && Excess(|next|) == k + 1 && all[k..][1..] + [f] == next[k + 1..]
                  && all[..k] + [all[k..][0]] == next[..k + 1])
            && (|all| >= BUFFER_SIZE <==> |all[k..]| >= BUFFER_SIZE)
  {
  }

  ghost predicate EvictsExcess(s: State, p: Producer, n: nat) {
    var t, all := Burst(s, p, n), s.queue + NextFrames(s, p, n);
    t.queue == all[Excess(|all|)..] && t.evicted == s.evicted + all[..Excess(|all|)]
  }

  ghost predicate AcceptsAll(s: State, p: Producer, n: nat) {
    var t := Burst(s, p, n);
    && Issued(t, p) == Issued(s, p) + n
    && t.enqueued == s.enqueued + NextFrames(s, p, n)
    && t.refused == s.refused && t.written == s.written && t.loop == s.loop
  }

  lemma {:induction false} BurstIsAccepted(s: State, p: Producer, n: nat)
    requires Quiet(s)
    ensures Quiet(Burst(s, p, n)) && AcceptsAll(s, p, n)
  {
    hide Published, Quiet;
    if n == 0 {
      assert s.enqueued + NextFrames(s, p, 0) == s.enqueued;
    } else {
      BurstIsAccepted(s, p, n - 1);
      var r := Burst(s, p, n - 1);
      PublishedIsAccepted(r, p);
      assert NextFrames(s, p, n) == NextFrames(s, p, n - 1) + [Frame(p, Issued(r, p))];
    }
  }

  /** A burst is accepted in full.  It keeps the last 256 of the buffered and the new frames and
      evicts all older ones, whoever they belong to. */
  lemma {:induction false} BurstEvictsOldest(s: State, p: Producer, n: nat)
    requires Quiet(s)
    ensures Quiet(Burst(s, p, n)) && AcceptsAll(s, p, n) && EvictsExcess(s, p, n)
  {
    hide Step, RunFrom, Reachable, Published;
    BurstIsAccepted(s, p, n);
    if n == 0 {
      ReachableInv(s);
      assert s.queue + NextFrames(s, p, 0) == s.queue;
    } else {
      BurstEvictsOldest(s, p, n - 1);
      var r := Burst(s, p, n - 1);
      var all, last := s.queue + NextFrames(s, p, n - 1), Frame(p, Issued(r, p));
      BurstStep(r, p, all, s.evicted);
      assert s.queue + NextFrames(s, p, n) == all + [last];
    }
  }

  lemma BurstStep(r: State, p: Producer, all: seq<Frame>, evicted: seq<Frame>)
    requires r.closing == Open
    requires r.queue == all[Excess(|all|)..] && r.evicted == evicted + all[..Excess(|all|)]
    ensures var t, next := Published(r, p), all + [Frame(p, Issued(r, p))];
            t.queue == next[Excess(|next|)..] && t.evicted == evicted + next[..Excess(|next|)]
  {
    var last := Frame(p, Issued(r, p));
    PushOne(all, last);
    if |all| < BUFFER_SIZE {
      assert all[0..] == all && (all + [last])[0..] == all + [last];
    } else {
      var k := Excess(|all|);
      assert evicted + all[..k] + [all[k..][0]] == evicted + (all[..k] + [all[k..][0]]);
    }
  }

  lemma InitIsQuiet()
    ensures Quiet(INIT)
  {
    assert RunFrom(INIT, []) == Next(INIT);
  }

  /** So a burst costs nothing exactly if it fits into the buffer beside what is waiting there. */
  lemma BurstLosesNothingExactly(s: State, p: Producer, n: nat)
    requires Quiet(s)
    ensures Burst(s, p, n).evicted == s.evicted <==> |s.queue| + n <= BUFFER_SIZE
    ensures |Burst(s, p, n).evicted| == |s.evicted| + Excess(|s.queue| + n)
  {
    hide Quiet, Burst;
    BurstEvictsOldest(s, p, n);
    var all := s.queue + NextFrames(s, p, n);
    assert |all| == |s.queue| + n;
    assert s.evicted + all[..0] == s.evicted;
  }

  function Stalled(reader: Producer): State {
    INIT.(issued := map[reader := 2], queue := [Frame(reader, 1)], loop := Writing(Frame(reader, 0), 0),
          enqueued := [Frame(reader, 0), Frame(reader, 1)], taken := [Frame(reader, 0)])
  }

  function OneAnswer(reader: Producer): State {
    INIT.(issued := map[reader := 1], queue := [Frame(reader, 0)], enqueued := [Frame(reader, 0)])
  }

  lemma SendsOneAnswer(reader: Producer)
    ensures RunFrom(INIT, [Submit(reader, Sending), Enqueue(reader)]) == Next(OneAnswer(reader))
  {
    var t := INIT.(issued := map[reader := 1], calls := map[reader := Call(Frame(reader, 0), Sending)]);
    assert t.calls - {reader} == map[];
    assert Step(INIT, Submit(reader, Sending)) == Next(t) && Step(t, Enqueue(reader)) == Next(OneAnswer(reader));
    hide Step, RunFrom;
    RunSingle(t, Enqueue(reader));
    RunCons(INIT, Submit(reader, Sending), t, [Enqueue(reader)]);
    assert [Submit(reader, Sending)] + [Enqueue(reader)] == [Submit(reader, Sending), Enqueue(reader)];
  }

  function Writing0(reader: Producer): State {
    OneAnswer(reader).(queue := [], loop := Writing(Frame(reader, 0), 0), taken := [Frame(reader, 0)])
  }

  lemma SendsAnother(reader: Producer)
    ensures RunFrom(Writing0(reader), [Submit(reader, Sending)] + [Enqueue(reader)]) == Next(Stalled(reader))
  {
    var t, u := Writing0(reader), Stalled(reader);
    var v := t.(issued := map[reader := 2], calls := map[reader := Call(Frame(reader, 1), Sending)]);
    assert v.calls - {reader} == map[] && t.issued[reader := 2] == map[reader := 2];
    assert t.calls[reader := Call(Frame(reader, 1), Sending)] == v.calls;
    assert Step(t, Submit(reader, Sending)) == Next(v) && Step(v, Enqueue(reader)) == Next(u);
    hide Step, RunFrom;
    RunSingle(v, Enqueue(reader));
    RunCons(t, Submit(reader, Sending), v, [Enqueue(reader)]);
  }

  lemma StartsWriting(reader: Producer)
    ensures Step(OneAnswer(reader), Receive) == Next(Writing0(reader))
  {
    assert OneAnswer(reader).queue[1..] == [];
  }

  /** The client stops reading while the first of two answers is being written. */
  lemma StalledIsQuiet(reader: Producer)
    ensures Quiet(Stalled(reader))
  {
    assert Stalled(reader).calls == map[] && Stalled(reader).closing == Open;
    hide Step, RunFrom, OneAnswer, Writing0, Stalled;
    StartsWriting(reader);
    SendsOneAnswer(reader);
    SendsAnother(reader);
    var again := [Submit(reader, Sending)] + [Enqueue(reader)];
    RunCons(OneAnswer(reader), Receive, Writing0(reader), again);
    RunAppend(INIT, [Submit(reader, Sending), Enqueue(reader)], OneAnswer(reader), [Receive] + again);
  }

  /** An answer `Send` has put in the buffer of an open pump is not safe there: while the client stalls
      a burst of 256 events evicts it. */
  lemma AnswerCanBeEvicted(reader: Producer, p: Producer)
    requires reader != p
    ensures exists s :: Quiet(s) && s.loop.Writing?
                    && s.evicted == [Frame(reader, 1)] && s.refused == [] && s.written == []
  {
    var s := Stalled(reader);
    StalledIsQuiet(reader);
    BurstEvictsOldest(s, p, BUFFER_SIZE);
    var t := Burst(s, p, BUFFER_SIZE);
    assert (s.queue + NextFrames(s, p, BUFFER_SIZE))[..1] == [Frame(reader, 1)];
    assert t.evicted == [Frame(reader, 1)];
  }
}
