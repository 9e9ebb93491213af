/** The byte stream of a PTY session end to end: from the reads of its output loop, through the pump,
    to the bytes the client decodes. */
module PtyStream {
  import opened PumpMachine
  import opened Bursts
  import opened Subsequences
  import opened Delivery
  import opened Wrappers
  import opened Base64
  import opened PtyOutput

  lemma {:induction false} DecodedSubsequence(a: seq<Body>, b: seq<Body>)
    requires Subsequence(a, b)
    ensures Subsequence(Decoded(a), Decoded(b))
    decreases |b|
  {
    if b != [] {
      var n := |b| - 1;
      assert b == b[..n] + [b[n]];
      DecodedSnoc(b[..n], b[n]);
      DecodedOne(b[n]);
      if Subsequence(a, b[..n]) {
        DecodedSubsequence(a, b[..n]);
        Extend(Decoded(a), Decoded(b[..n]), Decoded([b[n]]));
      } else {
        var m := |a| - 1;
        assert a == a[..m] + [a[m]];
        DecodedSnoc(a[..m], a[m]);
        DecodedSubsequence(a[..m], b[..n]);
        ExtendBoth(Decoded(a[..m]), Decoded(b[..n]), Decoded([b[n]]));
      }
    }
  }

  lemma DecodedOne(body: Body)
    ensures |Decoded([body])| <= 1
  {
    assert [body][..0] == [];
  }

  lemma Extend(a: seq<seq<Byte>>, b: seq<seq<Byte>>, c: seq<seq<Byte>>)
    requires Subsequence(a, b) && |c| <= 1
    ensures Subsequence(a, b + c)
  {
    if c == [] { assert b + c == b; } else { assert (b + c)[..|b|] == b; }
  }

  lemma ExtendBoth(a: seq<seq<Byte>>, b: seq<seq<Byte>>, c: seq<seq<Byte>>)
    requires Subsequence(a, b) && |c| <= 1
    ensures Subsequence(a + c, b + c)
  {
    if c == [] {
      assert b + c == b && a + c == a;
    } else {
      assert (b + c)[..|b|] == b && (a + c)[..|a|] == a;
    }
  }

  /** What a client makes of the session: the bytes of the outputs that were written, in order. */
  ghost function ClientBytes(s: State, p: Producer, log: seq<Body>): seq<Byte>
    requires forall k :: k in SerialsOf(s.written, p) ==> k < |log|
  {
    Concat(Decoded(Received(s, p, log)))
  }

  /** In every panic-free run the bytes the client decodes are the concatenation of some of the chunks
      the loop read, in the order of the reads. */
  lemma StreamKeepsOrder(s: State, p: Producer, input: seq<Read>, log: seq<Body>)
    requires Reachable(s) && Issued(s, p) <= |log|
    requires Decoded(log) == Chunks(input)
    ensures forall k :: k in SerialsOf(s.written, p) ==> k < |log|
    ensures exists kept: seq<seq<Byte>> :: Subsequence(kept, Chunks(input)) && ClientBytes(s, p, log) == Concat(kept)
  {
    hide Reachable, RunFrom, Step, Decode, Encode;
    ReceivedInOrder(s, p, log);
    DecodedSubsequence(Received(s, p, log), log);
  }

  /** A selection of a log decodes to as much as its first `n` bodies exactly if it has all their outputs. */
  lemma {:induction false} SelectedOutputs(log: seq<Body>, at: seq<nat>, n: nat)
    requires Decodable(log) && n <= |log| && Increasing(at, n)
    ensures |Decoded(Select(log, at))| <= |Decoded(log[..n])|
    ensures Decoded(Select(log, at)) == Decoded(log[..n]) <==> forall k :: 0 <= k < n && log[k].Output? ==> k in at
    ensures |Decoded(Select(log, at))| == |Decoded(log[..n])| ==> Decoded(Select(log, at)) == Decoded(log[..n])
  {
    hide Decoded;
    if n == 0 {
      IncreasingNeedsRoom(at, n);
      assert Select(log, at) == log[..n];
    } else {
      var m := |at| - 1;
      var here := Decoded([log[n - 1]]);
      DecodedOfOne(log, n - 1);
      assert log[..n] == log[..n - 1] + [log[n - 1]];
      DecodedSnoc(log[..n - 1], log[n - 1]);
      if at != [] && at[m] == n - 1 {
        SelectedOutputs(log, at[..m], n - 1);
        assert Select(log, at) == Select(log, at[..m]) + [log[n - 1]];
        DecodedSnoc(Select(log, at[..m]), log[n - 1]);
        assert forall k :: k in at <==> k in at[..m] || k == n - 1;
      } else {
        SelectedOutputs(log, at, n - 1);
        assert n - 1 !in at;
      }
    }
  }

  lemma DecodedOfOne(log: seq<Body>, k: nat)
    requires Decodable(log) && k < |log|
    ensures |Decoded([log[k]])| == if log[k].Output? then 1 else 0
  {
    assert [log[k]][..0] == [];
  }

  /** When the loop has submitted its whole log, the client has the whole stream exactly if every
      output was written; a lost report costs no byte. */
  lemma StreamIsWhole(s: State, p: Producer, input: seq<Read>, log: seq<Body>)
    requires Reachable(s) && Issued(s, p) == |log|
    requires Decoded(log) == Chunks(input) && Decodable(log)
    ensures forall k :: k in SerialsOf(s.written, p) ==> k < |log|
    ensures ClientBytes(s, p, log) == Concat(Chunks(input))
       <==> forall k: nat :: k < |log| && log[k].Output? ==> Frame(p, k) in s.written
  {
    hide Reachable, RunFrom, Step, Decode, Encode;
    WrittenSerials(s, p);
    ReceivedInOrder(s, p, log);
    DecodedSubsequence(Received(s, p, log), log);
    ChunksNotEmpty(input);
    SubsequenceConcat(Decoded(Received(s, p, log)), Chunks(input));
    assert log[..|log|] == log;
    SelectedOutputs(log, SerialsOf(s.written, p), |log|);
  }

  lemma {:induction false} ChunksNotEmpty(input: seq<Read>)
    ensures forall i :: 0 <= i < |Chunks(input)| ==> Chunks(input)[i] != []
  {
    if input != [] { ChunksNotEmpty(input[..|input| - 1]); }
  }

  /** In particular nothing is missing when no frame of the session was refused, evicted, drained or
      lost and none is still under way. */
  lemma StreamIsWholeWhenAllThrough(s: State, p: Producer, input: seq<Read>, log: seq<Body>)
    requires Reachable(s) && Issued(s, p) == |log| && AllThrough(s, p)
    requires Decoded(log) == Chunks(input)
    ensures forall k :: k in SerialsOf(s.written, p) ==> k < |log|
    ensures ClientBytes(s, p, log) == Concat(Chunks(input))
  {
    hide Reachable, RunFrom, Step, Decode, Encode;
    WrittenSerials(s, p);
    ReceivedAll(s, p, log);
  }

  // ---- What the reports do not cover ---------------------------------------------------------

  /** The loss by eviction, which is the loss an output flood causes, is never reported: however long
      the log, there is a run that accepts all of it, keeps 256 frames, and lets the loop report nothing. */
  lemma EvictionGoesUnreported(p: Producer, log: seq<Body>, accepts: nat -> bool, pending: nat)
    requires Sound(log, accepts, pending)
    requires forall k: nat :: k < |log| ==> accepts(k)
    ensures pending == 0 && forall k :: 0 <= k < |log| ==> log[k].Output?
    ensures exists s :: Quiet(s) && Issued(s, p) == |log| && s.refused == []
                     && s.evicted == NextFrames(INIT, p, Excess(|log|))
  {
    hide Step, RunFrom, Reachable;
    InitIsQuiet();
    BurstEvictsOldest(INIT, p, |log|);
    assert [] + NextFrames(INIT, p, |log|) == NextFrames(INIT, p, |log|);
    assert NextFrames(INIT, p, |log|)[..Excess(|log|)] == NextFrames(INIT, p, Excess(|log|));
    assert Burst(INIT, p, |log|).evicted == NextFrames(INIT, p, Excess(|log|));
    NeverRefusedNeverReports(log, accepts, pending);
  }

  function RefusedOutputs(s: State, p: Producer, log: seq<Body>, n: nat): set<nat>
    requires n <= |log|
  {
    set k: nat | k < n && log[k].Output? && Frame(p, k) in s.refused
  }

  /** For a session whose calls have all returned, the counts are about the pump: what its reports
      say, delivered or not yet deliverable, is the number of its outputs the pump refused. */
  lemma {:induction false} ReportsCountRefusedFrames(s: State, p: Producer, log: seq<Body>,
                                                   accepts: nat -> bool, n: nat)
    requires Reachable(s) && p !in s.calls && Issued(s, p) == |log| && n <= |log|
    requires forall k: nat :: k < |log| ==> accepts(k) == (Frame(p, k) in s.enqueued)
    ensures Refusals(log, accepts, n) == |RefusedOutputs(s, p, log, n)|
  {
    hide Reachable, RunFrom, Step, Decode, Encode;
    if n > 0 {
      ReportsCountRefusedFrames(s, p, log, accepts, n - 1);
      AnswerIsExact(s, Frame(p, n - 1));
      var before := RefusedOutputs(s, p, log, n - 1);
      assert RefusedOutputs(s, p, log, n) == if log[n - 1].Output? && !accepts(n - 1) then before + {n - 1} else before;
    }
  }

  /** Nothing of the producer is under way any more. */
  ghost predicate AtRest(s: State, p: Producer) {
    && p !in s.calls
    && (forall f :: f in s.queue ==> f.producer != p)
    && (s.loop.Writing? ==> s.loop.frame.producer != p)
  }

  function UnwrittenOutputs(s: State, p: Producer, log: seq<Body>): set<nat> {
    set k: nat | k < |log| && log[k].Output? && Frame(p, k) !in s.written
  }

  /** The outputs the pump accepted and did not write. */
  function LostOutputs(s: State, p: Producer, log: seq<Body>): set<nat> {
    set k: nat | k < |log| && log[k].Output?
                 && (Frame(p, k) in s.evicted || Frame(p, k) in s.drained || Frame(p, k) in s.failed)
  }

  lemma WhereOutputsWent(s: State, p: Producer, log: seq<Body>)
    requires Reachable(s) && AtRest(s, p) && Issued(s, p) == |log|
    ensures UnwrittenOutputs(s, p, log) == RefusedOutputs(s, p, log, |log|) + LostOutputs(s, p, log)
    ensures RefusedOutputs(s, p, log, |log|) !! LostOutputs(s, p, log)
  {
    Conservation(s);
    hide Reachable;
    forall k: nat | k < |log|
      ensures var f := Frame(p, k);
              One(f in s.written) + One(f in s.refused) + One(f in s.evicted || f in s.drained || f in s.failed) == 1
    {
      var f := Frame(p, k);
      assert Places(s, f) == 1 && !IsHeld(s, f);
      assert f in s.queue <==> multiset(s.queue)[f] > 0;
    }
  }

  /** When nothing of the session is under way any more, the refusals its loop has counted, which are
      the accepted reports plus the pending counter, fall short of the outputs never written by exactly
      those that were evicted, drained or lost by a failed write. */
  lemma ReportsCoverLossExactly(s: State, p: Producer, log: seq<Body>, accepts: nat -> bool, pending: nat)
    requires Reachable(s) && AtRest(s, p) && Issued(s, p) == |log|
    requires forall k: nat :: k < |log| ==> accepts(k) == (Frame(p, k) in s.enqueued)
    requires Sound(log, accepts, pending)
    ensures Reported(log, accepts, |log|) + pending + |LostOutputs(s, p, log)| == |UnwrittenOutputs(s, p, log)|
    ensures Reported(log, accepts, |log|) + pending == |UnwrittenOutputs(s, p, log)| <==>
              forall k: nat :: k < |log| && log[k].Output? ==>
                Frame(p, k) !in s.evicted && Frame(p, k) !in s.drained && Frame(p, k) !in s.failed
  {
    assert Refusals(log, accepts, |log|) == Reported(log, accepts, |log|) + pending;
    hide Reachable, AtRest, Sound, Refusals, Reported, UnwrittenOutputs, RefusedOutputs, LostOutputs;
    RestMeansReturned(s, p);
    ReportsCountRefusedFrames(s, p, log, accepts, |log|);
    WhereOutputsWent(s, p, log);
    NoneLost(s, p, log);
  }

  lemma RestMeansReturned(s: State, p: Producer)
    requires AtRest(s, p)
    ensures p !in s.calls
  {
  }

  lemma NoneLost(s: State, p: Producer, log: seq<Body>)
    ensures |LostOutputs(s, p, log)| == 0 <==>
              forall k: nat :: k < |log| && log[k].Output? ==>
                Frame(p, k) !in s.evicted && Frame(p, k) !in s.drained && Frame(p, k) !in s.failed
  {
    var lost := LostOutputs(s, p, log);
    if |lost| == 0 {
      forall k: nat | k < |log| && log[k].Output?
        ensures Frame(p, k) !in s.evicted && Frame(p, k) !in s.drained && Frame(p, k) !in s.failed
      {
        assert k !in lost;
      }
    } else {
      var k :| k in lost;
    }
  }

  /** What some reports add up to. */
  function Told(bodies: seq<Body>): nat {
    if bodies == [] then 0
    else Told(bodies[..|bodies| - 1]) +
         match bodies[|bodies| - 1] case OutputDropped(count) => count case Output(_) => 0
  }

  /** The refused outputs the client learns of: the counts of the reports that were written. */
  ghost function ClientTold(s: State, p: Producer, log: seq<Body>): nat
    requires forall k :: k in SerialsOf(s.written, p) ==> k < |log|
  {
    Told(Received(s, p, log))
  }

  lemma ToldSnoc(bodies: seq<Body>, body: Body)
    ensures Told(bodies + [body]) == Told(bodies) + match body case OutputDropped(count) => count case Output(_) => 0
  {
    assert (bodies + [body])[..|bodies|] == bodies;
  }

  /** Selected reports tell no more than the accepted ones, and as much exactly if they are all selected. */
  lemma {:induction false} ToldIsReported(log: seq<Body>, accepts: nat -> bool, at: seq<nat>, n: nat)
    requires n <= |log| && Increasing(at, n) && forall k :: k in at ==> accepts(k)
    requires forall k :: 0 <= k < n && log[k].OutputDropped? ==> log[k].count > 0
    ensures Told(Select(log, at)) <= Reported(log, accepts, n)
    ensures Told(Select(log, at)) == Reported(log, accepts, n) <==>
              forall k: nat :: k < n && log[k].OutputDropped? && accepts(k) ==> k in at
  {
    hide Told;
    if n == 0 {
      IncreasingNeedsRoom(at, n);
      assert Select(log, at) == [] by { assert |Select(log, at)| == 0; }
      assert Told([]) == 0 by { NothingTold(); }
    } else {
      var m := |at| - 1;
      if at != [] && at[m] == n - 1 {
        ToldIsReported(log, accepts, at[..m], n - 1);
        assert Select(log, at) == Select(log, at[..m]) + [log[n - 1]];
        ToldSnoc(Select(log, at[..m]), log[n - 1]);
        assert n - 1 in at;
        assert forall k :: k in at <==> k in at[..m] || k == n - 1;
      } else {
        ToldIsReported(log, accepts, at, n - 1);
        assert n - 1 !in at;
      }
    }
  }

  lemma NothingTold()
    ensures Told([]) == 0
  {
  }

  lemma WrittenWasAccepted(s: State, f: Frame)
    requires Reachable(s) && f in s.written
    ensures f in s.enqueued
  {
    WrittenKeepsOrder(s);
    var i :| 0 <= i < |s.written| && s.written[i] == f;
    assert s.enqueued[s.writtenAt[i]] == f;
  }

  /** When nothing of the session is under way any more, the client has been told of exactly the outputs
      it did not get if and only if no refusal is left unreported, every accepted report was written, and
      no output was evicted, drained or lost by a failed write. */
  lemma ClientToldExactly(s: State, p: Producer, log: seq<Body>, accepts: nat -> bool, pending: nat)
    requires Reachable(s) && AtRest(s, p) && Issued(s, p) == |log|
    requires forall k: nat :: k < |log| ==> accepts(k) == (Frame(p, k) in s.enqueued)
    requires Sound(log, accepts, pending)
    ensures forall k :: k in SerialsOf(s.written, p) ==> k < |log|
    ensures ClientTold(s, p, log) <= |UnwrittenOutputs(s, p, log)|
    ensures ClientTold(s, p, log) == |UnwrittenOutputs(s, p, log)| <==>
              && pending == 0
              && (forall k: nat :: k < |log| && log[k].OutputDropped? && accepts(k) ==> Frame(p, k) in s.written)
              && (forall k: nat :: k < |log| && log[k].Output? ==>
                    Frame(p, k) !in s.evicted && Frame(p, k) !in s.drained && Frame(p, k) !in s.failed)
  {
    forall k | 0 <= k < |log| && log[k].OutputDropped? ensures log[k].count > 0 { assert Truthful(log, accepts, k); }
    hide Reachable, AtRest, Sound, Refusals, Reported, UnwrittenOutputs, Told, Truthful;
    WrittenSerials(s, p);
    var at := SerialsOf(s.written, p);
    forall k | k in at ensures accepts(k) { WrittenWasAccepted(s, Frame(p, k)); }
    ToldIsReported(log, accepts, at, |log|);
    ReportsCoverLossExactly(s, p, log, accepts, pending);
  }

  /** A refusal at the very end of a session is never told: the pump closes, the last output is refused,
      and no later chunk brings the report. */
  lemma LastRefusalUntold(p: Producer)
    ensures exists s, log, accepts ::
              && Reachable(s) && AtRest(s, p) && Issued(s, p) == |log| && Sound(log, accepts, 1)
              && (forall k: nat :: k < |log| ==> accepts(k) == (Frame(p, k) in s.enqueued))
              && SerialsOf(s.written, p) == [] && ClientTold(s, p, log) == 0 && |UnwrittenOutputs(s, p, log)| == 1
  {
    var s0 := INIT.(closing := DoneClosed);
    var s1 := s0.(issued := map[p := 1], calls := map[p := Call(Frame(p, 0), Checking)]);
    var s := s0.(issued := map[p := 1], refused := [Frame(p, 0)]);
    assert s1.calls - {p} == map[];
    assert Step(INIT, CloseDone) == Next(s0) && Step(s0, Submit(p, Checking)) == Next(s1)
      && Step(s1, Refuse(p)) == Next(s);
    ThreeEvents(CloseDone, s0, Submit(p, Checking), s1, Refuse(p), s);
    var log, accepts: nat -> bool := [Output("")], k => false;
    OneRefusal(accepts);
    assert UnwrittenOutputs(s, p, log) == {0};
    assert ClientTold(s, p, log) == 0 by { assert Received(s, p, log) == []; }
    hide Step, RunFrom, Reachable, Sound;
  }

  lemma ThreeEvents(a: Event, s: State, b: Event, t: State, c: Event, u: State)
    requires Step(INIT, a) == Next(s) && Step(s, b) == Next(t) && Step(t, c) == Next(u)
    ensures Reachable(u)
  {
    hide Step, RunFrom;
    RunSingle(t, c);
    RunCons(s, b, t, [c]);
    RunCons(INIT, a, s, [b] + [c]);
  }

  lemma OneRefusal(accepts: nat -> bool)
    requires !accepts(0)
    ensures Sound([Output("")], accepts, 1)
  {
    assert Sound([], accepts, 0);
    PublishKeepsSound([], Output(""), accepts, 0, 1);
    assert [] + [Output("")] == [Output("")];
  }
}
