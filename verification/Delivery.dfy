/** What the socket sees of one producer's submissions, for every panic-free run of the pump. */
module Delivery {
  import opened PumpMachine
  import opened Subsequences

  /** The serials of one producer's frames, in the order of the given frames. */
  function SerialsOf(frames: seq<Frame>, p: Producer): (r: seq<nat>)
    ensures forall k :: k in r <==> Frame(p, k) in frames
  {
    if frames == [] then []
    else
      var f := frames[|frames| - 1];
      assert frames == frames[..|frames| - 1] + [f];
      SerialsOf(frames[..|frames| - 1], p) + if f.producer == p then [f.serial] else []
  }

  predicate InSubmissionOrder(frames: seq<Frame>, p: Producer) {
    forall i, j :: 0 <= i < j < |frames| && frames[i].producer == p && frames[j].producer == p
      ==> frames[i].serial < frames[j].serial
  }

  lemma {:induction false} SerialsIncrease(frames: seq<Frame>, p: Producer, n: nat)
    requires InSubmissionOrder(frames, p)
    requires forall f :: f in frames && f.producer == p ==> f.serial < n
    ensures Increasing(SerialsOf(frames, p), n)
  {
    if frames != [] {
      var init, f := frames[..|frames| - 1], frames[|frames| - 1];
      SerialsIncrease(init, p, n);
      forall k | k in SerialsOf(init, p) && f.producer == p ensures k < f.serial {
        var i :| 0 <= i < |init| && init[i] == Frame(p, k);
        assert frames[i] == init[i];
      }
      var r := SerialsOf(init, p);
      forall i | 0 <= i < |r| && f.producer == p ensures r[i] < f.serial {
        assert r[i] in r;
      }
      if f.producer == p { assert f in frames; }
    }
  }

  lemma WrittenSerials(s: State, p: Producer)
    requires Reachable(s)
    ensures Increasing(SerialsOf(s.written, p), Issued(s, p))
  {
    Conservation(s);
    forall i, j | 0 <= i < j < |s.written| && s.written[i].producer == p && s.written[j].producer == p
      ensures s.written[i].serial < s.written[j].serial
    {
      WrittenKeepsSubmissionOrder(s, i, j);
    }
    forall f | f in s.written ensures f.serial < Issued(s, f.producer) {
      assert multiset(s.written)[f] > 0 && Places(s, f) > 0;
    }
    SerialsIncrease(s.written, p, Issued(s, p));
  }

  /** The bodies of the frames written for producer `p`, whose i-th submission carried `log[i]`. */
  function Received<T>(s: State, p: Producer, log: seq<T>): seq<T>
    requires forall k :: k in SerialsOf(s.written, p) ==> k < |log|
  {
    Select(log, SerialsOf(s.written, p))
  }

  /** Whatever interferes, the socket sees some of a producer's submissions, in order, none twice. */
  lemma ReceivedInOrder<T>(s: State, p: Producer, log: seq<T>)
    requires Reachable(s) && Issued(s, p) <= |log|
    ensures forall k :: k in SerialsOf(s.written, p) ==> k < |log|
    ensures Subsequence(Received(s, p, log), log)
  {
    WrittenSerials(s, p);
    SelectIsSubsequence(log, SerialsOf(s.written, p));
  }

  /** Nothing of this producer was dropped or lost, and nothing is still under way. */
  ghost predicate AllThrough(s: State, p: Producer) {
    forall k: nat :: k < Issued(s, p) ==>
      var f := Frame(p, k);
      DropCalls(s, f) == 0 && f !in s.failed && f !in s.queue
      && !IsHeld(s, f) && !(s.loop.Writing? && s.loop.frame == f)
  }

  /** Then, and only then, every submission has been written; then, and only then, the socket has seen the
      whole log. */
  lemma ReceivedAll<T>(s: State, p: Producer, log: seq<T>)
    requires Reachable(s) && Issued(s, p) == |log|
    requires forall k :: k in SerialsOf(s.written, p) ==> k < |log|
    ensures AllThrough(s, p) <==> forall k: nat :: k < |log| ==> Frame(p, k) in s.written
    ensures AllThrough(s, p) <==> Received(s, p, log) == log
  {
    Conservation(s);
    WrittenSerials(s, p);
    forall k: nat | k < |log|
      ensures multiset(s.written)[Frame(p, k)] == 1 <==> Places(s, Frame(p, k)) == multiset(s.written)[Frame(p, k)]
    {
      assert Places(s, Frame(p, k)) == 1;
    }
    if AllThrough(s, p) {
      forall k | 0 <= k < |log| ensures k in SerialsOf(s.written, p) {
        assert multiset(s.written)[Frame(p, k)] == 1;
      }
      CompleteSelection(SerialsOf(s.written, p), |log|);
    }
    if Received(s, p, log) == log {
      FullSelection(SerialsOf(s.written, p), |log|);
      forall k: nat | k < |log| ensures Frame(p, k) in s.written { assert k in SerialsOf(s.written, p); }
    }
    if forall k: nat :: k < |log| ==> Frame(p, k) in s.written {
      forall k: nat | k < |log| ensures multiset(s.written)[Frame(p, k)] == 1 {
        assert multiset(s.written)[Frame(p, k)] > 0;
      }
    }
  }
}
