/** The output loop of a PTY session (`outputLoop` in `pty/handler.go`): how it accounts for the
    publishes the pump refuses. */
module PtyOutput {
  import opened Wrappers
  import opened Base64

  /** One read of the PTY master: the bytes, and whether it also returned an error. */
  datatype Read = Read(data: seq<Byte>, failed: bool)

  datatype Body =
    | Output(data: string)         // pty.output
    | OutputDropped(count: nat)    // pty.output_dropped

  predicate Failed(input: seq<Read>) {
    exists i :: 0 <= i < |input| && input[i].failed
  }

  /** The chunks a loop gets to see: the non-empty reads up to the first error. */
  function Chunks(input: seq<Read>): seq<seq<Byte>> {
    if input == [] then []
    else
      var init, last := input[..|input| - 1], input[|input| - 1];
      Chunks(init) + if Failed(init) || last.data == [] then [] else [last.data]
  }

  lemma {:induction false} NothingAfterFailure(input: seq<Read>, n: nat)
    requires n <= |input| && Failed(input[..n])
    ensures Chunks(input) == Chunks(input[..n])
  {
    if n < |input| {
      var init := input[..|input| - 1];
      assert init[..n] == input[..n];
      NothingAfterFailure(init, n);
      var i :| 0 <= i < n && input[..n][i].failed;
      assert init[i].failed;
    } else {
      assert input[..n] == input;
    }
  }

  /** Decodes the outputs of a log of events, as the client does. */
  function Decoded(log: seq<Body>): seq<seq<Byte>> {
    if log == [] then []
    else Decoded(log[..|log| - 1]) + match log[|log| - 1]
      case Output(data) => (match Decode(data) case Some(b) => [b] case None => [])
      case OutputDropped(_) => []
  }

  /** Every output of the log decodes. */
  predicate Decodable(log: seq<Body>) {
    forall k :: 0 <= k < |log| && log[k].Output? ==> Decode(log[k].data).Some?
  }

  /** Publishes of pty.output refused among the first `n`, when the pump's answer to publish `i` is `accepts(i)`. */
  function Refusals(log: seq<Body>, accepts: nat -> bool, n: nat): nat
    requires n <= |log|
  {
    if n == 0 then 0
    else Refusals(log, accepts, n - 1) + if log[n - 1].Output? && !accepts(n - 1) then 1 else 0
  }

  /** What the accepted reports among the first `n` publishes add up to. */
  function Reported(log: seq<Body>, accepts: nat -> bool, n: nat): nat
    requires n <= |log|
  {
    if n == 0 then 0
    else Reported(log, accepts, n - 1) + if log[n - 1].OutputDropped? && accepts(n - 1) then log[n - 1].count else 0
  }

  /** At publish `i`: a report tells exactly the refusals not reported yet, and an output goes out
      with refusals pending only right behind a report that was itself refused. */
  ghost predicate Truthful(log: seq<Body>, accepts: nat -> bool, i: nat)
    requires i < |log|
  {
    match log[i]
    case OutputDropped(count) =>
      count > 0 && Refusals(log, accepts, i) == Reported(log, accepts, i) + count
    case Output(_) =>
      || Refusals(log, accepts, i) == Reported(log, accepts, i)
      || (i > 0 && log[i - 1].OutputDropped? && !accepts(i - 1))
  }

  lemma {:induction false} TalliesOfPrefix(log: seq<Body>, more: seq<Body>, accepts: nat -> bool, n: nat)
    requires n <= |log|
    ensures Refusals(log + more, accepts, n) == Refusals(log, accepts, n)
    ensures Reported(log + more, accepts, n) == Reported(log, accepts, n)
  {
    if n > 0 { TalliesOfPrefix(log, more, accepts, n - 1); }
  }

  /** The account of a loop that has published `log` and counts `pending` refusals as unreported. */
  ghost predicate Sound(log: seq<Body>, accepts: nat -> bool, pending: nat) {
    && (forall i :: 0 <= i < |log| ==> Truthful(log, accepts, i))
    && Refusals(log, accepts, |log|) == Reported(log, accepts, |log|) + pending
  }

  lemma PublishKeepsSound(log: seq<Body>, body: Body, accepts: nat -> bool, pending: nat, pending': nat)
    requires Sound(log, accepts, pending)
    requires match body
             case OutputDropped(count) => count == pending > 0 && pending' == (if accepts(|log|) then 0 else pending)
             case Output(_) =>
               && (pending == 0 || (log != [] && log[|log| - 1].OutputDropped? && !accepts(|log| - 1)))
               && pending' == if accepts(|log|) then pending else pending + 1
    ensures Sound(log + [body], accepts, pending')
  {
    var l := log + [body];
    forall i | 0 <= i <= |log|
      ensures Refusals(l, accepts, i) == Refusals(log, accepts, i)
          && Reported(l, accepts, i) == Reported(log, accepts, i)
    {
      TalliesOfPrefix(log, [body], accepts, i);
    }
    forall i | 0 <= i < |l| ensures Truthful(l, accepts, i) {
      if i < |log| { assert Truthful(log, accepts, i); }
    }
  }

  lemma DecodedSnoc(log: seq<Body>, body: Body)
    ensures Decoded(log + [body]) == Decoded(log) + Decoded([body])
  {
    assert (log + [body])[..|log|] == log && [body][..0] == [];
  }

  lemma DecodedOutput(log: seq<Body>, chunk: seq<Byte>)
    ensures Decoded(log + [Output(Encode(chunk))]) == Decoded(log) + [chunk]
    ensures Decode(Encode(chunk)).Some?
  {
    DecodeEncode(chunk);
    assert (log + [Output(Encode(chunk))])[..|log|] == log;
  }

  lemma DecodedReport(log: seq<Body>, count: nat)
    ensures Decoded(log + [OutputDropped(count)]) == Decoded(log)
  {
    assert (log + [OutputDropped(count)])[..|log|] == log;
  }

  lemma NothingPublished(accepts: nat -> bool)
    ensures Sound([], accepts, 0) && Decodable([])
  {
  }

  /** One iteration: a report if refusals are pending, then the chunk.  If the report is refused too,
      the count stays pending. */
  method PublishChunk(log: seq<Body>, droppedSinceFlush: nat, chunk: seq<Byte>, accepts: nat -> bool)
      returns (log': seq<Body>, dropped': nat)
    requires Sound(log, accepts, droppedSinceFlush)
    requires Decodable(log)
    ensures Sound(log', accepts, dropped') && Decodable(log')
    ensures Decoded(log') == Decoded(log) + [chunk]
  {
    log', dropped' := log, droppedSinceFlush;
    if dropped' > 0 {
      var report := OutputDropped(dropped');
      var accepted := accepts(|log'|);
      PublishKeepsSound(log', report, accepts, dropped', if accepted then 0 else dropped');
      DecodedReport(log', dropped');
      log' := log' + [report];
      if accepted { dropped' := 0; }
    }
    var output := Output(Encode(chunk));
    var accepted := accepts(|log'|);
    PublishKeepsSound(log', output, accepts, dropped', if accepted then dropped' else dropped' + 1);
    DecodedOutput(log', chunk);
    log' := log' + [output];
    if !accepted { dropped' := dropped' + 1; }
  }

  /** Publishes one chunk after another.  `droppedSinceFlush` is at every moment the number of refused
      outputs that no accepted report has covered yet. */
  method OutputLoop(input: seq<Read>, accepts: nat -> bool) returns (log: seq<Body>, droppedSinceFlush: nat)
    ensures Decoded(log) == Chunks(input)
    ensures Sound(log, accepts, droppedSinceFlush) && Decodable(log)
  {
    hide Sound, Decodable, Truthful, Refusals, Reported, Encode, Decode;
    log, droppedSinceFlush := [], 0;
    NothingPublished(accepts);
    var i := 0;
    while i < |input|
      invariant i <= |input|
      invariant !Failed(input[..i])
      invariant Decoded(log) == Chunks(input[..i])
      invariant Sound(log, accepts, droppedSinceFlush) && Decodable(log)
    {
      assert input[..i + 1][..i] == input[..i];
      if input[i].data != [] {
        log, droppedSinceFlush := PublishChunk(log, droppedSinceFlush, input[i].data, accepts);
      }
      if input[i].failed {
        assert input[..i + 1][i].failed;
        NothingAfterFailure(input, i + 1);
        return;
      }
      i := i + 1;
    }
    assert input[..|input|] == input;
  }

  /** Reports cover refusals; a loop that is never refused never reports. */
  lemma NeverRefusedNeverReports(log: seq<Body>, accepts: nat -> bool, pending: nat)
    requires Sound(log, accepts, pending)
    requires forall k: nat :: k < |log| ==> accepts(k)
    ensures pending == 0 && forall k :: 0 <= k < |log| ==> log[k].Output?
  {
    forall k | 0 <= k <= |log| ensures Refusals(log, accepts, k) == 0 { NoRefusals(log, accepts, k); }
    forall k | 0 <= k < |log| ensures log[k].Output? { assert Truthful(log, accepts, k); }
  }

  lemma {:induction false} NoRefusals(log: seq<Body>, accepts: nat -> bool, n: nat)
    requires n <= |log| && forall k: nat :: k < |log| ==> accepts(k)
    ensures Refusals(log, accepts, n) == 0
  {
    if n > 0 { NoRefusals(log, accepts, n - 1); }
  }
}
