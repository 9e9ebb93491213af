/** The pump object of `ws/pump.go`, run by one goroutine at a time.  Its calls are runs of the machine
    in `PumpMachine`, so every law about reachable states holds of it; the contracts add what one call
    comes to when nobody interferes. */
module PumpObject {
  import opened PumpMachine

  /** What a Send comes to.  On a closed pump both cases of its select are ready. */
  datatype SendOutcome = Queued | HandedToDropFn | Blocks | Panics

  class WritePump {
    var out: seq<Frame>
    var done: bool
    var sent: seq<Frame>     // what reached the socket
    var lost: seq<Frame>     // the frame whose write failed
    var evicted: seq<Frame>  // the calls of dropFn: by Publish for the oldest frame,
    var refused: seq<Frame>  // by Publish and Send for their own frame,
    var drained: seq<Frame>  // and by the loop after a failed write
    ghost var events: seq<Event>
    ghost var machine: State

    ghost predicate Valid()
      reads this
    {
      && RunFrom(INIT, events) == Next(machine)
      && machine.queue == out && machine.written == sent && machine.failed == lost
      && machine.evicted == evicted && machine.refused == refused && machine.drained == drained
      && machine.calls == map[]
      && |out| <= BUFFER_SIZE
      && machine.closing == (if done then OutClosed else Open)
    }

    ghost predicate IsNext(f: Frame)
      reads this
    {
      f == Frame(f.producer, Issued(machine, f.producer))
    }

    constructor ()
      ensures Valid()
      ensures out == [] && !done && sent == [] && lost == [] && evicted == [] && refused == [] && drained == []
    {
      out, sent, lost, evicted, refused, drained, done := [], [], [], [], [], [], false;
      events, machine := [], INIT;
    }

    ghost method Advance(e: Event)
      requires RunFrom(INIT, events) == Next(machine) && Step(machine, e).Next?
      modifies `events, `machine
      ensures RunFrom(INIT, events) == Next(machine) && Next(machine) == old(Step(machine, e))
    {
      RunAppend(INIT, events, machine, [e]);
      RunSingle(machine, e);
      events := events + [e];
      machine := Step(machine, e).state;
    }

    ghost method AdvancePublish(p: Producer)
      requires RunFrom(INIT, events) == Next(machine) && p !in machine.calls && |machine.queue| <= BUFFER_SIZE
      modifies `events, `machine
      ensures RunFrom(INIT, events) == Next(machine) && machine == old(Published(machine, p))
    {
      UninterruptedPublish(machine, p);
      RunAppend(INIT, events, machine, PublishEvents(machine, p));
      events := events + PublishEvents(machine, p);
      machine := Published(machine, p);
    }

    ghost method AdvanceWrite(ok: bool)
      requires RunFrom(INIT, events) == Next(machine) && machine.loop == Ranging && machine.queue != []
      modifies `events, `machine
      ensures RunFrom(INIT, events) == Next(machine)
      ensures machine == old(machine).(
                queue := old(machine).queue[1..], taken := machine.taken,
                loop := if ok then Ranging else Failing, writtenAt := machine.writtenAt,
                written := old(machine).written + (if ok then [old(machine).queue[0]] else []),
                failed := old(machine).failed + (if ok then [] else [old(machine).queue[0]]))
    {
      Advance(Receive);
      Advance(if ok then WriteOk else WriteError);
    }

    ghost method AdvanceDrain()
      requires RunFrom(INIT, events) == Next(machine) && machine.loop == Draining && machine.queue != []
      modifies `events, `machine
      ensures RunFrom(INIT, events) == Next(machine)
      ensures machine == old(machine).(
                queue := old(machine).queue[1..], taken := machine.taken,
                drained := old(machine).drained + [old(machine).queue[0]])
    {
      Advance(DrainOne);
    }

    ghost method AdvanceLoop(e: Event)
      requires RunFrom(INIT, events) == Next(machine) && machine.closing == OutClosed
      requires if e == BeginDrain then machine.loop == Failing
               else e == Exit && (machine.loop == Ranging || machine.loop == Draining) && machine.queue == []
      modifies `events, `machine
      ensures RunFrom(INIT, events) == Next(machine)
      ensures machine == old(machine).(loop := if e == Exit then Exited else Draining)
    {
      Advance(e);
    }

    /** On an open pump Publish always succeeds, at the price of the oldest frame of a full buffer; on
        a closed one it hands its frame to dropFn. */
    method Publish(f: Frame) returns (ok: bool)
      requires Valid() && IsNext(f)
      modifies this
      ensures Valid() && machine == old(Published(machine, f.producer))
      ensures ok == !old(done)
      ensures ok ==> out == old(if |out| == BUFFER_SIZE then out[1..] else out) + [f] && refused == old(refused)
      ensures ok ==> evicted == old(if |out| == BUFFER_SIZE then evicted + [out[0]] else evicted)
      ensures !ok ==> out == old(out) && refused == old(refused) + [f] && evicted == old(evicted)
      ensures done == old(done) && sent == old(sent) && lost == old(lost) && drained == old(drained)
    {
      AdvancePublish(f.producer);
      if done {
        refused := refused + [f];
        return false;
      }
      if |out| < BUFFER_SIZE {
        out := out + [f];
        return true;
      }
      // Buffer full: drop one to make room, then retry once.
      evicted := evicted + [out[0]];
      out := out[1..];
      out := out + [f];
      return true;
    }

    /** Send never loses a frame of an open pump: it enqueues or it keeps waiting. */
    method Send(f: Frame, takesSend: bool) returns (o: SendOutcome)
      requires Valid() && IsNext(f)
      modifies this
      ensures o == Queued || o == HandedToDropFn ==> Valid()
      ensures o == if old(done) then (if takesSend then Panics else HandedToDropFn)
                   else if old(|out|) < BUFFER_SIZE then Queued else Blocks
      ensures out == if o == Queued then old(out) + [f] else old(out)
      ensures refused == if o == HandedToDropFn then old(refused) + [f] else old(refused)
      ensures done == old(done) && sent == old(sent) && lost == old(lost)
      ensures evicted == old(evicted) && drained == old(drained)
    {
      ghost var p := f.producer;
      Advance(Submit(p, Sending));
      if done {
        if takesSend { return Panics; }
        Advance(Refuse(p));
        refused := refused + [f];
        return HandedToDropFn;
      }
      if |out| < BUFFER_SIZE {
        Advance(Enqueue(p));
        out := out + [f];
        return Queued;
      }
      return Blocks;
    }

    /** Idempotent. */
    method Close()
      requires Valid()
      modifies `done, `events, `machine
      ensures Valid() && done && machine.loop == old(machine.loop)
      ensures out == old(out) && sent == old(sent) && lost == old(lost)
      ensures evicted == old(evicted) && refused == old(refused) && drained == old(drained)
    {
      if !done {
        done := true;
        Advance(CloseDone);
        Advance(CloseOut);
      }
    }

    /** The loop goroutine, until there is nothing to write: it then waits on an open pump and ends on a
        closed one.  It writes the buffered frames oldest first; after the first write that fails, at
        position `n`, it closes the pump, the rest goes to dropFn and that one frame to nobody. */
    method Loop(succeeds: seq<bool>) returns (n: nat)
      requires Valid() && machine.loop == Ranging
      requires |succeeds| == |out|
      modifies this
      ensures Valid() && out == []
      ensures n <= |succeeds| && (forall i :: 0 <= i < n ==> succeeds[i]) && (n < |succeeds| ==> !succeeds[n])
      ensures sent == old(sent) + old(out)[..n]
      ensures n == |succeeds| ==> lost == old(lost) && drained == old(drained)
      ensures n < |succeeds| ==> lost == old(lost) + [old(out)[n]] && drained == old(drained) + old(out)[n + 1..]
      ensures done <==> old(done) || n < |succeeds|
      ensures machine.loop == if done then Exited else Ranging
      ensures evicted == old(evicted) && refused == old(refused)
    {
      hide Step, RunFrom;
      n := 0;
      ghost var buffered := out;
      while out != []
        invariant n <= |buffered| && out == buffered[n..]
        invariant forall i :: 0 <= i < n ==> succeeds[i]
        invariant sent == old(sent) + buffered[..n] && lost == old(lost) && drained == old(drained)
        invariant evicted == old(evicted) && refused == old(refused)
        invariant Valid() && done == old(done) && machine.loop == Ranging
        decreases |out|
      {
        var f := out[0];
        out := out[1..];
        AdvanceWrite(succeeds[n]);
        if !succeeds[n] {
          lost := lost + [f];
          Close();
          Drain();
          return;
        }
        sent := sent + [f];
        n := n + 1;
      }
      if done { AdvanceLoop(Exit); }
    }

    /** The inner loop, after a write error. */
    method Drain()
      requires Valid() && done && machine.loop == Failing
      modifies this
      ensures Valid() && done && machine.loop == Exited && out == []
      ensures drained == old(drained) + old(out)
      ensures sent == old(sent) && lost == old(lost) && evicted == old(evicted) && refused == old(refused)
    {
      hide Step, RunFrom;
      AdvanceLoop(BeginDrain);
      ghost var k, buffered := 0, out;
      while out != []
        invariant k <= |buffered| && out == buffered[k..] && drained == old(drained) + buffered[..k]
        invariant sent == old(sent) && lost == old(lost) && evicted == old(evicted) && refused == old(refused)
        invariant Valid() && done && machine.loop == Draining
        decreases |out|
      {
        drained := drained + [out[0]];
        out := out[1..];
        AdvanceDrain();
        k := k + 1;
      }
      AdvanceLoop(Exit);
    }
  }
}
