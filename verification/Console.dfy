/** kernel/uart.c over the queues of kernel/sched.c, as both are changed in place. Every operation is
    shown to do what the scheduler machine does in one step.

    A call that waits gives up the processor, so the loop around `wait` is entered again by Resume. */
module Console {
  import opened Memlayout
  import opened Uart
  import opened Scheduler
  import opened RunQueues

  /** The oldest byte of the output ring goes to the device. */
  function Sent(s: Sys): Sys
    requires s.outRing != []
  {
    s.(outRing := s.outRing[1..], wire := s.wire + [s.outRing[0]], buffered := s.buffered + [s.outRing[0]])
  }

  /** Sending one byte first and then what is left to send. */
  lemma StartOne(s: Sys, ready: nat)
    requires s.outRing != [] && ready > 0
    ensures UartStart(s, ready) == UartStart(Sent(s), ready - 1)
  {
    var n := if ready < |s.outRing| then ready else |s.outRing|;
    var q := s.outRing[1..];
    assert q[n - 1..] == s.outRing[n..];
    assert s.outRing[..n] == [s.outRing[0]] + q[..n - 1];
    assert s.wire + s.outRing[..n] == s.wire + [s.outRing[0]] + q[..n - 1];
    assert s.buffered + s.outRing[..n] == s.buffered + [s.outRing[0]] + q[..n - 1];
  }

  lemma StartNone(s: Sys, ready: nat)
    requires s.outRing == [] || ready == 0
    ensures UartStart(s, ready) == s
  {
    assert s.outRing[0..] == s.outRing && s.wire + [] == s.wire && s.buffered + [] == s.buffered;
  }

  /** The machine before init has been created. */
  const Empty := Booted.(tasks := [], doing := map[])

  class Processor {
    const queues: Queues
    const inRing: Ring
    const outRing: Ring
    var wire: seq<u8>
    ghost var doing: map<Tid, Doing>
    ghost var put: seq<u8>
    ghost var direct: seq<u8>
    ghost var buffered: seq<u8>
    ghost var accepted: seq<u8>
    ghost var received: seq<u8>
    ghost var delivered: seq<u8>
    ghost var dropped: seq<u8>

    ghost function Own(): set<object> {
      {this, inRing, inRing.buf, outRing, outRing.buf}
    }

    ghost function Repr(): set<object>
      reads this, queues
    {
      Own() + queues.Repr
    }

    ghost predicate Valid()
      reads this, queues, Repr()
    {
      && queues.Valid() && Own() !! queues.Repr && queues in queues.Repr
      && inRing != outRing && inRing.buf != outRing.buf && inRing.Valid() && outRing.Valid()
    }

    ghost function State(): Sys
      requires Valid()
      reads this, queues, Repr()
    {
      var now := queues.Now();
      Sys(now.tasks, now.current, now.waitIn, now.waitOut, doing, inRing.Contents(), outRing.Contents(),
          put, wire, direct, buffered, accepted, received, delivered, dropped)
    }

    /** sched_init and uart_init. */
    constructor ()
      ensures Valid() && fresh(Repr()) && State() == Empty
    {
      inRing := new Ring();
      outRing := new Ring();
      queues := new Queues();
      doing := map[];
      wire, put, direct, buffered, accepted, received, delivered, dropped := [], [], [], [], [], [], [], [];
    }

    /** The queueing of init. */
    method StartInit()
      requires Valid() && State() == Empty
      modifies this`doing, queues.Repr
      ensures Valid() && fresh(queues.Repr - old(queues.Repr)) && State() == Booted
    {
      hide Window, Distance, Ring.Valid, Ring.Contents, Queues.Valid, Queues.Now;
      queues.Start(INIT);
      doing := map[INIT := User];
    }

    /** do_schedule, up to the jump into the task. Without a task the processor goes idle. */
    method DoSchedule() returns (idle: bool)
      requires Valid() && State().current == None
      modifies queues.Repr
      ensures Valid() && queues.Repr == old(queues.Repr) && (idle <==> old(State()).tasks == [])
      ensures State() == if idle then old(State()) else Step(old(State()), Dispatch)
    {
      hide Window, Distance, Ring.Valid, Ring.Contents, Queues.Valid;
      idle := queues.DoSchedule();
    }

    /** schedule_next, up to the call of schedule. */
    method ScheduleNext()
      requires Valid() && State().current.Some?
      modifies queues.Repr
      ensures Valid() && queues.Repr == old(queues.Repr) && State() == Requeue(old(State()))
    {
      hide Window, Distance, Ring.Valid, Ring.Contents, Queues.Valid;
      queues.ScheduleNext();
    }

    /** The timer interrupt. */
    method TimerTick()
      requires Valid() && Enabled(State(), Tick)
      modifies queues.Repr
      ensures Valid() && queues.Repr == old(queues.Repr) && State() == Step(old(State()), Tick)
    {
      hide Window, Distance, Ring.Valid, Ring.Contents, Queues.Valid;
      if queues.currentNode != null {
        queues.ScheduleNext();
      }
    }

    /** The queueing of a new task in task_init_sched. */
    method Start(child: Tid)
      requires Valid() && Enabled(State(), Fork(child))
      modifies this`doing, queues.Repr
      ensures Valid() && fresh(queues.Repr - old(queues.Repr)) && State() == Step(old(State()), Fork(child))
    {
      hide Window, Distance, Ring.Valid, Ring.Contents, Queues.Valid, Queues.Now;
      queues.Start(child);
      doing := doing[child := User];
    }

    /** What task_destroy does to the scheduler. */
    method Quit()
      requires Valid() && Enabled(State(), Exit)
      modifies this`doing, queues.Repr
      ensures Valid() && queues.Repr == old(queues.Repr) && State() == Step(old(State()), Exit)
    {
      hide Window, Distance, Ring.Valid, Ring.Contents, Queues.Valid;
      ghost var t := queues.currentNode.value;
      queues.Quit();
      doing := doing - {t};
    }

    /** One round of the loop of uartstart. */
    method SendOne()
      requires Valid() && State().outRing != []
      modifies this`wire, this`buffered, outRing`r
      ensures Valid() && State() == old(Sent(State()))
    {
      hide Window, Distance, Ring.Valid, Ring.Contents, Queues.Valid, Queues.Now;
      var c := outRing.Get();
      wire, buffered := wire + [c], buffered + [c];
    }

    /** uartstart, with a device that takes `ready` bytes. */
    method SendBuffered(ready: nat)
      requires Valid()
      modifies this`wire, this`buffered, outRing`r
      ensures Valid() && State() == UartStart(old(State()), ready)
    {
      hide UartStart, Sent, Window, Distance, Ring.Valid, Ring.Contents, Queues.Valid, Queues.Now;
      var left: nat := ready;
      ghost var s := State();
      var empty := outRing.Empty();
      while !empty && left > 0
        invariant Valid() && s == State() && (empty <==> s.outRing == [])
        invariant UartStart(s, left) == UartStart(old(State()), ready)
        decreases left
      {
        StartOne(s, left);
        SendOne();
        s := Sent(s);
        left := left - 1;
        empty := outRing.Empty();
      }
      StartNone(State(), left);
    }

    /** getchar: takes the oldest byte, or waits for one. */
    method Getchar() returns (c: Option<u8>)
      requires Valid() && State().current.Some?
      modifies this`doing, this`delivered, inRing`r, queues.Repr
      ensures Valid() && queues.Repr == old(queues.Repr) && State() == GetcharLoop(old(State()))
      ensures c == if old(State()).inRing == [] then None else Some(old(State()).inRing[0])
    {
      hide Window, Distance, Ring.Valid, Ring.Contents, Queues.Valid, Queues.Now;
      queues.CurrentIs();
      var t := queues.currentNode.value;
      var empty := inRing.Empty();
      if empty {
        doing := doing[t := InGetchar];
        queues.WaitIn();
        return None;
      }
      var b := inRing.Get();
      delivered := delivered + [b];
      doing := doing[t := User];
      c := Some(b);
    }

    /** uartputc behind the test of the device: buffers the byte, or waits for room. */
    method Buffer(c: u8, ready: nat)
      requires Valid() && State().current.Some?
      modifies this, outRing, outRing.buf, queues.Repr
      ensures Valid() && queues.Repr == old(queues.Repr) && State() == PutcharLoop(old(State()), c, ready)
    {
      hide Window, Distance, Ring.Valid, Ring.Contents, Queues.Valid, Queues.Now;
      queues.CurrentIs();
      var t := queues.currentNode.value;
      ghost var s := State();
      var full := outRing.Full();
      if full {
        doing := doing[t := InPutchar(c)];
        queues.WaitOut();
      } else {
        outRing.Put(c);
        accepted := accepted + [c];
        doing := doing[t := User];
        assert State() == s.(outRing := s.outRing + [c], accepted := s.accepted + [c], doing := s.doing[s.current.value := User]);
        SendBuffered(ready);
      }
    }

    /** uartputc. `idle` is what the device said. */
    method Uartputc(c: u8, idle: bool, ready: nat)
      requires Valid() && Enabled(State(), Putchar(c, idle, ready))
      modifies this, outRing, outRing.buf, queues.Repr
      ensures Valid() && queues.Repr == old(queues.Repr) && State() == Step(old(State()), Putchar(c, idle, ready))
    {
      hide Window, Distance, Ring.Valid, Ring.Contents, Queues.Valid, Queues.Now;
      put := put + [c];
      if idle {
        wire, direct := wire + [c], direct + [c];
      } else {
        Buffer(c, ready);
      }
    }

    /** The first loop of uartintr. */
    method ReceiveAll(bytes: seq<u8>)
      requires Valid()
      modifies this`received, this`dropped, inRing`w, inRing.buf
      ensures Valid() && State() == Receive(old(State()), bytes)
    {
      hide Window, Distance, Ring.Valid, Ring.Contents, Queues.Valid, Queues.Now;
      for i := 0 to |bytes|
        invariant Valid() && Receive(State(), bytes[i..]) == Receive(old(State()), bytes)
      {
        ghost var rest := bytes[i..];
        assert rest[0] == bytes[i] && rest[1..] == bytes[i + 1..];
        var full := inRing.Full();
        if !full {
          inRing.Put(bytes[i]);
          received := received + [bytes[i]];
        } else {
          dropped := dropped + [bytes[i]];
        }
      }
    }

    /** uartintr. */
    method Uartintr(bytes: seq<u8>, ready: nat)
      requires Valid()
      modifies Repr()
      ensures Valid() && queues.Repr == old(queues.Repr) && State() == UartIntr(old(State()), bytes, ready)
    {
      hide Window, Distance, Ring.Valid, Ring.Contents, Queues.Valid, Queues.Now, Receive, UartStart;
      ReceiveAll(bytes);
      if bytes != [] {
        queues.WakeupIn();
      }
      SendBuffered(ready);
      var full := outRing.Full();
      if !full {
        queues.WakeupOut();
      }
    }
  }
}
