/** The scheduler of kernel/sched.c with the UART driver of kernel/uart.c on top, as a machine.

    The kernel is entered with interrupts off and only `idle` turns them on, so what happens between
    two points where the current task changes is one step. */
module Scheduler {
  import opened Memlayout
  import opened Uart

  type Tid = nat
  const INIT: Tid := 1

  /** Where a task goes on when it is dispatched: in user mode, or behind a `wait` in the kernel. */
  datatype Doing = User | InGetchar | InPutchar(c: u8)

  /** `put` is every byte given to uartputc. `direct` and `buffered` are the bytes written to the device on the two paths of uartputc,
      `wire` all of them in order; `accepted` those put into the output ring; `received` and
      `delivered` those put into the input ring and handed out by getchar, `dropped` those that
      arrived when it was full. */
  datatype Sys = Sys(
    tasks: seq<Tid>, current: Option<Tid>, waitIn: seq<Tid>, waitOut: seq<Tid>, doing: map<Tid, Doing>,
    inRing: seq<u8>, outRing: seq<u8>,
    put: seq<u8>, wire: seq<u8>, direct: seq<u8>, buffered: seq<u8>, accepted: seq<u8>,
    received: seq<u8>, delivered: seq<u8>, dropped: seq<u8>)

  /** What can happen. `idle` is whether the device was ready when uartputc looked; `ready` is how
      many bytes the device takes before it is busy. */
  datatype Event =
    | Dispatch
    | Getchar
    | Putchar(c: u8, idle: bool, ready: nat)
    | Resume(ready: nat)
    | Yield
    | Fork(child: Tid)
    | Exit
    | Tick
    | Interrupt(bytes: seq<u8>, ready: nat)

  // ---------------------------------------------------------------- the pieces

  /** list_push of the current node on `tasks`, as in schedule_next. */
  function Requeue(s: Sys): Sys
    requires s.current.Some?
  {
    s.(tasks := s.tasks + [s.current.value], current := None)
  }

  /** uartstart, with a device that takes `ready` bytes. */
  function UartStart(s: Sys, ready: nat): (s': Sys)
  {
    var n := if ready < |s.outRing| then ready else |s.outRing|;
    s.(outRing := s.outRing[n..], wire := s.wire + s.outRing[..n], buffered := s.buffered + s.outRing[..n])
  }

  /** The loop of getchar, from the start or after a wait. */
  function GetcharLoop(s: Sys): Sys
    requires s.current.Some?
  {
    if s.inRing == [] then
      s.(waitIn := s.waitIn + [s.current.value], doing := s.doing[s.current.value := InGetchar], current := None)
    else
      s.(inRing := s.inRing[1..], delivered := s.delivered + [s.inRing[0]], doing := s.doing[s.current.value := User])
  }

  /** The loop of uartputc, from the start or after a wait. */
  function PutcharLoop(s: Sys, c: u8, ready: nat): Sys
    requires s.current.Some?
  {
    if |s.outRing| == UART_TX_BUF_SIZE then
      s.(waitOut := s.waitOut + [s.current.value], doing := s.doing[s.current.value := InPutchar(c)], current := None)
    else
      UartStart(s.(outRing := s.outRing + [c], accepted := s.accepted + [c], doing := s.doing[s.current.value := User]), ready)
  }

  /** uartputc when the device is ready: the byte goes out at once. */
  function PutDirect(s: Sys, c: u8): Sys {
    s.(wire := s.wire + [c], direct := s.direct + [c])
  }

  /** The receiving loop of uartintr. */
  function Receive(s: Sys, bytes: seq<u8>): Sys
    decreases |bytes|
  {
    if bytes == [] then s
    else if |s.inRing| == UART_TX_BUF_SIZE then Receive(s.(dropped := s.dropped + [bytes[0]]), bytes[1..])
    else Receive(s.(inRing := s.inRing + [bytes[0]], received := s.received + [bytes[0]]), bytes[1..])
  }

  function WakeIn(s: Sys): Sys {
    s.(tasks := s.tasks + s.waitIn, waitIn := [])
  }

  function WakeOut(s: Sys): Sys {
    s.(tasks := s.tasks + s.waitOut, waitOut := [])
  }

  /** uartintr. */
  function UartIntr(s: Sys, bytes: seq<u8>, ready: nat): Sys {
    var s1 := Receive(s, bytes);
    var s2 := if bytes != [] then WakeIn(s1) else s1;
    var s3 := UartStart(s2, ready);
    if |s3.outRing| == UART_TX_BUF_SIZE then s3 else WakeOut(s3)
  }

  // ---------------------------------------------------------------- the machine

  /** The current task is in user mode. */
  predicate InUserMode(s: Sys) {
    s.current.Some? && s.current.value in s.doing && s.doing[s.current.value] == User
  }

  /** There is no task to run, and interrupts are on. */
  predicate Idle(s: Sys) {
    s.current.None? && s.tasks == []
  }

  predicate Enabled(s: Sys, e: Event) {
    match e
    case Dispatch => s.current.None? && s.tasks != []
    case Resume(_) => s.current.Some? && s.current.value in s.doing && s.doing[s.current.value] != User
    case Fork(child) => InUserMode(s) && child !in s.doing
    case Exit => InUserMode(s) && s.current.value != INIT
    case Tick => InUserMode(s) || Idle(s)
    case Interrupt(_, _) => InUserMode(s) || Idle(s)
    case _ => InUserMode(s)
  }

  function Step(s: Sys, e: Event): Sys
    requires Enabled(s, e)
  {
    match e
    case Dispatch => s.(current := Some(s.tasks[0]), tasks := s.tasks[1..])
    case Getchar => GetcharLoop(s)
    case Putchar(c, idle, ready) =>
      var s1 := s.(put := s.put + [c]);
      if idle then PutDirect(s1, c) else PutcharLoop(s1, c, ready)
    case Resume(ready) =>
      (match s.doing[s.current.value]
       case InPutchar(c) => PutcharLoop(s, c, ready)
       case _ => GetcharLoop(s))
    case Yield => Requeue(s)
    case Fork(child) => s.(tasks := s.tasks + [child], doing := s.doing[child := User])
    case Exit => s.(current := None, doing := s.doing - {s.current.value})
    case Tick => if s.current.Some? then Requeue(s) else s
    case Interrupt(bytes, ready) => UartIntr(s, bytes, ready)
  }

  ghost predicate Run(s: Sys, es: seq<Event>, t: Sys)
    decreases |es|
  {
    if es == [] then s == t else Enabled(s, es[0]) && Run(Step(s, es[0]), es[1..], t)
  }

  /** The machine when init has been created. */
  const Booted := Sys([INIT], None, [], [], map[INIT := User], [], [], [], [], [], [], [], [], [], [])

  // ---------------------------------------------------------------- every task in one place

  function One(o: Option<Tid>): multiset<Tid> {
    if o.Some? then multiset{o.value} else multiset{}
  }

  /** How often each task occurs among current, `tasks`, `wait_in` and `wait_out`. */
  function Census(s: Sys): multiset<Tid> {
    One(s.current) + multiset(s.tasks) + multiset(s.waitIn) + multiset(s.waitOut)
  }

  ghost predicate Partition(s: Sys) {
    Census(s) == multiset(s.doing.Keys)
  }

  /** Those who wait are where they wait for. */
  ghost predicate WaitersOk(s: Sys) {
    && (forall t | t in s.waitIn :: t in s.doing && s.doing[t] == InGetchar)
    && (forall t | t in s.waitOut :: t in s.doing && s.doing[t].InPutchar?)
  }

  /** Nobody waits for what is there. */
  ghost predicate NoLostWakeup(s: Sys) {
    && (s.waitIn != [] ==> s.inRing == [])
    && (s.waitOut != [] ==> |s.outRing| == UART_TX_BUF_SIZE)
  }

  /** `w` is made of the bytes of `a` and of `b`, each in their order. */
  ghost predicate Interleaved(w: seq<u8>, a: seq<u8>, b: seq<u8>)
    decreases |w|
  {
    if w == [] then a == [] && b == []
    else
      var n := |w| - 1;
      || (a != [] && a[|a| - 1] == w[n] && Interleaved(w[..n], a[..|a| - 1], b))
      || (b != [] && b[|b| - 1] == w[n] && Interleaved(w[..n], a, b[..|b| - 1]))
  }

  lemma {:induction false} InterleavedMore(w: seq<u8>, a: seq<u8>, b: seq<u8>, more: seq<u8>)
    requires Interleaved(w, a, b)
    ensures Interleaved(w + more, a, b + more)
    decreases |more|
  {
    if more == [] {
      assert w + more == w && b + more == b;
    } else {
      var n := |more| - 1;
      InterleavedMore(w, a, b, more[..n]);
      assert (w + more)[..|w| + n] == w + more[..n] && (b + more)[..|b| + n] == b + more[..n];
    }
  }

  lemma InterleavedDirect(w: seq<u8>, a: seq<u8>, b: seq<u8>, c: u8)
    requires Interleaved(w, a, b)
    ensures Interleaved(w + [c], a + [c], b)
  {
    assert (w + [c])[..|w|] == w && (a + [c])[..|a|] == a;
  }

  /** The rings are bounded queues; what leaves them is what entered them, in order; and the device
      gets what went past the ring and what went through it, each in its order. */
  ghost predicate QueuesOk(s: Sys) {
    && |s.inRing| <= UART_TX_BUF_SIZE && |s.outRing| <= UART_TX_BUF_SIZE
    && s.accepted == s.buffered + s.outRing && s.received == s.delivered + s.inRing
    && Interleaved(s.wire, s.direct, s.buffered)
  }

  /** The tasks that wait to put byte `b`. */
  function Pending(s: Sys, b: u8): set<Tid> {
    set t | t in s.doing && s.doing[t] == InPutchar(b)
  }

  /** Every byte put is either written past the ring, or put into it, or waited with, and only once. */
  ghost predicate Accounted(s: Sys, b: u8) {
    multiset(s.put)[b] == multiset(s.direct)[b] + multiset(s.accepted)[b] + |Pending(s, b)|
  }

  ghost predicate Inv(s: Sys) {
    Partition(s) && WaitersOk(s) && NoLostWakeup(s) && QueuesOk(s) && forall b :: Accounted(s, b)
  }

  lemma BootedInv()
    ensures Inv(Booted)
  {
    assert multiset(Booted.doing.Keys) == multiset{INIT};
    assert forall b :: Pending(Booted, b) == {};
  }

  lemma {:induction false} ReceiveOk(s: Sys, bytes: seq<u8>)
    requires |s.inRing| <= UART_TX_BUF_SIZE && s.received == s.delivered + s.inRing
    ensures var s' := Receive(s, bytes);
            && s' == s.(inRing := s'.inRing, received := s'.received, dropped := s'.dropped)
            && |s'.inRing| <= UART_TX_BUF_SIZE && s'.received == s'.delivered + s'.inRing
            && (bytes == [] ==> s' == s)
    decreases |bytes|
  {
    if bytes != [] {
      ReceiveOk(if |s.inRing| == UART_TX_BUF_SIZE then s.(dropped := s.dropped + [bytes[0]])
                else s.(inRing := s.inRing + [bytes[0]], received := s.received + [bytes[0]]), bytes[1..]);
    }
  }

  /** Bytes are dropped only when the ring is full: those that fit are kept, in order, and the rest
      is dropped. */
  lemma {:induction false} ReceiveExactly(s: Sys, bytes: seq<u8>)
    requires |s.inRing| <= UART_TX_BUF_SIZE
    ensures var room := UART_TX_BUF_SIZE - |s.inRing|;
            var k := if |bytes| <= room then |bytes| else room;
            Receive(s, bytes) == s.(inRing := s.inRing + bytes[..k], received := s.received + bytes[..k], dropped := s.dropped + bytes[k..])
    decreases |bytes|
  {
    var room := UART_TX_BUF_SIZE - |s.inRing|;
    var k := if |bytes| <= room then |bytes| else room;
    if bytes == [] {
      assert s.inRing + bytes == s.inRing && s.received + bytes == s.received && s.dropped + bytes == s.dropped;
    } else if room == 0 {
      ReceiveExactly(s.(dropped := s.dropped + [bytes[0]]), bytes[1..]);
      assert bytes[..0] == [] && bytes[0..] == [bytes[0]] + bytes[1..];
      assert s.dropped + [bytes[0]] + bytes[1..] == s.dropped + bytes[0..];
    } else {
      ReceiveExactly(s.(inRing := s.inRing + [bytes[0]], received := s.received + [bytes[0]]), bytes[1..]);
      assert bytes[..k] == [bytes[0]] + bytes[1..][..k - 1] && bytes[k..] == bytes[1..][k - 1..];
      assert s.inRing + [bytes[0]] + bytes[1..][..k - 1] == s.inRing + bytes[..k];
      assert s.received + [bytes[0]] + bytes[1..][..k - 1] == s.received + bytes[..k];
    }
  }

  lemma StartOk(s: Sys, ready: nat)
    requires QueuesOk(s)
    ensures QueuesOk(UartStart(s, ready))
  {
    var n := if ready < |s.outRing| then ready else |s.outRing|;
    assert s.outRing == s.outRing[..n] + s.outRing[n..];
    assert s.buffered + s.outRing == s.buffered + s.outRing[..n] + s.outRing[n..];
    InterleavedMore(s.wire, s.direct, s.buffered, s.outRing[..n]);
  }

  /** The current task is nowhere else. */
  lemma CurrentElsewhere(s: Sys)
    requires Partition(s) && s.current.Some?
    ensures var t := s.current.value; t in s.doing && t !in s.tasks && t !in s.waitIn && t !in s.waitOut
  {
    assert Census(s)[s.current.value] >= 1;
  }

  lemma SamePlaces(s: Sys, s': Sys)
    requires Partition(s) && s'.doing.Keys == s.doing.Keys && Census(s') == Census(s)
    ensures Partition(s')
  {
  }

  lemma GetcharPlaces(s: Sys)
    requires Partition(s) && s.current.Some?
    ensures Partition(GetcharLoop(s))
  {
    CurrentElsewhere(s);
    SamePlaces(s, GetcharLoop(s));
  }

  lemma PutcharPlaces(s: Sys, c: u8, ready: nat)
    requires Partition(s) && s.current.Some?
    ensures Partition(PutcharLoop(s, c, ready))
  {
    CurrentElsewhere(s);
    SamePlaces(s, PutcharLoop(s, c, ready));
  }

  lemma WakePlaces(s: Sys)
    ensures Census(WakeIn(s)) == Census(s) && Census(WakeOut(s)) == Census(s)
  {
  }

  lemma ReceivePlaces(s: Sys, bytes: seq<u8>)
    ensures Census(Receive(s, bytes)) == Census(s) && Receive(s, bytes).doing == s.doing
  {
    ReceiveFrame(s, bytes);
    hide Receive;
  }

  lemma StartPlaces(s: Sys, ready: nat)
    ensures Census(UartStart(s, ready)) == Census(s) && UartStart(s, ready).doing == s.doing
  {
  }

  lemma IntrPlaces(s: Sys, bytes: seq<u8>, ready: nat)
    requires Partition(s)
    ensures Partition(UartIntr(s, bytes, ready))
  {
    hide Census, Receive, UartStart;
    var s1 := Receive(s, bytes);
    var s2 := if bytes != [] then WakeIn(s1) else s1;
    var s3 := UartStart(s2, ready);
    ReceivePlaces(s, bytes);
    WakePlaces(s1);
    StartPlaces(s2, ready);
    WakePlaces(s3);
    SamePlaces(s, UartIntr(s, bytes, ready));
  }

  lemma SetPlus(a: set<Tid>, x: Tid)
    requires x !in a
    ensures multiset(a + {x}) == multiset(a) + multiset{x}
  {
  }

  lemma ForkPlaces(s: Sys, child: Tid)
    requires Partition(s) && Enabled(s, Fork(child))
    ensures Partition(Step(s, Fork(child)))
  {
    var s' := Step(s, Fork(child));
    assert s'.doing.Keys == s.doing.Keys + {child};
    SetPlus(s.doing.Keys, child);
    assert Census(s') == Census(s) + multiset{child};
    hide Census;
  }

  lemma ExitPlaces(s: Sys)
    requires Partition(s) && Enabled(s, Exit)
    ensures Partition(Step(s, Exit))
  {
    var s' := Step(s, Exit);
    CurrentElsewhere(s);
    var keys := s'.doing.Keys;
    assert s.doing.Keys == keys + {s.current.value};
    SetPlus(keys, s.current.value);
    assert Census(s) == Census(s') + multiset{s.current.value};
    hide Census;
    assert Census(s') == Census(s) - multiset{s.current.value};
  }

  lemma StepPartition(s: Sys, e: Event)
    requires Partition(s) && Enabled(s, e)
    ensures Partition(Step(s, e))
  {
    hide Partition, Census, GetcharLoop, PutcharLoop, UartIntr;
    match e {
      case Dispatch => MovePlaces(s, e);
      case Getchar => GetcharPlaces(s);
      case Putchar(c, idle, ready) =>
        PutPlaces(s, c);
        if !idle { PutcharPlaces(s.(put := s.put + [c]), c, ready); }
      case Resume(ready) =>
        var d := s.doing[s.current.value];
        if d.InPutchar? { PutcharPlaces(s, d.c, ready); } else { GetcharPlaces(s); }
      case Yield => MovePlaces(s, e);
      case Fork(child) => ForkPlaces(s, child);
      case Exit => ExitPlaces(s);
      case Tick => MovePlaces(s, e);
      case Interrupt(bytes, ready) => IntrPlaces(s, bytes, ready);
    }
  }

  lemma MovePlaces(s: Sys, e: Event)
    requires Partition(s) && Enabled(s, e) && (e.Dispatch? || e.Yield? || e.Tick?)
    ensures Partition(Step(s, e))
  {
    if e.Dispatch? { assert s.tasks == [s.tasks[0]] + s.tasks[1..]; }
    SamePlaces(s, Step(s, e));
  }

  lemma PutPlaces(s: Sys, c: u8)
    requires Partition(s)
    ensures Partition(s.(put := s.put + [c])) && Partition(PutDirect(s.(put := s.put + [c]), c))
  {
  }

  lemma {:induction false} ReceiveFrame(s: Sys, bytes: seq<u8>)
    ensures var s' := Receive(s, bytes); s' == s.(inRing := s'.inRing, received := s'.received, dropped := s'.dropped)
    decreases |bytes|
  {
    if bytes != [] {
      ReceiveFrame(if |s.inRing| == UART_TX_BUF_SIZE then s.(dropped := s.dropped + [bytes[0]])
                   else s.(inRing := s.inRing + [bytes[0]], received := s.received + [bytes[0]]), bytes[1..]);
    }
  }

  ghost predicate Waiting(s: Sys) {
    WaitersOk(s) && NoLostWakeup(s)
  }

  lemma GetcharWaiters(s: Sys)
    requires Partition(s) && s.current.Some? && Waiting(s)
    ensures Waiting(GetcharLoop(s))
  {
    CurrentElsewhere(s);
    hide Partition;
  }

  lemma PutcharWaiters(s: Sys, c: u8, ready: nat)
    requires Partition(s) && s.current.Some? && Waiting(s) && |s.outRing| <= UART_TX_BUF_SIZE
    ensures Waiting(PutcharLoop(s, c, ready))
  {
    CurrentElsewhere(s);
    hide Partition;
  }

  lemma IntrWaiters(s: Sys, bytes: seq<u8>, ready: nat)
    requires Waiting(s) && QueuesOk(s)
    ensures Waiting(UartIntr(s, bytes, ready))
  {
    ReceiveOk(s, bytes);
  }

  lemma OtherWaiters(s: Sys, e: Event)
    requires Partition(s) && Waiting(s) && Enabled(s, e) && (e.Dispatch? || e.Yield? || e.Fork? || e.Exit? || e.Tick?)
    ensures Waiting(Step(s, e))
  {
    if s.current.Some? { CurrentElsewhere(s); }
    hide Partition;
  }

  lemma StepWaiters(s: Sys, e: Event)
    requires Partition(s) && Waiting(s) && QueuesOk(s) && Enabled(s, e)
    ensures Waiting(Step(s, e))
  {
    hide Waiting, GetcharLoop, PutcharLoop, UartIntr, Partition;
    match e {
      case Getchar => GetcharWaiters(s);
      case Putchar(c, idle, ready) =>
        PutPlaces(s, c);
        PutWaiters(s, c);
        if !idle { PutcharWaiters(s.(put := s.put + [c]), c, ready); }
      case Resume(ready) =>
        var d := s.doing[s.current.value];
        if d.InPutchar? { PutcharWaiters(s, d.c, ready); } else { GetcharWaiters(s); }
      case Interrupt(bytes, ready) => IntrWaiters(s, bytes, ready);
      case _ => OtherWaiters(s, e);
    }
  }

  lemma PutWaiters(s: Sys, c: u8)
    requires Waiting(s)
    ensures Waiting(s.(put := s.put + [c])) && Waiting(PutDirect(s.(put := s.put + [c]), c))
  {
  }

  lemma StepQueues(s: Sys, e: Event)
    requires QueuesOk(s) && Enabled(s, e)
    ensures QueuesOk(Step(s, e))
  {
    match e {
      case Putchar(c, idle, ready) =>
        if idle {
          InterleavedDirect(s.wire, s.direct, s.buffered, c);
        } else if |s.outRing| < UART_TX_BUF_SIZE {
          AcceptOk(s.(put := s.put + [c]), c, ready);
        }
      case Resume(ready) =>
        var d := s.doing[s.current.value];
        if d.InPutchar? && |s.outRing| < UART_TX_BUF_SIZE {
          AcceptOk(s, d.c, ready);
        } else if d.InGetchar? {
          TakeOk(s);
        }
      case Getchar => TakeOk(s);
      case Interrupt(bytes, ready) =>
        ReceiveOk(s, bytes);
        var s1 := Receive(s, bytes);
        StartOk(if bytes != [] then WakeIn(s1) else s1, ready);
      case _ =>
    }
  }

  lemma AcceptOk(s: Sys, c: u8, ready: nat)
    requires QueuesOk(s) && s.current.Some? && |s.outRing| < UART_TX_BUF_SIZE
    ensures QueuesOk(PutcharLoop(s, c, ready))
  {
    var s1 := s.(outRing := s.outRing + [c], accepted := s.accepted + [c], doing := s.doing[s.current.value := User]);
    assert s1.accepted == s1.buffered + s1.outRing;
    StartOk(s1, ready);
  }

  lemma TakeOk(s: Sys)
    requires QueuesOk(s) && s.current.Some?
    ensures QueuesOk(GetcharLoop(s))
  {
    if s.inRing != [] {
      assert s.inRing == [s.inRing[0]] + s.inRing[1..];
      assert s.delivered + s.inRing == s.delivered + [s.inRing[0]] + s.inRing[1..];
    }
  }

  /** How the waiting putters change with what task `t` does. */
  lemma PendingUpdate(s: Sys, s': Sys, t: Tid, b: u8)
    requires t in s.doing && t in s'.doing && s'.doing == s.doing[t := s'.doing[t]]
    ensures |Pending(s', b)| + (if s.doing[t] == InPutchar(b) then 1 else 0)
            == |Pending(s, b)| + (if s'.doing[t] == InPutchar(b) then 1 else 0)
  {
    var others := set u | u in s.doing && u != t && s.doing[u] == InPutchar(b);
    assert Pending(s, b) == if s.doing[t] == InPutchar(b) then others + {t} else others;
    assert Pending(s', b) == if s'.doing[t] == InPutchar(b) then others + {t} else others;
  }

  lemma PutcharAccounted(s: Sys, c: u8, ready: nat, b: u8)
    requires s.current.Some? && s.current.value in s.doing
    requires multiset(s.put)[b] + (if s.doing[s.current.value] == InPutchar(b) then 1 else 0)
             == multiset(s.direct)[b] + multiset(s.accepted)[b] + |Pending(s, b)| + (if b == c then 1 else 0)
    ensures Accounted(PutcharLoop(s, c, ready), b)
  {
    PendingUpdate(s, PutcharLoop(s, c, ready), s.current.value, b);
  }

  lemma GetcharAccounted(s: Sys, b: u8)
    requires s.current.Some? && s.current.value in s.doing && !s.doing[s.current.value].InPutchar? && Accounted(s, b)
    ensures Accounted(GetcharLoop(s), b)
  {
    PendingUpdate(s, GetcharLoop(s), s.current.value, b);
  }

  lemma OtherAccounted(s: Sys, e: Event, b: u8)
    requires Enabled(s, e) && Accounted(s, b) && (s.current.Some? ==> s.current.value in s.doing)
    requires !(e.Putchar? || e.Resume? || e.Getchar?)
    ensures Accounted(Step(s, e), b)
  {
    if e.Interrupt? { ReceiveFrame(s, e.bytes); }
    assert Pending(Step(s, e), b) == Pending(s, b);
  }

  lemma StepAccounted(s: Sys, e: Event, b: u8)
    requires Enabled(s, e) && (s.current.Some? ==> s.current.value in s.doing) && Accounted(s, b)
    ensures Accounted(Step(s, e), b)
  {
    hide GetcharLoop, PutcharLoop, UartIntr;
    match e {
      case Putchar(c, idle, ready) =>
        var s1 := s.(put := s.put + [c]);
        assert Pending(s1, b) == Pending(s, b) && Pending(PutDirect(s1, c), b) == Pending(s, b);
        if !idle { PutcharAccounted(s1, c, ready, b); }
      case Resume(ready) =>
        var d := s.doing[s.current.value];
        if d.InPutchar? { PutcharAccounted(s, d.c, ready, b); } else { GetcharAccounted(s, b); }
      case Getchar => GetcharAccounted(s, b);
      case _ => OtherAccounted(s, e, b);
    }
  }

  /** Every step keeps all of it. */
  lemma StepInv(s: Sys, e: Event)
    requires Inv(s) && Enabled(s, e)
    ensures Inv(Step(s, e))
  {
    if s.current.Some? { CurrentElsewhere(s); }
    assert Waiting(s);
    StepPartition(s, e);
    StepWaiters(s, e);
    StepQueues(s, e);
    forall b
      ensures Accounted(Step(s, e), b)
    {
      StepAccounted(s, e, b);
    }
  }

  /** And so does every run. */
  lemma {:induction false} RunInv(s: Sys, es: seq<Event>, t: Sys)
    requires Inv(s) && Run(s, es, t)
    ensures Inv(t)
    decreases |es|
  {
    if es != [] {
      StepInv(s, es[0]);
      RunInv(Step(s, es[0]), es[1..], t);
    }
  }

  /** In every state the kernel can reach, each task is in exactly one place, and nobody waits for
      input that is there or for room that is there. */
  lemma Reachable(es: seq<Event>, s: Sys, t: Tid)
    requires Run(Booted, es, s)
    ensures t in s.doing ==> Census(s)[t] == 1
    ensures t !in s.doing ==> Census(s)[t] == 0
    ensures NoLostWakeup(s) && QueuesOk(s)
  {
    BootedInv();
    RunInv(Booted, es, s);
  }

  // ---------------------------------------------------------------- first come, first served

  function Dispatches(es: seq<Event>): nat {
    if es == [] then 0 else (if es[0].Dispatch? then 1 else 0) + Dispatches(es[1..])
  }

  /** Only do_schedule takes tasks off the queue, and all others join at its end. */
  lemma StepQueue(s: Sys, e: Event)
    requires Enabled(s, e)
    ensures e.Dispatch? ==> Step(s, e).tasks == s.tasks[1..] && Step(s, e).current == Some(s.tasks[0])
    ensures !e.Dispatch? ==> s.tasks <= Step(s, e).tasks
  {
    if e.Interrupt? { ReceiveFrame(s, e.bytes); }
  }

  /** However many forks, wakeups, exits and ticks come between, a task with `k` others before it in
      the queue moves up by one with every dispatch, and is the one dispatched after `k` others. */
  lemma {:induction false} BoundedWaiting(s: Sys, es: seq<Event>, t: Sys, k: nat)
    requires Run(s, es, t) && k < |s.tasks|
    ensures Dispatches(es) <= k ==> k - Dispatches(es) < |t.tasks| && t.tasks[k - Dispatches(es)] == s.tasks[k]
    ensures es != [] && es[|es| - 1].Dispatch? && Dispatches(es) == k + 1 ==> t.current == Some(s.tasks[k])
    decreases |es|
  {
    if es != [] {
      StepQueue(s, es[0]);
      var s1 := Step(s, es[0]);
      if !es[0].Dispatch? {
        BoundedWaiting(s1, es[1..], t, k);
      } else if k > 0 {
        BoundedWaiting(s1, es[1..], t, k - 1);
      } else {
        if es[|es| - 1].Dispatch? { LastDispatch(es); }
      }
    }
  }

  lemma {:induction false} LastDispatch(es: seq<Event>)
    requires es != [] && es[0].Dispatch? && es[|es| - 1].Dispatch?
    ensures |es| > 1 ==> Dispatches(es) > 1
  {
    if |es| > 1 { CountLast(es[1..]); }
  }

  lemma {:induction false} CountLast(es: seq<Event>)
    requires es != [] && es[|es| - 1].Dispatch?
    ensures Dispatches(es) > 0
  {
    if |es| > 1 { CountLast(es[1..]); }
  }

  // ---------------------------------------------------------------- the direct path

  /** A byte written past the ring keeps its place behind the bytes put before it exactly when the
      ring holds no byte that differs from it. */
  lemma DirectOvertakes(s: Sys, c: u8)
    ensures PutDirect(s, c).wire + s.outRing == s.wire + s.outRing + [c] <==> forall i | 0 <= i < |s.outRing| :: s.outRing[i] == c
  {
    var a, b := [c] + s.outRing, s.outRing + [c];
    assert PutDirect(s, c).wire + s.outRing == s.wire + a && s.wire + s.outRing + [c] == s.wire + b;
    assert s.wire + a == s.wire + b <==> a == b by {
      if s.wire + a == s.wire + b {
        assert a == (s.wire + a)[|s.wire|..] && b == (s.wire + b)[|s.wire|..];
      }
    }
    if a == b {
      AllSame(s.outRing, c);
    }
  }

  /** And that happens: with a byte in the ring the device can become ready before the next one is put. */
  lemma OvertakingHappens(a: u8, b: u8) returns (es: seq<Event>, s: Sys)
    ensures Run(Booted, es, s) && s.outRing == [a] && Enabled(s, Putchar(b, true, 0))
    ensures a != b ==> Step(s, Putchar(b, true, 0)).wire + s.outRing != s.wire + s.outRing + [b]
  {
    var s1 := Step(Booted, Dispatch);
    assert InUserMode(s1);
    s := Step(s1, Putchar(a, false, 0));
    es := [Dispatch, Putchar(a, false, 0)];
    assert es[1..] == [Putchar(a, false, 0)] && es[1..][1..] == [];
    var s2 := s.(put := s.put + [b]);
    assert Step(s, Putchar(b, true, 0)) == PutDirect(s2, b) && s2.outRing[0] == a;
    DirectOvertakes(s2, b);
  }

  lemma {:induction false} AllSame(q: seq<u8>, c: u8)
    requires [c] + q == q + [c]
    ensures forall i | 0 <= i < |q| :: q[i] == c
  {
    if q != [] {
      assert q[0] == ([c] + q)[0];
      assert [c] + q[1..] == ([c] + q)[1..] == (q + [c])[1..] == q[1..] + [c];
      AllSame(q[1..], c);
    }
  }

  // ---------------------------------------------------------------- what each event does

  function Min(a: nat, b: nat): nat {
    if a < b then a else b
  }

  /** An interrupt sends as many bytes of the output ring as the device takes, oldest first. Writers are
      woken when that leaves room, so all of them when the device takes everything; readers are woken when
      a byte has arrived; those woken join the queue, readers first. */
  lemma InterruptDoes(s: Sys, bytes: seq<u8>, ready: nat)
    requires Enabled(s, Interrupt(bytes, ready)) && |s.inRing| <= 32 && |s.outRing| <= 32
    ensures var s', n, k := Step(s, Interrupt(bytes, ready)), Min(ready, |s.outRing|), Min(|bytes|, 32 - |s.inRing|);
            && s'.wire == s.wire + s.outRing[..n] && s'.outRing == s.outRing[n..]
            && s'.waitOut == (if |s.outRing| - n < 32 then [] else s.waitOut)
            && s'.waitIn == (if bytes != [] then [] else s.waitIn)
            && s'.tasks == s.tasks + (if bytes != [] then s.waitIn else []) + (if |s.outRing| - n < 32 then s.waitOut else [])
            && s'.inRing == s.inRing + bytes[..k] && s'.dropped == s.dropped + bytes[k..]
            && s'.current == s.current && s'.doing == s.doing
            && (ready >= |s.outRing| ==> s'.outRing == [] && s'.waitOut == [])
  {
    ReceiveExactly(s, bytes);
    hide Receive;
  }

  /** A byte put on the buffered path, at first or after a wait: with room it goes to the end of the ring,
      and as many bytes of the ring as the device takes are sent, oldest first; without room the task waits
      behind the other writers. */
  lemma BufferedDoes(s: Sys, e: Event, c: u8, ready: nat)
    requires Enabled(s, e) && s.current.Some? && s.current.value in s.doing
    requires e == Putchar(c, false, ready) || (e == Resume(ready) && s.doing[s.current.value] == InPutchar(c))
    ensures var s', t, ring := Step(s, e), s.current.value, s.outRing + [c];
            var n := Min(ready, |ring|);
            && s'.tasks == s.tasks && s'.waitIn == s.waitIn && s'.inRing == s.inRing
            && (|s.outRing| != 32 ==>
                  && s'.wire == s.wire + ring[..n] && s'.outRing == ring[n..]
                  && s'.current == s.current && s'.waitOut == s.waitOut && s'.doing == s.doing[t := User])
            && (|s.outRing| == 32 ==>
                  && s'.wire == s.wire && s'.outRing == s.outRing
                  && s'.current == None && s'.waitOut == s.waitOut + [t] && s'.doing == s.doing[t := InPutchar(c)])
  {
  }

  /** A byte put while the device is ready is sent at once and passes the ring by. */
  lemma DirectDoes(s: Sys, c: u8, ready: nat)
    requires Enabled(s, Putchar(c, true, ready))
    ensures var s' := Step(s, Putchar(c, true, ready));
            s' == s.(wire := s.wire + [c], put := s.put + [c], direct := s.direct + [c])
  {
  }

  /** A byte read, at first or after a wait: the oldest of the ring, or the task waits behind the other
      readers. */
  lemma ReadDoes(s: Sys, e: Event)
    requires Enabled(s, e) && s.current.Some? && s.current.value in s.doing
    requires e == Getchar || (e.Resume? && s.doing[s.current.value] == InGetchar)
    ensures var s', t := Step(s, e), s.current.value;
            && s'.tasks == s.tasks && s'.waitOut == s.waitOut && s'.outRing == s.outRing && s'.wire == s.wire
            && (s.inRing != [] ==>
                  && [s.inRing[0]] + s'.inRing == s.inRing && s'.delivered == s.delivered + [s.inRing[0]]
                  && s'.current == s.current && s'.waitIn == s.waitIn && s'.doing == s.doing[t := User])
            && (s.inRing == [] ==>
                  && s'.inRing == [] && s'.delivered == s.delivered
                  && s'.current == None && s'.waitIn == s.waitIn + [t] && s'.doing == s.doing[t := InGetchar])
  {
  }

  /** A task that yields, or is interrupted by the timer, goes to the end of the queue, as a new task
      does; one that ends is nowhere; and the first of the queue is dispatched. */
  lemma QueueDoes(s: Sys, e: Event)
    requires Enabled(s, e)
    ensures (e.Yield? || e.Tick?) && s.current.Some? ==>
              Step(s, e) == s.(tasks := s.tasks + [s.current.value], current := None)
    ensures e.Tick? && s.current.None? ==> Step(s, e) == s
    ensures e.Fork? ==> Step(s, e) == s.(tasks := s.tasks + [e.child], doing := s.doing[e.child := User])
    ensures e.Exit? ==> Step(s, e) == s.(current := None, doing := s.doing - {s.current.value})
    ensures e.Dispatch? ==> Step(s, e) == s.(current := Some(s.tasks[0]), tasks := s.tasks[1..])
  {
  }

  /** In no state that can be reached is the kernel stuck: there is a task to dispatch, or the current
      one goes on, or an interrupt may come. */
  lemma NeverStuck(es: seq<Event>, s: Sys)
    requires Run(Booted, es, s)
    ensures Enabled(s, Dispatch) || Enabled(s, Resume(0)) || Enabled(s, Tick)
  {
    BootedInv();
    RunInv(Booted, es, s);
    if s.current.Some? {
      CurrentElsewhere(s);
    }
  }

  /** What may happen in user mode, which is whenever the current task is in no call that waits, and what
      with no task to run. */
  lemma WhatMayHappen(s: Sys, e: Event)
    ensures s.current.Some? && s.current.value in s.doing && s.doing[s.current.value] == User ==>
              (Enabled(s, e) <==> e != Dispatch && !e.Resume? && (e == Exit ==> s.current.value != 1) && (e.Fork? ==> e.child !in s.doing))
    ensures s.current.Some? && s.current.value in s.doing && s.doing[s.current.value] != User ==> (Enabled(s, e) <==> e.Resume?)
    ensures s.current.None? && s.tasks != [] ==> (Enabled(s, e) <==> e == Dispatch)
    ensures s.current.None? && s.tasks == [] ==> (Enabled(s, e) <==> e.Tick? || e.Interrupt?)
  {
  }
}
