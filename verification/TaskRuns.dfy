/** Runs of the operations on tasks: what is kept for good, and what comes back. */
module TaskRuns {
  import opened Memlayout
  import opened Sv39
  import opened PageTree
  import opened Buddy
  import opened BuddyAllocator
  import opened PageTables
  import opened Vm
  import opened VmState

  /** What can happen to the tasks. A load may also be one that fails half way, and a write is done by
      the task itself, in user mode. */
  datatype TaskOp =
    | Create(t: nat)
    | Load(t: nat)
    | Fork(p: nat, c: nat)
    | Grow(t: nat, stval: nat)
    | Destroy(t: nat)
    | Write(t: nat)

  /** The state is in order, and so are the free lists. */
  ghost predicate InOrder(m: Machine) {
    Sane(m) && Inv(m.free, m.live)
  }

  /** Task `t` writes to the page it has mapped at `va`, which is frame `f`. */
  ghost predicate WritesTo(m: Machine, m': Machine, t: nat, va: nat, f: nat) {
    && t in m.tasks && va < SPLIT && va % PAGE_SIZE == 0 && SeenAt(m, t, va, f) && f < PAGES
    && |m.ram| == |m'.ram| == PAGES && m' == m.(ram := m.ram[f := m'.ram[f]]) && |m'.ram[f]| == PAGE_SIZE
  }

  ghost predicate Writes(m: Machine, m': Machine, t: nat) {
    exists va: nat, f: nat :: WritesTo(m, m', t, va, f)
  }

  /** What each of them promises. */
  ghost predicate Does(m: Machine, op: TaskOp, m': Machine) {
    match op
    case Create(t) => t in m'.tasks && TaskAdded(m, m', t, m'.tasks[t])
    case Load(t) => Changed(m, m', t)
    case Fork(p, c) => Forked(m, m', p, c)
    case Grow(t, stval) => StackExpanded(m, m', t, stval)
    case Destroy(t) => TaskGone(m, m', t)
    case Write(t) => Writes(m, m', t)
  }

  ghost predicate TaskStep(m: Machine, op: TaskOp, m': Machine) {
    InOrder(m') && Does(m, op, m')
  }

  lemma CreateStep(m: Machine, m': Machine, t: nat)
    requires InOrder(m') && t in m'.tasks && TaskAdded(m, m', t, m'.tasks[t])
    ensures TaskStep(m, Create(t), m')
  {
    hide InOrder, TaskAdded;
  }

  lemma ForkStepped(m: Machine, m': Machine, p: nat, c: nat)
    requires InOrder(m') && Forked(m, m', p, c)
    ensures TaskStep(m, Fork(p, c), m')
  {
    hide InOrder, Forked;
  }

  lemma GrowStep(m: Machine, m': Machine, t: nat, stval: nat)
    requires InOrder(m') && StackExpanded(m, m', t, stval)
    ensures TaskStep(m, Grow(t, stval), m')
  {
    hide InOrder, StackExpanded;
  }

  lemma LoadStepped(m: Machine, m': Machine, t: nat)
    requires InOrder(m') && Changed(m, m', t)
    ensures TaskStep(m, Load(t), m')
  {
    hide InOrder, Changed;
  }

  lemma DestroyStep(m: Machine, m': Machine, t: nat)
    requires InOrder(m') && TaskGone(m, m', t)
    ensures TaskStep(m, Destroy(t), m')
  {
    hide InOrder, TaskGone;
  }

  /** `ms` are the states before and after each operation. */
  ghost predicate TaskRun(ms: seq<Machine>, ops: seq<TaskOp>) {
    |ms| == |ops| + 1 && forall i, j | 0 <= i < |ops| && j == i + 1 :: TaskStep(ms[i], ops[i], ms[j])
  }

  ghost predicate AllRest(m: Machine) {
    forall t | t in m.tasks :: AtRest(m, t)
  }

  // ---------------------------------------------------------------- all tasks stay at rest

  lemma GoneRests(m: Machine, m': Machine, t: nat, u: nat)
    requires Sane(m) && Sane(m') && TaskGone(m, m', t) && u in m'.tasks && AtRest(m, u)
    ensures AtRest(m', u)
  {
    hide Walk, VpnOf, Ledger, MapsOk, Balanced, HeldWords;
    forall j | 0 <= j < |m.tasks[u].areas|
      ensures Filled(m.tasks[u], j, m.tasks[u].areas[j].va, End(m.tasks[u].areas[j]), m'.vaOf, m'.mem)
    {
      assert Filled(m.tasks[u], j, m.tasks[u].areas[j].va, End(m.tasks[u].areas[j]), m.vaOf, m.mem);
      assert forall va: nat :: ValidVpn(VpnOf(va));
    }
  }

  lemma CreatedRests(m: Machine, m': Machine, t: nat)
    requires Sane(m) && t in m'.tasks && TaskAdded(m, m', t, m'.tasks[t])
    ensures OthersRest(m, m', t) && Extends(m, m') && AtRest(m', t) && t !in m.tasks
  {
    NewTask(m, m', t);
    TaskOthers(m, m', t, m'.tasks[t]);
    NothingFilled(m', t);
  }

  /** Every step leaves every task at rest: areas sorted and apart, and mapped one to one onto exactly
      the frames they own. */
  lemma StepRests(m: Machine, op: TaskOp, m': Machine)
    requires Sane(m) && AllRest(m) && TaskStep(m, op, m')
    ensures AllRest(m')
  {
    hide Sane, AtRest, Extends, NodesKept, TaskAdded;
    match op {
      case Create(t) => CreatedRests(m, m', t);
      case Destroy(t) =>
        forall u | u in m'.tasks
          ensures AtRest(m', u)
        {
          GoneRests(m, m', t, u);
        }
      case Write(t) => WriteRests(m, m', t);
      case _ =>
    }
  }

  lemma WriteRests(m: Machine, m': Machine, t: nat)
    requires Writes(m, m', t) && AllRest(m)
    ensures AllRest(m')
  {
    hide Agrees, Walk;
  }

  lemma {:induction false} RunRests(ms: seq<Machine>, ops: seq<TaskOp>, k: nat)
    requires TaskRun(ms, ops) && InOrder(ms[0]) && AllRest(ms[0]) && k < |ms|
    ensures InOrder(ms[k]) && AllRest(ms[k])
  {
    hide InOrder, AllRest, Does;
    if k > 0 {
      RunRests(ms, ops, k - 1);
      assert TaskStep(ms[k - 1], ops[k - 1], ms[k]);
      InOrderSane(ms[k - 1]);
      StepRests(ms[k - 1], ops[k - 1], ms[k]);
    }
  }

  lemma InOrderSane(m: Machine)
    requires InOrder(m)
    ensures Sane(m)
  {
  }

  // ---------------------------------------------------------------- stacks stay where they belong

  ghost predicate AllStacksHigh(m: Machine) {
    forall t | t in m.tasks :: StacksHigh(m.tasks[t])
  }

  lemma GrownHigh(m: Machine, m': Machine, t: nat, stval: nat)
    requires StackExpanded(m, m', t, stval) && t in m.tasks && StacksHigh(m.tasks[t])
    ensures t in m'.tasks && StacksHigh(m'.tasks[t])
  {
    hide Agrees, OthersRest, Extends, AllMappedWith, StackFor, End;
    assert USERSTACKMIN % PAGE_SIZE == 0;
    AlignedFloor(USERSTACKMIN, stval);
  }

  lemma StepStacks(m: Machine, op: TaskOp, m': Machine)
    requires AllStacksHigh(m) && TaskStep(m, op, m')
    ensures AllStacksHigh(m')
  {
    hide InOrder, AtRest, Extends, NodesKept, StackGrown, StackExpanded, StacksHigh, CopiesMapped;
    match op {
      case Fork(p, c) =>
        TaskOf(m', c);
        SameHigh(m.tasks[p], m'.tasks[c]);
      case Grow(t, stval) =>
        GrownOthers(m, m', t, stval);
        GrownHigh(m, m', t, stval);
      case Create(t) => NoStacks(m'.tasks[t]);
      case _ =>
    }
  }

  lemma NoStacks(task: Task)
    requires task.areas == []
    ensures StacksHigh(task)
  {
  }

  lemma SameHigh(task: Task, copy: Task)
    requires SameAreas(task.areas, copy.areas) && StacksHigh(task)
    ensures StacksHigh(copy)
  {
  }

  lemma GrownOthers(m: Machine, m': Machine, t: nat, stval: nat)
    requires StackExpanded(m, m', t, stval)
    ensures t in m.tasks && OthersRest(m, m', t)
  {
    hide Agrees, Extends, AllMappedWith, StackFor, OthersRest;
  }

  /** In every state of every run, stacks lie between USERSTACKMIN and USERSTACK if they did at first:
      no fault makes one grow further down. */
  lemma {:induction false} RunStacks(ms: seq<Machine>, ops: seq<TaskOp>, k: nat)
    requires TaskRun(ms, ops) && AllStacksHigh(ms[0]) && k < |ms|
    ensures AllStacksHigh(ms[k])
  {
    hide InOrder, AllStacksHigh, Does;
    if k > 0 {
      RunStacks(ms, ops, k - 1);
      assert TaskStep(ms[k - 1], ops[k - 1], ms[k]);
      StepStacks(ms[k - 1], ops[k - 1], ms[k]);
    }
  }

  // ---------------------------------------------------------------- what was taken comes back

  /** The tasks there are after some operations. */
  function Survivors(ts: set<nat>, ops: seq<TaskOp>): set<nat>
    decreases |ops|
  {
    if ops == [] then ts
    else
      var before := Survivors(ts, ops[..|ops| - 1]);
      match ops[|ops| - 1]
      case Create(t) => before + {t}
      case Fork(_, c) => before + {c}
      case Destroy(t) => before - {t}
      case _ => before
  }

  /** The operation neither ends one of the tasks `ts` nor gives it more areas or pages. */
  predicate Spares(op: TaskOp, ts: set<nat>) {
    op.Load? || op.Grow? || op.Destroy? ==> op.t !in ts
  }

  /** The tasks of `m0` are there with the areas and the table nodes they had. */
  ghost predicate Older(m0: Machine, m: Machine) {
    && (forall u | u in m0.tasks :: u in m.tasks && m.tasks[u] == m0.tasks[u])
    && (forall q | q in m0.roles :: q in m.roles && m.roles[q] == m0.roles[q])
    && forall q, u | q in m.roles && q !in m0.roles && u in m0.tasks :: m.roles[q].root != m0.tasks[u].root
  }

  lemma OlderGrown(m0: Machine, m: Machine, m': Machine, t: nat)
    requires Older(m0, m) && OthersRest(m, m', t) && Sane(m') && t !in m0.tasks
    ensures Older(m0, m')
  {
    hide Sane, AtRest;
    TakenOwners(m');
  }

  lemma OlderGone(m0: Machine, m: Machine, m': Machine, t: nat)
    requires Sane(m0) && Older(m0, m) && TaskGone(m, m', t) && Sane(m) && t !in m0.tasks
    ensures Older(m0, m')
  {
    hide Sane, HeldWords, SameWalks;
    TakenOwners(m);
    NodesOfTasks(m0);
    forall q | q in m0.roles
      ensures q in m'.roles && m'.roles[q] == m0.roles[q]
    {
      var u :| u in m0.tasks && m0.tasks[u].root == m0.roles[q].root;
      assert m.tasks[u].root != m.tasks[t].root;
    }
  }

  lemma NodesOfTasks(m: Machine)
    requires Sane(m)
    ensures forall q | q in m.roles :: HasTable(m.tasks, m.roles[q].root)
  {
    hide Ledger, MapsOk, Balanced;
  }

  lemma StepOlder(m0: Machine, m: Machine, op: TaskOp, m': Machine)
    requires Sane(m0) && Older(m0, m) && Sane(m) && TaskStep(m, op, m') && Spares(op, m0.tasks.Keys)
    ensures Older(m0, m')
    ensures m'.tasks.Keys == match op
                             case Create(t) => m.tasks.Keys + {t}
                             case Fork(_, c) => m.tasks.Keys + {c}
                             case Destroy(t) => m.tasks.Keys - {t}
                             case _ => m.tasks.Keys
  {
    hide Sane, Older, NodesKept, TaskAdded, AtRest, Extends, AllMappedWith;
    match op {
      case Create(t) =>
        CreatedRests(m, m', t);
        KeysAdded(m, m', t);
        NotOlder(m0, m, t);
        OlderGrown(m0, m, m', t);
      case Fork(p, c) =>
        KeysAdded(m, m', c);
        NotOlder(m0, m, c);
        OlderGrown(m0, m, m', c);
      case Load(t) =>
        TaskOf(m', t);
        KeysAdded(m, m', t);
        OlderGrown(m0, m, m', t);
      case Grow(t, stval) =>
        TaskOf(m', t);
        KeysAdded(m, m', t);
        OlderGrown(m0, m, m', t);
      case Destroy(t) => OlderGone(m0, m, m', t);
      case Write(t) => OlderWritten(m0, m, m', t);
    }
  }

  lemma KeysAdded(m: Machine, m': Machine, t: nat)
    requires OthersRest(m, m', t) && t in m'.tasks
    ensures m'.tasks.Keys == m.tasks.Keys + {t}
  {
    hide NodesKept, AtRest;
  }

  lemma NotOlder(m0: Machine, m: Machine, t: nat)
    requires Older(m0, m) && t !in m.tasks
    ensures t !in m0.tasks
  {
  }

  lemma OlderWritten(m0: Machine, m: Machine, m': Machine, t: nat)
    requires Older(m0, m) && Writes(m, m', t)
    ensures Older(m0, m') && m'.tasks == m.tasks
  {
  }

  lemma {:induction false} RunOlder(ms: seq<Machine>, ops: seq<TaskOp>)
    requires TaskRun(ms, ops) && InOrder(ms[0]) && forall op | op in ops :: Spares(op, ms[0].tasks.Keys)
    ensures Older(ms[0], ms[|ops|]) && ms[|ops|].tasks.Keys == Survivors(ms[0].tasks.Keys, ops)
    ensures InOrder(ms[|ops|])
    decreases |ops|
  {
    if ops != [] {
      var n := |ops| - 1;
      RunOlder(ms[..|ops|], ops[..n]);
      assert TaskStep(ms[n], ops[n], ms[n + 1]);
      hide Does, Sane, Older;
      StepOlder(ms[0], ms[n], ops[n], ms[n + 1]);
    }
  }

  /** Memory is conserved. After any run that ends exactly the tasks it has created, and loads and grows
      no older one, the same pages are in use for the same parts of the same tasks and for the same
      nodes, and every free list has the blocks it had. */
  lemma Conserved(ms: seq<Machine>, ops: seq<TaskOp>)
    requires TaskRun(ms, ops) && InOrder(ms[0]) && ms[|ops|].tasks.Keys == ms[0].tasks.Keys
    requires forall op | op in ops && (op.Load? || op.Grow? || op.Destroy?) :: op.t !in ms[0].tasks
    ensures var m, n := ms[0], ms[|ops|];
            && n.tasks == m.tasks && n.roles == m.roles && n.owner == m.owner && n.live == m.live
            && |n.free| == |m.free| == MAX_ORDER && forall k | 0 <= k < MAX_ORDER :: multiset(n.free[k]) == multiset(m.free[k])
  {
    var m, n := ms[0], ms[|ops|];
    RunOlder(ms, ops);
    hide Does;
    SameAgain(m, n);
    FreeListsDetermined(m, n);
  }

  lemma SameAgain(m: Machine, n: Machine)
    requires Sane(m) && Sane(n) && Older(m, n) && n.tasks.Keys == m.tasks.Keys
    ensures n.tasks == m.tasks && n.roles == m.roles
  {
    hide Sane;
    NodesOfTasks(n);
    forall q | q in n.roles
      ensures q in m.roles
    {
      var u :| u in n.tasks && n.tasks[u].root == n.roles[q].root;
      assert u in m.tasks;
    }
  }

  /** Which pages are in use, and for what, follows from the tasks and the nodes of their tables. */
  lemma HeldDetermined(m: Machine, n: Machine)
    requires Sane(m) && Sane(n) && n.tasks == m.tasks && n.roles.Keys == m.roles.Keys
    ensures n.live == m.live && n.owner == m.owner
  {
    SameHolders(m.tasks, m.owner, n.owner);
    SameUse(m, n);
  }

  /** And so do the blocks on every free list. */
  lemma FreeListsDetermined(m: Machine, n: Machine)
    requires InOrder(m) && InOrder(n) && n.tasks == m.tasks && n.roles.Keys == m.roles.Keys
    ensures n.live == m.live && n.owner == m.owner && |m.free| == |n.free| == MAX_ORDER
    ensures forall k | 0 <= k < MAX_ORDER :: multiset(n.free[k]) == multiset(m.free[k])
  {
    HeldDetermined(m, n);
    hide Sane;
    LiveDeterminesFree(m.free, n.free, m.live);
    forall k | 0 <= k < MAX_ORDER
      ensures multiset(n.free[k]) == multiset(m.free[k])
    {
      SameMembers(m.free[k], n.free[k]);
    }
  }

  /** In particular, without tasks no page is in use. */
  lemma NothingLeft(m: Machine)
    requires Sane(m) && m.tasks == map[]
    ensures m.live == {}
  {
    hide MapsOk;
    HoldersAreTasks(m.tasks, m.owner);
    assert forall root :: !HasTable(m.tasks, root);
  }

  /** And every free list has the blocks it had at boot. */
  lemma MemoryRestored(m: Machine, fl: Lists)
    requires Sane(m) && m.tasks == map[] && Inv(fl, m.live)
    ensures forall k | 0 <= k < MAX_ORDER :: multiset(fl[k]) == multiset(Initial[k])
  {
    NothingLeft(m);
    InitialInv();
    LiveDeterminesFree(fl, Initial, {});
    forall k | 0 <= k < MAX_ORDER
      ensures multiset(fl[k]) == multiset(Initial[k])
    {
      assert forall i :: i in fl[k] <==> i in Initial[k];
      SameMembers(fl[k], Initial[k]);
    }
  }

  lemma SameHolders(tasks: Tasks, a: Owners, b: Owners)
    requires Ledger(tasks, a) && Ledger(tasks, b)
    ensures a == b
  {
    HoldersWithin(tasks, a, b);
    HoldersWithin(tasks, b, a);
    assert a.Keys == b.Keys;
  }

  lemma HoldersWithin(tasks: Tasks, a: Owners, b: Owners)
    requires Ledger(tasks, a) && Ledger(tasks, b)
    ensures forall p | p in a :: p in b && b[p] == a[p]
  {
    forall p | p in a
      ensures p in b && b[p] == a[p]
    {
      assert PageAt(tasks, a[p]) == Some(p);
    }
  }

  lemma SameUse(m: Machine, n: Machine)
    requires Sane(m) && Sane(n) && n.owner == m.owner && n.roles.Keys == m.roles.Keys
    ensures n.live == m.live
  {
    hide Ledger, TablesOk, MapsOk, Sized;
    forall b
      ensures b in n.live <==> b in m.live
    {
    }
  }

  // ---------------------------------------------------------------- nobody else's memory

  /** The operation neither ends task `u` nor is a write of its own. */
  predicate Leaves(op: TaskOp, u: nat) {
    op.Destroy? || op.Write? ==> op.t != u
  }

  ghost predicate IsMapped(m: Machine, u: nat, vb: nat) {
    u in m.tasks && Sized(m.mem) && Walk(m.mem, m.tasks[u].root, VpnOf(vb)) != Fault
  }

  lemma GrownSeen(m: Machine, m': Machine, u: nat, vb: nat)
    requires Sane(m) && Sane(m') && Extends(m, m') && IsMapped(m, u, vb) && vb < SPLIT && vb % PAGE_SIZE == 0
    ensures IsMapped(m', u, vb) && SeenPage(m', u, vb) == SeenPage(m, u, vb)
  {
    SizedRam(m');
    hide Sane, Walk, VpnOf, SeenPage, OnlyTaken;
    SeenKept(m, m', u, vb);
  }

  lemma GoneSeen(m: Machine, m': Machine, t: nat, u: nat, vb: nat)
    requires Sane(m) && Sane(m') && TaskGone(m, m', t) && u != t && IsMapped(m, u, vb) && vb < SPLIT && vb % PAGE_SIZE == 0
    ensures IsMapped(m', u, vb) && SeenPage(m', u, vb) == SeenPage(m, u, vb)
  {
    hide Walk, VpnOf, MapsOk, Ledger, Balanced, HeldWords;
    var f := SeenFrame(m, u, vb);
    assert ValidVpn(VpnOf(vb)) && IsRoot(m'.roles, m.tasks[u].root);
  }

  lemma WriteSeen(m: Machine, m': Machine, t: nat, u: nat, vb: nat)
    requires Sane(m) && Writes(m, m', t) && u != t && IsMapped(m, u, vb) && vb < SPLIT && vb % PAGE_SIZE == 0
    ensures IsMapped(m', u, vb) && SeenPage(m', u, vb) == SeenPage(m, u, vb)
  {
    hide Sane, SeenAt, SeenPage, Walk;
    var va: nat, f: nat :| WritesTo(m, m', t, va, f);
    WriteIsolated(m, m', t, va, f, u, vb);
  }

  lemma StepSeen(m: Machine, op: TaskOp, m': Machine, u: nat, vb: nat)
    requires Sane(m) && TaskStep(m, op, m') && Leaves(op, u) && IsMapped(m, u, vb) && vb < SPLIT && vb % PAGE_SIZE == 0
    ensures IsMapped(m', u, vb) && SeenPage(m', u, vb) == SeenPage(m, u, vb)
  {
    hide Sane, IsMapped, SeenPage, OthersRest, Extends, TaskAdded, TaskGone, Writes, CopiesMapped, SameAreas, AllMappedWith;
    match op {
      case Create(t) =>
        CreatedRests(m, m', t);
        GrownSeen(m, m', u, vb);
      case Destroy(t) => GoneSeen(m, m', t, u, vb);
      case Write(t) => WriteSeen(m, m', t, u, vb);
      case _ => GrownSeen(m, m', u, vb);
    }
  }

  /** Whatever else goes on, tasks created, loaded, forked, grown, ended and writing: a page that a task
      has mapped stays mapped, with the bytes it had, until the task itself writes or ends. */
  lemma {:induction false} Undisturbed(ms: seq<Machine>, ops: seq<TaskOp>, u: nat, vb: nat)
    requires TaskRun(ms, ops) && InOrder(ms[0]) && (forall op | op in ops :: Leaves(op, u))
    requires IsMapped(ms[0], u, vb) && vb < SPLIT && vb % PAGE_SIZE == 0
    ensures InOrder(ms[|ops|]) && IsMapped(ms[|ops|], u, vb) && SeenPage(ms[|ops|], u, vb) == SeenPage(ms[0], u, vb)
    decreases |ops|
  {
    if ops != [] {
      var n := |ops| - 1;
      Undisturbed(ms[..|ops|], ops[..n], u, vb);
      assert TaskStep(ms[n], ops[n], ms[n + 1]);
      hide Does, Sane, IsMapped, SeenPage;
      StepSeen(ms[n], ops[n], ms[n + 1], u, vb);
    }
  }

  /** A child goes on seeing what its parent could read when it forked, whatever the parent and all others do
      since; only its own writes change that. */
  lemma ApartForGood(ms: seq<Machine>, ops: seq<TaskOp>, p: nat, c: nat, i: nat, va: nat)
    requires TaskRun(ms, ops) && InOrder(ms[0]) && ops != [] && ops[0] == Fork(p, c) && p in ms[0].tasks
    requires i < |ms[0].tasks[p].areas| && InArea(ms[0].tasks[p].areas[i], va) && va % PAGE_SIZE == 0
    requires CanRead(ms[0], p, va)
    requires forall op | op in ops[1..] :: Leaves(op, c)
    ensures SeenPage(ms[|ops|], c, va) == SeenPage(ms[0], p, va) && |SeenPage(ms[|ops|], c, va)| == PAGE_SIZE
  {
    hide Does, InOrder, SeenPage, IsMapped, Forked, Sane, TaskRun, InArea, CanRead;
    RunTail(ms, ops);
    ForkStep(ms[0], ms[1], p, c, i, va);
    Undisturbed(ms[1..], ops[1..], c, va);
  }

  lemma RunTail(ms: seq<Machine>, ops: seq<TaskOp>)
    requires TaskRun(ms, ops) && ops != []
    ensures |ms| == |ops| + 1 && TaskStep(ms[0], ops[0], ms[1]) && TaskRun(ms[1..], ops[1..])
  {
    hide TaskStep;
    forall i, j | 0 <= i < |ops[1..]| && j == i + 1
      ensures TaskStep(ms[1..][i], ops[1..][i], ms[1..][j])
    {
      assert TaskStep(ms[i + 1], ops[i + 1], ms[j + 1]);
    }
  }

  lemma ForkStep(m: Machine, n: Machine, p: nat, c: nat, i: nat, va: nat)
    requires TaskStep(m, Fork(p, c), n) && p in m.tasks
    requires i < |m.tasks[p].areas| && InArea(m.tasks[p].areas[i], va) && va % PAGE_SIZE == 0 && CanRead(m, p, va)
    ensures InOrder(n) && IsMapped(n, c, va) && va < SPLIT
    ensures |SeenPage(n, c, va)| == PAGE_SIZE && SeenPage(n, c, va) == SeenPage(m, p, va)
  {
    hide Sane, Inv, Forked, InArea, IsMapped, SeenPage, CanRead;
    ForkMapped(m, n, p, c, i, va);
  }

  lemma ForkMapped(m: Machine, n: Machine, p: nat, c: nat, i: nat, va: nat)
    requires Sane(n) && Forked(m, n, p, c) && i < |m.tasks[p].areas| && InArea(m.tasks[p].areas[i], va) && va % PAGE_SIZE == 0
    requires CanRead(m, p, va)
    ensures IsMapped(n, c, va) && va < SPLIT && |SeenPage(n, c, va)| == PAGE_SIZE && SeenPage(n, c, va) == SeenPage(m, p, va)
  {
    hide Sane, Walk, VpnOf, AllMappedWith, CopiesMapped, OthersRest, Extends, SeenPage, SeenAt, AtRest, CanRead;
    SizedRam(n);
    TaskOf(n, c);
    assert InArea(n.tasks[c].areas[i], va);
    AreaMapped(n, c, i, va);
  }
}
