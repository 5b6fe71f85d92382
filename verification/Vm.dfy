/** Tasks and their areas (kernel/vm.h, kernel/sched.h), which page of memory each part of them
    takes, and what it means that a table maps exactly the frames of the areas. */
module Vm {
  import opened Memlayout
  import opened Sv39
  import opened PageTree

  const VM_READ: bv32 := 1
  const VM_WRITE: bv32 := 2
  const VM_EXEC: bv32 := 4
  const VM_STACK: bv32 := 1024

  /** An element of an area's page list: the page of the list node and the frame it names. */
  datatype Held = Held(node: nat, frame: nat)

  /** struct vm_area, with the pages it and its list node are kept in. */
  datatype Area = Area(record: nat, node: nat, va: nat, nPages: nat, refcount: nat, flags: bv32, pages: seq<Held>)

  /** struct task, known by the page it is kept in. */
  datatype Task = Task(stack: nat, root: nat, queueNode: nat, areas: seq<Area>)

  type Tasks = map<nat, Task>

  function End(a: Area): nat {
    a.va + a.nPages * PAGE_SIZE
  }

  predicate IsStack(a: Area) {
    a.flags & VM_STACK != 0
  }

  /** pte_flags_from_vm_flags, which tests with `|`. */
  function PteFlagsFromVmFlags(vmFlags: bv32): Flags {
    Flags(true, vmFlags | VM_READ != 0, vmFlags | VM_WRITE != 0, vmFlags | VM_EXEC != 0, true, false, false, false)
  }

  /** So a page mapped with them may be read, written and executed whatever its area says. */
  lemma AllPermissions(vmFlags: bv32)
    ensures PteFlagsFromVmFlags(vmFlags) == Flags(true, true, true, true, true, false, false, false)
  {
    assert vmFlags | VM_READ != 0 && vmFlags | VM_WRITE != 0 && vmFlags | VM_EXEC != 0;
  }

  predicate InArea(a: Area, va: nat) {
    a.va <= va < End(a)
  }

  // ---------------------------------------------------------------- who holds which page

  datatype Item =
    | TaskRecord
    | KernelStack
    | QueueNode
    | AreaRecord(i: nat)
    | AreaNode(i: nat)
    | PageNode(i: nat, k: nat)
    | Frame(i: nat, k: nat)

  datatype Slot = Slot(task: nat, item: Item)

  type Owners = map<nat, Slot>

  function ItemOf(areas: seq<Area>, item: Item): Option<nat> {
    match item
    case AreaRecord(i) => if i < |areas| then Some(areas[i].record) else None
    case AreaNode(i) => if i < |areas| then Some(areas[i].node) else None
    case PageNode(i, k) => if i < |areas| && k < |areas[i].pages| then Some(areas[i].pages[k].node) else None
    case Frame(i, k) => if i < |areas| && k < |areas[i].pages| then Some(areas[i].pages[k].frame) else None
    case _ => None
  }

  /** The page in which a part of a task is kept. */
  function PageAt(tasks: Tasks, s: Slot): Option<nat> {
    if s.task !in tasks then None
    else
      var t := tasks[s.task];
      match s.item
      case TaskRecord => Some(s.task)
      case KernelStack => Some(t.stack)
      case QueueNode => Some(t.queueNode)
      case _ => ItemOf(t.areas, s.item)
  }

  /** `owner` tells of every page which part of which task it holds: no page holds two parts. */
  ghost predicate Ledger(tasks: Tasks, owner: Owners) {
    forall p: nat, s: Slot :: (p in owner && owner[p] == s) <==> PageAt(tasks, s) == Some(p)
  }

  /** Every task has a table of its own, and there are no other tables and no table node
      that holds anything else. */
  ghost predicate TablesOk(tasks: Tasks, owner: Owners, roles: Roles) {
    && (forall t | t in tasks :: IsRoot(roles, tasks[t].root))
    && (forall t, u | t in tasks && u in tasks && tasks[t].root == tasks[u].root :: t == u)
    && owner.Keys !! roles.Keys
    && AllTabled(tasks, roles)
  }

  ghost predicate AllTabled(tasks: Tasks, roles: Roles) {
    forall q | q in roles :: HasTable(tasks, roles[q].root)
  }

  ghost predicate HasTable(tasks: Tasks, root: nat) {
    exists t :: t in tasks && tasks[t].root == root
  }

  // ---------------------------------------------------------------- tables and frames

  ghost predicate IsFrameOf(owner: Owners, f: nat, t: nat) {
    f in owner && owner[f].task == t && owner[f].item.Frame?
  }

  ghost predicate Maps(w: Translation, f: nat) {
    w.To? && w.ppn == RAM_PPN + f && Grants(w.flags) && w.flags.u
  }

  /** `vaOf` says at which address each frame is mapped: the table of task `t` maps its frames there
      and no other user address. */
  ghost predicate MapOk(t: nat, root: nat, owner: Owners, vaOf: map<nat, nat>, mem: Memory)
    requires Sized(mem)
  {
    && (forall f | IsFrameOf(owner, f, t) :: FrameMapped(f, root, vaOf, mem))
    && (forall w | ValidVpn(w) && VaOf(w, 0) < SPLIT :: MappedToFrame(t, root, owner, vaOf, mem, w))
  }

  ghost predicate FrameMapped(f: nat, root: nat, vaOf: map<nat, nat>, mem: Memory)
    requires Sized(mem)
  {
    f in vaOf && vaOf[f] % PAGE_SIZE == 0 && vaOf[f] < SPLIT && Maps(Walk(mem, root, VpnOf(vaOf[f])), f)
  }

  ghost predicate MappedToFrame(t: nat, root: nat, owner: Owners, vaOf: map<nat, nat>, mem: Memory, w: Vpn)
    requires Sized(mem) && ValidVpn(w)
  {
    match Walk(mem, root, w)
    case Fault => true
    case To(ppn, _) =>
      ppn >= RAM_PPN && IsFrameOf(owner, ppn - RAM_PPN, t) && ppn - RAM_PPN in vaOf && vaOf[ppn - RAM_PPN] == VaOf(w, 0)
  }

  ghost predicate MapsOk(tasks: Tasks, owner: Owners, vaOf: map<nat, nat>, mem: Memory)
    requires Sized(mem)
  {
    forall t | t in tasks :: MapOk(t, tasks[t].root, owner, vaOf, mem)
  }

  /** Addresses are aligned, below SPLIT, and each area ends before the next begins. */
  ghost predicate Sorted(areas: seq<Area>) {
    && (forall i | 0 <= i < |areas| :: areas[i].va % PAGE_SIZE == 0 && End(areas[i]) <= SPLIT)
    && (forall i, j | 0 <= i < j < |areas| :: End(areas[i]) <= areas[j].va)
  }

  /** Area `i` of a task owns one frame for every page from `lo` to `hi`, mapped there. */
  ghost predicate Filled(task: Task, i: nat, lo: nat, hi: nat, vaOf: map<nat, nat>, mem: Memory)
    requires Sized(mem) && i < |task.areas|
  {
    var pages := task.areas[i].pages;
    && lo + |pages| * PAGE_SIZE == hi
    && (forall k | 0 <= k < |pages| :: pages[k].frame in vaOf && lo <= vaOf[pages[k].frame] < hi)
    && (forall va: nat | lo <= va < hi && va % PAGE_SIZE == 0 :: Walk(mem, task.root, VpnOf(va)) != Fault)
  }

  /** Areas are sorted and apart, and each is filled, except that area `i` is so up to `hi` only. */
  ghost predicate FilledUpTo(task: Task, i: nat, hi: nat, vaOf: map<nat, nat>, mem: Memory)
    requires Sized(mem)
  {
    && Sorted(task.areas)
    && (i < |task.areas| ==> task.areas[i].va <= hi <= End(task.areas[i]) && hi % PAGE_SIZE == 0)
    && forall j | 0 <= j < |task.areas| ::
         task.areas[j].refcount == 1 && Filled(task, j, task.areas[j].va, if j == i then hi else End(task.areas[j]), vaOf, mem)
  }

  /** At rest: areas sorted and apart, each mapped one to one onto exactly the frames it owns. */
  ghost predicate Agrees(task: Task, vaOf: map<nat, nat>, mem: Memory)
    requires Sized(mem)
  {
    FilledUpTo(task, |task.areas|, 0, vaOf, mem)
  }

  // ---------------------------------------------------------------- what agreement gives

  function Frames(a: Area): set<nat> {
    set k | 0 <= k < |a.pages| :: a.pages[k].frame
  }

  /** Addresses of one page have the same translation. */
  lemma PageWalk(va: nat)
    requires va < SPLIT
    ensures VpnOf(va) == VpnOf(va / PAGE_SIZE * PAGE_SIZE)
    ensures va % PAGE_SIZE == 0 ==> VaOf(VpnOf(va), 0) == va
  {
    SamePage(va, va / PAGE_SIZE * PAGE_SIZE);
    VaFields(va);
  }

  lemma AreaFilled(task: Task, i: nat, vaOf: map<nat, nat>, mem: Memory)
    requires Sized(mem) && Agrees(task, vaOf, mem) && i < |task.areas|
    ensures forall k | 0 <= k < |task.areas[i].pages| ::
              task.areas[i].pages[k].frame in vaOf && InArea(task.areas[i], vaOf[task.areas[i].pages[k].frame])
    ensures forall va: nat | InArea(task.areas[i], va) && va % PAGE_SIZE == 0 :: Walk(mem, task.root, VpnOf(va)) != Fault
    ensures |task.areas[i].pages| == task.areas[i].nPages
  {
    hide Walk, VpnOf;
    assert Filled(task, i, task.areas[i].va, End(task.areas[i]), vaOf, mem);
  }

  /** A page of an area is mapped to a frame of that area, and a user page outside all areas to none. */
  lemma WalkInArea(t: nat, tasks: Tasks, owner: Owners, vaOf: map<nat, nat>, mem: Memory, va: nat)
    requires Sized(mem) && t in tasks && Ledger(tasks, owner) && MapsOk(tasks, owner, vaOf, mem)
    requires Agrees(tasks[t], vaOf, mem) && va < SPLIT && va % PAGE_SIZE == 0
    ensures var walk := Walk(mem, tasks[t].root, VpnOf(va));
            && (walk == Fault <==> forall i | 0 <= i < |tasks[t].areas| :: !InArea(tasks[t].areas[i], va))
            && (walk != Fault ==>
                  exists i :: 0 <= i < |tasks[t].areas| && InArea(tasks[t].areas[i], va)
                              && walk.ppn >= RAM_PPN && walk.ppn - RAM_PPN in Frames(tasks[t].areas[i]))
  {
    var task := tasks[t];
    var walk := Walk(mem, task.root, VpnOf(va));
    hide Walk, VpnOf, VaOf, FilledUpTo, MapsOk, Ledger;
    forall i | 0 <= i < |task.areas| && InArea(task.areas[i], va)
      ensures walk != Fault
    {
      AreaFilled(task, i, vaOf, mem);
    }
    if walk != Fault {
      var i, k := MappedFrame(t, tasks, owner, vaOf, mem, va);
      AreaFilled(task, i, vaOf, mem);
      assert walk.ppn - RAM_PPN in Frames(task.areas[i]);
    }
  }

  /** The frame that a mapped user page leads to. */
  lemma MappedFrame(t: nat, tasks: Tasks, owner: Owners, vaOf: map<nat, nat>, mem: Memory, va: nat) returns (i: nat, k: nat)
    requires Sized(mem) && t in tasks && Ledger(tasks, owner) && MapsOk(tasks, owner, vaOf, mem)
    requires va < SPLIT && va % PAGE_SIZE == 0 && Walk(mem, tasks[t].root, VpnOf(va)).To?
    ensures i < |tasks[t].areas| && k < |tasks[t].areas[i].pages|
    ensures var f := tasks[t].areas[i].pages[k].frame;
            Walk(mem, tasks[t].root, VpnOf(va)).ppn == RAM_PPN + f && f in vaOf && vaOf[f] == va
  {
    hide Walk, VpnOf, VaOf;
    PageWalk(va);
    var w := VpnOf(va);
    assert MapOk(t, tasks[t].root, owner, vaOf, mem);
    assert MappedToFrame(t, tasks[t].root, owner, vaOf, mem, w);
    var f := Walk(mem, tasks[t].root, w).ppn - RAM_PPN;
    i, k := owner[f].item.i, owner[f].item.k;
    assert PageAt(tasks, owner[f]) == Some(f);
  }

  /** No frame is mapped twice: not at two addresses, and not for two tasks. */
  lemma OneMapping(tasks: Tasks, owner: Owners, vaOf: map<nat, nat>, mem: Memory, t: nat, u: nat, va: nat, vb: nat)
    requires Sized(mem) && t in tasks && u in tasks && MapsOk(tasks, owner, vaOf, mem)
    requires va < SPLIT && vb < SPLIT && va % PAGE_SIZE == 0 && vb % PAGE_SIZE == 0
    requires Walk(mem, tasks[t].root, VpnOf(va)).To? && Walk(mem, tasks[u].root, VpnOf(vb)).To?
    requires Walk(mem, tasks[t].root, VpnOf(va)).ppn == Walk(mem, tasks[u].root, VpnOf(vb)).ppn
    ensures t == u && va == vb
  {
    hide Walk, VpnOf, VaOf;
    PageWalk(va);
    PageWalk(vb);
    assert MapOk(t, tasks[t].root, owner, vaOf, mem) && MapOk(u, tasks[u].root, owner, vaOf, mem);
    assert MappedToFrame(t, tasks[t].root, owner, vaOf, mem, VpnOf(va));
    assert MappedToFrame(u, tasks[u].root, owner, vaOf, mem, VpnOf(vb));
  }

  // ---------------------------------------------------------------- one page more

  /** Task `t` after `held` has been pushed on the pages of its area `i`. */
  function Pushed(tasks: Tasks, t: nat, i: nat, held: Held): Tasks
    requires t in tasks && i < |tasks[t].areas|
  {
    var task := tasks[t];
    var a := task.areas[i];
    tasks[t := task.(areas := task.areas[i := a.(pages := a.pages + [held])])]
  }

  function PushedOwners(tasks: Tasks, owner: Owners, t: nat, i: nat, held: Held): Owners
    requires t in tasks && i < |tasks[t].areas|
  {
    var k := |tasks[t].areas[i].pages|;
    owner[held.node := Slot(t, PageNode(i, k))][held.frame := Slot(t, Frame(i, k))]
  }

  lemma PushLedger(tasks: Tasks, owner: Owners, t: nat, i: nat, held: Held)
    requires Ledger(tasks, owner) && t in tasks && i < |tasks[t].areas|
    requires held.node !in owner && held.frame !in owner && held.node != held.frame
    ensures Ledger(Pushed(tasks, t, i, held), PushedOwners(tasks, owner, t, i, held))
  {
    var tasks', owner' := Pushed(tasks, t, i, held), PushedOwners(tasks, owner, t, i, held);
    var k := |tasks[t].areas[i].pages|;
    forall p: nat, s: Slot
      ensures (p in owner' && owner'[p] == s) <==> PageAt(tasks', s) == Some(p)
    {
      assert (p in owner && owner[p] == s) <==> PageAt(tasks, s) == Some(p);
      assert s != Slot(t, PageNode(i, k)) && s != Slot(t, Frame(i, k)) ==> PageAt(tasks', s) == PageAt(tasks, s);
    }
  }

  /** The walks of all tasks' tables after frame `f` has been mapped at `va` for task `t`. */
  ghost predicate MappedAt(tasks: Tasks, mem: Memory, mem': Memory, t: nat, va: nat, f: nat, flags: Flags)
    requires Sized(mem) && Sized(mem')
  {
    forall u, w | u in tasks && ValidVpn(w) ::
      Walk(mem', tasks[u].root, w) ==
      if u == t && w == VpnOf(va) then To(RAM_PPN + f, flags) else Walk(mem, tasks[u].root, w)
  }

  lemma PushMaps(tasks: Tasks, owner: Owners, vaOf: map<nat, nat>, mem: Memory, mem': Memory,
                 t: nat, i: nat, held: Held, va: nat, flags: Flags)
    requires Sized(mem) && Sized(mem') && t in tasks && i < |tasks[t].areas|
    requires MapsOk(tasks, owner, vaOf, mem)
    requires held.node !in owner && held.frame !in owner && held.node != held.frame
    requires va % PAGE_SIZE == 0 && va < SPLIT && Grants(flags) && flags.u
    requires Walk(mem, tasks[t].root, VpnOf(va)) == Fault
    requires MappedAt(tasks, mem, mem', t, va, held.frame, flags)
    ensures MapsOk(Pushed(tasks, t, i, held), PushedOwners(tasks, owner, t, i, held), vaOf[held.frame := va], mem')
  {
    var tasks', owner' := Pushed(tasks, t, i, held), PushedOwners(tasks, owner, t, i, held);
    hide Walk, VpnOf, VaOf;
    forall u | u in tasks'
      ensures MapOk(u, tasks'[u].root, owner', vaOf[held.frame := va], mem')
    {
      PushMap(tasks, u, owner, owner', vaOf, mem, mem', t, held, va, flags);
    }
  }

  lemma PushMap(tasks: Tasks, u: nat, owner: Owners, owner': Owners, vaOf: map<nat, nat>, mem: Memory, mem': Memory,
                t: nat, held: Held, va: nat, flags: Flags)
    requires Sized(mem) && Sized(mem') && u in tasks && MapOk(u, tasks[u].root, owner, vaOf, mem)
    requires held.node !in owner && held.frame !in owner && held.node != held.frame
    requires forall f | f in owner :: f in owner' && owner'[f] == owner[f]
    requires forall f | f in owner' :: f in owner || (f == held.frame && IsFrameOf(owner', f, t)) || (f == held.node && !owner'[f].item.Frame?)
    requires held.frame in owner' && IsFrameOf(owner', held.frame, t)
    requires va % PAGE_SIZE == 0 && va < SPLIT && Grants(flags) && flags.u
    requires u == t ==> Walk(mem, tasks[t].root, VpnOf(va)) == Fault
    requires MappedAt(tasks, mem, mem', t, va, held.frame, flags)
    ensures MapOk(u, tasks[u].root, owner', vaOf[held.frame := va], mem')
  {
    var root, vaOf' := tasks[u].root, vaOf[held.frame := va];
    hide Walk, VpnOf, VaOf, Sized, ValidVpn;
    PageWalk(va);
    forall f: nat | IsFrameOf(owner', f, u)
      ensures FrameMapped(f, root, vaOf', mem')
    {
      if f != held.frame {
        assert IsFrameOf(owner, f, u);
        assert FrameMapped(f, root, vaOf, mem);
      }
    }
    PushWalks(tasks, u, owner, owner', vaOf, mem, mem', t, held, va, flags);
  }

  lemma PushWalks(tasks: Tasks, u: nat, owner: Owners, owner': Owners, vaOf: map<nat, nat>, mem: Memory, mem': Memory,
                  t: nat, held: Held, va: nat, flags: Flags)
    requires Sized(mem) && Sized(mem') && u in tasks && MapOk(u, tasks[u].root, owner, vaOf, mem)
    requires held.frame !in owner
    requires forall f | f in owner :: f in owner' && owner'[f] == owner[f]
    requires held.frame in owner' && IsFrameOf(owner', held.frame, t)
    requires va % PAGE_SIZE == 0 && va < SPLIT
    requires MappedAt(tasks, mem, mem', t, va, held.frame, flags)
    ensures forall w | ValidVpn(w) && VaOf(w, 0) < SPLIT ::
              MappedToFrame(u, tasks[u].root, owner', vaOf[held.frame := va], mem', w)
  {
    hide Walk, VpnOf, VaOf, Sized, ValidVpn;
    PageWalk(va);
    forall w | ValidVpn(w) && VaOf(w, 0) < SPLIT
      ensures MappedToFrame(u, tasks[u].root, owner', vaOf[held.frame := va], mem', w)
    {
      assert MappedToFrame(u, tasks[u].root, owner, vaOf, mem, w);
    }
  }

  /** A page outside what the areas are filled with is not mapped. */
  lemma Unmapped(t: nat, tasks: Tasks, owner: Owners, vaOf: map<nat, nat>, mem: Memory, i: nat, hi: nat, va: nat)
    requires Sized(mem) && t in tasks && Ledger(tasks, owner) && MapsOk(tasks, owner, vaOf, mem)
    requires FilledUpTo(tasks[t], i, hi, vaOf, mem) && va < SPLIT && va % PAGE_SIZE == 0
    requires forall j | 0 <= j < |tasks[t].areas| :: va < tasks[t].areas[j].va || va >= if j == i then hi else End(tasks[t].areas[j])
    ensures Walk(mem, tasks[t].root, VpnOf(va)) == Fault
  {
    hide Walk, VpnOf, VaOf;
    if Walk(mem, tasks[t].root, VpnOf(va)) != Fault {
      var j, k := MappedFrame(t, tasks, owner, vaOf, mem, va);
    }
  }

  /** Pushing a frame extends the filled part of its area and leaves all others as they were. */
  lemma PushFilled(tasks: Tasks, owner: Owners, vaOf: map<nat, nat>, mem: Memory, mem': Memory,
                   t: nat, i: nat, held: Held, va: nat, flags: Flags, u: nat, j: nat, lo: nat, hi: nat)
    requires Sized(mem) && Sized(mem') && t in tasks && i < |tasks[t].areas| && Ledger(tasks, owner)
    requires held.frame !in owner && MappedAt(tasks, mem, mem', t, va, held.frame, flags)
    requires u in tasks && j < |tasks[u].areas| && Filled(tasks[u], j, lo, hi, vaOf, mem)
    requires va % PAGE_SIZE == 0 && lo % PAGE_SIZE == 0
    ensures var task', vaOf' := Pushed(tasks, t, i, held)[u], vaOf[held.frame := va];
            && (!(u == t && j == i) ==> Filled(task', j, lo, hi, vaOf', mem'))
            && (u == t && j == i && va == hi ==> Filled(task', j, lo, hi + PAGE_SIZE, vaOf', mem'))
            && (u == t && j == i && va + PAGE_SIZE == lo ==> Filled(task', j, va, hi, vaOf', mem'))
  {
    hide Walk, VpnOf, VaOf;
    var task', vaOf' := Pushed(tasks, t, i, held)[u], vaOf[held.frame := va];
    var pages := tasks[u].areas[j].pages;
    forall k | 0 <= k < |pages|
      ensures pages[k].frame != held.frame
    {
      assert PageAt(tasks, Slot(u, Frame(j, k))) == Some(pages[k].frame);
    }
    forall x: nat | x % PAGE_SIZE == 0 && (lo <= x < hi || (u == t && x == va))
      ensures Walk(mem', task'.root, VpnOf(x)) != Fault
    {
      assert ValidVpn(VpnOf(x));
    }
  }

  /** The tables of other tasks go on agreeing, and the area that got the frame is filled one page
      further. */
  lemma PushAgrees(tasks: Tasks, owner: Owners, vaOf: map<nat, nat>, mem: Memory, mem': Memory,
                   t: nat, i: nat, held: Held, va: nat, flags: Flags, u: nat)
    requires Sized(mem) && Sized(mem') && t in tasks && i < |tasks[t].areas| && Ledger(tasks, owner)
    requires held.frame !in owner && MappedAt(tasks, mem, mem', t, va, held.frame, flags) && va % PAGE_SIZE == 0
    requires u in tasks
    ensures u != t && Agrees(tasks[u], vaOf, mem) ==> Agrees(tasks[u], vaOf[held.frame := va], mem')
    ensures u == t && FilledUpTo(tasks[t], i, va, vaOf, mem) && va < End(tasks[t].areas[i]) ==>
              FilledUpTo(Pushed(tasks, t, i, held)[t], i, va + PAGE_SIZE, vaOf[held.frame := va], mem')
  {
    hide Walk, VpnOf, VaOf, Filled, Ledger, MappedAt;
    var tasks', vaOf' := Pushed(tasks, t, i, held), vaOf[held.frame := va];
    forall j, lo: nat, hi: nat | 0 <= j < |tasks[u].areas| && Filled(tasks[u], j, lo, hi, vaOf, mem) && lo % PAGE_SIZE == 0
      ensures !(u == t && j == i) ==> Filled(tasks'[u], j, lo, hi, vaOf', mem')
      ensures u == t && j == i && va == hi ==> Filled(tasks'[u], j, lo, hi + PAGE_SIZE, vaOf', mem')
    {
      PushFilled(tasks, owner, vaOf, mem, mem', t, i, held, va, flags, u, j, lo, hi);
    }
    if u == t && FilledUpTo(tasks[t], i, va, vaOf, mem) && va < End(tasks[t].areas[i]) {
      assert Sorted(tasks'[t].areas) by { SameBounds(tasks[t].areas, tasks'[t].areas); }
      assert Filled(tasks'[t], i, tasks[t].areas[i].va, va + PAGE_SIZE, vaOf', mem');
    }
  }

  lemma SameBounds(areas: seq<Area>, areas': seq<Area>)
    requires Sorted(areas) && |areas'| == |areas|
    requires forall j | 0 <= j < |areas| :: areas'[j].va == areas[j].va && areas'[j].nPages == areas[j].nPages
    ensures Sorted(areas')
  {
  }

  // ---------------------------------------------------------------- the stack area

  /** vm_area_in, which counts the end address in. */
  predicate VmAreaIn(a: Area, va: nat) {
    a.va <= va <= End(a)
  }

  /** Area `i` is a stack that may grow down to `va`: it is the first area beyond `va`, and `va` is
      neither in nor right at the end of an area before it. */
  predicate StackFor(areas: seq<Area>, va: nat, i: nat) {
    && i < |areas| && IsStack(areas[i]) && va < areas[i].va
    && forall j | 0 <= j < i :: areas[j].va <= va && !VmAreaIn(areas[j], va)
  }

  method VmFindStack(areas: seq<Area>, va: nat) returns (r: Option<nat>)
    ensures r.Some? ==> StackFor(areas, va, r.value)
    ensures r.None? ==> forall i :: !StackFor(areas, va, i)
  {
    var i := 0;
    while i < |areas|
      invariant 0 <= i <= |areas|
      invariant forall j | 0 <= j < i :: areas[j].va <= va && !VmAreaIn(areas[j], va)
    {
      if VmAreaIn(areas[i], va) {
        return None;
      }
      if areas[i].va > va {
        return if IsStack(areas[i]) then Some(i) else None;
      }
      i := i + 1;
    }
    r := None;
  }

  /** In a sorted list the stack that may grow to `va` is the area beyond `va` that is marked as a stack,
      and all areas before it end strictly below `va`: as the end address is counted in, an area that
      ends right at `va` prevents it. */
  lemma MayGrowTo(areas: seq<Area>, va: nat, i: nat)
    requires Sorted(areas) && i < |areas|
    ensures StackFor(areas, va, i) <==>
            (areas[i].flags & 1024 != 0 && va < areas[i].va && forall j | 0 <= j < i :: End(areas[j]) < va)
  {
    assert forall j | 0 <= j < i :: areas[j].va <= End(areas[j]);
  }

  /** In a sorted list a stack that may grow to `va` can do so without touching another area. */
  lemma RoomBelow(areas: seq<Area>, va: nat, i: nat)
    requires Sorted(areas) && StackFor(areas, va, i)
    ensures forall j | 0 <= j < |areas| && j != i ::
              End(areas[j]) <= va / PAGE_SIZE * PAGE_SIZE || areas[j].va >= End(areas[i])
  {
    forall j | 0 <= j < i
      ensures End(areas[j]) <= va / PAGE_SIZE * PAGE_SIZE
    {
      AlignedFloor(End(areas[j]), va);
    }
  }

  lemma AlignedFloor(low: nat, x: nat)
    requires low % PAGE_SIZE == 0 && low <= x
    ensures low <= x / PAGE_SIZE * PAGE_SIZE
  {
  }

  /** Task `t` after its area `i` has been moved to begin at `va`. */
  function Resized(tasks: Tasks, t: nat, i: nat, va: nat, nPages: nat): Tasks
    requires t in tasks && i < |tasks[t].areas|
  {
    var task := tasks[t];
    tasks[t := task.(areas := task.areas[i := task.areas[i].(va := va, nPages := nPages)])]
  }

  lemma ResizeLedger(tasks: Tasks, owner: Owners, t: nat, i: nat, va: nat, nPages: nat)
    requires Ledger(tasks, owner) && t in tasks && i < |tasks[t].areas|
    ensures Ledger(Resized(tasks, t, i, va, nPages), owner)
  {
    var tasks' := Resized(tasks, t, i, va, nPages);
    forall s: Slot
      ensures PageAt(tasks', s) == PageAt(tasks, s)
    {
    }
  }

  /** A stack one page larger, its new page mapped to the frame pushed last, agrees again. */
  lemma GrowAgrees(tasks: Tasks, owner: Owners, vaOf: map<nat, nat>, mem: Memory, mem': Memory,
                   t: nat, i: nat, held: Held, va: nat, flags: Flags)
    requires Sized(mem) && Sized(mem') && t in tasks && i < |tasks[t].areas| && Ledger(tasks, owner)
    requires held.frame !in owner && MappedAt(tasks, mem, mem', t, va, held.frame, flags) && va % PAGE_SIZE == 0
    requires Agrees(tasks[t], vaOf, mem) && va + PAGE_SIZE == tasks[t].areas[i].va
    requires forall j | 0 <= j < i :: End(tasks[t].areas[j]) <= va
    ensures Agrees(Resized(Pushed(tasks, t, i, held), t, i, va, tasks[t].areas[i].nPages + 1)[t], vaOf[held.frame := va], mem')
  {
    hide Walk, VpnOf, VaOf, Ledger, MappedAt;
    var pushed, vaOf' := Pushed(tasks, t, i, held), vaOf[held.frame := va];
    var task, task' := tasks[t], Resized(pushed, t, i, va, tasks[t].areas[i].nPages + 1)[t];
    forall j | 0 <= j < |task.areas|
      ensures Filled(task', j, task'.areas[j].va, End(task'.areas[j]), vaOf', mem')
    {
      assert Filled(task, j, task.areas[j].va, End(task.areas[j]), vaOf, mem);
      PushFilled(tasks, owner, vaOf, mem, mem', t, i, held, va, flags, t, j, task.areas[j].va, End(task.areas[j]));
      assert Filled(pushed[t], j, task'.areas[j].va, End(task'.areas[j]), vaOf', mem');
    }
    assert forall j | 0 <= j < |task.areas| && j != i :: task'.areas[j] == pushed[t].areas[j] && End(task'.areas[j]) == End(task.areas[j]);
    assert End(task'.areas[i]) == End(task.areas[i]);
  }
}
