/** What kernel/vm.c and kernel/sched.c do to tasks, areas, tables and frames. */
module VmOps {
  import opened Memlayout
  import opened Sv39
  import opened PageTree
  import opened Buddy
  import opened BuddyAllocator
  import opened PageTables
  import opened Vm
  import opened VmState
  import opened TaskRuns

  class Kernel {
    const mmu: Mmu
    /** The bytes of every page from KERN_PHYBASE on. */
    const ram: array<seq<u8>>
    var tasks: Tasks
    ghost var owner: Owners
    ghost var vaOf: map<nat, nat>

    ghost function Repr(): set<object> {
      {this, ram, mmu, mmu.mem, mmu.alloc, mmu.alloc.head, mmu.alloc.word}
    }

    ghost function State(): Machine
      reads Repr()
    {
      Machine(tasks, owner, vaOf, mmu.mem[..], mmu.roles, mmu.alloc.live, ram[..], mmu.alloc.free, mmu.alloc.word[..])
    }

    ghost predicate Valid()
      reads Repr()
    {
      mmu.Valid() && ram.Length == PAGES && Sane(State())
    }

    lemma Ordered()
      requires Valid()
      ensures InOrder(State())
    {
      hide Tiling, Coalesced, Sane;
    }

    /** The allocator's links have been written into no page that was held in `m` and still is. */
    ghost predicate Spared(m: Machine)
      reads Repr()
    {
      HeldWords(m.live, m.word, mmu.alloc.live, mmu.alloc.word[..])
    }

    constructor (machine: Mmu)
      requires machine.Valid() && machine.roles == map[] && machine.alloc.live == {}
      ensures Valid() && mmu == machine && fresh(ram) && tasks == map[]
    {
      mmu := machine;
      ram := new seq<u8>[PAGES](_ => seq(PAGE_SIZE, _ => 0));
      tasks := map[];
      owner := map[];
      vaOf := map[];
    }

    /** alloc_pages(0), since the state was `m`. */
    method TakePage(ghost m: Machine) returns (r: Outcome<nat>)
      requires mmu.Valid() && Spared(m) && m.live <= mmu.alloc.live
      modifies mmu.alloc, mmu.alloc.head, mmu.alloc.word
      ensures mmu.Valid() && Spared(m) && m.live <= mmu.alloc.live
      ensures r.Panic? ==> r.reason == OutOfMemory && mmu.alloc.Exhausted()
      ensures r.Ok? ==>
                && r.value >= KERN_PHYBASE && r.value == PageAddress(PageOf(r.value)) && PageOf(r.value) < PAGES
                && Block(PageOf(r.value), 0) !in old(mmu.alloc.live)
                && mmu.alloc.live == old(mmu.alloc.live) + {Block(PageOf(r.value), 0)}
    {
      hide Tiling, Chained, Coalesced, TreeOk, HeldWords;
      ghost var live, word := mmu.alloc.live, mmu.alloc.word[..];
      r := mmu.alloc.AllocPage();
      HeldWordsTwice(m.live, m.word, live, word, mmu.alloc.live, mmu.alloc.word[..]);
    }

    lemma SparedNow()
      requires Valid()
      ensures Spared(State())
    {
      hide Tiling, Coalesced, TreeOk, Sane;
    }

    /** A frame for the page at `va`, put on the pages of area `i` of task `t` and mapped. */
    method AddPage(t: nat, i: nat, va: nat, flags: Flags) returns (r: Outcome<Held>)
      requires Valid() && t in tasks && i < |tasks[t].areas|
      requires va % PAGE_SIZE == 0 && va < SPLIT && flags.v && Grants(flags) && flags.u
      requires Walk(State().mem, tasks[t].root, VpnOf(va)) == Fault
      modifies this, mmu, mmu.mem, mmu.alloc, mmu.alloc.head, mmu.alloc.word
      ensures r.Panic? ==> r.reason == OutOfMemory && mmu.alloc.Exhausted()
      ensures r.Ok? ==> Valid() && PageAdded(old(State()), State(), t, i, r.value, va, flags)
    {
      hide Tiling, Chained, Coalesced, TreeOk, Walk, VpnOf, VaOf, Sane, PageAdded, HeldWords, Done, Grown, LeafAt, NewEntry, Grants, Pushed, PushedOwners;
      ghost var m := State();
      SparedNow();
      TaskRoot(m, t);
      var page := TakePage(m);
      if page.Panic? { return Panic(page.reason); }
      var node := TakePage(m);
      if node.Panic? { return Panic(node.reason); }
      var held := Held(PageOf(node.value), PageOf(page.value));
      ghost var live, word := mmu.alloc.live, mmu.alloc.word[..];
      FrameEntry(page.value, flags);
      assert live == m.live + {Block(held.frame, 0)} + {Block(held.node, 0)};
      EntryIsLeaf(page.value, flags);
      var status := mmu.SetPage(tasks[t].root, va, Pa(page.value), flags);
      if status.Panic? { return Panic(status.reason); }
      HeldWordsTwice(m.live, m.word, live, word, mmu.alloc.live, mmu.alloc.word[..]);
      MappedWalks(m.mem, mmu.mem[..], m.roles, tasks[t].root, va, page.value, flags);
      owner := PushedOwners(tasks, owner, t, i, held);
      tasks := Pushed(tasks, t, i, held);
      vaOf := vaOf[held.frame := va];
      AddSane(m, State(), t, i, held, va, flags);
      r := Ok(held);
    }

    /** A record and a list node for an area, put at the end of the list of task `t`. */
    method PushArea(t: nat, va: nat, nPages: nat, flags: bv32) returns (r: Outcome<Area>)
      requires Valid() && t in tasks
      modifies this, mmu.alloc, mmu.alloc.head, mmu.alloc.word
      ensures r.Panic? ==> r.reason == OutOfMemory && mmu.alloc.Exhausted()
      ensures r.Ok? ==>
                && Valid() && AreaAdded(old(State()), State(), t, r.value)
                && r.value.va == va && r.value.nPages == nPages && r.value.flags == flags
    {
      hide Tiling, Chained, Coalesced, TreeOk, Sane, HeldWords;
      ghost var m := State();
      SparedNow();
      var record := TakePage(m);
      if record.Panic? { return Panic(record.reason); }
      var node := TakePage(m);
      if node.Panic? { return Panic(node.reason); }
      var area := Area(PageOf(record.value), PageOf(node.value), va, nPages, 1, flags, []);
      TakenBefore(m, area.record);
      TakenBefore(m, area.node);
      owner := owner[area.record := Slot(t, AreaRecord(|tasks[t].areas|))][area.node := Slot(t, AreaNode(|tasks[t].areas|))];
      tasks := tasks[t := tasks[t].(areas := tasks[t].areas + [area])];
      AreaSane(m, State(), t, area);
      r := Ok(area);
    }

    /** vm_area_create and vm_add_area. The list is searched for areas beyond the new one, to put it
        before them; areas come in ascending order, so there are none. */
    method AddArea(t: nat, va: nat, nPages: nat, flags: bv32) returns (r: Outcome<Area>)
      requires Valid() && t in tasks
      requires forall j | 0 <= j < |tasks[t].areas| :: tasks[t].areas[j].va <= va
      modifies this, mmu.alloc, mmu.alloc.head, mmu.alloc.word
      ensures r == Panic(Misaligned) <==> va % PAGE_SIZE != 0
      ensures r.Panic? && r.reason != Misaligned ==> r.reason == OutOfMemory && mmu.alloc.Exhausted()
      ensures r.Ok? ==>
                && Valid() && AreaAdded(old(State()), State(), t, r.value)
                && r.value.va == va && r.value.nPages == nPages && r.value.flags == flags
    {
      if va % PAGE_SIZE != 0 { return Panic(Misaligned); }
      var n := 0;
      while n < |tasks[t].areas|
        invariant 0 <= n <= |tasks[t].areas|
        modifies {}
      {
        if tasks[t].areas[n].va > va {
          assert false;
        }
        n := n + 1;
      }
      r := PushArea(t, va, nPages, flags);
    }

    /** copy_from_user of a page, byte by byte from where the table of task `from` leads. A page that is
        not mapped, or may not be read, faults at its first byte. */
    method CopyPage(page: nat, from: nat, va: nat) returns (r: int)
      requires Valid() && page < PAGES && from in tasks && va % PAGE_SIZE == 0 && va < SPLIT
      requires !SeenAt(State(), from, va, page)
      modifies ram
      ensures r == if CanRead(State(), from, va) then 0 else -EFAULT
      ensures ram[..] == if r == 0 then old(ram[..])[page := SeenPage(old(State()), from, va)] else old(ram[..])
      ensures |ram[page]| == PAGE_SIZE
    {
      hide Tiling, Chained, Coalesced, TreeOk, Sane;
      PageSized(State(), page);
      CanReadFrame(State(), from, va);
      var i := 0;
      ghost var was := ram[..];
      while i < PAGE_SIZE
        invariant 0 <= i <= PAGE_SIZE && |ram[page]| == PAGE_SIZE && Sized(mmu.mem[..])
        invariant i > 0 ==> CanRead(old(State()), from, va)
        invariant ram[..] == was[page := ram[page]]
        invariant forall k | 0 <= k < i :: ram[page][k] == SeenPage(old(State()), from, va)[k]
        invariant i == 0 ==> ram[..] == was
        modifies ram
      {
        SamePageIndexes(va, i);
        var walk := Walk(mmu.mem[..], tasks[from].root, VpnOf(va + i));
        if walk == Fault || !walk.flags.r {
          return -EFAULT;
        }
        var frame := walk.ppn - RAM_PPN;
        ram[page] := ram[page][i := ram[frame][Offset(va + i)]];
        i := i + 1;
      }
      assert ram[page] == SeenPage(old(State()), from, va);
      r := 0;
    }

    /** clear_page. */
    method ClearPage(page: nat)
      requires ram.Length == PAGES && page < PAGES && |ram[page]| == PAGE_SIZE
      modifies ram
      ensures ram[..] == old(ram[..])[page := ZeroPage()]
    {
      ghost var was := ram[..];
      var i := 0;
      while i < PAGE_SIZE / 8
        invariant 0 <= i <= PAGE_SIZE / 8 && |ram[page]| == PAGE_SIZE
        invariant ram[..] == was[page := ram[page]]
        invariant forall k | 0 <= k < 8 * i :: ram[page][k] == 0
      {
        ram[page] := ram[page][..8 * i] + [0, 0, 0, 0, 0, 0, 0, 0] + ram[page][8 * i + 8..];
        i := i + 1;
      }
      assert ram[page] == ZeroPage();
    }

    /** One round of the stack expansion in task_entry. */
    method GrowStack(t: nat, i: nat) returns (r: Outcome<()>)
      requires Valid() && AtRest(State(), t) && i < |tasks[t].areas| && tasks[t].areas[i].va >= PAGE_SIZE
      requires forall j | 0 <= j < i :: End(tasks[t].areas[j]) <= tasks[t].areas[i].va - PAGE_SIZE
      modifies Repr()
      ensures r.Panic? ==> r.reason == OutOfMemory && mmu.alloc.Exhausted()
      ensures r.Ok? ==> Valid() && StackGrown(old(State()), State(), t, i, old(tasks[t].areas[i].va) - PAGE_SIZE)
    {
      hide Tiling, Chained, Coalesced, TreeOk, Walk, VpnOf, VaOf, Sane, Agrees, StackGrown;
      var va := tasks[t].areas[i].va - PAGE_SIZE;
      RoomAt(State(), t, i, va);
      var flags := PteFlagsFromVmFlags(tasks[t].areas[i].flags);
      AllPermissions(tasks[t].areas[i].flags);
      var held := AddPage(t, i, va, flags);
      if held.Panic? { return Panic(held.reason); }
      PageSized(State(), held.value.frame);
      ghost var added := State();
      ClearPage(held.value.frame);
      RamSane(added, State(), held.value.frame);
      ghost var cleared := State();
      tasks := Resized(tasks, t, i, va, tasks[t].areas[i].nPages + 1);
      GrowOk(old(State()), cleared, State(), t, i, held.value, va, flags);
      r := Ok(());
    }

    /** The pages of a new task: its record, its kernel stack, its table and its queue node. */
    method TakeTask(ghost m: Machine) returns (r: Outcome<(nat, Task)>)
      requires Valid() && m == State()
      modifies mmu`roles, mmu.mem, mmu.alloc, mmu.alloc.head, mmu.alloc.word
      ensures r.Panic? ==> r.reason == OutOfMemory && mmu.alloc.Exhausted()
      ensures r.Ok? ==>
                var (t, task) := r.value;
                && mmu.Valid() && OnlyTaken(m, State()) && task.areas == []
                && t < PAGES && task.stack < PAGES && task.queueNode < PAGES
                && t != task.stack && task.stack != task.queueNode && task.queueNode != t && task.root !in {t, task.stack, task.queueNode}
                && (forall p | p in {t, task.stack, task.queueNode, task.root} :: Block(p, 0) !in m.live)
                && mmu.alloc.live == m.live + Blocks({t, task.stack, task.queueNode, task.root})
                && task.root !in m.roles && mmu.roles == m.roles[task.root := Root(task.root)]
                && Sized(m.mem) && (forall w | ValidVpn(w) :: Walk(mmu.mem[..], task.root, w) == KernelWalk(w))
                && SameWalks(m.mem, mmu.mem[..], m.roles)
    {
      hide Tiling, Chained, Coalesced, TreeOk, Walk, Sane, HeldWords, SameWalks;
      SparedNow();
      var record := TakePage(m);
      if record.Panic? { return Panic(record.reason); }
      var stack := TakePage(m);
      if stack.Panic? { return Panic(stack.reason); }
      ghost var live, word := mmu.alloc.live, mmu.alloc.word[..];
      var table := mmu.CreatePageTable();
      if table.Panic? { return Panic(table.reason); }
      HeldWordsTwice(m.live, m.word, live, word, mmu.alloc.live, mmu.alloc.word[..]);
      var node := TakePage(m);
      if node.Panic? { return Panic(node.reason); }
      var t := PageOf(record.value);
      var task := Task(PageOf(stack.value), table.value, PageOf(node.value), []);
      FourBlocks(t, task.stack, task.queueNode, task.root);
      r := Ok((t, task));
    }

    /** task_create. */
    method TaskCreate() returns (r: Outcome<nat>)
      requires Valid()
      modifies Repr()
      ensures r.Panic? ==> r.reason == OutOfMemory && mmu.alloc.Exhausted()
      ensures r.Ok? ==>
                && Valid() && r.value in tasks && TaskAdded(old(State()), State(), r.value, tasks[r.value])
                && TaskStep(old(State()), Create(r.value), State())
                && AtRest(State(), r.value) && OthersRest(old(State()), State(), r.value) && Extends(old(State()), State())
    {
      hide Tiling, Chained, Coalesced, TreeOk, Walk, Sane, AtRest, OthersRest, Extends, HeldWords, SameWalks, InOrder, TaskStep, Blocks;
      ghost var m := State();
      var taken := TakeTask(m);
      if taken.Panic? { return Panic(taken.reason); }
      var (t, task) := taken.value;
      TakenBefore(m, t);
      TakenBefore(m, task.stack);
      TakenBefore(m, task.queueNode);
      owner := owner[t := Slot(t, TaskRecord)][task.stack := Slot(t, KernelStack)][task.queueNode := Slot(t, QueueNode)];
      tasks := tasks[t := task];
      assert TaskAdded(m, State(), t, task);
      TaskSane(m, State(), t, task);
      TaskOthers(m, State(), t, task);
      Ordered();
      CreateStep(m, State(), t);
      r := Ok(t);
    }

    /** Return the page that holds a part of the dying task `t`. */
    method FreeItem(t: nat, item: Item, page: nat, ghost m: Machine, ghost gone: set<Item>, ghost tableGone: bool)
      requires mmu.Valid() && Sane(m) && Dying(m, t, gone, tableGone, mmu.alloc.live, mmu.roles) && Spared(m)
      requires item !in gone && PageAt(m.tasks, Slot(t, item)) == Some(page)
      modifies mmu.alloc, mmu.alloc.head, mmu.alloc.word
      ensures mmu.Valid() && Spared(m) && Dying(m, t, gone + {item}, tableGone, mmu.alloc.live, mmu.roles)
    {
      hide Tiling, Chained, Coalesced, TreeOk, Sane, HeldWords;
      OneGone(m, t, gone, tableGone, mmu.alloc.live, mmu.roles, item, page);
      ghost var live, word := mmu.alloc.live, mmu.alloc.word[..];
      mmu.alloc.FreePage(PageAddress(page));
      HeldWordsTwice(m.live, m.word, live, word, mmu.alloc.live, mmu.alloc.word[..]);
    }

    /** vm_area_destroy: the frames, the nodes that name them, the record. */
    method VmAreaDestroy(t: nat, i: nat, ghost m: Machine, ghost gone: set<Item>)
      requires mmu.Valid() && Spared(m) && Sane(m) && Dying(m, t, gone, false, mmu.alloc.live, mmu.roles)
      requires tasks == m.tasks && t in tasks && i < |tasks[t].areas| && gone !! AreaItems(tasks[t].areas[i], i)
      modifies mmu.alloc, mmu.alloc.head, mmu.alloc.word
      ensures mmu.Valid() && Spared(m) && Dying(m, t, gone + AreaItems(m.tasks[t].areas[i], i), false, mmu.alloc.live, mmu.roles)
    {
      hide Tiling, Chained, Coalesced, TreeOk, Sane, Dying, HeldWords;
      var area := tasks[t].areas[i];
      ghost var now := gone;
      var k := 0;
      while k < |area.pages|
        invariant 0 <= k <= |area.pages|
        invariant now == gone + set j: nat | 0 <= j < k :: Frame(i, j)
        invariant mmu.Valid() && Spared(m) && Dying(m, t, now, false, mmu.alloc.live, mmu.roles)
      {
        FreeItem(t, Frame(i, k), area.pages[k].frame, m, now, false);
        now := now + {Frame(i, k)};
        k := k + 1;
      }
      ghost var frames := set j: nat | 0 <= j < |area.pages| :: Frame(i, j);
      k := 0;
      while k < |area.pages|
        invariant 0 <= k <= |area.pages|
        invariant now == gone + frames + set j: nat | 0 <= j < k :: PageNode(i, j)
        invariant mmu.Valid() && Spared(m) && Dying(m, t, now, false, mmu.alloc.live, mmu.roles)
      {
        FreeItem(t, PageNode(i, k), area.pages[k].node, m, now, false);
        now := now + {PageNode(i, k)};
        k := k + 1;
      }
      FreeItem(t, AreaRecord(i), area.record, m, now, false);
      assert now + {AreaRecord(i)} == gone + AreaItems(area, i);
    }

    /** vm_decref_all: each area has one reference, so each is destroyed; then the list's nodes go. */
    method VmDecrefAll(t: nat, ghost m: Machine)
      requires mmu.Valid() && Spared(m) && Sane(m) && Dying(m, t, {}, false, mmu.alloc.live, mmu.roles) && AtRest(m, t)
      requires tasks == m.tasks
      modifies mmu.alloc, mmu.alloc.head, mmu.alloc.word
      ensures mmu.Valid() && Spared(m)
      ensures var areas := m.tasks[t].areas;
              Dying(m, t, AreasItems(areas, |areas|) + NodeItems(|areas|), false, mmu.alloc.live, mmu.roles)
    {
      hide Tiling, Chained, Coalesced, TreeOk, Sane, Dying, HeldWords, FilledUpTo;
      var areas := tasks[t].areas;
      SingleReferences(m, t);
      var i := 0;
      while i < |areas|
        invariant 0 <= i <= |areas|
        invariant mmu.Valid() && Spared(m) && Dying(m, t, AreasItems(areas, i), false, mmu.alloc.live, mmu.roles)
      {
        var refcount := areas[i].refcount - 1;
        if refcount == 0 {
          LaterItems(areas, i);
          VmAreaDestroy(t, i, m, AreasItems(areas, i));
        }
        i := i + 1;
      }
      LaterItems(areas, |areas|);
      ListDestroy(t, m, AreasItems(areas, |areas|));
    }

    /** list_destroy of the list of areas. */
    method ListDestroy(t: nat, ghost m: Machine, ghost gone: set<Item>)
      requires mmu.Valid() && Spared(m) && Sane(m) && Dying(m, t, gone, false, mmu.alloc.live, mmu.roles)
      requires tasks == m.tasks && t in tasks && gone !! NodeItems(|tasks[t].areas|)
      modifies mmu.alloc, mmu.alloc.head, mmu.alloc.word
      ensures mmu.Valid() && Spared(m) && Dying(m, t, gone + NodeItems(|tasks[t].areas|), false, mmu.alloc.live, mmu.roles)
    {
      hide Tiling, Chained, Coalesced, TreeOk, Sane, Dying, HeldWords;
      var areas := tasks[t].areas;
      ghost var now := gone;
      var i := 0;
      while i < |areas|
        invariant 0 <= i <= |areas| && now == gone + NodeItems(i)
        invariant mmu.Valid() && Spared(m) && Dying(m, t, now, false, mmu.alloc.live, mmu.roles)
      {
        FreeItem(t, AreaNode(i), areas[i].node, m, now, false);
        now := now + {AreaNode(i)};
        i := i + 1;
      }
    }

    /** task_destroy_sched: the areas and the queue node. */
    method TaskDestroySched(t: nat, ghost m: Machine)
      requires mmu.Valid() && Spared(m) && Sane(m) && Dying(m, t, {}, false, mmu.alloc.live, mmu.roles) && AtRest(m, t)
      requires tasks == m.tasks
      modifies mmu.alloc, mmu.alloc.head, mmu.alloc.word
      ensures mmu.Valid() && Spared(m) && Dying(m, t, SchedItems(m.tasks[t]), false, mmu.alloc.live, mmu.roles)
    {
      hide Tiling, Chained, Coalesced, TreeOk, Sane, Dying, FilledUpTo, HeldWords;
      var task := tasks[t];
      VmDecrefAll(t, m);
      LaterItems(task.areas, |task.areas|);
      FreeItem(t, QueueNode, task.queueNode, m, AreasItems(task.areas, |task.areas|) + NodeItems(|task.areas|), false);
    }

    /** task_destroy of a task other than init. */
    method TaskDestroy(t: nat)
      requires Valid() && AtRest(State(), t)
      modifies Repr()
      ensures Valid() && TaskGone(old(State()), State(), t) && TaskStep(old(State()), Destroy(t), State())
    {
      hide Tiling, Chained, Coalesced, TreeOk, Sane, Dying, FilledUpTo, TaskGone, HeldWords, InOrder, SchedItems;
      ghost var m := State();
      SparedNow();
      DyingStart(m, t);
      var task := tasks[t];
      TaskDestroySched(t, m);
      ghost var gone := SchedItems(task);
      TableDying(m, t, gone, mmu.alloc.live, mmu.roles);
      ghost var live, word := mmu.alloc.live, mmu.alloc.word[..];
      var status := mmu.DestroyPageTable(task.root);
      HeldWordsTwice(m.live, m.word, live, word, mmu.alloc.live, mmu.alloc.word[..]);
      LaterSched(task);
      FreeItem(t, KernelStack, task.stack, m, gone, true);
      FreeItem(t, TaskRecord, t, m, gone + {KernelStack}, true);
      tasks := tasks - {t};
      owner := map p | p in owner && owner[p].task != t :: owner[p];
      GoneSane(m, State(), t);
      Ordered();
      DestroyStep(m, State(), t);
    }

    /** vm_clone: the areas of `p`, whose table is active, copied page for page into `c`. */
    method VmClone(p: nat, c: nat) returns (r: Outcome<()>)
      requires Valid() && AtRest(State(), p) && AtRest(State(), c) && p != c && State().tasks[c].areas == []
      modifies Repr()
      ensures r.Panic? ==> r.reason == OutOfMemory && mmu.alloc.Exhausted()
      ensures r.Ok? ==> Valid() && Cloned(old(State()), State(), p, c, |old(State()).tasks[p].areas|)
    {
      hide Tiling, Chained, Coalesced, TreeOk, Walk, VpnOf, VaOf, Sane, Agrees, Cloned, Cloning, AreaAdded;
      ghost var m0 := State();
      var areas := tasks[p].areas;
      CloneStart(m0, p, c);
      var i := 0;
      while i < |areas|
        invariant 0 <= i <= |areas| && Valid() && Cloned(m0, State(), p, c, i)
      {
        ghost var m := State();
        CloneTasks(m0, m, p, c, i);
        var area := PushArea(c, areas[i].va, areas[i].nPages, areas[i].flags);
        if area.Panic? { return Panic(area.reason); }
        CloneArea(m0, m, State(), p, c, i, area.value);
        CloneEnds(m0, State(), p, c, i, areas[i].va);
        var flags := PteFlagsFromVmFlags(areas[i].flags);
        AllPermissions(areas[i].flags);
        var va := areas[i].va;
        var k := 0;
        while k < areas[i].nPages
          invariant 0 <= k <= areas[i].nPages && va == areas[i].va + k * PAGE_SIZE
          invariant Valid() && Cloning(m0, State(), p, c, i, va)
        {
          CloneEnds(m0, State(), p, c, i, va);
          var status := ClonePage(p, c, i, va, flags, m0);
          if status.Panic? { return Panic(status.reason); }
          va := va + PAGE_SIZE;
          k := k + 1;
        }
        CloneEnds(m0, State(), p, c, i, va);
        CloneFilled(m0, State(), p, c, i);
        i := i + 1;
      }
      r := Ok(());
    }

    /** task_clone of the current task. */
    method TaskClone(p: nat) returns (r: Outcome<nat>)
      requires Valid() && AtRest(State(), p)
      modifies Repr()
      ensures r.Panic? ==> r.reason == OutOfMemory && mmu.alloc.Exhausted()
      ensures r.Ok? ==> Valid() && Forked(old(State()), State(), p, r.value) && TaskStep(old(State()), Fork(p, r.value), State())
    {
      hide Tiling, Chained, Coalesced, TreeOk, Walk, VpnOf, VaOf, Sane, Agrees, Cloned, Forked, InOrder, TaskStep;
      ghost var m := State();
      var c := TaskCreate();
      if c.Panic? { return Panic(c.reason); }
      ghost var l := State();
      NewTask(m, l, c.value);
      var status := VmClone(p, c.value);
      if status.Panic? { return Panic(status.reason); }
      CreatedAndCloned(m, l, State(), p, c.value);
      Ordered();
      ForkStepped(m, State(), p, c.value);
      r := Ok(c.value);
    }

    /** One page of the loop in vm_clone. */
    method ClonePage(p: nat, c: nat, i: nat, va: nat, flags: Flags, ghost m0: Machine) returns (r: Outcome<()>)
      requires Valid() && Cloning(m0, State(), p, c, i, va) && va < End(tasks[c].areas[i])
      requires flags == USER_ALL
      modifies Repr()
      ensures r.Panic? ==> r.reason == OutOfMemory && mmu.alloc.Exhausted()
      ensures r.Ok? ==> Valid() && Cloning(m0, State(), p, c, i, va + PAGE_SIZE)
    {
      hide Tiling, Chained, Coalesced, TreeOk, Walk, VpnOf, VaOf, Sane, FilledUpTo, Cloning, Copied, PageAdded, Extends, CanRead;
      CloneSource(m0, State(), p, c, i, va);
      var held := AddPage(c, i, va, flags);
      if held.Panic? { return Panic(held.reason); }
      ghost var added := State();
      CloneAdded(m0, old(State()), added, p, c, i, held.value, va, flags);
      var copied := CopyPage(held.value.frame, p, va);
      RamSane(added, State(), held.value.frame);
      CloneNext(m0, old(State()), added, State(), p, c, i, held.value, va, flags);
      r := Ok(());
    }

    /** The page fault handling of task_entry: a fault below a stack area extends the area down to the
        page of the fault, and true is returned; any other fault ends the task. */
    method ExpandStack(t: nat, stval: nat) returns (r: Outcome<bool>)
      requires Valid() && AtRest(State(), t)
      modifies Repr()
      ensures r.Panic? ==> r.reason == OutOfMemory && mmu.alloc.Exhausted()
      ensures stval < 0x3e_e000_0000 || stval >= 0x3e_f000_0000 ==> r == Ok(false)
      ensures r == Ok(false) ==> Valid() && !StackFault(old(State()), t, stval) && State() == old(State())
      ensures r == Ok(true) ==> Valid() && StackFault(old(State()), t, stval) && TaskStep(old(State()), Grow(t, stval), State())
    {
      hide Tiling, Chained, Coalesced, TreeOk, Sane, Agrees, StackGrown, StackFor, StackExpanded, InOrder, TaskStep;
      ghost var m := State();
      TaskOf(m, t);
      if stval >= USERSTACKMIN && stval < USERSTACK {
        var area := VmFindStack(tasks[t].areas, stval);
        if area.Some? {
          var i := area.value;
          var vaStart := stval / PAGE_SIZE * PAGE_SIZE;
          StackRoom(m, t, stval, i);
          SizedRam(m);
          NotGrown(m, t, i);
          while tasks[t].areas[i].va > vaStart
            invariant t in tasks && i < |tasks[t].areas| && Valid() && StackGrown(m, State(), t, i, tasks[t].areas[i].va)
            invariant tasks[t].areas[i].va >= vaStart && tasks[t].areas[i].va % PAGE_SIZE == 0
            decreases tasks[t].areas[i].va - vaStart
          {
            ghost var n := State();
            GrownFacts(m, n, t, i, n.tasks[t].areas[i].va);
            var grown := GrowStack(t, i);
            if grown.Panic? { return Panic(grown.reason); }
            GrownFacts(n, State(), t, i, n.tasks[t].areas[i].va - PAGE_SIZE);
            GrownTwice(m, n, State(), t, i, n.tasks[t].areas[i].va, n.tasks[t].areas[i].va - PAGE_SIZE);
          }
          GrownToFault(m, State(), t, i, stval);
          Ordered();
          GrowStep(m, State(), t, stval);
          return Ok(true);
        }
      }
      r := Ok(false);
    }
  }
}
