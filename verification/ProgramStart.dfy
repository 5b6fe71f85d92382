/** task_init_elf of kernel/elf.c as a whole: a program is loaded, and its arguments are put on the page
    of stack that it finds mapped below USERSTACK. */
module ProgramStart {
  import opened Memlayout
  import opened Sv39
  import opened BuddyAllocator
  import opened PageTables
  import opened Vm
  import opened VmState
  import opened TaskRuns
  import opened VmOps
  import opened Loader
  import opened StartImage

  /** The page of a stack of one page is the one that the task sees there. */
  lemma StackFrame(m: Machine, t: nat, i: nat)
    requires Sane(m) && AtRest(m, t) && i < |m.tasks[t].areas|
    requires m.tasks[t].areas[i].va == STACK_VA && m.tasks[t].areas[i].nPages == 1
    ensures |m.tasks[t].areas[i].pages| == 1
    ensures var f := m.tasks[t].areas[i].pages[0].frame;
            && f < PAGES && IsFrameOf(m.owner, f, t) && SeenAt(m, t, STACK_VA, f)
            && |m.ram| == PAGES && |m.ram[f]| == PAGE_SIZE && SeenPage(m, t, STACK_VA) == m.ram[f]
  {
    hide Walk, VpnOf, VaOf, Ledger, MapsOk, TablesOk, Balanced;
    AreaFilled(m.tasks[t], i, m.vaOf, m.mem);
    var f := m.tasks[t].areas[i].pages[0].frame;
    FrameOfItem(m, t, i, 0);
    FrameSeen(m, t, f);
  }

  lemma FrameOfItem(m: Machine, t: nat, i: nat, k: nat)
    requires Sane(m) && t in m.tasks && i < |m.tasks[t].areas| && k < |m.tasks[t].areas[i].pages|
    ensures var f := m.tasks[t].areas[i].pages[k].frame; IsFrameOf(m.owner, f, t) && f < PAGES
  {
    hide MapsOk, TablesOk, Balanced;
    assert PageAt(m.tasks, Slot(t, Frame(i, k))) == Some(m.tasks[t].areas[i].pages[k].frame);
  }

  /** A frame is seen where it is mapped. */
  lemma FrameSeen(m: Machine, t: nat, f: nat)
    requires Sane(m) && t in m.tasks && IsFrameOf(m.owner, f, t) && f < PAGES
    ensures f in m.vaOf && m.vaOf[f] % PAGE_SIZE == 0 && SeenAt(m, t, m.vaOf[f], f) && SeenPage(m, t, m.vaOf[f]) == m.ram[f]
    ensures |m.ram| == PAGES && |m.ram[f]| == PAGE_SIZE
  {
    hide Walk, VpnOf, VaOf, Ledger, TablesOk, Balanced;
    assert MapOk(t, m.tasks[t].root, m.owner, m.vaOf, m.mem);
    assert FrameMapped(f, m.tasks[t].root, m.vaOf, m.mem);
  }

  /** Writing to the page of stack leaves the rest of a loaded program as it is. */
  lemma ArgumentsKeep(m: Machine, n: Machine, n': Machine, t: nat, p: Program, f: nat)
    requires Sane(m) && t in m.tasks && m.tasks[t].areas == [] && Sane(n) && Sane(n') && Fits(p) && ImageLoaded(m, n, t, p)
    requires f < PAGES && IsFrameOf(n.owner, f, t) && SeenAt(n, t, STACK_VA, f)
    requires |n.ram| == |n'.ram| == PAGES && n' == n.(ram := n.ram[f := n'.ram[f]])
    ensures ImageLoaded(m, n', t, p) && SeenPage(n', t, STACK_VA) == n'.ram[f]
  {
    hide Sane, AtRest, OthersRest, Extends, SegmentLoaded, SegEnd, SegStart, StackFlags, StackPteFlags, Loadable, SeenPage, SeenAt, MappedWith;
    TaskOf(n, t);
    FreshFrame(m, n, t, f);
    var segs := Segments(p.phdrs, |p.phdrs|);
    forall ph | ph in segs
      ensures SegmentLoaded(n', t, ph, p.bytes, SegEnd(ph))
    {
      SegmentKept(n, n', t, ph, p.bytes, f);
    }
    WriteKeeps(m, n, n', t, f);
    SameWith(n, n', t, STACK_VA, StackPteFlags(ExecStack(p.phdrs, |p.phdrs|)));
  }

  lemma WriteKeeps(m: Machine, n: Machine, n': Machine, t: nat, f: nat)
    requires OthersRest(m, n, t) && Extends(m, n) && AtRest(n, t) && f < PAGES && f !in m.owner && SeenAt(n, t, STACK_VA, f)
    requires |n.ram| == |n'.ram| == PAGES && n' == n.(ram := n.ram[f := n'.ram[f]])
    ensures OthersRest(m, n', t) && Extends(m, n') && AtRest(n', t) && SeenPage(n', t, STACK_VA) == n'.ram[f]
  {
    hide Walk, Agrees, HeldWords;
  }

  lemma SameWith(n: Machine, n': Machine, t: nat, va: nat, flags: Flags)
    requires MappedWith(n, t, va, flags) && n'.mem == n.mem && n'.tasks == n.tasks
    ensures MappedWith(n', t, va, flags)
  {
  }

  /** A frame of a task that had no areas before was not held before. */
  lemma FreshFrame(m: Machine, n: Machine, t: nat, f: nat)
    requires Sane(m) && t in m.tasks && m.tasks[t].areas == [] && IsFrameOf(n.owner, f, t) && Extends(m, n)
    ensures f !in m.owner
  {
    hide MapsOk, TablesOk, Balanced, WalksKept, OnlyTaken;
    assert f in m.owner ==> PageAt(m.tasks, m.owner[f]) == Some(f);
  }

  lemma SegmentKept(n: Machine, n': Machine, t: nat, ph: Phdr, bytes: seq<u8>, f: nat)
    requires Sane(n) && t in n.tasks && f < PAGES && SeenAt(n, t, STACK_VA, f) && Loadable(ph, bytes)
    requires |n'.ram| == PAGES && n' == n.(ram := n.ram[f := n'.ram[f]]) && SegmentLoaded(n, t, ph, bytes, SegEnd(ph))
    ensures SegmentLoaded(n', t, ph, bytes, SegEnd(ph))
  {
    hide Sane, Walk, VpnOf, SegStart, LoadedPage, SeenPage, SeenAt, PteFlags;
    forall va: nat | SegStart(ph) <= va < SegEnd(ph) && va % PAGE_SIZE == 0
      ensures SeenPage(n', t, va) == SeenPage(n, t, va)
    {
      assert va < STACK_VA;
      WriteIsolated(n, n', t, STACK_VA, f, t, va);
    }
  }

  /** The second half of task_init_elf, for a program just loaded. */
  method PutArguments(k: Kernel, t: nat, p: Program, argv: seq<CString>, envp: seq<CString>, ghost m: Machine) returns (start: Start)
    requires k.Valid() && Sane(m) && t in m.tasks && m.tasks[t].areas == [] && Fits(p) && ProgramLoaded(m, k.State(), t, p)
    modifies k.ram
    ensures start == TooBig <==> 8 * (|argv| + |envp| + 2) + Total(argv) + Total(envp) > 4096
    ensures start.Start? ==>
              && k.Valid() && ImageLoaded(m, k.State(), t, p)
              && StartOk(SeenPage(k.State(), t, STACK_VA), argv, envp, start)
  {
    hide Sane, ImageLoaded, AtRest, StartOk, Fits, SeenAt, SeenPage, IsFrameOf;
    ghost var n := k.State();
    LastArea(m, n, t, p);
    var area := k.tasks[t].areas[|k.tasks[t].areas| - 1];
    StackFrame(n, t, |k.tasks[t].areas| - 1);
    var frame := area.pages[0].frame;
    var bytes := k.ram[frame];
    var page := new u8[PAGE_SIZE](i requires 0 <= i < |bytes| => bytes[i]);
    start := InitArguments(page, argv, envp);
    if start.Start? {
      k.ram[frame] := page[..];
      RamSane(n, k.State(), frame);
      ArgumentsKeep(m, n, k.State(), t, p, frame);
    }
  }

  lemma LastArea(m: Machine, n: Machine, t: nat, p: Program)
    requires ImageLoaded(m, n, t, p)
    ensures t in n.tasks && n.tasks[t].areas != [] && AtRest(n, t)
    ensures var area := n.tasks[t].areas[|n.tasks[t].areas| - 1]; area.va == STACK_VA && area.nPages == 1 && IsStack(area)
  {
    hide AtRest, OthersRest, Extends, SegmentLoaded;
    TaskOf(n, t);
  }

  /** task_init_elf. With Ok(0) the program is loaded, and `start` tells whether its arguments fit; if
      they do, each pointer that the program gets leads, through its own table, to its whole string. */
  method TaskInitElf(k: Kernel, t: nat, p: Program, argv: seq<CString>, envp: seq<CString>) returns (r: Outcome<int>, start: Start)
    requires k.Valid() && AtRest(k.State(), t) && k.State().tasks[t].areas == [] && Fits(p)
    modifies k.Repr()
    ensures r.Panic? ==> r.reason == OutOfMemory && k.mmu.alloc.Exhausted()
    ensures r.Ok? ==> r.value == if Acceptable(p) then 0 else -EINVAL
    ensures r == Ok(0) ==> (start == TooBig <==> 8 * (|argv| + |envp| + 2) + Total(argv) + Total(envp) > 4096)
    ensures r == Ok(0) && start.Start? ==>
              && k.Valid() && TaskStep(old(k.State()), Load(t), k.State()) && ImageLoaded(old(k.State()), k.State(), t, p)
              && StartOk(SeenPage(k.State(), t, STACK_VA), argv, envp, start)
  {
    hide Sane, AtRest, Fits, ImageLoaded, StartOk, InOrder, TaskStep, Changed;
    ghost var m := k.State();
    TaskOf(m, t);
    r := LoadElf(k, t, p);
    start := TooBig;
    if r == Ok(0) {
      start := PutArguments(k, t, p, argv, envp, m);
      if start.Start? {
        ProgramChanged(m, k.State(), t, p);
        k.Ordered();
        LoadStepped(m, k.State(), t);
      }
    }
  }
}
