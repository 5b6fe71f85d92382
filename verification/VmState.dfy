/** The state that the operations on tasks work on, what holds of it, and what each step keeps. */
module VmState {
  import opened Memlayout
  import opened Sv39
  import opened PageTree
  import opened Buddy
  import opened BuddyAllocator
  import opened PageTables
  import opened Vm

  function ZeroPage(): (page: seq<u8>)
    ensures |page| == PAGE_SIZE && forall k | 0 <= k < PAGE_SIZE :: page[k] == 0
  {
    seq(PAGE_SIZE, _ => 0)
  }

  /** What pte_flags_from_vm_flags makes of any flags. */
  const USER_ALL := Flags(true, true, true, true, true, false, false, false)

  /** Everything the operations work on: the tasks, who holds which page and where frames are mapped,
      the tables, the bytes of memory, the pages that are taken, the free lists, and the first word of
      every page as the allocator has left it. */
  datatype Machine = Machine(tasks: Tasks, owner: Owners, vaOf: map<nat, nat>, mem: Memory, roles: Roles,
                             live: set<Block>, ram: seq<seq<u8>>, free: Lists, word: seq<nat>)

  /** Every page that is taken is a table node or holds a part of a task, and none is both. */
  ghost predicate Balanced(live: set<Block>, owner: Owners, roles: Roles) {
    live == Pages(roles) + Blocks(owner.Keys)
  }

  /** From SPLIT on every task's table leads to the kernel's memory and the devices, and not for user mode. */
  ghost predicate KernelsMapped(tasks: Tasks, mem: Memory)
    requires Sized(mem)
  {
    forall t | t in tasks :: KernelMapped(tasks[t].root, mem)
  }

  /** What holds at every step, while areas are being filled and at rest. */
  ghost predicate Sane(m: Machine) {
    && Sized(m.mem) && |m.word| == PAGES && |m.ram| == PAGES && (forall p | 0 <= p < PAGES :: |m.ram[p]| == PAGE_SIZE)
    && (forall p | p in m.owner :: p < PAGES)
    && Ledger(m.tasks, m.owner) && TablesOk(m.tasks, m.owner, m.roles)
    && MapsOk(m.tasks, m.owner, m.vaOf, m.mem) && Balanced(m.live, m.owner, m.roles) && KernelsMapped(m.tasks, m.mem)
  }

  /** Task `t` is at rest: its table maps exactly its areas, page for page onto the frames they own. */
  ghost predicate AtRest(m: Machine, t: nat) {
    t in m.tasks && Sized(m.mem) && Agrees(m.tasks[t], m.vaOf, m.mem)
  }

  /** Area `i` of task `t` is being filled and has got as far as `hi`. */
  ghost predicate Filling(m: Machine, t: nat, i: nat, hi: nat) {
    t in m.tasks && Sized(m.mem) && i < |m.tasks[t].areas| && FilledUpTo(m.tasks[t], i, hi, m.vaOf, m.mem)
  }

  /** All nodes are what they were, and those that have come belong to the table of task `t`. */
  ghost predicate NodesKept(m: Machine, m': Machine, t: nat) {
    && (forall q | q in m.roles :: q in m'.roles && m'.roles[q] == m.roles[q])
    && forall q | q in m'.roles && q !in m.roles :: t in m'.tasks && m'.roles[q].root == m'.tasks[t].root
  }

  lemma NodesTwice(m: Machine, n: Machine, m': Machine, t: nat)
    requires NodesKept(m, n, t) && NodesKept(n, m', t) && WalksKept(n, m')
    ensures NodesKept(m, m', t)
  {
    hide Walk;
  }

  /** Pages have been taken and none given up, and the links of the allocator were written into none
      that was held. */
  ghost predicate OnlyTaken(m: Machine, m': Machine) {
    m.live <= m'.live && HeldWords(m.live, m.word, m'.live, m'.word)
  }

  lemma TakenTwice(m: Machine, n: Machine, m': Machine)
    requires OnlyTaken(m, n) && OnlyTaken(n, m')
    ensures OnlyTaken(m, m')
  {
    HeldWordsTwice(m.live, m.word, n.live, n.word, m'.live, m'.word);
    hide HeldWords;
  }

  /** All tasks but `t` are as they were, with the nodes of their tables, and those at rest still are. */
  ghost predicate OthersRest(m: Machine, m': Machine, t: nat) {
    && NodesKept(m, m', t) && (forall u | u in m'.tasks :: u in m.tasks || u == t)
    && forall u | u in m.tasks && u != t :: u in m'.tasks && m'.tasks[u] == m.tasks[u] && (AtRest(m, u) ==> AtRest(m', u))
  }

  /** Every task's table translates what it did, to the same frame with the same permissions. */
  ghost predicate WalksKept(m: Machine, m': Machine) {
    && Sized(m.mem) && Sized(m'.mem)
    && forall t | t in m.tasks ::
         && t in m'.tasks && m'.tasks[t].root == m.tasks[t].root
         && forall w | ValidVpn(w) && Walk(m.mem, m.tasks[t].root, w) != Fault ::
              Walk(m'.mem, m.tasks[t].root, w) == Walk(m.mem, m.tasks[t].root, w)
  }

  /** The page at `va` is mapped for task `t`, with these flags. */
  ghost predicate MappedWith(m: Machine, t: nat, va: nat, flags: Flags) {
    && t in m.tasks && Sized(m.mem)
    && var walk := Walk(m.mem, m.tasks[t].root, VpnOf(va)); walk.To? && walk.flags == flags
  }

  /** So are the pages from `lo` up to `hi`. */
  ghost predicate AllMappedWith(m: Machine, t: nat, lo: nat, hi: nat, flags: Flags) {
    forall va: nat | lo <= va < hi && va % PAGE_SIZE == 0 :: MappedWith(m, t, va, flags)
  }

  lemma AllKept(m: Machine, m': Machine, t: nat, lo: nat, hi: nat, flags: Flags)
    requires Extends(m, m') && AllMappedWith(m, t, lo, hi, flags)
    ensures AllMappedWith(m', t, lo, hi, flags)
  {
    hide MappedWith, Extends;
    forall va: nat | lo <= va < hi && va % PAGE_SIZE == 0
      ensures MappedWith(m', t, va, flags)
    {
      WithKept(m, m', t, va, flags);
    }
  }

  lemma OnePage(m: Machine, t: nat, va: nat, flags: Flags)
    requires va % PAGE_SIZE == 0 && MappedWith(m, t, va, flags)
    ensures AllMappedWith(m, t, va, va + PAGE_SIZE, flags)
  {
    hide MappedWith;
    assert forall vb: nat | va <= vb < va + PAGE_SIZE && vb % PAGE_SIZE == 0 :: vb == va;
  }

  lemma WithKept(m: Machine, m': Machine, t: nat, va: nat, flags: Flags)
    requires Extends(m, m') && MappedWith(m, t, va, flags)
    ensures MappedWith(m', t, va, flags)
  {
    hide Walk;
    assert ValidVpn(VpnOf(va));
  }

  lemma KeptTwice(m: Machine, n: Machine, m': Machine)
    requires WalksKept(m, n) && WalksKept(n, m')
    ensures WalksKept(m, m')
  {
    hide Walk;
  }

  lemma AddKept(m: Machine, m': Machine, t: nat, i: nat, held: Held, va: nat, flags: Flags)
    requires PageAdded(m, m', t, i, held, va, flags)
    ensures WalksKept(m, m') && MappedWith(m', t, va, flags)
  {
    hide Walk;
    assert ValidVpn(VpnOf(va));
  }

  lemma SameTaken(m: Machine)
    requires |m.word| == PAGES
    ensures OnlyTaken(m, m)
  {
  }

  lemma SameKept(m: Machine, m': Machine)
    requires Sized(m.mem) && m'.mem == m.mem
    requires forall t | t in m.tasks :: t in m'.tasks && m'.tasks[t].root == m.tasks[t].root
    ensures WalksKept(m, m')
  {
    hide Walk;
  }

  /** Nothing that was held has been given up, moved or overwritten. */
  ghost predicate Extends(m: Machine, m': Machine) {
    && WalksKept(m, m') && OnlyTaken(m, m')
    && |m.ram| == |m'.ram| == PAGES
    && forall p | p in m.owner :: && p in m'.owner && m'.owner[p] == m.owner[p]
                                  && (p in m.vaOf ==> p in m'.vaOf && m'.vaOf[p] == m.vaOf[p])
                                  && (p < PAGES ==> m'.ram[p] == m.ram[p])
  }

  /** The stack areas of a task lie in the part of memory that is for stacks. */
  ghost predicate StacksHigh(task: Task) {
    forall i | 0 <= i < |task.areas| && IsStack(task.areas[i]) ::
      USERSTACKMIN <= task.areas[i].va && End(task.areas[i]) <= USERSTACK
  }

  /** Task `t` has got more areas and pages, no stack outside the part for stacks; nothing else has
      changed, and all of it is at rest. */
  ghost predicate Changed(m: Machine, m': Machine, t: nat) {
    && t in m.tasks && AtRest(m', t) && OthersRest(m, m', t) && Extends(m, m')
    && m'.tasks[t].root == m.tasks[t].root && (StacksHigh(m.tasks[t]) ==> StacksHigh(m'.tasks[t]))
  }

  // ---------------------------------------------------------------- one page more

  /** Frame `held.frame` has been mapped at `va` for area `i` of task `t`, its content left open. */
  ghost predicate PageAdded(m: Machine, m': Machine, t: nat, i: nat, held: Held, va: nat, flags: Flags) {
    && Sized(m.mem) && Sized(m'.mem) && t in m.tasks && i < |m.tasks[t].areas|
    && held.frame < PAGES && held.frame !in m.owner && held.node !in m.owner && held.node != held.frame
    && m'.tasks == Pushed(m.tasks, t, i, held)
    && m'.owner == PushedOwners(m.tasks, m.owner, t, i, held)
    && m'.vaOf == m.vaOf[held.frame := va]
    && Walk(m.mem, m.tasks[t].root, VpnOf(va)) == Fault
    && MappedAt(m.tasks, m.mem, m'.mem, t, va, held.frame, flags)
    && NodesKept(m, m', t) && OnlyTaken(m, m')
    && |m.ram| == |m'.ram| == PAGES && (forall p | 0 <= p < PAGES && p != held.frame :: m'.ram[p] == m.ram[p])
  }

  /** Two fresh pages for a part of a task, and whatever nodes the tables took. */
  lemma StayBalanced(live: set<Block>, owner: Owners, roles: Roles, live': set<Block>, owner': Owners, roles': Roles, p: nat, q: nat)
    requires Balanced(live, owner, roles) && owner.Keys !! roles.Keys
    requires Block(p, 0) !in live && Block(q, 0) !in live
    requires Grown(roles, roles', live + {Block(p, 0)} + {Block(q, 0)}, live')
    requires owner'.Keys == owner.Keys + {p, q}
    ensures Balanced(live', owner', roles') && owner'.Keys !! roles'.Keys && p !in owner && q !in owner
  {
    assert forall n | n in owner :: Block(n, 0) in live;
    assert forall n | n in roles :: Block(n, 0) in live;
    assert Blocks(owner'.Keys) == Blocks(owner.Keys) + {Block(p, 0)} + {Block(q, 0)};
    assert forall b | b in Pages(roles) :: b in Pages(roles');
  }

  lemma HeldApart(m: Machine)
    requires Sane(m)
    ensures m.owner.Keys !! m.roles.Keys
    ensures Pages(m.roles) <= m.live
  {
  }

  lemma TakenOwners(m: Machine)
    requires Sane(m)
    ensures forall p | p in m.owner :: Block(p, 0) in m.live
    ensures forall t | t in m.tasks :: IsRoot(m.roles, m.tasks[t].root)
    ensures forall t, u | t in m.tasks && u in m.tasks && m.tasks[t].root == m.tasks[u].root :: t == u
  {
    assert forall p | p in m.owner :: Block(p, 0) in Blocks(m.owner.Keys);
  }

  lemma FrameEntry(address: nat, flags: Flags)
    requires KERN_PHYBASE <= address && address == PageAddress(PageOf(address)) && PageOf(address) < PAGES
    ensures NewEntry(Pa(address), flags) == Pte(flags, RAM_PPN + PageOf(address)) && Pa(address) % PAGE_SIZE == 0
  {
  }

  lemma EntryIsLeaf(address: nat, flags: Flags)
    requires KERN_PHYBASE <= address && flags.v && Grants(flags)
    ensures InvalidOrLeaf(NewEntry(Pa(address), flags))
  {
  }

  lemma TaskRoot(m: Machine, t: nat)
    requires Sane(m) && t in m.tasks
    ensures IsRoot(m.roles, m.tasks[t].root)
  {
  }

  /** What AddPage does to the state is that a page is added. */
  lemma AddedPage(m: Machine, m': Machine, t: nat, i: nat, held: Held, va: nat, flags: Flags)
    requires Sane(m) && t in m.tasks && i < |m.tasks[t].areas| && held.node != held.frame && held.frame < PAGES && held.node < PAGES
    requires Block(held.node, 0) !in m.live && Block(held.frame, 0) !in m.live
    requires Grown(m.roles, m'.roles, m.live + {Block(held.frame, 0)} + {Block(held.node, 0)}, m'.live)
    requires forall q | q in m'.roles && q !in m.roles :: m'.roles[q].root == m.tasks[t].root
    requires va % PAGE_SIZE == 0 && va < SPLIT && flags.v && Grants(flags) && flags.u
    requires Walk(m.mem, m.tasks[t].root, VpnOf(va)) == Fault && Sized(m'.mem)
    requires forall s: nat, w | IsRoot(m.roles, s) && ValidVpn(w) ::
               Walk(m'.mem, s, w) ==
               if s == m.tasks[t].root && w == VpnOf(va) then LeafAt(Pte(flags, RAM_PPN + held.frame), 0, w) else Walk(m.mem, s, w)
    requires m'.tasks == Pushed(m.tasks, t, i, held) && m'.owner == PushedOwners(m.tasks, m.owner, t, i, held)
    requires m'.vaOf == m.vaOf[held.frame := va] && m'.ram == m.ram && HeldWords(m.live, m.word, m'.live, m'.word)
    ensures PageAdded(m, m', t, i, held, va, flags)
  {
    hide Sane, Walk, VpnOf, VaOf, HeldWords;
    TakenOwners(m);
    TakenBefore(m, held.frame);
    TakenBefore(m, held.node);
    SizedRam(m);
    assert ValidVpn(VpnOf(va));
  }

  /** Mapping one more page for an area keeps everything in order. */
  lemma AddSane(m: Machine, m': Machine, t: nat, i: nat, held: Held, va: nat, flags: Flags)
    requires Sane(m) && t in m.tasks && i < |m.tasks[t].areas| && held.node != held.frame && held.frame < PAGES && held.node < PAGES
    requires Block(held.node, 0) !in m.live && Block(held.frame, 0) !in m.live
    requires Grown(m.roles, m'.roles, m.live + {Block(held.frame, 0)} + {Block(held.node, 0)}, m'.live)
    requires forall q | q in m'.roles && q !in m.roles :: m'.roles[q].root == m.tasks[t].root
    requires va % PAGE_SIZE == 0 && va < SPLIT && flags.v && Grants(flags) && flags.u
    requires Walk(m.mem, m.tasks[t].root, VpnOf(va)) == Fault && Sized(m'.mem)
    requires forall s: nat, w | IsRoot(m.roles, s) && ValidVpn(w) ::
               Walk(m'.mem, s, w) ==
               if s == m.tasks[t].root && w == VpnOf(va) then LeafAt(Pte(flags, RAM_PPN + held.frame), 0, w) else Walk(m.mem, s, w)
    requires m'.tasks == Pushed(m.tasks, t, i, held) && m'.owner == PushedOwners(m.tasks, m.owner, t, i, held)
    requires m'.vaOf == m.vaOf[held.frame := va] && m'.ram == m.ram && HeldWords(m.live, m.word, m'.live, m'.word)
    ensures Sane(m') && PageAdded(m, m', t, i, held, va, flags)
  {
    hide Walk, VpnOf, VaOf, TablesOk, Balanced, MapsOk, Ledger, HeldWords, PageAdded, MappedAt, KernelsMapped;
    AddedKernels(m, m', t, va, Pte(flags, RAM_PPN + held.frame));
    AddedPage(m, m', t, i, held, va, flags);
    AddedMap(m, m', t, i, held, va, flags);
    WordsSized(m.live, m.word, m'.live, m'.word);
    HeldApart(m);
    StayBalanced(m.live, m.owner, m.roles, m'.live, m'.owner, m'.roles, held.frame, held.node);
    SameTables(m, m', t);
    PushLedger(m.tasks, m.owner, t, i, held);
    PushMaps(m.tasks, m.owner, m.vaOf, m.mem, m'.mem, t, i, held, va, flags);
  }

  lemma AddedKernels(m: Machine, m': Machine, t: nat, va: nat, pte: Pte)
    requires Sane(m) && t in m.tasks && Sized(m'.mem) && va < SPLIT && va % PAGE_SIZE == 0
    requires m'.tasks.Keys == m.tasks.Keys && forall u | u in m.tasks :: m'.tasks[u].root == m.tasks[u].root
    requires forall s: nat, w | IsRoot(m.roles, s) && ValidVpn(w) ::
               Walk(m'.mem, s, w) == if s == m.tasks[t].root && w == VpnOf(va) then LeafAt(pte, 0, w) else Walk(m.mem, s, w)
    ensures KernelsMapped(m'.tasks, m'.mem)
  {
    hide Walk, VpnOf, VaOf, Ledger, MapsOk, Balanced, KernelMapped;
    PageWalk(va);
    forall u | u in m'.tasks
      ensures KernelMapped(m'.tasks[u].root, m'.mem)
    {
      KernelSame(m.tasks[u].root, m.mem, m'.mem);
    }
  }

  lemma AddedMap(m: Machine, m': Machine, t: nat, i: nat, held: Held, va: nat, flags: Flags)
    requires PageAdded(m, m', t, i, held, va, flags)
    ensures MappedAt(m.tasks, m.mem, m'.mem, t, va, held.frame, flags)
  {
  }

  /** The tables still belong to the tasks when nodes have been added to that of `t`. */
  lemma SameTables(m: Machine, m': Machine, t: nat)
    requires TablesOk(m.tasks, m.owner, m.roles) && t in m.tasks && m'.tasks.Keys == m.tasks.Keys
    requires forall u | u in m.tasks :: m'.tasks[u].root == m.tasks[u].root
    requires forall q | q in m.roles :: q in m'.roles && m'.roles[q] == m.roles[q]
    requires forall q | q in m'.roles && q !in m.roles :: m'.roles[q].root == m.tasks[t].root
    requires m'.owner.Keys !! m'.roles.Keys
    ensures TablesOk(m'.tasks, m'.owner, m'.roles)
  {
    forall q | q in m'.roles
      ensures HasTable(m'.tasks, m'.roles[q].root)
    {
      if q in m.roles {
        assert HasTable(m.tasks, m.roles[q].root);
        var u :| u in m.tasks && m.tasks[u].root == m.roles[q].root;
        assert m'.tasks[u].root == m'.roles[q].root;
      } else {
        assert m'.tasks[t].root == m'.roles[q].root;
      }
    }
  }

  lemma LedgerOf(m: Machine)
    requires Sane(m)
    ensures Ledger(m.tasks, m.owner) && Sized(m.mem)
  {
    hide Ledger, MapsOk, TablesOk, Balanced;
  }

  lemma AddExtends(m: Machine, m': Machine, t: nat, i: nat, held: Held, va: nat, flags: Flags)
    requires PageAdded(m, m', t, i, held, va, flags)
    ensures Extends(m, m')
  {
    hide Walk, VpnOf, MappedAt, WalksKept, OnlyTaken, NodesKept, Pushed, Sized;
    AddKept(m, m', t, i, held, va, flags);
  }

  lemma AddOthers(m: Machine, m': Machine, t: nat, i: nat, held: Held, va: nat, flags: Flags)
    requires Sane(m) && PageAdded(m, m', t, i, held, va, flags) && va % PAGE_SIZE == 0
    ensures OthersRest(m, m', t)
  {
    hide Sane, Walk, VpnOf, VaOf, MappedAt, FilledUpTo, OnlyTaken, NodesKept, PushedOwners, Ledger;
    LedgerOf(m);
    forall u | u in m.tasks && u != t && AtRest(m, u)
      ensures AtRest(m', u)
    {
      PushAgrees(m.tasks, m.owner, m.vaOf, m.mem, m'.mem, t, i, held, va, flags, u);
    }
  }

  /** The area that got the page is filled one page further; other tasks are not disturbed. */
  lemma AddFilling(m: Machine, m': Machine, t: nat, i: nat, held: Held, va: nat, flags: Flags)
    requires Sane(m) && PageAdded(m, m', t, i, held, va, flags) && va % PAGE_SIZE == 0
    ensures OthersRest(m, m', t) && Extends(m, m')
    ensures Filling(m, t, i, va) && va < End(m.tasks[t].areas[i]) ==> Filling(m', t, i, va + PAGE_SIZE)
  {
    hide Sane, Walk, VpnOf, VaOf, MappedAt, FilledUpTo, OnlyTaken, NodesKept, PushedOwners, Ledger, OthersRest, Extends;
    LedgerOf(m);
    AddOthers(m, m', t, i, held, va, flags);
    AddExtends(m, m', t, i, held, va, flags);
    PushAgrees(m.tasks, m.owner, m.vaOf, m.mem, m'.mem, t, i, held, va, flags, t);
  }

  // ---------------------------------------------------------------- one area more

  /** Task `t` has got `area`, still without pages, at the end of its list. */
  ghost predicate AreaAdded(m: Machine, m': Machine, t: nat, area: Area) {
    && t in m.tasks && area.pages == [] && area.refcount == 1
    && area.record !in m.owner && area.node !in m.owner && area.record != area.node
    && m'.tasks == m.tasks[t := m.tasks[t].(areas := m.tasks[t].areas + [area])]
    && m'.owner == m.owner[area.record := Slot(t, AreaRecord(|m.tasks[t].areas|))][area.node := Slot(t, AreaNode(|m.tasks[t].areas|))]
    && m'.vaOf == m.vaOf && m'.mem == m.mem && m'.roles == m.roles && m'.ram == m.ram && OnlyTaken(m, m')
  }

  lemma AreaLedger(m: Machine, m': Machine, t: nat, area: Area)
    requires Ledger(m.tasks, m.owner) && AreaAdded(m, m', t, area)
    ensures Ledger(m'.tasks, m'.owner)
  {
    var i := |m.tasks[t].areas|;
    forall p: nat, s: Slot
      ensures (p in m'.owner && m'.owner[p] == s) <==> PageAt(m'.tasks, s) == Some(p)
    {
      assert (p in m.owner && m.owner[p] == s) <==> PageAt(m.tasks, s) == Some(p);
      assert s != Slot(t, AreaRecord(i)) && s != Slot(t, AreaNode(i)) ==> PageAt(m'.tasks, s) == PageAt(m.tasks, s);
    }
  }

  lemma AreaMaps(m: Machine, m': Machine, t: nat, area: Area)
    requires Sized(m.mem) && AreaAdded(m, m', t, area) && MapsOk(m.tasks, m.owner, m.vaOf, m.mem)
    ensures MapsOk(m'.tasks, m'.owner, m'.vaOf, m'.mem)
  {
    hide Walk, VpnOf, VaOf;
    forall u | u in m'.tasks
      ensures MapOk(u, m'.tasks[u].root, m'.owner, m'.vaOf, m'.mem)
    {
      assert MapOk(u, m.tasks[u].root, m.owner, m.vaOf, m.mem);
      forall w | ValidVpn(w) && VaOf(w, 0) < SPLIT
        ensures MappedToFrame(u, m.tasks[u].root, m'.owner, m.vaOf, m.mem, w)
      {
        assert MappedToFrame(u, m.tasks[u].root, m.owner, m.vaOf, m.mem, w);
      }
      forall f: nat | IsFrameOf(m'.owner, f, u)
        ensures FrameMapped(f, m.tasks[u].root, m.vaOf, m.mem)
      {
        assert IsFrameOf(m.owner, f, u);
      }
    }
  }

  lemma NothingGrown(roles: Roles, live: set<Block>)
    requires Pages(roles) <= live
    ensures Grown(roles, roles, live, live)
  {
  }

  lemma AreaSane(m: Machine, m': Machine, t: nat, area: Area)
    requires Sane(m) && AreaAdded(m, m', t, area) && area.record < PAGES && area.node < PAGES
    requires Block(area.record, 0) !in m.live && Block(area.node, 0) !in m.live
    requires m'.live == m.live + {Block(area.record, 0)} + {Block(area.node, 0)}
    ensures Sane(m')
  {
    hide MapsOk, Ledger, TablesOk, Balanced, HeldWords, KernelMapped;
    WordsSized(m.live, m.word, m'.live, m'.word);
    HeldApart(m);
    TakenOwners(m);
    AreaLedger(m, m', t, area);
    AreaMaps(m, m', t, area);
    NothingGrown(m.roles, m'.live);
    StayBalanced(m.live, m.owner, m.roles, m'.live, m'.owner, m.roles, area.record, area.node);
    SameTables(m, m', t);
  }

  /** A list of areas may go on with one that begins at or after every end. */
  ghost predicate After(areas: seq<Area>, area: Area) {
    && area.va % PAGE_SIZE == 0 && End(area) <= SPLIT
    && forall j | 0 <= j < |areas| :: End(areas[j]) <= area.va
  }

  lemma AreaFilling(m: Machine, m': Machine, t: nat, area: Area)
    requires AtRest(m, t) && AreaAdded(m, m', t, area) && After(m.tasks[t].areas, area)
    ensures Filling(m', t, |m.tasks[t].areas|, area.va)
  {
    hide Walk, VpnOf;
    var task, task' := m.tasks[t], m'.tasks[t];
    forall j | 0 <= j < |task.areas|
      ensures Filled(task', j, task.areas[j].va, End(task.areas[j]), m.vaOf, m.mem)
    {
      assert Filled(task, j, task.areas[j].va, End(task.areas[j]), m.vaOf, m.mem);
    }
    assert Filled(task', |task.areas|, area.va, area.va, m.vaOf, m.mem);
  }

  lemma AreaExtends(m: Machine, m': Machine, t: nat, area: Area)
    requires Sane(m) && AreaAdded(m, m', t, area)
    ensures Extends(m, m')
  {
    hide Sane, WalksKept, OnlyTaken;
    SizedRam(m);
    SameKept(m, m');
  }

  lemma AreaOthers(m: Machine, m': Machine, t: nat, area: Area)
    requires Sane(m) && AreaAdded(m, m', t, area)
    ensures OthersRest(m, m', t) && Extends(m, m')
  {
    hide Sane, Extends, FilledUpTo, OnlyTaken;
    SizedRam(m);
    AreaExtends(m, m', t, area);
  }

  /** An area filled to its end is at rest. */
  lemma FilledRests(m: Machine, t: nat, i: nat)
    requires t in m.tasks && i < |m.tasks[t].areas| && Filling(m, t, i, End(m.tasks[t].areas[i]))
    ensures AtRest(m, t)
  {
    hide Walk, VpnOf, Filled;
  }

  // ---------------------------------------------------------------- what tasks see

  /** The frame that the table of task `t` leads to is `f`. */
  ghost predicate SeenAt(m: Machine, t: nat, va: nat, f: nat) {
    && t in m.tasks && Sized(m.mem) && Walk(m.mem, m.tasks[t].root, VpnOf(va)).To?
    && Walk(m.mem, m.tasks[t].root, VpnOf(va)).ppn == RAM_PPN + f
  }

  /** The bytes of the page at `va` as task `t` sees them; none when it is not mapped. */
  ghost function SeenPage(m: Machine, t: nat, va: nat): seq<u8> {
    if t in m.tasks && Sized(m.mem) then
      match Walk(m.mem, m.tasks[t].root, VpnOf(va))
      case Fault => []
      case To(ppn, _) => if RAM_PPN <= ppn < RAM_PPN + |m.ram| then m.ram[ppn - RAM_PPN] else []
    else []
  }

  /** A mapped page is one of the task's frames. */
  lemma SeenFrame(m: Machine, t: nat, va: nat) returns (f: nat)
    requires Sane(m) && t in m.tasks && va < SPLIT && va % PAGE_SIZE == 0
    requires Walk(m.mem, m.tasks[t].root, VpnOf(va)) != Fault
    ensures IsFrameOf(m.owner, f, t) && f < PAGES && f in m.vaOf && m.vaOf[f] == va && SeenAt(m, t, va, f)
    ensures SeenPage(m, t, va) == m.ram[f] && |m.ram[f]| == PAGE_SIZE
  {
    hide Walk, VpnOf, VaOf;
    var i, k := MappedFrame(t, m.tasks, m.owner, m.vaOf, m.mem, va);
    f := m.tasks[t].areas[i].pages[k].frame;
    assert PageAt(m.tasks, Slot(t, Frame(i, k))) == Some(f);
  }

  /** What a task sees of a mapped page stays the same when only more pages are taken and mapped. */
  lemma SeenKept(m: Machine, m': Machine, t: nat, va: nat)
    requires Sane(m) && Sane(m') && Extends(m, m') && t in m.tasks && t in m'.tasks && m'.tasks[t].root == m.tasks[t].root
    requires va < SPLIT && va % PAGE_SIZE == 0 && Walk(m.mem, m.tasks[t].root, VpnOf(va)) != Fault
    ensures Walk(m'.mem, m.tasks[t].root, VpnOf(va)) != Fault && SeenPage(m', t, va) == SeenPage(m, t, va)
  {
    hide Walk, VpnOf, VaOf, Ledger;
    var f := SeenFrame(m, t, va);
    assert IsFrameOf(m'.owner, f, t);
    assert MapOk(t, m'.tasks[t].root, m'.owner, m'.vaOf, m'.mem);
    assert FrameMapped(f, m'.tasks[t].root, m'.vaOf, m'.mem);
  }

  /** Writing to a page of one task changes what no other task sees, and no other page of its own. */
  lemma WriteIsolated(m: Machine, m': Machine, t: nat, va: nat, f: nat, u: nat, vb: nat)
    requires Sane(m) && t in m.tasks && u in m.tasks && va < SPLIT && va % PAGE_SIZE == 0 && vb < SPLIT && vb % PAGE_SIZE == 0
    requires SeenAt(m, t, va, f) && f < PAGES && |m'.ram| == PAGES && m' == m.(ram := m.ram[f := m'.ram[f]])
    requires !(u == t && vb == va)
    ensures SeenPage(m', u, vb) == SeenPage(m, u, vb)
  {
    hide Walk, VpnOf, VaOf, Ledger;
    if SeenAt(m, u, vb, f) {
      OneMapping(m.tasks, m.owner, m.vaOf, m.mem, t, u, va, vb);
    }
  }

  // ---------------------------------------------------------------- fork

  /** The page at `va` is mapped for task `t`, and the kernel can read it there: a page that may only be
      executed cannot be read, by the kernel neither. */
  ghost predicate CanRead(m: Machine, t: nat, va: nat) {
    && t in m.tasks && Sized(m.mem)
    && var walk := Walk(m.mem, m.tasks[t].root, VpnOf(va)); walk.To? && walk.flags.r
  }

  lemma CanReadFrame(m: Machine, t: nat, va: nat)
    requires Sane(m) && va < SPLIT && va % PAGE_SIZE == 0
    ensures CanRead(m, t, va) ==> |SeenPage(m, t, va)| == PAGE_SIZE
  {
    hide Walk, VpnOf, MapsOk, Ledger, TablesOk, Balanced;
    if CanRead(m, t, va) { var f := SeenFrame(m, t, va); }
  }

  lemma ReadKept(m: Machine, m': Machine, t: nat, va: nat)
    requires Extends(m, m') && t in m.tasks && Sized(m.mem) && Walk(m.mem, m.tasks[t].root, VpnOf(va)) != Fault
    ensures CanRead(m', t, va) <==> CanRead(m, t, va)
  {
    hide Walk;
    assert ValidVpn(VpnOf(va));
  }

  /** The areas of the child are those of the parent, page for page. */
  ghost predicate SameAreas(areas: seq<Area>, copies: seq<Area>) {
    |copies| <= |areas| && forall j | 0 <= j < |copies| ::
      copies[j].va == areas[j].va && copies[j].nPages == areas[j].nPages && copies[j].flags == areas[j].flags
  }

  /** What `c` sees in its areas, as far as they are filled, is what `p` saw in `m`, wherever the kernel
      could read it. */
  ghost predicate Copied(m: Machine, m': Machine, p: nat, c: nat, i: nat, hi: nat) {
    && c in m'.tasks && Sized(m'.mem)
    && forall j, va: nat | 0 <= j < |m'.tasks[c].areas| && InArea(m'.tasks[c].areas[j], va) && (j == i ==> va < hi) && va % PAGE_SIZE == 0 ::
         CanRead(m, p, va) ==> SeenPage(m', c, va) == SeenPage(m, p, va)
  }

  /** One page copied. */
  lemma CloneStep(m: Machine, n: Machine, n': Machine, p: nat, c: nat, i: nat, held: Held, va: nat, flags: Flags)
    requires Sane(n) && Sane(n') && c in n.tasks
    requires PageAdded(n, n', c, i, held, va, flags) && va < SPLIT && va % PAGE_SIZE == 0
    requires CanRead(m, p, va) ==> n'.ram[held.frame] == SeenPage(m, p, va)
    requires Filling(n, c, i, va) && va < End(n.tasks[c].areas[i]) && Copied(m, n, p, c, i, va)
    ensures Copied(m, n', p, c, i, va + PAGE_SIZE)
  {
    hide Walk, VpnOf, VaOf, Ledger, MapsOk, Balanced, TablesOk, Sized, CanRead, OnlyTaken, WalksKept, OthersRest, Extends;
    AddFilling(n, n', c, i, held, va, flags);
    forall j, vb: nat | 0 <= j < |n'.tasks[c].areas| && InArea(n'.tasks[c].areas[j], vb) && (j == i ==> vb < va + PAGE_SIZE) && vb % PAGE_SIZE == 0
      ensures CanRead(m, p, vb) ==> SeenPage(n', c, vb) == SeenPage(m, p, vb)
    {
      if j == i && vb >= va {
        assert vb == va;
        AddedSeen(n, n', c, i, held, va, flags);
      } else {
        FilledMapped(n, c, i, va, j, vb);
        SeenKept(n, n', c, vb);
      }
    }
  }

  /** The areas of `c` are mapped as a clone maps them, area `i` up to `hi`. */
  ghost predicate CopiesMapped(n: Machine, c: nat, i: nat, hi: nat) {
    && c in n.tasks
    && forall j | 0 <= j < |n.tasks[c].areas| ::
         AllMappedWith(n, c, n.tasks[c].areas[j].va, if j == i then hi else End(n.tasks[c].areas[j]), USER_ALL)
  }

  lemma CopiesKept(n: Machine, n': Machine, c: nat, i: nat, hi: nat, hi': nat)
    requires CopiesMapped(n, c, i, hi) && Extends(n, n') && c in n'.tasks
    requires i <= |n.tasks[c].areas| <= |n'.tasks[c].areas| == i + 1
    requires forall j | 0 <= j < i :: n'.tasks[c].areas[j] == n.tasks[c].areas[j]
    requires AllMappedWith(n', c, n'.tasks[c].areas[i].va, hi', USER_ALL)
    ensures CopiesMapped(n', c, i, hi')
  {
    hide AllMappedWith, Extends, End;
    forall j | 0 <= j < i
      ensures AllMappedWith(n', c, n'.tasks[c].areas[j].va, End(n'.tasks[c].areas[j]), USER_ALL)
    {
      AllKept(n, n', c, n.tasks[c].areas[j].va, End(n.tasks[c].areas[j]), USER_ALL);
    }
  }

  lemma CopiesStart(n: Machine, n': Machine, c: nat, i: nat, area: Area)
    requires AreaAdded(n, n', c, area) && Extends(n, n') && CopiesMapped(n, c, i, 0) && |n.tasks[c].areas| == i
    ensures CopiesMapped(n', c, i, area.va)
  {
    assert AllMappedWith(n', c, area.va, area.va, USER_ALL);
    hide AllMappedWith, Extends, End;
    CopiesKept(n, n', c, i, 0, area.va);
  }

  lemma CopiesAdded(n: Machine, n': Machine, c: nat, i: nat, held: Held, va: nat)
    requires Sane(n) && PageAdded(n, n', c, i, held, va, USER_ALL) && CopiesMapped(n, c, i, va)
    requires va % PAGE_SIZE == 0 && |n.tasks[c].areas| == i + 1
    ensures CopiesMapped(n', c, i, va + PAGE_SIZE)
  {
    hide Sane, AllMappedWith, Extends, End, Walk, VpnOf, MappedAt, MappedWith, OthersRest, Filling, WalksKept;
    AddFilling(n, n', c, i, held, va, USER_ALL);
    AddKept(n, n', c, i, held, va, USER_ALL);
    OnePage(n', c, va, USER_ALL);
    var lo := n.tasks[c].areas[i].va;
    AllKept(n, n', c, lo, va, USER_ALL);
    JoinMapped(n', c, lo, va, va + PAGE_SIZE, USER_ALL);
    CopiesKept(n, n', c, i, va, va + PAGE_SIZE);
  }

  lemma JoinMapped(m: Machine, t: nat, lo: nat, mid: nat, hi: nat, flags: Flags)
    requires AllMappedWith(m, t, lo, mid, flags) && AllMappedWith(m, t, mid, hi, flags)
    ensures AllMappedWith(m, t, lo, hi, flags)
  {
    hide MappedWith;
  }

  /** The state of vm_clone while area `i` is being copied and has got as far as `hi`. */
  ghost predicate Cloning(m: Machine, n: Machine, p: nat, c: nat, i: nat, hi: nat) {
    && Sane(m) && AtRest(m, p) && c in m.tasks && p != c
    && p in n.tasks && n.tasks[p] == m.tasks[p] && AtRest(n, p) && OthersRest(m, n, c) && Extends(m, n)
    && Filling(n, c, i, hi) && |n.tasks[c].areas| == i + 1 && SameAreas(m.tasks[p].areas, n.tasks[c].areas)
    && n.tasks[c].root == m.tasks[c].root && Copied(m, n, p, c, i, hi) && CopiesMapped(n, c, i, hi)
  }

  /** The state of vm_clone when the first `i` areas have been copied. */
  ghost predicate Cloned(m: Machine, n: Machine, p: nat, c: nat, i: nat) {
    && Sane(m) && AtRest(m, p) && c in m.tasks && p != c
    && p in n.tasks && n.tasks[p] == m.tasks[p] && AtRest(n, p) && OthersRest(m, n, c) && Extends(m, n)
    && AtRest(n, c) && |n.tasks[c].areas| == i && SameAreas(m.tasks[p].areas, n.tasks[c].areas)
    && n.tasks[c].root == m.tasks[c].root && Copied(m, n, p, c, i, 0) && CopiesMapped(n, c, i, 0)
  }

  lemma CloneStart(m: Machine, p: nat, c: nat)
    requires Sane(m) && AtRest(m, p) && AtRest(m, c) && p != c && m.tasks[c].areas == []
    ensures Cloned(m, m, p, c, 0)
  {
    hide Sane, Agrees, WalksKept, OnlyTaken;
    SizedRam(m);
    SameTaken(m);
    SameKept(m, m);
    assert |m.ram| == PAGES by { PageSized(m, 0); }
  }

  lemma CloneArea(m: Machine, n: Machine, n': Machine, p: nat, c: nat, i: nat, area: Area)
    requires Sane(n) && Sane(n') && Cloned(m, n, p, c, i) && i < |m.tasks[p].areas| && AreaAdded(n, n', c, area)
    requires var a := m.tasks[p].areas[i]; area.va == a.va && area.nPages == a.nPages && area.flags == a.flags
    ensures Cloning(m, n', p, c, i, area.va)
  {
    hide Walk, VpnOf, VaOf, Sane, Filled, SeenPage, AllMappedWith, CopiesMapped;
    AreaOthers(n, n', c, area);
    assert After(n.tasks[c].areas, area) by {
      assert Sorted(m.tasks[p].areas);
    }
    CopiesStart(n, n', c, i, area);
    AreaFilling(n, n', c, area);
    RestExtends(m, n, n', c);
    forall va
      ensures SeenPage(n', c, va) == SeenPage(n, c, va)
    {
      SeenSame(n, n', c, va);
    }
  }

  lemma SeenSame(m: Machine, m': Machine, t: nat, va: nat)
    requires t in m.tasks && t in m'.tasks && m'.tasks[t].root == m.tasks[t].root && m'.mem == m.mem && m'.ram == m.ram
    ensures SeenPage(m', t, va) == SeenPage(m, t, va)
  {
  }

  lemma CloneFilled(m: Machine, n: Machine, p: nat, c: nat, i: nat)
    requires c in n.tasks && i < |n.tasks[c].areas| && Cloning(m, n, p, c, i, End(n.tasks[c].areas[i]))
    ensures Cloned(m, n, p, c, i + 1)
  {
    hide Walk, VpnOf, VaOf, Sane, Filled, SeenPage, AllMappedWith;
    FilledRests(n, c, i);
  }

  lemma CloneSource(m: Machine, n: Machine, p: nat, c: nat, i: nat, va: nat)
    requires Sane(n) && Cloning(m, n, p, c, i, va) && va < End(n.tasks[c].areas[i])
    ensures c in n.tasks && i < |n.tasks[c].areas| && va < SPLIT && va % PAGE_SIZE == 0
    ensures Walk(n.mem, n.tasks[c].root, VpnOf(va)) == Fault
    ensures Walk(n.mem, n.tasks[p].root, VpnOf(va)) != Fault && Walk(m.mem, m.tasks[p].root, VpnOf(va)) != Fault
  {
    hide Walk, VpnOf, VaOf, Copied, SameAreas, Sane;
    FillRoom(n, c, i, va);
    assert SameAreas(m.tasks[p].areas, n.tasks[c].areas);
    CloneRange(m.tasks[p].areas, n.tasks[c].areas, i, va);
    AreaFilled(m.tasks[p], i, m.vaOf, m.mem);
    AreaFilled(n.tasks[p], i, n.vaOf, n.mem);
  }

  lemma CloneRange(areas: seq<Area>, copies: seq<Area>, i: nat, va: nat)
    requires SameAreas(areas, copies) && i < |copies| && InArea(copies[i], va)
    ensures i < |areas| && InArea(areas[i], va)
  {
  }

  lemma CloneAdded(m0: Machine, m: Machine, n: Machine, p: nat, c: nat, i: nat, held: Held, va: nat, flags: Flags)
    requires Sane(m) && Cloning(m0, m, p, c, i, va) && va < End(m.tasks[c].areas[i])
    requires PageAdded(m, n, c, i, held, va, flags) && Sane(n)
    ensures p in n.tasks && held.frame < PAGES && |SeenPage(n, p, va)| == PAGE_SIZE && !SeenAt(n, p, va, held.frame)
    ensures CanRead(n, p, va) <==> CanRead(m0, p, va)
    ensures SeenPage(n, p, va) == SeenPage(m0, p, va) && va < SPLIT && va % PAGE_SIZE == 0
  {
    hide Walk, VpnOf, VaOf, Ledger, MapsOk, Copied, FilledUpTo, SameAreas, CanRead, Extends;
    CloneSource(m0, m, p, c, i, va);
    SeenKept(m0, m, p, va);
    var f := SeenFrame(m, p, va);
    AddFilling(m, n, c, i, held, va, flags);
    SeenKept(m, n, p, va);
    ReadKept(m0, m, p, va);
    ReadKept(m, n, p, va);
    var g := SeenFrame(n, p, va);
    assert n.owner[held.frame].task == c;
  }

  lemma CloneNext(m0: Machine, m: Machine, n: Machine, n': Machine, p: nat, c: nat, i: nat, held: Held, va: nat, flags: Flags)
    requires Sane(m) && Cloning(m0, m, p, c, i, va) && va < End(m.tasks[c].areas[i])
    requires PageAdded(m, n, c, i, held, va, flags) && Sane(n')
    requires |n'.ram| == PAGES && n' == n.(ram := n.ram[held.frame := n'.ram[held.frame]])
    requires CanRead(m0, p, va) ==> n'.ram[held.frame] == SeenPage(m0, p, va)
    requires va < SPLIT && va % PAGE_SIZE == 0 && flags == USER_ALL
    ensures Cloning(m0, n', p, c, i, va + PAGE_SIZE)
  {
    hide Walk, VpnOf, VaOf, Ledger, MapsOk, FilledUpTo, Copied, Sane, AllMappedWith, CopiesMapped, CanRead;
    assert PageAdded(m, n', c, i, held, va, flags);
    CopiesAdded(m, n', c, i, held, va);
    AddFilling(m, n', c, i, held, va, flags);
    CloneStep(m0, m, n', p, c, i, held, va, flags);
    RestExtends(m0, m, n', c);
  }

  lemma RestExtends(m: Machine, n: Machine, n': Machine, t: nat)
    requires OthersRest(m, n, t) && OthersRest(n, n', t) && Extends(m, n) && Extends(n, n')
    ensures OthersRest(m, n', t) && Extends(m, n')
  {
    hide AtRest, WalksKept, OnlyTaken, NodesKept;
    KeptTwice(m, n, n');
    TakenTwice(m, n, n');
    NodesTwice(m, n, n', t);
  }

  lemma CloneTasks(m: Machine, n: Machine, p: nat, c: nat, i: nat)
    requires Cloned(m, n, p, c, i)
    ensures c in n.tasks && p in m.tasks
  {
  }

  lemma CloneEnds(m: Machine, n: Machine, p: nat, c: nat, i: nat, hi: nat)
    requires Cloning(m, n, p, c, i, hi)
    ensures c in n.tasks && p in m.tasks && i < |n.tasks[c].areas| && i < |m.tasks[p].areas|
    ensures End(n.tasks[c].areas[i]) == End(m.tasks[p].areas[i])
  {
  }

  lemma AddedSeen(n: Machine, n': Machine, c: nat, i: nat, held: Held, va: nat, flags: Flags)
    requires PageAdded(n, n', c, i, held, va, flags)
    ensures SeenPage(n', c, va) == n'.ram[held.frame]
  {
    hide Walk;
    assert ValidVpn(VpnOf(va));
  }

  lemma FilledMapped(n: Machine, c: nat, i: nat, hi: nat, j: nat, va: nat)
    requires Filling(n, c, i, hi) && j < |n.tasks[c].areas| && InArea(n.tasks[c].areas[j], va) && (j == i ==> va < hi) && va % PAGE_SIZE == 0
    ensures Walk(n.mem, n.tasks[c].root, VpnOf(va)) != Fault && va < SPLIT
  {
    hide Walk, VpnOf;
    var task := n.tasks[c];
    assert Filled(task, j, task.areas[j].va, if j == i then hi else End(task.areas[j]), n.vaOf, n.mem);
  }

  /** After a fork: the child sees what the parent saw when it forked, unless it may only be executed; the
      parent still sees it; and no frame is seen by both. */
  lemma ForkIsolated(m: Machine, n: Machine, p: nat, c: nat, i: nat, va: nat, vb: nat, f: nat)
    requires p in m.tasks && Cloned(m, n, p, c, |m.tasks[p].areas|) && Sane(n)
    requires i < |m.tasks[p].areas| && InArea(m.tasks[p].areas[i], va) && va % PAGE_SIZE == 0
    requires vb < SPLIT && vb % PAGE_SIZE == 0
    ensures |SeenPage(n, c, va)| == PAGE_SIZE && SeenPage(n, p, va) == SeenPage(m, p, va)
    ensures CanRead(m, p, va) ==> SeenPage(n, c, va) == SeenPage(m, p, va)
    ensures !(SeenAt(n, p, va, f) && SeenAt(n, c, vb, f))
  {
    hide Walk, VpnOf, VaOf, FilledUpTo, Ledger, MapsOk;
    assert InArea(n.tasks[c].areas[i], va);
    assert Sorted(m.tasks[p].areas) by { AreasSorted(m, p); }
    AreaFilled(m.tasks[p], i, m.vaOf, m.mem);
    AreaFilled(n.tasks[c], i, n.vaOf, n.mem);
    SeenKept(m, n, p, va);
    var g := SeenFrame(n, c, va);
    if SeenAt(n, p, va, f) && SeenAt(n, c, vb, f) {
      OneMapping(n.tasks, n.owner, n.vaOf, n.mem, p, c, va, vb);
    }
  }

  /** `c` is a new task whose areas are those of `p`, and sees in them what `p` saw and still sees. */
  ghost predicate Forked(m: Machine, n: Machine, p: nat, c: nat) {
    && c !in m.tasks && p in m.tasks && p in n.tasks && n.tasks[p] == m.tasks[p] && AtRest(n, p) && AtRest(n, c)
    && SameAreas(m.tasks[p].areas, n.tasks[c].areas) && |n.tasks[c].areas| == |m.tasks[p].areas|
    && OthersRest(m, n, c) && Extends(m, n) && CopiesMapped(n, c, |n.tasks[c].areas|, 0)
    && (forall i, va: nat | 0 <= i < |m.tasks[p].areas| && InArea(m.tasks[p].areas[i], va) && va % PAGE_SIZE == 0 ::
          && |SeenPage(n, c, va)| == PAGE_SIZE && (CanRead(m, p, va) ==> SeenPage(n, c, va) == SeenPage(m, p, va))
          && SeenPage(n, p, va) == SeenPage(m, p, va))
    && forall va: nat, vb: nat, f: nat | va < SPLIT && vb < SPLIT && va % PAGE_SIZE == 0 && vb % PAGE_SIZE == 0 ::
         !(SeenAt(n, p, va, f) && SeenAt(n, c, vb, f))
  }

  /** Creating a task and cloning the areas into it is a fork. */
  lemma CreatedAndCloned(m: Machine, l: Machine, n: Machine, p: nat, c: nat)
    requires Sane(m) && Sane(l) && Sane(n) && AtRest(m, p) && c !in m.tasks && c in l.tasks && OthersRest(m, l, c) && Extends(m, l)
    requires Cloned(l, n, p, c, |m.tasks[p].areas|)
    ensures Forked(m, n, p, c)
  {
    hide Walk, VpnOf, VaOf, Sane, Agrees, Filled, SeenPage, AllMappedWith, CopiesMapped, CanRead;
    assert l.tasks[p] == m.tasks[p];
    forall i, va: nat | 0 <= i < |m.tasks[p].areas| && InArea(m.tasks[p].areas[i], va) && va % PAGE_SIZE == 0
      ensures |SeenPage(n, c, va)| == PAGE_SIZE && SeenPage(n, p, va) == SeenPage(m, p, va)
      ensures CanRead(m, p, va) ==> SeenPage(n, c, va) == SeenPage(m, p, va)
    {
      ForkIsolated(l, n, p, c, i, va, 0, 0);
      AreaMapped(m, p, i, va);
      ReadKept(m, l, p, va);
      SeenKept(m, l, p, va);
    }
    RestExtends(m, l, n, c);
    SizedRam(n);
    forall va: nat, vb: nat, f: nat | va < SPLIT && vb < SPLIT && va % PAGE_SIZE == 0 && vb % PAGE_SIZE == 0
      ensures !(SeenAt(n, p, va, f) && SeenAt(n, c, vb, f))
    {
      FramesApart(n, p, c, va, vb, f);
    }
  }

  lemma FramesApart(n: Machine, p: nat, c: nat, va: nat, vb: nat, f: nat)
    requires Sane(n) && p in n.tasks && c in n.tasks && p != c
    requires va < SPLIT && vb < SPLIT && va % PAGE_SIZE == 0 && vb % PAGE_SIZE == 0
    ensures !(SeenAt(n, p, va, f) && SeenAt(n, c, vb, f))
  {
    hide Walk, VpnOf, Ledger;
    if SeenAt(n, p, va, f) && SeenAt(n, c, vb, f) {
      OneMapping(n.tasks, n.owner, n.vaOf, n.mem, p, c, va, vb);
    }
  }

  lemma SizedRam(m: Machine)
    requires Sane(m)
    ensures |m.ram| == |m.word| == PAGES && Sized(m.mem)
  {
  }

  lemma AreaMapped(m: Machine, t: nat, i: nat, va: nat)
    requires AtRest(m, t) && i < |m.tasks[t].areas| && InArea(m.tasks[t].areas[i], va) && va % PAGE_SIZE == 0
    ensures va < SPLIT && Walk(m.mem, m.tasks[t].root, VpnOf(va)) != Fault
  {
    hide Walk, VpnOf;
    AreaFilled(m.tasks[t], i, m.vaOf, m.mem);
  }

  lemma AreasSorted(m: Machine, t: nat)
    requires AtRest(m, t)
    ensures Sorted(m.tasks[t].areas)
  {
  }

  // ---------------------------------------------------------------- tasks come and go

  /** Task `t` is new, with a table that maps no user address. */
  ghost predicate TaskAdded(m: Machine, m': Machine, t: nat, task: Task) {
    && task.areas == [] && Sized(m.mem) && Sized(m'.mem)
    && t !in m.owner && task.stack !in m.owner && task.queueNode !in m.owner && task.root !in m.roles
    && t != task.stack && task.stack != task.queueNode && task.queueNode != t
    && m'.tasks == m.tasks[t := task]
    && m'.owner == m.owner[t := Slot(t, TaskRecord)][task.stack := Slot(t, KernelStack)][task.queueNode := Slot(t, QueueNode)]
    && m'.roles == m.roles[task.root := Root(task.root)] && m'.vaOf == m.vaOf && m'.ram == m.ram && OnlyTaken(m, m')
    && (forall w | ValidVpn(w) :: Walk(m'.mem, task.root, w) == KernelWalk(w))
    && SameWalks(m.mem, m'.mem, m.roles)
  }

  lemma TaskLedger(m: Machine, m': Machine, t: nat, task: Task)
    requires Ledger(m.tasks, m.owner) && TaskAdded(m, m', t, task)
    ensures t !in m.tasks && Ledger(m'.tasks, m'.owner)
  {
    assert t in m.tasks ==> PageAt(m.tasks, Slot(t, TaskRecord)) == Some(t);
    forall p: nat, s: Slot
      ensures (p in m'.owner && m'.owner[p] == s) <==> PageAt(m'.tasks, s) == Some(p)
    {
      assert (p in m.owner && m.owner[p] == s) <==> PageAt(m.tasks, s) == Some(p);
    }
  }

  lemma HoldersAreTasks(tasks: Tasks, owner: Owners)
    requires Ledger(tasks, owner)
    ensures forall p | p in owner :: owner[p].task in tasks
  {
    forall p | p in owner
      ensures owner[p].task in tasks
    {
      assert PageAt(tasks, owner[p]) == Some(p);
    }
  }

  lemma NewTask(m: Machine, m': Machine, t: nat)
    requires Sane(m) && t in m'.tasks && TaskAdded(m, m', t, m'.tasks[t])
    ensures t !in m.tasks
  {
    hide MapsOk;
    TaskLedger(m, m', t, m'.tasks[t]);
  }

  lemma TaskMaps(m: Machine, m': Machine, t: nat, task: Task)
    requires TaskAdded(m, m', t, task) && t !in m.tasks && MapsOk(m.tasks, m.owner, m.vaOf, m.mem)
    requires TablesOk(m.tasks, m.owner, m.roles) && Ledger(m.tasks, m.owner)
    ensures MapsOk(m'.tasks, m'.owner, m'.vaOf, m'.mem)
  {
    hide Walk, VpnOf, VaOf, SameWalks;
    forall u | u in m'.tasks
      ensures MapOk(u, m'.tasks[u].root, m'.owner, m'.vaOf, m'.mem)
    {
      if u == t {
        FreshMap(m, m', t, task);
      } else {
        assert MapOk(u, m.tasks[u].root, m.owner, m.vaOf, m.mem);
        OldTask(m, m', t, task, u);
      }
    }
  }

  lemma FreshMap(m: Machine, m': Machine, t: nat, task: Task)
    requires TaskAdded(m, m', t, task) && t !in m.tasks && Ledger(m.tasks, m.owner)
    ensures MapOk(t, task.root, m'.owner, m'.vaOf, m'.mem)
  {
    hide Walk, VpnOf, Ledger, SameWalks;
    HoldersAreTasks(m.tasks, m.owner);
  }

  lemma OldTask(m: Machine, m': Machine, t: nat, task: Task, u: nat)
    requires TaskAdded(m, m', t, task) && u in m.tasks && u != t && IsRoot(m.roles, m.tasks[u].root)
    requires MapOk(u, m.tasks[u].root, m.owner, m.vaOf, m.mem)
    ensures MapOk(u, m.tasks[u].root, m'.owner, m.vaOf, m'.mem)
  {
    hide Walk, VpnOf, VaOf;
    forall f: nat | IsFrameOf(m'.owner, f, u)
      ensures FrameMapped(f, m.tasks[u].root, m.vaOf, m'.mem)
    {
      assert IsFrameOf(m.owner, f, u) && FrameMapped(f, m.tasks[u].root, m.vaOf, m.mem);
      assert ValidVpn(VpnOf(m.vaOf[f]));
    }
    forall w | ValidVpn(w) && VaOf(w, 0) < SPLIT
      ensures MappedToFrame(u, m.tasks[u].root, m'.owner, m.vaOf, m'.mem, w)
    {
      assert MappedToFrame(u, m.tasks[u].root, m.owner, m.vaOf, m.mem, w);
    }
  }

  lemma TaskKernels(m: Machine, m': Machine, t: nat, task: Task)
    requires Sane(m) && TaskAdded(m, m', t, task)
    ensures KernelsMapped(m'.tasks, m'.mem)
  {
    hide Walk, VaOf, Ledger, MapsOk, Balanced, KernelMapped, KernelWalk;
    NewTableMapped(task.root, m'.mem);
    forall u | u in m'.tasks && u != t
      ensures KernelMapped(m'.tasks[u].root, m'.mem)
    {
      KernelSame(m.tasks[u].root, m.mem, m'.mem);
    }
  }

  lemma TaskSane(m: Machine, m': Machine, t: nat, task: Task)
    requires Sane(m) && TaskAdded(m, m', t, task) && t < PAGES && task.stack < PAGES && task.queueNode < PAGES
    requires forall p | p in {t, task.stack, task.queueNode, task.root} :: Block(p, 0) !in m.live
    requires task.root !in {t, task.stack, task.queueNode}
    requires m'.live == m.live + Blocks({t, task.stack, task.queueNode, task.root})
    ensures Sane(m') && AtRest(m', t)
  {
    hide MapsOk, Ledger, Balanced, TablesOk, Walk, KernelsMapped;
    TaskKernels(m, m', t, task);
    TaskLedger(m, m', t, task);
    TaskMaps(m, m', t, task);
    TaskBalanced(m, m', t, task);
    NothingFilled(m', t);
  }

  lemma NothingFilled(m: Machine, t: nat)
    requires t in m.tasks && Sized(m.mem) && m.tasks[t].areas == []
    ensures AtRest(m, t)
  {
  }

  lemma TaskBalanced(m: Machine, m': Machine, t: nat, task: Task)
    requires TaskAdded(m, m', t, task) && t !in m.tasks && Balanced(m.live, m.owner, m.roles) && TablesOk(m.tasks, m.owner, m.roles)
    requires forall p | p in {t, task.stack, task.queueNode, task.root} :: Block(p, 0) !in m.live
    requires task.root !in {t, task.stack, task.queueNode}
    requires m'.live == m.live + Blocks({t, task.stack, task.queueNode, task.root})
    ensures Balanced(m'.live, m'.owner, m'.roles) && TablesOk(m'.tasks, m'.owner, m'.roles)
  {
    hide Walk, SameWalks;
    var held := {t, task.stack, task.queueNode};
    assert m'.owner.Keys == m.owner.Keys + held;
    assert m'.roles.Keys == m.roles.Keys + {task.root};
    assert {t, task.stack, task.queueNode, task.root} == held + {task.root};
    MoreTaken(m.live, m.owner, m.roles, m'.owner, m'.roles, held, {task.root});
    assert forall q | q in m.owner :: Block(q, 0) in Blocks(m.owner.Keys);
    assert forall q | q in m.roles :: Block(q, 0) in Pages(m.roles);
    TaskTables(m, m', t, task);
  }

  lemma MoreTaken(live: set<Block>, owner: Owners, roles: Roles, owner': Owners, roles': Roles, held: set<nat>, nodes: set<nat>)
    requires Balanced(live, owner, roles) && owner'.Keys == owner.Keys + held && roles'.Keys == roles.Keys + nodes
    ensures Balanced(live + Blocks(held + nodes), owner', roles')
  {
  }

  lemma TaskTables(m: Machine, m': Machine, t: nat, task: Task)
    requires m'.tasks == m.tasks[t := task] && m'.roles == m.roles[task.root := Root(task.root)]
    requires m'.owner.Keys == m.owner.Keys + {t, task.stack, task.queueNode}
    requires t !in m.tasks && TablesOk(m.tasks, m.owner, m.roles) && task.root !in m.roles
    requires forall p | p in {t, task.stack, task.queueNode} :: p !in m.roles
    requires task.root !in {t, task.stack, task.queueNode} && task.root !in m.owner
    ensures TablesOk(m'.tasks, m'.owner, m'.roles)
  {
    hide AllTabled;
    NewTable(m.tasks, m.roles, t, task);
  }

  lemma NewTable(tasks: Tasks, roles: Roles, t: nat, task: Task)
    requires AllTabled(tasks, roles) && t !in tasks
    ensures AllTabled(tasks[t := task], roles[task.root := Root(task.root)])
  {
    var tasks' := tasks[t := task];
    TablesKept(tasks, tasks', roles);
    assert HasTable(tasks', task.root) by { assert tasks'[t].root == task.root; }
  }

  lemma TablesKept(tasks: Tasks, tasks': Tasks, roles: Roles)
    requires forall u | u in tasks :: u in tasks' && tasks'[u].root == tasks[u].root
    requires AllTabled(tasks, roles)
    ensures AllTabled(tasks', roles)
  {
    forall q | q in roles
      ensures HasTable(tasks', roles[q].root)
    {
      var u :| u in tasks && tasks[u].root == roles[q].root;
      assert tasks'[u].root == roles[q].root;
    }
  }

  lemma TaskKept(m: Machine, m': Machine, t: nat, task: Task)
    requires Sane(m) && TaskAdded(m, m', t, task)
    ensures WalksKept(m, m')
  {
    hide Walk, VpnOf, Ledger, MapsOk;
    TaskLedger(m, m', t, task);
  }

  lemma TaskOthers(m: Machine, m': Machine, t: nat, task: Task)
    requires Sane(m) && TaskAdded(m, m', t, task)
    ensures OthersRest(m, m', t) && Extends(m, m')
  {
    hide Walk, VpnOf, Ledger, MapsOk, WalksKept, OnlyTaken, TablesOk, Balanced, SameWalks, Agrees;
    TaskKept(m, m', t, task);
    TaskLedger(m, m', t, task);
    forall u | u in m.tasks && u != t && AtRest(m, u)
      ensures AtRest(m', u)
    {
      TaskRests(m, m', t, task, u);
    }
  }

  lemma TaskRests(m: Machine, m': Machine, t: nat, task: Task, u: nat)
    requires Sane(m) && TaskAdded(m, m', t, task) && u in m.tasks && u != t && AtRest(m, u)
    ensures AtRest(m', u)
  {
    hide Walk, VpnOf, Ledger, MapsOk, OnlyTaken, Balanced;
    forall j | 0 <= j < |m.tasks[u].areas|
      ensures Filled(m.tasks[u], j, m.tasks[u].areas[j].va, End(m.tasks[u].areas[j]), m'.vaOf, m'.mem)
    {
      assert Filled(m.tasks[u], j, m.tasks[u].areas[j].va, End(m.tasks[u].areas[j]), m.vaOf, m.mem);
      assert forall va: nat :: ValidVpn(VpnOf(va));
    }
  }

  /** The pages in which these parts of task `t` are kept. */
  ghost function PagesOf(owner: Owners, t: nat, items: set<Item>): set<nat> {
    set p | p in owner && owner[p].task == t && owner[p].item in items
  }

  ghost function TableNodes(roles: Roles, root: nat): set<nat> {
    set q | q in roles && roles[q].root == root
  }

  /** Of the pages task `t` had in `m`, those of the parts in `gone` have been returned, and its table
      too if `tableGone`. */
  ghost predicate Dying(m: Machine, t: nat, gone: set<Item>, tableGone: bool, live: set<Block>, roles: Roles) {
    && t in m.tasks
    && live == m.live - Blocks(PagesOf(m.owner, t, gone)) - (if tableGone then Blocks(TableNodes(m.roles, m.tasks[t].root)) else {})
    && roles == if tableGone then CutTable(m.roles, m.tasks[t].root) else m.roles
  }

  /** The parts of one area, and of the first `n` areas. */
  ghost function AreaItems(a: Area, i: nat): set<Item> {
    (set k: nat | 0 <= k < |a.pages| :: Frame(i, k)) + (set k: nat | 0 <= k < |a.pages| :: PageNode(i, k)) + {AreaRecord(i)}
  }

  ghost function AreasItems(areas: seq<Area>, n: nat): set<Item>
    requires n <= |areas|
  {
    if n == 0 then {} else AreasItems(areas, n - 1) + AreaItems(areas[n - 1], n - 1)
  }

  lemma {:induction false} AreasItemsAre(areas: seq<Area>, n: nat, item: Item)
    requires n <= |areas|
    ensures item in AreasItems(areas, n) <==>
            (item.AreaRecord? || item.PageNode? || item.Frame?) && item.i < n
            && (item.AreaRecord? || item.k < |areas[item.i].pages|)
  {
    if n > 0 {
      AreasItemsAre(areas, n - 1, item);
    }
  }

  ghost function NodeItems(n: nat): set<Item> {
    set i: nat | 0 <= i < n :: AreaNode(i)
  }

  ghost function AllItems(task: Task): set<Item> {
    AreasItems(task.areas, |task.areas|) + NodeItems(|task.areas|) + {QueueNode} + {KernelStack} + {TaskRecord}
  }

  /** Those that task_destroy_sched returns. */
  ghost function SchedItems(task: Task): set<Item> {
    AreasItems(task.areas, |task.areas|) + NodeItems(|task.areas|) + {QueueNode}
  }

  lemma LaterSched(task: Task)
    ensures KernelStack !in SchedItems(task) && TaskRecord !in SchedItems(task)
    ensures AllItems(task) == SchedItems(task) + {KernelStack} + {TaskRecord}
  {
    LaterItems(task.areas, |task.areas|);
  }

  lemma FourBlocks(p: nat, q: nat, r: nat, s: nat)
    ensures Blocks({p, q, r, s}) == {Block(p, 0), Block(q, 0), Block(r, 0), Block(s, 0)}
  {
  }

  /** Those are all: a page that holds a part of `t` holds one of them. */
  lemma AllItemsAre(m: Machine, t: nat)
    requires Sane(m) && t in m.tasks
    ensures PagesOf(m.owner, t, AllItems(m.tasks[t])) == set p | p in m.owner && m.owner[p].task == t
  {
    hide MapsOk, TablesOk, Balanced;
    forall p | p in m.owner && m.owner[p].task == t
      ensures m.owner[p].item in AllItems(m.tasks[t])
    {
      assert PageAt(m.tasks, m.owner[p]) == Some(p);
      AreasItemsAre(m.tasks[t].areas, |m.tasks[t].areas|, m.owner[p].item);
    }
  }

  /** One more part returned. */
  lemma OneGone(m: Machine, t: nat, gone: set<Item>, tableGone: bool, live: set<Block>, roles: Roles, item: Item, page: nat)
    requires Sane(m) && Dying(m, t, gone, tableGone, live, roles)
    requires item !in gone && PageAt(m.tasks, Slot(t, item)) == Some(page)
    ensures Block(page, 0) in live && page !in roles
    ensures Dying(m, t, gone + {item}, tableGone, live - {Block(page, 0)}, roles)
  {
    hide MapsOk;
    assert page in m.owner && m.owner[page] == Slot(t, item);
    assert Block(page, 0) in Blocks(m.owner.Keys);
    assert PagesOf(m.owner, t, gone + {item}) == PagesOf(m.owner, t, gone) + {page} by {
      forall p | p in m.owner && m.owner[p] == Slot(t, item)
        ensures p == page
      {
        assert PageAt(m.tasks, Slot(t, item)) == Some(p);
      }
    }
    assert Blocks(PagesOf(m.owner, t, gone + {item})) == Blocks(PagesOf(m.owner, t, gone)) + {Block(page, 0)};
  }

  /** The page that an area being filled needs next is not mapped. */
  lemma FillRoom(m: Machine, t: nat, i: nat, hi: nat)
    requires Sane(m) && Filling(m, t, i, hi) && hi < End(m.tasks[t].areas[i])
    ensures hi % PAGE_SIZE == 0 && hi < SPLIT && Walk(m.mem, m.tasks[t].root, VpnOf(hi)) == Fault
  {
    hide Walk, VpnOf, VaOf, Filled, Balanced, TablesOk, Ledger;
    Unmapped(t, m.tasks, m.owner, m.vaOf, m.mem, i, hi, hi);
  }

  // ---------------------------------------------------------------- the stack

  /** Only area `i` has changed: it begins lower, ends where it did, and has got more pages. */
  ghost predicate SameButGrown(task: Task, task': Task, i: nat, va: nat) {
    && i < |task.areas| == |task'.areas| && task'.root == task.root
    && (forall j | 0 <= j < |task.areas| && j != i :: task'.areas[j] == task.areas[j])
    && task'.areas[i].va == va && End(task'.areas[i]) == End(task.areas[i])
    && task'.areas[i].flags == task.areas[i].flags && task.areas[i].pages <= task'.areas[i].pages
  }

  /** Area `i` of task `t` has grown down to `va`, by pages full of zeros. */
  ghost predicate StackGrown(m: Machine, m': Machine, t: nat, i: nat, va: nat) {
    && t in m.tasks && AtRest(m', t) && SameButGrown(m.tasks[t], m'.tasks[t], i, va)
    && OthersRest(m, m', t) && Extends(m, m') && AllMappedWith(m', t, va, m.tasks[t].areas[i].va, USER_ALL)
    && forall p: nat | IsFrameOf(m'.owner, p, t) && p !in m.owner :: p < |m'.ram| && m'.ram[p] == ZeroPage()
  }

  /** A fault that the stack may be extended for. */
  ghost predicate StackFault(m: Machine, t: nat, stval: nat) {
    t in m.tasks && USERSTACKMIN <= stval < USERSTACK && exists i: nat :: StackFor(m.tasks[t].areas, stval, i)
  }

  /** The stack has been extended to the page of the fault, which is one for stacks, and covers it now. */
  ghost predicate StackExpanded(m: Machine, m': Machine, t: nat, stval: nat) {
    && USERSTACKMIN <= stval < USERSTACK
    && exists i: nat ::
         && t in m.tasks && StackFor(m.tasks[t].areas, stval, i)
         && StackGrown(m, m', t, i, stval / PAGE_SIZE * PAGE_SIZE) && InArea(m'.tasks[t].areas[i], stval)
  }

  /** The page below a stack area is free when no area before it reaches there. */
  lemma RoomAt(m: Machine, t: nat, i: nat, va: nat)
    requires Sane(m) && AtRest(m, t) && i < |m.tasks[t].areas| && va + PAGE_SIZE == m.tasks[t].areas[i].va
    requires forall j | 0 <= j < i :: End(m.tasks[t].areas[j]) <= va
    ensures va % PAGE_SIZE == 0 && va < SPLIT && Walk(m.mem, m.tasks[t].root, VpnOf(va)) == Fault
  {
    hide Walk, VpnOf, VaOf;
    Unmapped(t, m.tasks, m.owner, m.vaOf, m.mem, |m.tasks[t].areas|, 0, va);
  }

  lemma KeptGrown(m: Machine, n: Machine, m': Machine, t: nat, i: nat, held: Held, va: nat, flags: Flags)
    requires PageAdded(m, n, t, i, held, va, flags)
    requires m' == n.(tasks := Resized(n.tasks, t, i, va, n.tasks[t].areas[i].nPages + 1))
    ensures WalksKept(m, m') && MappedWith(m', t, va, flags)
  {
    hide Walk, VpnOf, MappedAt, WalksKept;
    AddKept(m, n, t, i, held, va, flags);
    SameKept(n, m');
    KeptTwice(m, n, m');
  }

  lemma GrowOk(m: Machine, n: Machine, m': Machine, t: nat, i: nat, held: Held, va: nat, flags: Flags)
    requires Sane(m) && AtRest(m, t) && PageAdded(m, n, t, i, held, va, flags) && Sane(n)
    requires va + PAGE_SIZE == m.tasks[t].areas[i].va && va % PAGE_SIZE == 0
    requires forall j | 0 <= j < i :: End(m.tasks[t].areas[j]) <= va
    requires n.ram[held.frame] == ZeroPage() && flags == USER_ALL
    requires m' == n.(tasks := Resized(n.tasks, t, i, va, n.tasks[t].areas[i].nPages + 1))
    ensures Sane(m') && StackGrown(m, m', t, i, va)
  {
    hide Walk, VpnOf, VaOf, MappedAt, FilledUpTo, Sane, WalksKept, MappedWith, AllMappedWith;
    KeptGrown(m, n, m', t, i, held, va, flags);
    OnePage(m', t, va, flags);
    ResizedSane(n, m', t, i, va);
    ResizedRest(m, n, t, i, held, va, flags);
    AddFilling(m, n, t, i, held, va, flags);
    forall u | u in m.tasks && u != t
      ensures AtRest(m, u) ==> AtRest(m', u)
    {
      assert AtRest(n, u) == AtRest(m', u);
    }
  }

  lemma ResizedRest(m: Machine, n: Machine, t: nat, i: nat, held: Held, va: nat, flags: Flags)
    requires Sane(m) && AtRest(m, t) && PageAdded(m, n, t, i, held, va, flags)
    requires va + PAGE_SIZE == m.tasks[t].areas[i].va && va % PAGE_SIZE == 0
    requires forall j | 0 <= j < i :: End(m.tasks[t].areas[j]) <= va
    ensures Agrees(Resized(n.tasks, t, i, va, n.tasks[t].areas[i].nPages + 1)[t], n.vaOf, n.mem)
  {
    hide Sane, Walk, VpnOf, VaOf, MappedAt, FilledUpTo, Ledger, OnlyTaken, NodesKept, PushedOwners;
    LedgerOf(m);
    GrowAgrees(m.tasks, m.owner, m.vaOf, m.mem, n.mem, t, i, held, va, flags);
  }

  lemma ResizedSane(n: Machine, m': Machine, t: nat, i: nat, va: nat)
    requires Sane(n) && t in n.tasks && i < |n.tasks[t].areas|
    requires m' == n.(tasks := Resized(n.tasks, t, i, va, n.tasks[t].areas[i].nPages + 1))
    ensures Sane(m')
  {
    hide MapOk, Balanced, TablesOk, KernelMapped;
    HeldApart(n);
    SameTables(n, m', t);
    ResizeLedger(n.tasks, n.owner, t, i, va, n.tasks[t].areas[i].nPages + 1);
  }

  /** Growing twice is growing. */
  lemma GrownTwice(m: Machine, n: Machine, m': Machine, t: nat, i: nat, va: nat, vb: nat)
    requires StackGrown(m, n, t, i, va) && StackGrown(n, m', t, i, vb)
    ensures StackGrown(m, m', t, i, vb)
  {
    hide Agrees, WalksKept, OnlyTaken, NodesKept;
    AllKept(n, m', t, va, m.tasks[t].areas[i].va, USER_ALL);
    assert AllMappedWith(m', t, vb, m.tasks[t].areas[i].va, USER_ALL) by { hide MappedWith, Extends, OthersRest; }
    KeptTwice(m, n, m');
    TakenTwice(m, n, m');
    NodesTwice(m, n, m', t);
    forall p: nat | IsFrameOf(m'.owner, p, t) && p !in m.owner
      ensures p < |m'.ram| && m'.ram[p] == ZeroPage()
    {
      if p in n.owner { assert IsFrameOf(n.owner, p, t); }
    }
  }

  lemma TaskOf(m: Machine, t: nat)
    requires AtRest(m, t)
    ensures t in m.tasks
  {
  }

  lemma SamePageIndexes(va: nat, i: nat)
    requires va % PAGE_SIZE == 0 && va < SPLIT && i < PAGE_SIZE
    ensures VpnOf(va + i) == VpnOf(va) && Offset(va + i) == i
  {
    assert va + i < SPLIT by { assert SPLIT % PAGE_SIZE == 0; }
    SamePage(va + i, va);
  }

  /** A page that is not taken holds nothing. */
  lemma TakenBefore(m: Machine, p: nat)
    requires Sane(m) && Block(p, 0) !in m.live
    ensures p !in m.owner && p !in m.roles
  {
    assert forall q | q in m.owner :: Block(q, 0) in Blocks(m.owner.Keys);
    assert forall q | q in m.roles :: Block(q, 0) in Pages(m.roles);
  }

  /** Task `t` is gone, with every page it had; the others are as they were, the bytes of their frames
      and the entries of their tables too. Into pages given back links may have been written. */
  ghost predicate TaskGone(m: Machine, m': Machine, t: nat) {
    && t in m.tasks && m'.tasks == m.tasks - {t}
    && m'.owner == (map p | p in m.owner && m.owner[p].task != t :: m.owner[p])
    && m'.roles == CutTable(m.roles, m.tasks[t].root) && m'.vaOf == m.vaOf
    && m'.live == m.live - Blocks(set p | p in m.owner && m.owner[p].task == t) - Blocks(TableNodes(m.roles, m.tasks[t].root))
    && HeldWords(m.live, m.word, m'.live, m'.word)
    && Sized(m.mem) && Sized(m'.mem) && |m'.mem| == |m.mem| && SameWalks(m.mem, m'.mem, m'.roles)
    && (forall q | q in m'.roles && q < |m.mem| :: m'.mem[q] == m.mem[q])
    && |m.ram| == |m'.ram| == PAGES && forall p | p in m'.owner && p < PAGES :: m'.ram[p] == m.ram[p]
  }

  lemma SingleReferences(m: Machine, t: nat)
    requires AtRest(m, t)
    ensures forall i | 0 <= i < |m.tasks[t].areas| :: m.tasks[t].areas[i].refcount == 1
  {
    hide Filled;
  }

  lemma LaterItems(areas: seq<Area>, i: nat)
    requires i <= |areas|
    ensures i < |areas| ==> AreasItems(areas, i) !! AreaItems(areas[i], i)
    ensures AreasItems(areas, i) !! NodeItems(|areas|)
    ensures QueueNode !in AreasItems(areas, i) && KernelStack !in AreasItems(areas, i) && TaskRecord !in AreasItems(areas, i)
  {
    forall item | item in AreasItems(areas, i)
      ensures item.AreaRecord? || item.PageNode? || item.Frame?
      ensures item.i < i
    {
      AreasItemsAre(areas, i, item);
    }
  }

  lemma DyingStart(m: Machine, t: nat)
    requires t in m.tasks
    ensures Dying(m, t, {}, false, m.live, m.roles)
  {
    assert PagesOf(m.owner, t, {}) == {};
  }

  lemma TableDying(m: Machine, t: nat, gone: set<Item>, live: set<Block>, roles: Roles)
    requires Sane(m) && Dying(m, t, gone, false, live, roles)
    ensures IsRoot(roles, m.tasks[t].root) && roles == m.roles
    ensures Dying(m, t, gone, true, live - Blocks(TableNodes(m.roles, m.tasks[t].root)), CutTable(roles, m.tasks[t].root))
  {
  }

  lemma GoneSane(m: Machine, m': Machine, t: nat)
    requires Sane(m) && t in m.tasks && m'.tasks == m.tasks - {t}
    requires m'.owner == map p | p in m.owner && m.owner[p].task != t :: m.owner[p]
    requires m'.mem == m.mem && m'.ram == m.ram && m'.vaOf == m.vaOf
    requires Dying(m, t, AllItems(m.tasks[t]), true, m'.live, m'.roles) && HeldWords(m.live, m.word, m'.live, m'.word)
    ensures Sane(m') && TaskGone(m, m', t)
  {
    hide Walk, HeldWords, MapsOk, Ledger, TablesOk, Balanced, KernelMapped;
    WordsSized(m.live, m.word, m'.live, m'.word);
    AllItemsAre(m, t);
    GoneLedger(m, m', t);
    GoneMaps(m, m', t);
    GoneBalanced(m, m', t);
  }

  lemma GoneBalanced(m: Machine, m': Machine, t: nat)
    requires t in m.tasks && m'.tasks == m.tasks - {t} && TablesOk(m.tasks, m.owner, m.roles) && Balanced(m.live, m.owner, m.roles)
    requires m'.owner == map p | p in m.owner && m.owner[p].task != t :: m.owner[p]
    requires m'.roles == CutTable(m.roles, m.tasks[t].root)
    requires m'.live == m.live - Blocks(set p | p in m.owner && m.owner[p].task == t) - Blocks(TableNodes(m.roles, m.tasks[t].root))
    ensures Balanced(m'.live, m'.owner, m'.roles) && TablesOk(m'.tasks, m'.owner, m'.roles)
  {
    var held := set p | p in m.owner && m.owner[p].task == t;
    var nodes := TableNodes(m.roles, m.tasks[t].root);
    LessTaken(m.live, m.owner, m.roles, m'.owner, m'.roles, held, nodes);
    GoneTables(m, m', t);
  }

  lemma LessTaken(live: set<Block>, owner: Owners, roles: Roles, owner': Owners, roles': Roles, held: set<nat>, nodes: set<nat>)
    requires Balanced(live, owner, roles) && owner.Keys !! roles.Keys && held <= owner.Keys && nodes <= roles.Keys
    requires owner'.Keys == owner.Keys - held && roles'.Keys == roles.Keys - nodes
    ensures Balanced(live - Blocks(held) - Blocks(nodes), owner', roles')
  {
  }

  lemma GoneTables(m: Machine, m': Machine, t: nat)
    requires t in m.tasks && m'.tasks == m.tasks - {t} && TablesOk(m.tasks, m.owner, m.roles)
    requires m'.owner == map p | p in m.owner && m.owner[p].task != t :: m.owner[p]
    requires m'.roles == CutTable(m.roles, m.tasks[t].root)
    ensures TablesOk(m'.tasks, m'.owner, m'.roles)
  {
    forall q | q in m'.roles
      ensures HasTable(m'.tasks, m'.roles[q].root)
    {
      assert HasTable(m.tasks, m.roles[q].root);
      var u :| u in m.tasks && m.tasks[u].root == m.roles[q].root;
      assert m'.tasks[u].root == m'.roles[q].root;
    }
    assert AllTabled(m'.tasks, m'.roles);
    hide AllTabled;
  }

  lemma GoneLedger(m: Machine, m': Machine, t: nat)
    requires Ledger(m.tasks, m.owner) && m'.tasks == m.tasks - {t}
    requires m'.owner == map p | p in m.owner && m.owner[p].task != t :: m.owner[p]
    ensures Ledger(m'.tasks, m'.owner)
  {
    forall p: nat, s: Slot
      ensures (p in m'.owner && m'.owner[p] == s) <==> PageAt(m'.tasks, s) == Some(p)
    {
      assert (p in m.owner && m.owner[p] == s) <==> PageAt(m.tasks, s) == Some(p);
    }
  }

  lemma GoneMaps(m: Machine, m': Machine, t: nat)
    requires Sized(m.mem) && MapsOk(m.tasks, m.owner, m.vaOf, m.mem) && m'.tasks == m.tasks - {t}
    requires m'.owner == map p | p in m.owner && m.owner[p].task != t :: m.owner[p]
    requires m'.mem == m.mem && m'.vaOf == m.vaOf
    ensures MapsOk(m'.tasks, m'.owner, m'.vaOf, m'.mem)
  {
    hide Walk, VpnOf, VaOf;
    forall u | u in m'.tasks
      ensures MapOk(u, m'.tasks[u].root, m'.owner, m'.vaOf, m'.mem)
    {
      assert MapOk(u, m.tasks[u].root, m.owner, m.vaOf, m.mem);
      forall f: nat | IsFrameOf(m'.owner, f, u)
        ensures FrameMapped(f, m.tasks[u].root, m.vaOf, m.mem)
      {
        assert IsFrameOf(m.owner, f, u);
      }
      forall w | ValidVpn(w) && VaOf(w, 0) < SPLIT
        ensures MappedToFrame(u, m.tasks[u].root, m'.owner, m.vaOf, m.mem, w)
      {
        assert MappedToFrame(u, m.tasks[u].root, m.owner, m.vaOf, m.mem, w);
      }
    }
  }

  lemma GrownFacts(m: Machine, m': Machine, t: nat, i: nat, va: nat)
    requires StackGrown(m, m', t, i, va)
    ensures t in m.tasks && t in m'.tasks && AtRest(m', t) && i < |m.tasks[t].areas| == |m'.tasks[t].areas|
    ensures m'.tasks[t].areas[i].va == va && End(m'.tasks[t].areas[i]) == End(m.tasks[t].areas[i])
    ensures forall j | 0 <= j < i :: m'.tasks[t].areas[j] == m.tasks[t].areas[j]
  {
    hide Agrees, OthersRest, Extends, AllMappedWith;
  }

  lemma GrownToFault(m: Machine, m': Machine, t: nat, i: nat, stval: nat)
    requires USERSTACKMIN <= stval < USERSTACK
    requires AtRest(m, t) && StackFor(m.tasks[t].areas, stval, i) && StackGrown(m, m', t, i, stval / PAGE_SIZE * PAGE_SIZE)
    ensures StackExpanded(m, m', t, stval)
  {
    GrownFacts(m, m', t, i, stval / PAGE_SIZE * PAGE_SIZE);
    AreasSorted(m, t);
    hide StackGrown, Agrees;
  }

  lemma NotGrown(m: Machine, t: nat, i: nat)
    requires AtRest(m, t) && i < |m.tasks[t].areas| && |m.ram| == |m.word| == PAGES
    ensures StackGrown(m, m, t, i, m.tasks[t].areas[i].va)
  {
    hide WalksKept, OnlyTaken;
    SameKept(m, m);
    SameTaken(m);
  }

  lemma StackRoom(m: Machine, t: nat, stval: nat, i: nat)
    requires AtRest(m, t) && StackFor(m.tasks[t].areas, stval, i)
    ensures forall j | 0 <= j < i :: End(m.tasks[t].areas[j]) <= stval / PAGE_SIZE * PAGE_SIZE
    ensures m.tasks[t].areas[i].va % PAGE_SIZE == 0
  {
    RoomBelow(m.tasks[t].areas, stval, i);
  }

  lemma PageSized(m: Machine, p: nat)
    requires Sane(m) && p < PAGES
    ensures |m.ram| == PAGES && |m.ram[p]| == PAGE_SIZE
  {
  }

  /** The content of memory is nothing the rest depends on. */
  lemma RamSane(m: Machine, m': Machine, p: nat)
    requires Sane(m) && p < PAGES && |m'.ram| == PAGES && m' == m.(ram := m.ram[p := m'.ram[p]]) && |m'.ram[p]| == PAGE_SIZE
    ensures Sane(m')
  {
    hide Ledger, MapsOk, TablesOk, Balanced, KernelMapped;
  }
}
