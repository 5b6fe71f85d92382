/** The page table operations of kernel/mm.c on memory that several tables share. */
module PageTables {
  import opened Memlayout
  import opened Sv39
  import opened PageTree
  import opened Buddy
  import opened BuddyAllocator

  const VALID := Flags(true, false, false, false, false, false, false, false)

  /** The live blocks that are the nodes of the tables. */
  ghost function Pages(roles: Roles): set<Block> {
    set p | p in roles :: Block(p, 0)
  }

  function NewEntry(pa: nat, flags: Flags): Pte {
    Pte(flags, pa / PAGE_SIZE % PPN_LIMIT)
  }

  /** Every table translates every page alike in both memories. */
  ghost predicate SameWalks(mem: Memory, mem': Memory, roles: Roles)
    requires Sized(mem) && Sized(mem')
  {
    forall s: nat, v | IsRoot(roles, s) && ValidVpn(v) :: Walk(mem', s, v) == Walk(mem, s, v)
  }

  /** Nodes have been added, each a page that was taken for it. */
  ghost predicate Grown(roles: Roles, roles': Roles, live: set<Block>, live': set<Block>) {
    && (forall p | p in roles :: p in roles' && roles'[p] == roles[p])
    && (forall p | p in roles' && p !in roles :: Block(p, 0) !in live)
    && live' == live + Pages(roles')
  }

  /** A call that changes what a table says. */
  datatype Call =
    | Map(table: nat, va: nat, pa: nat, flags: Flags)
    | Map2m(table: nat, va: nat, pa: nat, flags: Flags)
    | Unmap(table: nat, va: nat)
    | Unmap2m(table: nat, va: nat)

  /** Whether the call is about page `w` of table `s`. */
  predicate Covers(call: Call, s: nat, w: Vpn) {
    var v := VpnOf(call.va);
    s == call.table && if call.Map? || call.Unmap? then w == v else w.v2 == v.v2 && w.v1 == v.v1
  }

  /** What the table says about page `w` then. */
  function Answer(call: Call, w: Vpn): Translation {
    match call
    case Map(_, _, pa, flags) => LowAnswer(NewEntry(pa, flags), w)
    case Map2m(_, _, pa, flags) => LeafAt(NewEntry(pa, flags), 1, w)
    case _ => Fault
  }

  /** The call has done its work: the pages it covers are answered so, all others as before. */
  ghost predicate Done(call: Call, mem: Memory, mem': Memory, roles: Roles)
    requires Sized(mem) && Sized(mem')
  {
    forall s: nat, w | IsRoot(roles, s) && ValidVpn(w) ::
      Walk(mem', s, w) == if Covers(call, s, w) then Answer(call, w) else Walk(mem, s, w)
  }

  /** Splitting an entry of a root or of a node at the middle level, all told. */
  lemma SplitOk(mem: Memory, roles: Roles, live: set<Block>, p: nat, i: nat, q: nat)
    requires TreeOk(mem, roles) && p in roles && !roles[p].Low? && i < FANOUT && p < |mem| && InvalidOrLeaf(mem[p][i])
    requires q < |mem| && Pages(roles) <= live && Block(q, 0) !in live
    ensures var mem' := Splitting(mem, p, i, if roles[p].Root? then 1 else 0, q);
            var roles' := roles[q := if roles[p].Root? then Mid(p, i) else Low(roles[p].root, roles[p].i, i)];
            && q !in roles && TreeOk(mem', roles') && SameWalks(mem, mem', roles)
            && Grown(roles, roles', live, live + {Block(q, 0)}) && Pages(roles') <= live + {Block(q, 0)}
  {
    assert forall n | n in roles :: Block(n, 0) in live;
    assert NodeOk(mem, roles, p);
    var mem' := Splitting(mem, p, i, if roles[p].Root? then 1 else 0, q);
    if roles[p].Root? {
      SplitGiga(mem, roles, p, i, q);
    } else {
      SplitMega(mem, roles, p, i, q);
    }
    forall s: nat, v | IsRoot(roles, s) && ValidVpn(v)
      ensures Walk(mem', s, v) == Walk(mem, s, v)
    {
      if roles[p].Root? {
        SplitGigaWalk(mem, roles, p, i, q, s, v);
      } else {
        SplitMegaWalk(mem, roles, p, i, q, s, v);
      }
    }
  }

  /** The same, except that the nodes below a 2M entry may have been cut off. */
  ghost predicate Kept(roles: Roles, roles': Roles, table: nat, v: Vpn, live: set<Block>, live': set<Block>) {
    && (forall p | p in roles && roles[p] != Low(table, v.v2, v.v1) :: p in roles' && roles'[p] == roles[p])
    && (forall p | p in roles' && p !in roles :: Block(p, 0) !in live)
    && live' == live + Pages(roles')
  }

  lemma CutKept(roles: Roles, grown: Roles, table: nat, v: Vpn, live: set<Block>, live': set<Block>)
    requires Grown(roles, grown, live, live') && Pages(roles) <= live
    requires forall p | p in grown && p !in roles :: grown[p] == Mid(table, v.v2)
    ensures Kept(roles, CutMega(grown, table, v.v2, v.v1), table, v, live, live')
    ensures Kept(roles, grown, table, v, live, live')
  {
    var cut := CutMega(grown, table, v.v2, v.v1);
    forall p | p in grown && p !in cut
      ensures Block(p, 0) in live
    {
      assert Block(p, 0) in Pages(roles);
    }
    assert live + Pages(grown) == live + Pages(cut);
  }

  /** Writing an entry at the middle level, all told. */
  lemma SetMidOk(mem: Memory, roles: Roles, live: set<Block>, m: nat, j: nat, pte: Pte)
    requires TreeOk(mem, roles) && m in roles && roles[m].Mid? && j < FANOUT && m < |mem|
    requires InvalidOrLeaf(pte) && Aligned(pte, 1) && Pages(roles) <= live
    ensures var mem', roles' := SetEntry(mem, m, j, pte), CutMega(roles, roles[m].root, roles[m].i, j);
            && TreeOk(mem', roles') && Pages(roles') <= live
            && forall s: nat, w | IsRoot(roles, s) && ValidVpn(w) ::
                 Walk(mem', s, w) ==
                 if s == roles[m].root && w.v2 == roles[m].i && w.v1 == j then LeafAt(pte, 1, w) else Walk(mem, s, w)
  {
    SetMid(mem, roles, m, j, pte);
    assert forall n | n in roles :: Block(n, 0) in live;
    forall s: nat, w | IsRoot(roles, s) && ValidVpn(w)
      ensures Walk(SetEntry(mem, m, j, pte), s, w) ==
              if s == roles[m].root && w.v2 == roles[m].i && w.v1 == j then LeafAt(pte, 1, w) else Walk(mem, s, w)
    {
      SetMidWalk(mem, roles, m, j, pte, s, w);
    }
  }

  lemma SetLowOk(mem: Memory, roles: Roles, p: nat, k: nat, pte: Pte)
    requires TreeOk(mem, roles) && p in roles && roles[p].Low? && p < |mem| && k < FANOUT
    ensures InvalidOrLeaf(pte) ==> TreeOk(SetEntry(mem, p, k, pte), roles)
    ensures forall s: nat, w | IsRoot(roles, s) && ValidVpn(w) ::
              Walk(SetEntry(mem, p, k, pte), s, w) ==
              if s == roles[p].root && w == Vpn(roles[p].i, roles[p].j, k) then LowAnswer(pte, w) else Walk(mem, s, w)
  {
    if InvalidOrLeaf(pte) { SetLow(mem, roles, p, k, pte); }
    forall s: nat, w | IsRoot(roles, s) && ValidVpn(w)
      ensures Walk(SetEntry(mem, p, k, pte), s, w) ==
              if s == roles[p].root && w == Vpn(roles[p].i, roles[p].j, k) then LowAnswer(pte, w) else Walk(mem, s, w)
    {
      SetLowWalk(mem, roles, p, k, pte, s, w);
    }
  }

  lemma MidOfRoot(mem: Memory, roles: Roles, m: nat)
    requires TreeOk(mem, roles) && m in roles && roles[m].Mid?
    ensures m < |mem| && IsRoot(roles, roles[m].root) && roles[m].root < |mem| && roles[m].i < FANOUT
    ensures Points(mem[roles[m].root][roles[m].i], m)
  {
    assert NodeOk(mem, roles, m);
  }

  lemma MegaVa(v: Vpn)
    requires ValidVpn(v)
    ensures VpnOf(VaOf(v.(v0 := 0), 0)) == Vpn(v.v2, v.v1, 0) && Offset(VaOf(v.(v0 := 0), 0)) == 0
  {
    VaRoundTrip(v.(v0 := 0), 0);
  }

  ghost function Blocks(pages: set<nat>): set<Block> {
    set p | p in pages :: Block(p, 0)
  }

  /** The entries of a root that cover the kernel's addresses; those below are the user's. */
  const USER_ENTRIES: nat := 252
  const KERN_ENTRY: nat := 252
  const MMIO_ENTRY: nat := 253
  const MMIO_FLAGS := Flags(true, true, true, false, false, true, false, false)
  const KERN_FLAGS := Flags(true, true, true, true, false, true, false, false)

  /** What every table says about addresses from SPLIT on. */
  function KernelWalk(v: Vpn): Translation {
    if v.v2 == MMIO_ENTRY then To(v.v1 * MEGA + v.v0, MMIO_FLAGS)
    else if v.v2 == KERN_ENTRY then To(RAM_PPN + v.v1 * MEGA + v.v0, KERN_FLAGS)
    else Fault
  }

  /** What an address from SPLIT on may lead to. The gigabyte from 0x3f_0000_0000 is memory from
      0x8000_0000 on, to be read, written and executed; the next one is the devices from 0 on, to be read
      and written; the rest is nothing. None of it is for user mode. */
  ghost predicate KernelOnly(w: Vpn, tr: Translation) {
    var a := VaOf(w, 0);
    if 0x3f_0000_0000 <= a < 0x3f_4000_0000 then
      && tr.To? && tr.ppn * 4096 == a - 0x3f_0000_0000 + 0x8000_0000
      && tr.flags.r && tr.flags.w && tr.flags.x && !tr.flags.u
    else if 0x3f_4000_0000 <= a < 0x3f_8000_0000 then
      && tr.To? && tr.ppn * 4096 == a - 0x3f_4000_0000
      && tr.flags.r && tr.flags.w && !tr.flags.x && !tr.flags.u
    else
      tr == Fault
  }

  /** A table that leads there and nowhere else from SPLIT on. */
  ghost predicate KernelMapped(root: nat, mem: Memory)
    requires Sized(mem)
  {
    forall w | ValidVpn(w) && VaOf(w, 0) >= 0x3f_0000_0000 :: KernelOnly(w, Walk(mem, root, w))
  }

  lemma KernelWalkOnly(w: Vpn)
    requires ValidVpn(w)
    ensures VaOf(w, 0) >= 0x3f_0000_0000 ==> KernelOnly(w, KernelWalk(w))
    ensures VaOf(w, 0) < 0x3f_0000_0000 ==> KernelWalk(w) == Fault
  {
  }

  /** Such is a table that has just been created; below SPLIT it leads nowhere. */
  lemma NewTableMapped(root: nat, mem: Memory)
    requires Sized(mem) && forall w | ValidVpn(w) :: Walk(mem, root, w) == KernelWalk(w)
    ensures KernelMapped(root, mem) && forall w | ValidVpn(w) && VaOf(w, 0) < 0x3f_0000_0000 :: Walk(mem, root, w) == Fault
  {
    forall w | ValidVpn(w)
      ensures VaOf(w, 0) >= 0x3f_0000_0000 ==> KernelOnly(w, Walk(mem, root, w))
      ensures VaOf(w, 0) < 0x3f_0000_0000 ==> Walk(mem, root, w) == Fault
    {
      hide Walk, VaOf, KernelOnly, KernelWalk;
      KernelWalkOnly(w);
    }
  }

  /** Two tables that lead to the same from SPLIT on. */
  lemma KernelSame(root: nat, mem: Memory, mem': Memory)
    requires Sized(mem) && Sized(mem') && KernelMapped(root, mem)
    requires forall w | ValidVpn(w) && VaOf(w, 0) >= 0x3f_0000_0000 :: Walk(mem', root, w) == Walk(mem, root, w)
    ensures KernelMapped(root, mem')
  {
    hide Walk, VaOf, KernelOnly;
  }

  lemma KernelEntries()
    ensures VpnOf(MMIOBASE) == Vpn(MMIO_ENTRY, 0, 0) && VpnOf(KERNBASE) == Vpn(KERN_ENTRY, 0, 0)
    ensures Offset(MMIOBASE) == 0 && Offset(KERNBASE) == 0
    ensures NewEntry(MMIOPHY, MMIO_FLAGS).ppn == 0 && NewEntry(KERNPHY, KERN_FLAGS).ppn == RAM_PPN && RAM_PPN % GIGA == 0
  {
  }

  /** The nodes below the first `n` entries of a root. */
  function UserNodes(roles: Roles, r: nat, n: nat): set<nat> {
    set q | q in roles && Under(roles[q], Root(r), n)
  }

  function CutUser(roles: Roles, r: nat, n: nat): Roles {
    map q | q in roles && !Under(roles[q], Root(r), n) :: roles[q]
  }

  lemma UserNodesNone(roles: Roles, r: nat)
    ensures UserNodes(roles, r, 0) == {} && CutUser(roles, r, 0) == roles
  {
  }

  lemma CutUserStep(roles: Roles, r: nat, n: nat)
    ensures CutGiga(CutUser(roles, r, n), r, n) == CutUser(roles, r, n + 1)
    ensures var cut := CutUser(roles, r, n);
            UserNodes(roles, r, n + 1) == UserNodes(roles, r, n) + EntryBranch(cut, r, n)
  {
  }

  /** The nodes below an entry of a root are the subtree it points to. */
  lemma EntryNodes(mem: Memory, roles: Roles, r: nat, i: nat)
    requires TreeOk(mem, roles) && IsRoot(roles, r) && i < FANOUT
    ensures r < |mem|
    ensures var below := EntryBranch(roles, r, i);
            if InvalidOrLeaf(mem[r][i]) then below == {}
            else Child(mem[r][i]) >= 0 && Child(mem[r][i]) in roles && Level(roles[Child(mem[r][i])]) == 1
                 && below == Subtree(roles, Child(mem[r][i]))
  {
    ChildNode(mem, roles, r, i);
    if InvalidOrLeaf(mem[r][i]) {
      NothingBelow(mem, roles, r, i);
      assert forall q | q in roles :: q in CutGiga(roles, r, i);
    } else {
      forall q | q in roles
        ensures Below(roles[q], r, i) <==> q in Subtree(roles, Child(mem[r][i]))
      {
        assert NodeOk(mem, roles, q);
      }
    }
  }

  function EntryBranch(roles: Roles, r: nat, i: nat): set<nat> {
    set q | q in roles && Below(roles[q], r, i)
  }

  /** Writing an entry of a root, all told. */
  lemma SetRootOk(mem: Memory, roles: Roles, r: nat, i: nat, pte: Pte)
    requires TreeOk(mem, roles) && IsRoot(roles, r) && i < FANOUT && InvalidOrLeaf(pte) && Aligned(pte, 2)
    ensures r < |mem| && TreeOk(SetEntry(mem, r, i, pte), CutGiga(roles, r, i))
    ensures Pages(CutGiga(roles, r, i)) <= Pages(roles)
    ensures forall s: nat, w | IsRoot(roles, s) && ValidVpn(w) ::
              Walk(SetEntry(mem, r, i, pte), s, w) == if s == r && w.v2 == i then LeafAt(pte, 2, w) else Walk(mem, s, w)
  {
    NodeInMemory(mem, roles, r);
    SetRoot(mem, roles, r, i, pte);
    forall s: nat, w | IsRoot(roles, s) && ValidVpn(w)
      ensures Walk(SetEntry(mem, r, i, pte), s, w) == if s == r && w.v2 == i then LeafAt(pte, 2, w) else Walk(mem, s, w)
    {
      SetRootWalk(mem, roles, r, i, pte, s, w);
    }
  }

  /** A page of zeros is a table that translates nothing. */
  lemma EmptyTable(mem: Memory, roles: Roles, q: nat)
    requires TreeOk(mem, roles) && q < |mem| && q !in roles
    requires forall k | 0 <= k < FANOUT :: mem[q][k] == Decode(0)
    ensures TreeOk(mem, roles[q := Root(q)])
    ensures forall w | ValidVpn(w) :: Walk(mem, q, w) == Fault
  {
    var roles' := roles[q := Root(q)];
    forall p | p in roles'
      ensures NodeOk(mem, roles', p)
    {
      if p in roles { assert NodeOk(mem, roles, p); }
    }
  }

  lemma CutNothing(mem: Memory, roles: Roles, q: nat, i: nat)
    requires TreeOk(mem, roles) && q !in roles
    ensures CutGiga(roles[q := Root(q)], q, i) == roles[q := Root(q)]
  {
    assert forall p | p in roles :: NodeOk(mem, roles, p);
  }

  lemma NodesLive(roles: Roles, live: set<Block>)
    ensures Pages(roles) <= live <==> forall q | q in roles :: Block(q, 0) in live
  {
    if Pages(roles) <= live {
      assert forall q | q in roles :: Block(q, 0) in Pages(roles);
    }
  }

  lemma NodeInMemory(mem: Memory, roles: Roles, p: nat)
    requires TreeOk(mem, roles) && p in roles
    ensures p < |mem|
  {
    assert NodeOk(mem, roles, p);
  }

  /** The descent from a root, and what it says about the nodes there are. */
  lemma LowNode(mem: Memory, roles: Roles, r: nat, v: Vpn)
    requires TreeOk(mem, roles) && IsRoot(roles, r) && ValidVpn(v)
    ensures r < |mem|
    ensures !InvalidOrLeaf(mem[r][v.v2]) <==> exists m :: m in roles && roles[m] == Mid(r, v.v2)
    ensures !InvalidOrLeaf(mem[r][v.v2]) ==>
              var m := Child(mem[r][v.v2]);
              && 0 <= m < |mem| && m in roles && roles[m] == Mid(r, v.v2)
              && (InvalidOrLeaf(mem[m][v.v1]) ==> !exists p :: p in roles && roles[p] == Low(r, v.v2, v.v1))
              && (!InvalidOrLeaf(mem[m][v.v1]) ==>
                    && 0 <= Child(mem[m][v.v1]) < |mem| && Child(mem[m][v.v1]) in roles
                    && roles[Child(mem[m][v.v1])] == Low(r, v.v2, v.v1))
    ensures InvalidOrLeaf(mem[r][v.v2]) ==> !exists p :: p in roles && roles[p] == Low(r, v.v2, v.v1)
  {
    ChildNode(mem, roles, r, v.v2);
    if InvalidOrLeaf(mem[r][v.v2]) {
      NothingBelow(mem, roles, r, v.v2);
      assert forall p | p in roles :: p in CutGiga(roles, r, v.v2);
    } else {
      var m := Child(mem[r][v.v2]);
      ChildNode(mem, roles, m, v.v1);
      if InvalidOrLeaf(mem[m][v.v1]) {
        NothingBelow(mem, roles, m, v.v1);
        assert forall p | p in roles :: p in CutMega(roles, r, v.v2, v.v1);
      }
    }
  }

  lemma GigaVa(v: Vpn)
    requires ValidVpn(v) && v.v0 == 0
    ensures VpnOf(VaOf(v.(v1 := 0), 0)) == Vpn(v.v2, 0, 0) && Offset(VaOf(v.(v1 := 0), 0)) == 0
  {
    VaRoundTrip(v.(v1 := 0), 0);
  }

  /** Entry `v.v1` of the node for the 2M entries around page `v` has been overwritten; until then the
      tables were in shape and translated as before. */
  ghost predicate PointerSet(mem: Memory, mem': Memory, roles: Roles, roles': Roles, table: nat, v: Vpn, pte: Pte)
    requires Sized(mem) && ValidVpn(v)
  {
    exists was: Memory, m: nat ::
      && Sized(was) && m < |was| && SameWalks(mem, was, roles) && TreeOk(was, roles')
      && m in roles' && roles'[m] == Mid(table, v.v2) && mem' == SetEntry(was, m, v.v1, pte)
  }

  /** What mapping a page that a leaf may stand for does to the walks. */
  lemma MappedWalks(mem: Memory, mem': Memory, roles: Roles, table: nat, va: nat, address: nat, flags: Flags)
    requires Sized(mem) && Sized(mem') && address >= KERN_PHYBASE && flags.v && Grants(flags)
    requires Done(Map(table, va, Pa(address), flags), mem, mem', roles)
    ensures forall s: nat, w | IsRoot(roles, s) && ValidVpn(w) ::
              Walk(mem', s, w) ==
              if s == table && w == VpnOf(va) then LeafAt(NewEntry(Pa(address), flags), 0, w) else Walk(mem, s, w)
  {
    hide Walk, VpnOf;
  }

  /** What unset_page_1g does, which looks up entry 0, is what it is for, exactly when the page lies in
      the first GiB, or there was nothing to unmap in that GiB nor in the one of the page. */
  lemma Unset1gMeant(mem: Memory, mem': Memory, table: nat, va: nat)
    requires Sized(mem) && Sized(mem')
    requires forall w | ValidVpn(w) :: Walk(mem', table, w) == if w.v2 == 0 then Fault else Walk(mem, table, w)
    ensures (forall w | ValidVpn(w) :: Walk(mem', table, w) == if w.v2 == VpnOf(va).v2 then Fault else Walk(mem, table, w)) <==>
            VpnOf(va).v2 == 0 || forall w | ValidVpn(w) && (w.v2 == 0 || w.v2 == VpnOf(va).v2) :: Walk(mem, table, w) == Fault
  {
    hide Walk, VpnOf;
    var i := VpnOf(va).v2;
    if i != 0 && forall w | ValidVpn(w) :: Walk(mem', table, w) == if w.v2 == i then Fault else Walk(mem, table, w) {
      forall w | ValidVpn(w) && (w.v2 == 0 || w.v2 == i)
        ensures Walk(mem, table, w) == Fault
      {
        assert Walk(mem', table, w) == if w.v2 == 0 then Fault else Walk(mem, table, w);
      }
    }
  }

  /** In addresses: what set_page does to a table. */
  lemma MappedAddresses(mem: Memory, mem': Memory, roles: Roles, root: nat, va: nat, pa: nat, flags: Flags, x: nat)
    requires Sized(mem) && Sized(mem') && IsRoot(roles, root) && Done(Map(root, va, pa, flags), mem, mem', roles)
    requires InvalidOrLeaf(NewEntry(pa, flags)) && pa % PAGE_SIZE == 0 && pa / PAGE_SIZE < PPN_LIMIT
    requires va % PAGE_SIZE == 0 && va < 0x80_0000_0000 && x < 0x80_0000_0000
    ensures Translate(mem', root, x) ==
            if va <= x < va + PAGE_SIZE then if flags.v && Grants(flags) then Some(pa + (x - va)) else None
            else Translate(mem, root, x)
    ensures va <= x < va + PAGE_SIZE && flags.v && Grants(flags) ==> Walk(mem', root, VpnOf(x)) == To(pa / 4096, flags)
  {
    hide Walk;
    SamePage(x, va);
    assert x / PAGE_SIZE == va / PAGE_SIZE <==> va <= x < va + PAGE_SIZE;
  }

  /** What unset_page does to a table. */
  lemma UnmappedAddresses(mem: Memory, mem': Memory, roles: Roles, root: nat, va: nat, x: nat)
    requires Sized(mem) && Sized(mem') && IsRoot(roles, root) && Done(Unmap(root, va), mem, mem', roles)
    requires va % PAGE_SIZE == 0 && va < 0x80_0000_0000 && x < 0x80_0000_0000
    ensures Translate(mem', root, x) == if va <= x < va + 4096 then None else Translate(mem, root, x)
  {
    hide Walk;
    SamePage(x, va);
    assert x / PAGE_SIZE == va / PAGE_SIZE <==> va <= x < va + PAGE_SIZE;
  }

  /** And what set_page_2m does. */
  lemma MappedAddresses2m(mem: Memory, mem': Memory, roles: Roles, root: nat, va: nat, pa: nat, flags: Flags, x: nat)
    requires Sized(mem) && Sized(mem') && IsRoot(roles, root) && Done(Map2m(root, va, pa, flags), mem, mem', roles)
    requires InvalidOrLeaf(NewEntry(pa, flags)) && pa % (MEGA * PAGE_SIZE) == 0 && pa / PAGE_SIZE < PPN_LIMIT
    requires va % (MEGA * PAGE_SIZE) == 0 && va < 0x80_0000_0000 && x < 0x80_0000_0000
    ensures Translate(mem', root, x) ==
            if va <= x < va + MEGA * PAGE_SIZE then if flags.v && Grants(flags) then Some(pa + (x - va)) else None
            else Translate(mem, root, x)
  {
    hide Walk;
    SameMega(x, va);
    MegaOffset(pa);
    hide VpnOf, Offset;
  }

  lemma MegaOffset(pa: nat)
    requires pa % (MEGA * PAGE_SIZE) == 0
    ensures pa / PAGE_SIZE % MEGA == 0 && pa / PAGE_SIZE * PAGE_SIZE == pa
  {
    var q := pa / (MEGA * PAGE_SIZE);
    assert pa == q * (MEGA * PAGE_SIZE) == q * MEGA * PAGE_SIZE;
    assert pa / PAGE_SIZE == q * MEGA;
  }

  lemma SameMega(x: nat, va: nat)
    requires va % (MEGA * PAGE_SIZE) == 0 && va < 0x80_0000_0000 && x < 0x80_0000_0000
    ensures VpnOf(x).v2 == VpnOf(va).v2 && VpnOf(x).v1 == VpnOf(va).v1 <==> va <= x < va + MEGA * PAGE_SIZE
    ensures va <= x < va + MEGA * PAGE_SIZE ==> x == va + VpnOf(x).v0 * PAGE_SIZE + Offset(x)
  {
    MegaIndex(x);
    MegaIndex(va);
    hide VpnOf;
    var i, j := x / (MEGA * PAGE_SIZE), va / (MEGA * PAGE_SIZE);
    assert va == j * (MEGA * PAGE_SIZE);
    assert i == j <==> va <= x < va + MEGA * PAGE_SIZE;
  }

  /** The upper two indexes are the number of the 2M page. */
  lemma MegaIndex(x: nat)
    requires x < 0x80_0000_0000
    ensures var v := VpnOf(x);
            && v.v2 * FANOUT + v.v1 == x / (MEGA * PAGE_SIZE)
            && x == x / (MEGA * PAGE_SIZE) * (MEGA * PAGE_SIZE) + v.v0 * PAGE_SIZE + Offset(x)
  {
    var page := x / PAGE_SIZE;
    var mega := page / FANOUT;
    assert mega / FANOUT < FANOUT;
    assert x / (MEGA * PAGE_SIZE) == mega;
  }

  /** In addresses: PA agrees with every table for the kernel's gigabyte. */
  lemma KernelAddresses(mem: Memory, root: nat, x: nat)
    requires Sized(mem) && KERNBASE <= x < KERNBASE + 0x4000_0000
    requires Walk(mem, root, VpnOf(x)) == KernelWalk(VpnOf(x))
    ensures Translate(mem, root, x) == Some(Pa(x))
  {
    VaFields(x);
    var page := x / PAGE_SIZE;
    var mega := page / FANOUT;
    assert mega / FANOUT == KERN_ENTRY;
  }

  class Mmu {
    const alloc: Allocator
    /** Memory from KERN_PHYBASE on, each page read as a table node. */
    const mem: array<seq<Pte>>
    ghost var roles: Roles

    ghost predicate Sound()
      reads this, mem
    {
      mem.Length == PAGES && Sized(mem[..])
    }

    ghost predicate Valid()
      reads this, mem, alloc, alloc.head, alloc.word
    {
      && Sound() && alloc.Valid()
      && TreeOk(mem[..], roles) && Pages(roles) <= alloc.live
    }

    constructor (allocator: Allocator)
      requires allocator.Valid()
      ensures Valid() && alloc == allocator && fresh(mem) && roles == map[]
    {
      alloc := allocator;
      mem := new seq<Pte>[PAGES](_ => seq(FANOUT, _ => Decode(0)));
      roles := map[];
    }

    method SetPage1g(table: nat, va: nat, pa: nat, flags: Flags) returns (r: Outcome<()>)
      requires Sound() && table < PAGES
      modifies this`roles, mem
      ensures Sound()
      ensures var v, pte := VpnOf(va), NewEntry(pa, flags);
              if Offset(va) != 0 || v.v0 != 0 || v.v1 != 0 || pa % PAGE_SIZE != 0 || (IsLeaf(flags) && pte.ppn % GIGA != 0)
              then r == Panic(Misaligned) && mem[..] == old(mem[..]) && roles == old(roles)
              else r == Ok(()) && mem[..] == SetEntry(old(mem[..]), table, v.v2, pte)
                   && roles == if InvalidOrLeaf(pte) then CutGiga(old(roles), table, v.v2) else old(roles)
      ensures TreeOk(old(mem[..]), old(roles)) && IsRoot(old(roles), table) && InvalidOrLeaf(NewEntry(pa, flags)) ==>
                TreeOk(mem[..], roles)
    {
      var v := VpnOf(va);
      if Offset(va) != 0 || v.v0 != 0 || v.v1 != 0 {
        return Panic(Misaligned);
      }
      var pte := NewEntry(pa, flags);
      GigaAligned(pte.ppn);
      hide TreeOk, CutGiga;
      if pa % PAGE_SIZE != 0 || ((pte.ppn % MEGA != 0 || pte.ppn / MEGA % 512 != 0) && IsLeaf(flags)) {
        return Panic(Misaligned);
      }
      if InvalidOrLeaf(pte) {
        if TreeOk(mem[..], roles) && IsRoot(roles, table) {
          SetRoot(mem[..], roles, table, v.v2, pte);
        }
        roles := CutGiga(roles, table, v.v2);
      }
      mem[table] := mem[table][v.v2 := pte];
      r := Ok(());
    }

    /** A fresh page filled with the entries that stand for `pte` one level down. */
    method ExpandSuperpage(pte: Pte, level: nat) returns (r: Outcome<nat>)
      requires Valid() && InvalidOrLeaf(pte) && level < 2
      modifies mem, alloc, alloc.head, alloc.word
      ensures HeldWords(old(alloc.live), old(alloc.word[..]), alloc.live, alloc.word[..])
      ensures Valid()
      ensures r.Panic? ==> r.reason == OutOfMemory && alloc.Exhausted() && mem[..] == old(mem[..]) && alloc.live == old(alloc.live)
      ensures r.Ok? ==>
                && r.value >= KERN_PHYBASE && r.value == PageAddress(PageOf(r.value))
                && var q := PageOf(r.value);
                   && q < PAGES && Block(q, 0) !in old(alloc.live) && alloc.live == old(alloc.live) + {Block(q, 0)}
                   && mem[..] == old(mem[..])[q := Expand(pte, level)]
    {
      r := alloc.AllocPage();
      if r.Panic? {
        return;
      }
      var q := PageOf(r.value);
      var i := 0;
      ghost var was := mem[..];
      while i < FANOUT
        invariant 0 <= i <= FANOUT && Sound()
        invariant mem[..] == was[q := mem[q]]
        invariant forall k | 0 <= k < i :: mem[q][k] == Expand(pte, level)[k]
        modifies mem
      {
        mem[q] := mem[q][i := pte];
        if level == 1 {
          mem[q] := mem[q][i := pte.(ppn := SetPpn1(pte.ppn, i))];
        } else if level == 0 {
          mem[q] := mem[q][i := pte.(ppn := SetPpn0(pte.ppn, i))];
        }
        i := i + 1;
      }
      assert mem[q] == Expand(pte, level);
      FreshNode(was, roles, q, mem[q]);
    }

    /** The node whose entries cover 2M pages around `va`, split off if need be. */
    method EnsurePage2m(table: nat, va: nat) returns (r: Outcome<nat>)
      requires Valid() && IsRoot(roles, table)
      modifies this`roles, mem, alloc, alloc.head, alloc.word
      ensures HeldWords(old(alloc.live), old(alloc.word[..]), alloc.live, alloc.word[..])
      ensures Valid() && Grown(old(roles), roles, old(alloc.live), alloc.live)
      ensures SameWalks(old(mem[..]), mem[..], old(roles))
      ensures forall p | p in roles && p !in old(roles) :: roles[p] == Mid(table, VpnOf(va).v2)
      ensures r.Panic? ==> roles == old(roles) && mem[..] == old(mem[..])
      ensures r == Panic(Misaligned) <==> Offset(va) != 0 || VpnOf(va).v0 != 0
      ensures r.Panic? && r.reason != Misaligned ==> r.reason == OutOfMemory && alloc.Exhausted()
      ensures r.Ok? ==> r.value in roles && roles[r.value] == Mid(table, VpnOf(va).v2) && r.value < PAGES
      ensures !InvalidOrLeaf(old(mem[..])[table][VpnOf(va).v2]) ==>
                && mem[..] == old(mem[..]) && roles == old(roles) && alloc.live == old(alloc.live)
                && r in {Panic(Misaligned), Ok(Child(mem[table][VpnOf(va).v2]))}
    {
      hide Tiling, Chained, Coalesced, TreeOk, HeldWords;
      alloc.NothingWritten();
      var v := VpnOf(va);
      ChildNode(mem[..], roles, table, v.v2);
      if Offset(va) != 0 || v.v0 != 0 {
        return Panic(Misaligned);
      }
      var pte2 := mem[table][v.v2];
      if InvalidOrLeaf(pte2) {
        var subtable := ExpandSuperpage(pte2, 1);
        if subtable.Panic? {
          return Panic(subtable.reason);
        }
        ghost var was, nodes := old(mem[..]), roles;
        var q := PageOf(subtable.value);
        GigaVa(v);
        var status := SetPage1g(table, VaOf(v.(v1 := 0), 0), Pa(subtable.value), VALID);
        assert mem[..] == Splitting(was, table, v.v2, 1, q);
        SplitOk(was, nodes, old(alloc.live), table, v.v2, q);
        roles := roles[q := Mid(table, v.v2)];
        r := Ok(q);
      } else {
        r := Ok(Child(pte2));
      }
    }

    method SetPage2m(table: nat, va: nat, pa: nat, flags: Flags) returns (r: Outcome<()>)
      requires Valid() && IsRoot(roles, table)
      modifies this`roles, mem, alloc, alloc.head, alloc.word
      ensures HeldWords(old(alloc.live), old(alloc.word[..]), alloc.live, alloc.word[..])
      ensures r == Panic(Misaligned) <==>
                pa % PAGE_SIZE != 0 || (IsLeaf(flags) && NewEntry(pa, flags).ppn % MEGA != 0)
                || Offset(va) != 0 || VpnOf(va).v0 != 0
      ensures r.Panic? && r.reason != Misaligned ==> r.reason == OutOfMemory && alloc.Exhausted()
      ensures InvalidOrLeaf(NewEntry(pa, flags)) || r.Panic? ==>
                && Valid() && Kept(old(roles), roles, table, VpnOf(va), old(alloc.live), alloc.live)
                && (r.Panic? ==> SameWalks(old(mem[..]), mem[..], old(roles)))
                && (r.Ok? ==> Done(Map2m(table, va, pa, flags), old(mem[..]), mem[..], old(roles)))
      ensures r.Panic? ==> roles == old(roles)
      ensures !InvalidOrLeaf(NewEntry(pa, flags)) && r.Ok? ==>
                PointerSet(old(mem[..]), mem[..], old(roles), roles, table, VpnOf(va), NewEntry(pa, flags))
      ensures !InvalidOrLeaf(NewEntry(pa, flags)) && r != Panic(Misaligned)
              && !InvalidOrLeaf(old(mem[..])[table][VpnOf(va).v2]) ==>
                var m := Child(old(mem[..])[table][VpnOf(va).v2]);
                && r == Ok(()) && 0 <= m < PAGES && Sound() && alloc.Valid()
                && mem[..] == SetEntry(old(mem[..]), m, VpnOf(va).v1, NewEntry(pa, flags))
                && roles == old(roles) && alloc.live == old(alloc.live)
    {
      hide Tiling, Chained, Coalesced, TreeOk, HeldWords;
      alloc.NothingWritten();
      var v := VpnOf(va);
      var pte := NewEntry(pa, flags);
      ChildNode(mem[..], roles, table, v.v2);
      if pa % PAGE_SIZE != 0 || (pte.ppn % MEGA != 0 && IsLeaf(flags)) {
        assert alloc.live == alloc.live + Pages(roles);
        return Panic(Misaligned);
      }
      var pte1 := EnsurePage2m(table, va);
      if pte1.Panic? {
        CutKept(old(roles), roles, table, v, old(alloc.live), alloc.live);
        return Panic(pte1.reason);
      }
      var m := pte1.value;
      if InvalidOrLeaf(pte) {
        SetMidOk(mem[..], roles, alloc.live, m, v.v1, pte);
        CutKept(old(roles), roles, table, v, old(alloc.live), alloc.live);
        roles := CutMega(roles, table, v.v2, v.v1);
      }
      ghost var was := mem[..];
      mem[m] := mem[m][v.v1 := pte];
      assert mem[..] == SetEntry(was, m, v.v1, pte);
      r := Ok(());
    }

    /** Map the page at `va`: the table translates it as told and every other page as before, whether
        it was missing, part of a superpage or a page of its own. */
    method SetPage(table: nat, va: nat, pa: nat, flags: Flags) returns (r: Outcome<()>)
      requires Valid() && IsRoot(roles, table)
      modifies this`roles, mem, alloc, alloc.head, alloc.word
      ensures InvalidOrLeaf(NewEntry(pa, flags)) || r.Panic? ==> Valid()
      ensures HeldWords(old(alloc.live), old(alloc.word[..]), alloc.live, alloc.word[..])
      ensures Sound() && Grown(old(roles), roles, old(alloc.live), alloc.live)
      ensures forall p | p in roles && p !in old(roles) :: roles[p].root == table
      ensures r == Panic(Misaligned) <==> Offset(va) != 0 || pa % PAGE_SIZE != 0
      ensures r.Panic? && r.reason != Misaligned ==> r.reason == OutOfMemory && alloc.Exhausted()
      ensures r.Panic? ==> SameWalks(old(mem[..]), mem[..], old(roles))
      ensures r.Ok? ==> Done(Map(table, va, pa, flags), old(mem[..]), mem[..], old(roles))
    {
      hide Tiling, Chained, Coalesced, TreeOk, HeldWords;
      alloc.NothingWritten();
      var v := VpnOf(va);
      if Offset(va) != 0 || pa % PAGE_SIZE != 0 {
        assert alloc.live == alloc.live + Pages(roles);
        return Panic(Misaligned);
      }
      MegaVa(v);
      var subtableVa := VaOf(v.(v0 := 0), 0);
      var mid := EnsurePage2m(table, subtableVa);
      if mid.Panic? {
        return Panic(mid.reason);
      }
      ghost var live, word := alloc.live, alloc.word[..];
      var low := EnsurePage(table, mid.value, v);
      HeldWordsTwice(old(alloc.live), old(alloc.word[..]), live, word, alloc.live, alloc.word[..]);
      if low.Panic? {
        return Panic(low.reason);
      }
      var pte := NewEntry(pa, flags);
      SetLowOk(mem[..], roles, low.value, v.v0, pte);
      mem[low.value] := mem[low.value][v.v0 := pte];
      r := Ok(());
    }

    /** The second half of the descent in set_page: the node at the lowest level. */
    method EnsurePage(table: nat, mid: nat, v: Vpn) returns (r: Outcome<nat>)
      requires Valid() && IsRoot(roles, table) && mid in roles && roles[mid] == Mid(table, v.v2) && ValidVpn(v)
      modifies this`roles, mem, alloc, alloc.head, alloc.word
      ensures HeldWords(old(alloc.live), old(alloc.word[..]), alloc.live, alloc.word[..])
      ensures Valid() && Grown(old(roles), roles, old(alloc.live), alloc.live)
      ensures forall p | p in roles && p !in old(roles) :: roles[p] == Low(table, v.v2, v.v1)
      ensures SameWalks(old(mem[..]), mem[..], old(roles))
      ensures r.Panic? ==> r.reason == OutOfMemory && alloc.Exhausted()
      ensures r.Ok? ==> r.value in roles && roles[r.value] == Low(table, v.v2, v.v1) && r.value < PAGES
    {
      hide Tiling, Chained, Coalesced, TreeOk, Walk, HeldWords, PointerSet, Done, LeafAt;
      alloc.NothingWritten();
      ChildNode(mem[..], roles, mid, v.v1);
      MidOfRoot(mem[..], roles, mid);
      var pte1 := mem[mid][v.v1];
      if InvalidOrLeaf(pte1) {
        var subtable := ExpandSuperpage(pte1, 0);
        if subtable.Panic? {
          assert alloc.live == alloc.live + Pages(roles);
          return Panic(subtable.reason);
        }
        ghost var was := old(mem[..]);
        var q := PageOf(subtable.value);
        SplitOk(was, roles, old(alloc.live), mid, v.v1, q);
        MegaVa(v);
        ghost var live, word := alloc.live, alloc.word[..];
        var status := SetPage2m(table, VaOf(v.(v0 := 0), 0), Pa(subtable.value), VALID);
        HeldWordsTwice(old(alloc.live), old(alloc.word[..]), live, word, alloc.live, alloc.word[..]);
        assert mem[..] == Splitting(was, mid, v.v1, 0, q);
        roles := roles[q := Low(table, v.v2, v.v1)];
        r := Ok(q);
      } else {
        assert alloc.live == alloc.live + Pages(roles);
        r := Ok(Child(pte1));
      }
    }

    /** Unmap one page; that needs a table of single pages over it. */
    method UnsetPage(table: nat, va: nat) returns (r: Outcome<int>)
      requires Valid() && IsRoot(roles, table)
      modifies mem
      ensures Valid()
      ensures r == Panic(Misaligned) <==> Offset(va) != 0
      ensures r.Panic? ==> r.reason == Misaligned
      ensures r.Ok? ==>
                r.value == if exists p :: p in roles && roles[p] == Low(table, VpnOf(va).v2, VpnOf(va).v1) then 0 else -ENOENT
      ensures r != Ok(0) ==> SameWalks(old(mem[..]), mem[..], roles)
      ensures r == Ok(0) ==> Done(Unmap(table, va), old(mem[..]), mem[..], roles)
    {
      hide Tiling, Chained, Coalesced, TreeOk;
      var v := VpnOf(va);
      if Offset(va) != 0 {
        return Panic(Misaligned);
      }
      LowNode(mem[..], roles, table, v);
      var pte2 := mem[table][v.v2];
      if InvalidOrLeaf(pte2) {
        return Ok(-ENOENT);
      }
      var pte1 := mem[Child(pte2)][v.v1];
      if InvalidOrLeaf(pte1) {
        return Ok(-ENOENT);
      }
      var low := Child(pte1);
      var pte := mem[low][v.v0].(flags := mem[low][v.v0].flags.(v := false));
      SetLowOk(mem[..], roles, low, v.v0, pte);
      mem[low] := mem[low][v.v0 := pte];
      r := Ok(0);
    }

    /** Unmap a 2M page that has not been split. */
    method UnsetPage2m(table: nat, va: nat) returns (r: Outcome<int>)
      requires Valid() && IsRoot(roles, table)
      modifies mem
      ensures Valid()
      ensures r == Panic(Misaligned) <==> Offset(va) != 0 || VpnOf(va).v0 != 0
      ensures r.Panic? ==> r.reason == Misaligned
      ensures r.Ok? ==>
                r.value == if !(exists m :: m in roles && roles[m] == Mid(table, VpnOf(va).v2)) then -ENOENT
                           else if exists p :: p in roles && roles[p] == Low(table, VpnOf(va).v2, VpnOf(va).v1) then -EINVAL
                           else 0
      ensures r != Ok(0) ==> SameWalks(old(mem[..]), mem[..], roles)
      ensures r == Ok(0) ==> Done(Unmap2m(table, va), old(mem[..]), mem[..], roles)
    {
      hide Tiling, Chained, Coalesced, TreeOk;
      var v := VpnOf(va);
      if Offset(va) != 0 || v.v0 != 0 {
        return Panic(Misaligned);
      }
      LowNode(mem[..], roles, table, v);
      var pte2 := mem[table][v.v2];
      if InvalidOrLeaf(pte2) {
        return Ok(-ENOENT);
      }
      var mid := Child(pte2);
      var pte1 := mem[mid][v.v1];
      if !InvalidOrLeaf(pte1) {
        return Ok(-EINVAL);
      }
      var pte := pte1.(flags := pte1.flags.(v := false));
      SetMidOk(mem[..], roles, alloc.live, mid, v.v1, pte);
      NothingBelow(mem[..], roles, mid, v.v1);
      mem[mid] := mem[mid][v.v1 := pte];
      r := Ok(0);
    }

    /** Unmap a 1G page: the entry is looked up by the middle index, which is 0, so it is the first GiB
        that is unmapped, whatever `va` is. */
    method UnsetPage1g(table: nat, va: nat) returns (r: Outcome<int>)
      requires Valid() && IsRoot(roles, table)
      modifies mem
      ensures Valid()
      ensures r == Panic(Misaligned) <==> Offset(va) != 0 || VpnOf(va).v0 != 0 || VpnOf(va).v1 != 0
      ensures r.Panic? ==> r.reason == Misaligned
      ensures r.Ok? ==> r.value == if exists m :: m in roles && roles[m] == Mid(table, 0) then -EINVAL else 0
      ensures forall s: nat, w | IsRoot(roles, s) && ValidVpn(w) ::
                Walk(mem[..], s, w) == if r == Ok(0) && s == table && w.v2 == 0 then Fault else Walk(old(mem[..]), s, w)
    {
      hide Tiling, Chained, Coalesced, TreeOk;
      var v := VpnOf(va);
      if Offset(va) != 0 || v.v0 != 0 || v.v1 != 0 {
        return Panic(Misaligned);
      }
      LowNode(mem[..], roles, table, Vpn(v.v1, 0, 0));
      var pte2 := mem[table][v.v1];
      if !InvalidOrLeaf(pte2) {
        return Ok(-EINVAL);
      }
      var pte := pte2.(flags := pte2.flags.(v := false));
      SetRootOk(mem[..], roles, table, v.v1, pte);
      NothingBelow(mem[..], roles, table, v.v1);
      mem[table] := mem[table][v.v1 := pte];
      r := Ok(0);
    }

    /** Free a node and all below it; "too deep" never happens. */
    method DoDestroyPageTable(table: nat, depth: nat) returns (r: Outcome<()>)
      requires Sound() && alloc.Valid() && TreeOk(mem[..], roles)
      requires table in roles && depth == Level(roles[table])
      requires forall q | q in Subtree(roles, table) :: Block(q, 0) in alloc.live
      modifies alloc, alloc.head, alloc.word
      ensures alloc.Valid() && r == Ok(())
      ensures alloc.live == old(alloc.live) - Blocks(Subtree(roles, table))
      ensures HeldWords(old(alloc.live), old(alloc.word[..]), alloc.live, alloc.word[..])
      decreases depth
    {
      hide Tiling, Chained, Coalesced, TreeOk, HeldWords;
      alloc.NothingWritten();
      NodeInMemory(mem[..], roles, table);
      var i := 0;
      while i < FANOUT
        invariant 0 <= i <= FANOUT && alloc.Valid()
        invariant alloc.live == old(alloc.live) - Blocks(Branches(roles, table, i))
        invariant HeldWords(old(alloc.live), old(alloc.word[..]), alloc.live, alloc.word[..])
        modifies alloc, alloc.head, alloc.word
      {
        NextBranch(mem[..], roles, table, i);
        var pte := mem[table][i];
        if !InvalidOrLeaf(pte) {
          if depth == 0 {
            return Panic(TooDeep);
          }
          ghost var live, word := alloc.live, alloc.word[..];
          var status := DoDestroyPageTable(Child(pte), depth - 1);
          HeldWordsTwice(old(alloc.live), old(alloc.word[..]), live, word, alloc.live, alloc.word[..]);
        }
        i := i + 1;
      }
      ghost var live, word := alloc.live, alloc.word[..];
      alloc.FreePage(PageAddress(table));
      HeldWordsTwice(old(alloc.live), old(alloc.word[..]), live, word, alloc.live, alloc.word[..]);
      r := Ok(());
    }

    method DestroyPageTable(table: nat) returns (r: Outcome<()>)
      requires Valid() && IsRoot(roles, table)
      modifies this`roles, alloc, alloc.head, alloc.word
      ensures HeldWords(old(alloc.live), old(alloc.word[..]), alloc.live, alloc.word[..])
      ensures Valid() && r == Ok(())
      ensures roles == CutTable(old(roles), table)
      ensures alloc.live == old(alloc.live) - Blocks(set q | q in old(roles) && old(roles)[q].root == table)
    {
      hide Tiling, Chained, Coalesced, TreeOk, HeldWords;
      WholeTable(mem[..], roles, table);
      NodesLive(roles, alloc.live);
      r := DoDestroyPageTable(table, 2);
      DropTable(mem[..], roles, table);
      assert Subtree(roles, table) == set q | q in roles && roles[q].root == table;
      roles := CutTable(roles, table);
      NodesLive(roles, alloc.live + Pages(roles));
    }

    /** Drop everything below SPLIT from a table. */
    method UnsetUserPages(table: nat)
      requires Valid() && IsRoot(roles, table)
      modifies this`roles, mem, alloc, alloc.head, alloc.word
      ensures HeldWords(old(alloc.live), old(alloc.word[..]), alloc.live, alloc.word[..])
      ensures Valid()
      ensures roles == CutUser(old(roles), table, USER_ENTRIES)
      ensures alloc.live == old(alloc.live) - Blocks(UserNodes(old(roles), table, USER_ENTRIES))
      ensures forall s: nat, w | IsRoot(old(roles), s) && ValidVpn(w) ::
                Walk(mem[..], s, w) == if s == table && VaOf(w, 0) < SPLIT then Fault else Walk(old(mem[..]), s, w)
    {
      hide Tiling, Chained, Coalesced, TreeOk, HeldWords;
      alloc.NothingWritten();
      UserNodesNone(roles, table);
      var i := 0;
      while i < FANOUT
        invariant 0 <= i <= USER_ENTRIES && Valid() && IsRoot(roles, table)
        invariant roles == CutUser(old(roles), table, i)
        invariant alloc.live == old(alloc.live) - Blocks(UserNodes(old(roles), table, i))
        invariant HeldWords(old(alloc.live), old(alloc.word[..]), alloc.live, alloc.word[..])
        invariant forall s: nat, w | IsRoot(old(roles), s) && ValidVpn(w) ::
                    Walk(mem[..], s, w) == if s == table && w.v2 < i then Fault else Walk(old(mem[..]), s, w)
      {
        var va := VaOf(Vpn(i, 0, 0), 0);
        if va >= SPLIT {
          return;
        }
        ghost var live, word := alloc.live, alloc.word[..];
        UnsetEntry(table, i);
        HeldWordsTwice(old(alloc.live), old(alloc.word[..]), live, word, alloc.live, alloc.word[..]);
        CutUserStep(old(roles), table, i);
        i := i + 1;
      }
    }

    /** The body of the loop in unset_user_pages. */
    method UnsetEntry(table: nat, i: nat)
      requires Valid() && IsRoot(roles, table) && i < FANOUT
      modifies this`roles, mem, alloc, alloc.head, alloc.word
      ensures HeldWords(old(alloc.live), old(alloc.word[..]), alloc.live, alloc.word[..])
      ensures Valid()
      ensures roles == CutGiga(old(roles), table, i)
      ensures alloc.live == old(alloc.live) - Blocks(EntryBranch(old(roles), table, i))
      ensures forall s: nat, w | IsRoot(old(roles), s) && ValidVpn(w) ::
                Walk(mem[..], s, w) == if s == table && w.v2 == i then Fault else Walk(old(mem[..]), s, w)
    {
      hide Tiling, Chained, Coalesced, TreeOk, HeldWords;
      alloc.NothingWritten();
      NodesLive(roles, alloc.live);
      EntryNodes(mem[..], roles, table, i);
      ghost var below := EntryBranch(roles, table, i);
      assert InvalidOrLeaf(mem[table][i]) ==> Blocks(below) == {};
      var pte := mem[table][i];
      if !InvalidOrLeaf(pte) {
        var status := DoDestroyPageTable(Child(pte), 1);
      }
      SetRootOk(mem[..], roles, table, i, Decode(0));
      roles := CutGiga(roles, table, i);
      mem[table] := mem[table][i := Decode(0)];
      NodesLive(roles, alloc.live);
    }

    /** map_kernel_pages: the devices for reading and writing, memory for executing too, both global and
        neither for user mode. */
    method MapKernelPages(table: nat)
      requires Valid() && IsRoot(roles, table)
      modifies this`roles, mem
      ensures Valid() && roles == CutGiga(CutGiga(old(roles), table, MMIO_ENTRY), table, KERN_ENTRY)
      ensures forall s: nat, w | IsRoot(old(roles), s) && ValidVpn(w) ::
                Walk(mem[..], s, w) ==
                if s == table && w.v2 == 253 then To(w.v1 * 512 + w.v0, Flags(true, true, true, false, false, true, false, false))
                else if s == table && w.v2 == 252 then To(0x8_0000 + w.v1 * 512 + w.v0, Flags(true, true, true, true, false, true, false, false))
                else Walk(old(mem[..]), s, w)
    {
      hide Tiling, Chained, Coalesced, TreeOk;
      KernelEntries();
      SetRootOk(mem[..], roles, table, MMIO_ENTRY, NewEntry(MMIOPHY, MMIO_FLAGS));
      var mmio := SetPage1g(table, MMIOBASE, MMIOPHY, MMIO_FLAGS);
      SetRootOk(mem[..], roles, table, KERN_ENTRY, NewEntry(KERNPHY, KERN_FLAGS));
      var kern := SetPage1g(table, KERNBASE, KERNPHY, KERN_FLAGS);
    }

    /** A new table, which maps the kernel and nothing else. */
    method CreatePageTable() returns (r: Outcome<nat>)
      requires Valid()
      modifies this`roles, mem, alloc, alloc.head, alloc.word
      ensures HeldWords(old(alloc.live), old(alloc.word[..]), alloc.live, alloc.word[..])
      ensures Valid()
      ensures r.Panic? ==> r.reason == OutOfMemory && alloc.Exhausted() && roles == old(roles) && alloc.live == old(alloc.live) && mem[..] == old(mem[..])
      ensures r.Ok? ==>
                && Block(r.value, 0) !in old(alloc.live) && alloc.live == old(alloc.live) + {Block(r.value, 0)}
                && r.value !in old(roles) && roles == old(roles)[r.value := Root(r.value)]
                && (forall w | ValidVpn(w) :: Walk(mem[..], r.value, w) == KernelWalk(w))
                && KernelMapped(r.value, mem[..])
                && (forall w | ValidVpn(w) && VaOf(w, 0) < 0x3f_0000_0000 :: Walk(mem[..], r.value, w) == Fault)
                && SameWalks(old(mem[..]), mem[..], old(roles))
    {
      hide Tiling, Chained, Coalesced, TreeOk, HeldWords;
      var table := alloc.AllocPage();
      if table.Panic? {
        return Panic(table.reason);
      }
      ghost var word := alloc.word[..];
      var q := PageOf(table.value);
      NodesLive(roles, old(alloc.live));
      ghost var was := mem[..];
      var i := 0;
      while i < FANOUT
        invariant 0 <= i <= FANOUT && Sound()
        invariant alloc.word[..] == word
        invariant mem[..] == was[q := mem[q]]
        invariant forall k | 0 <= k < i :: mem[q][k] == Decode(0)
        modifies mem
      {
        mem[q] := mem[q][i := Decode(0)];
        i := i + 1;
      }
      FreshNode(was, roles, q, mem[q]);
      EmptyTable(mem[..], roles, q);
      CutNothing(was, roles, q, MMIO_ENTRY);
      CutNothing(was, roles, q, KERN_ENTRY);
      roles := roles[q := Root(q)];
      NodesLive(roles, alloc.live);
      MapKernelPages(q);
      NewTableMapped(q, mem[..]);
      assert alloc.word[..] == word;
      r := Ok(q);
    }
  }
}
