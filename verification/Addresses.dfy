/** What holds of tasks, said in addresses and bytes: what the translation of an address is, with which
    permissions, and which byte of memory it leads to. */
module Addresses {
  import opened Memlayout
  import opened Sv39
  import opened PageTree
  import opened PageTables
  import opened Vm
  import opened VmState
  import opened TaskRuns
  import opened Loader
  import opened StartImage

  /** Address `a` is mapped for task `t` in user mode, with these permissions, and has byte `b`. */
  ghost predicate Has(m: Machine, t: nat, a: nat, b: u8, r: bool, w: bool, x: bool) {
    && t in m.tasks && Sized(m.mem)
    && var walk := Walk(m.mem, m.tasks[t].root, VpnOf(a));
       && walk.To? && walk.flags.u && walk.flags.r == r && walk.flags.w == w && walk.flags.x == x
       && 0x8_0000 <= walk.ppn < 0x8_0000 + |m.ram|
       && a % 4096 < |m.ram[walk.ppn - 0x8_0000]| && m.ram[walk.ppn - 0x8_0000][a % 4096] == b
  }

  ghost predicate Mapped(m: Machine, t: nat, a: nat) {
    t in m.tasks && Sized(m.mem) && Walk(m.mem, m.tasks[t].root, VpnOf(a)) != Fault
  }

  lemma SeenHas(m: Machine, t: nat, a: nat, flags: Flags)
    requires a < SPLIT && MappedWith(m, t, a / 4096 * 4096, flags) && flags.u && |SeenPage(m, t, a / 4096 * 4096)| == 4096
    ensures Has(m, t, a, SeenPage(m, t, a / 4096 * 4096)[a % 4096], flags.r, flags.w, flags.x)
  {
    hide Walk;
    PageWalk(a);
    hide VpnOf;
  }

  // ---------------------------------------------------------------- a loaded program

  /** The page of address `a` ends behind the beginning of the segment and begins before its end. */
  predicate Meets(ph: Phdr, a: nat) {
    ph.vaddr / 4096 <= a / 4096 && a / 4096 * 4096 < ph.vaddr + ph.memsz
  }

  lemma MeetsRange(ph: Phdr, a: nat)
    ensures Meets(ph, a) <==> SegStart(ph) <= a / 4096 * 4096 < SegEnd(ph)
    ensures Meets(ph, a) <==> SegStart(ph) <= a < SegEnd(ph)
    ensures ph.vaddr <= a < ph.vaddr + ph.memsz ==> Meets(ph, a)
  {
    RoundDown(ph.vaddr);
    RoundDown(ph.vaddr + ph.memsz);
    RoundDown(a);
  }

  lemma RoundDown(x: nat)
    ensures x / 4096 * 4096 == x - x % 4096
  {
  }

  lemma {:induction false} SegmentIn(phdrs: seq<Phdr>, n: nat, i: nat)
    requires i < n <= |phdrs| && phdrs[i].ptype == 1
    ensures phdrs[i] in Segments(phdrs, n)
  {
    if i < n - 1 { SegmentIn(phdrs, n - 1, i); }
  }

  /** Every page that a loadable segment meets is mapped with the permissions of the segment. At the
      addresses of the segment stand the bytes of the file, and behind them zeros up to the end of the last
      page, as before them from the beginning of the first one; a segment without bytes in the file has one
      all the same. */
  lemma SegmentBytes(m: Machine, n: Machine, t: nat, p: Program, i: nat, a: nat)
    requires ImageLoaded(m, n, t, p) && Fits(p) && i < |p.phdrs| && p.phdrs[i].ptype == 1 && Meets(p.phdrs[i], a)
    ensures var ph := p.phdrs[i];
            var at := ph.offset + (a - ph.vaddr);
            && (ph.vaddr <= a < ph.vaddr + ph.filesz ==> at < |p.bytes| && Has(n, t, a, p.bytes[at], ph.r, ph.w, ph.x))
            && (ph.filesz == 0 && a == ph.vaddr ==> at < |p.bytes| && Has(n, t, a, p.bytes[at], ph.r, ph.w, ph.x))
            && (!(ph.vaddr <= a < ph.vaddr + ph.filesz) && !(ph.filesz == 0 && a == ph.vaddr) ==>
                  Has(n, t, a, 0, ph.r, ph.w, ph.x))
  {
    hide AtRest, OthersRest, Extends, MappedWith, SeenPage, SegStart, SegEnd, Has, AreasFor;
    var ph := p.phdrs[i];
    SegmentIn(p.phdrs, |p.phdrs|, i);
    MeetsRange(ph, a);
    RoundDown(a);
    var va := a / 4096 * 4096;
    assert SegmentLoaded(n, t, ph, p.bytes, SegEnd(ph));
    assert MappedWith(n, t, va, PteFlags(ph)) && SeenPage(n, t, va) == LoadedPage(ph, p.bytes, va);
    BelowSplit(p, ph, a);
    SeenHas(n, t, a, PteFlags(ph));
    assert LoadedPage(ph, p.bytes, va)[a % 4096] == LoadedByte(ph, p.bytes, a);
  }

  lemma BelowSplit(p: Program, ph: Phdr, a: nat)
    requires Fits(p) && ph in p.phdrs && ph.ptype == 1 && Meets(ph, a)
    ensures a < USERSTACK - 4096 && a < SPLIT
  {
    hide SegStart, SegEnd;
    MeetsRange(ph, a);
  }

  /** The last PT_GNU_STACK header, if there is one, asks for an executable stack. */
  ghost predicate WantsExecutable(p: Program) {
    exists i :: 0 <= i < |p.phdrs| && p.phdrs[i].ptype == 0x6474_e551 && p.phdrs[i].x
                && forall j | i < j < |p.phdrs| :: p.phdrs[j].ptype != 0x6474_e551
  }

  /** The page of stack can be read and written, and executed exactly when the last PT_GNU_STACK header
      says so. */
  lemma StackPage(m: Machine, n: Machine, t: nat, p: Program, a: nat)
    requires ImageLoaded(m, n, t, p) && |SeenPage(n, t, STACK_VA)| == 4096 && USERSTACK - 4096 <= a < USERSTACK
    ensures Has(n, t, a, SeenPage(n, t, STACK_VA)[a - (USERSTACK - 4096)], true, true, WantsExecutable(p))
  {
    hide AtRest, OthersRest, Extends, MappedWith, SeenPage, SegmentLoaded, Has, AreasFor;
    ExecStackIs(p.phdrs, |p.phdrs|);
    assert a / 4096 * 4096 == STACK_VA && a % 4096 == a - STACK_VA;
    SeenHas(n, t, a, StackPteFlags(ExecStack(p.phdrs, |p.phdrs|)));
  }

  lemma {:induction false} ExecStackIs(phdrs: seq<Phdr>, n: nat)
    requires n <= |phdrs|
    ensures ExecStack(phdrs, n) <==>
            exists i :: 0 <= i < n && phdrs[i].ptype == 0x6474_e551 && phdrs[i].x
                        && forall j | i < j < n :: phdrs[j].ptype != 0x6474_e551
  {
    if n > 0 {
      ExecStackIs(phdrs, n - 1);
      if phdrs[n - 1].ptype != 0x6474_e551 && ExecStack(phdrs, n - 1) {
        var i :| 0 <= i < n - 1 && phdrs[i].ptype == 0x6474_e551 && phdrs[i].x
                 && forall j | i < j < n - 1 :: phdrs[j].ptype != 0x6474_e551;
        assert forall j | i < j < n :: phdrs[j].ptype != 0x6474_e551;
      }
    }
  }

  /** Nothing else below SPLIT is mapped for a program just loaded: only the pages that its loadable segments
      meet, and the page of stack. */
  lemma MappedExactly(m: Machine, n: Machine, t: nat, p: Program, a: nat)
    requires Sane(n) && ImageLoaded(m, n, t, p) && Fits(p) && a < 0x3f_0000_0000
    ensures Mapped(n, t, a) <==>
            || USERSTACK - 4096 <= a < USERSTACK
            || exists i :: 0 <= i < |p.phdrs| && p.phdrs[i].ptype == 1 && Meets(p.phdrs[i], a)
  {
    hide Sane, AtRest, Mapped, OthersRest, Extends, MappedWith, SegmentLoaded, SegStart, SegEnd, Meets, End, InArea, StackFlags, StackPteFlags;
    AreasMapped(n, t, a);
    LastArea(m, n, t, p);
    hide ImageLoaded;
    InLoadedArea(n.tasks[t].areas, p, a);
  }

  lemma InLoadedArea(areas: seq<Area>, p: Program, a: nat)
    requires var segs := Segments(p.phdrs, |p.phdrs|);
            && |areas| == |segs| + 1 && areas[|segs|].va == USERSTACK - 4096 && End(areas[|segs|]) == USERSTACK
            && AreasFor(areas[..|segs|], segs)
    ensures (exists i :: 0 <= i < |areas| && InArea(areas[i], a)) <==>
            || USERSTACK - 4096 <= a < USERSTACK
            || exists i :: 0 <= i < |p.phdrs| && p.phdrs[i].ptype == 1 && Meets(p.phdrs[i], a)
  {
    hide SegStart, SegEnd, Meets, End;
    var segs := Segments(p.phdrs, |p.phdrs|);
    forall i | 0 <= i < |segs|
      ensures InArea(areas[i], a) <==> Meets(segs[i], a)
    {
      assert areas[i] == areas[..|segs|][i];
      MeetsRange(segs[i], a);
    }
    assert InArea(areas[|segs|], a) <==> USERSTACK - 4096 <= a < USERSTACK;
    hide InArea, AreasFor;
    if i :| 0 <= i < |areas| && InArea(areas[i], a) {
      if i < |segs| {
        var h := SegmentIndex(p.phdrs, |p.phdrs|, i);
      }
    }
    if h :| 0 <= h < |p.phdrs| && p.phdrs[h].ptype == 1 && Meets(p.phdrs[h], a) {
      SegmentIn(p.phdrs, |p.phdrs|, h);
      var i :| 0 <= i < |segs| && segs[i] == p.phdrs[h];
      assert InArea(areas[i], a);
    }
  }

  lemma LastArea(m: Machine, n: Machine, t: nat, p: Program)
    requires ImageLoaded(m, n, t, p)
    ensures t in n.tasks
    ensures var areas, segs := n.tasks[t].areas, Segments(p.phdrs, |p.phdrs|);
            && |areas| == |segs| + 1 && areas[|segs|].va == USERSTACK - 4096 && End(areas[|segs|]) == USERSTACK
            && AreasFor(areas[..|segs|], segs)
  {
    hide AtRest, OthersRest, Extends, MappedWith, SegmentLoaded, SegStart, SegEnd;
    TaskOf(n, t);
  }

  /** A task at rest has an address mapped exactly when it lies in an area. */
  lemma AreasMapped(m: Machine, t: nat, a: nat)
    requires Sane(m) && AtRest(m, t) && a < 0x3f_0000_0000
    ensures Mapped(m, t, a) <==> exists i :: 0 <= i < |m.tasks[t].areas| && InArea(m.tasks[t].areas[i], a)
  {
    hide Walk, VaOf, KernelsMapped, TablesOk, Balanced, Agrees;
    PageWalk(a);
    hide VpnOf;
    var va := a / 4096 * 4096;
    WalkInArea(t, m.tasks, m.owner, m.vaOf, m.mem, va);
    AreasAligned(m, t);
    forall i | 0 <= i < |m.tasks[t].areas|
      ensures InArea(m.tasks[t].areas[i], va) <==> InArea(m.tasks[t].areas[i], a)
    {
      SamePageIn(m.tasks[t].areas[i], a);
    }
  }

  lemma AreasAligned(m: Machine, t: nat)
    requires AtRest(m, t)
    ensures forall i | 0 <= i < |m.tasks[t].areas| :: m.tasks[t].areas[i].va % 4096 == 0
  {
    AreasSorted(m, t);
    hide Agrees;
  }

  lemma SamePageIn(area: Area, a: nat)
    requires area.va % 4096 == 0
    ensures InArea(area, a / 4096 * 4096) <==> InArea(area, a)
  {
    assert End(area) % 4096 == 0;
    RoundDown(a);
  }

  /** Which programs load_elf accepts. */
  lemma AcceptableIs(p: Program)
    ensures Acceptable(p) <==> p.machine == 0xf3 && forall i | 0 <= i < |p.phdrs| :: p.phdrs[i].ptype != 2 && p.phdrs[i].ptype != 3
  {
  }

  /** The area of a segment begins on the page on which the segment begins, ends on the page on which the
      segment ends, and is marked with its permissions; that of the stack is marked as a stack. */
  lemma SegmentArea(m: Machine, n: Machine, t: nat, p: Program, i: nat) returns (j: nat)
    requires ImageLoaded(m, n, t, p) && i < |p.phdrs| && p.phdrs[i].ptype == 1
    ensures t in n.tasks && j < |n.tasks[t].areas| - 1
    ensures var ph, area := p.phdrs[i], n.tasks[t].areas[j];
            && area.va % 4096 == 0 && area.va <= ph.vaddr < area.va + 4096
            && ph.vaddr + ph.memsz <= area.va + 4096 * area.nPages < ph.vaddr + ph.memsz + 4096
            && (area.flags & 1 != 0 <==> ph.r) && (area.flags & 2 != 0 <==> ph.w) && (area.flags & 4 != 0 <==> ph.x)
            && area.flags & 1024 == 0
  {
    LastArea(m, n, t, p);
    hide ImageLoaded;
    SegmentIn(p.phdrs, |p.phdrs|, i);
    var segs := Segments(p.phdrs, |p.phdrs|);
    j :| 0 <= j < |segs| && segs[j] == p.phdrs[i];
    assert n.tasks[t].areas[j] == n.tasks[t].areas[..|segs|][j];
    Bounds(p.phdrs[i]);
    FlagBits(p.phdrs[i]);
    hide SegStart, SegEnd, AreaFlags;
  }

  lemma Bounds(ph: Phdr)
    ensures SegStart(ph) % 4096 == 0 && SegStart(ph) <= ph.vaddr < SegStart(ph) + 4096
    ensures ph.vaddr + ph.memsz <= SegEnd(ph) < ph.vaddr + ph.memsz + 4096
  {
  }

  lemma FlagBits(ph: Phdr)
    ensures (AreaFlags(ph) & 1 != 0 <==> ph.r) && (AreaFlags(ph) & 2 != 0 <==> ph.w) && (AreaFlags(ph) & 4 != 0 <==> ph.x)
    ensures AreaFlags(ph) & 1024 == 0
  {
  }

  /** And the stack that load_elf leaves is full of zeros. */
  lemma StackZero(m: Machine, n: Machine, t: nat, p: Program, a: nat)
    requires ProgramLoaded(m, n, t, p) && USERSTACK - 4096 <= a < USERSTACK
    ensures Has(n, t, a, 0, true, true, WantsExecutable(p))
  {
    hide ImageLoaded, SeenPage, Has, WantsExecutable;
    StackPage(m, n, t, p, a);
  }

  /** Through the table of the task: byte `k` of string `i`, its NUL included, stands where the word in slot
      `i` says, and the bytes `d` of that word stand where the registers say. */
  lemma ArgumentBytes(m: Machine, n: Machine, t: nat, p: Program, argv: seq<CString>, envp: seq<CString>, r: Start, i: nat, d: nat, k: nat)
    requires d < 8 && ImageLoaded(m, n, t, p) && StartOk(SeenPage(n, t, STACK_VA), argv, envp, r) && i < |argv| + |envp|
    requires k <= |if i < |argv| then argv[i] else envp[i - |argv|]|
    ensures var str := if i < |argv| then argv[i] else envp[i - |argv|];
            var page := SeenPage(n, t, STACK_VA);
            var at := r.argv + 8 * i;
            && USERSTACK - 4096 <= at <= USERSTACK - 8 && |page| == 4096
            && Has(n, t, at + d, page[at - (USERSTACK - 4096) + d], true, true, WantsExecutable(p))
            && var to := FromLittleEndian(page[at - (USERSTACK - 4096)..at - (USERSTACK - 4096) + 8]);
               Has(n, t, to + k, (str + [0])[k], true, true, WantsExecutable(p))
  {
    hide ImageLoaded, SeenPage, Has, FromLittleEndian, WantsExecutable;
    var page := SeenPage(n, t, STACK_VA);
    StartAddresses(page, argv, envp, r, i);
    var str := if i < |argv| then argv[i] else envp[i - |argv|];
    var base := USERSTACK - 4096;
    var at := r.argv + 8 * i;
    var to := FromLittleEndian(page[at - base..at - base + 8]);
    hide StartOk;
    StackPage(m, n, t, p, at + d);
    StackPage(m, n, t, p, to + k);
    assert page[to - base + k] == page[to - base..to - base + |str| + 1][k];
  }

  // ---------------------------------------------------------------- fork

  lemma HasSeen(m: Machine, t: nat, a: nat, b: u8, r: bool, w: bool, x: bool)
    requires Has(m, t, a, b, r, w, x) && a < SPLIT
    ensures Mapped(m, t, a) && Mapped(m, t, a / 4096 * 4096) && (r ==> CanRead(m, t, a / 4096 * 4096))
    ensures |SeenPage(m, t, a / 4096 * 4096)| > a % 4096 && SeenPage(m, t, a / 4096 * 4096)[a % 4096] == b
  {
    hide Walk;
    PageWalk(a);
    hide VpnOf;
  }

  lemma KeptHas(m: Machine, n: Machine, t: nat, a: nat, b: u8, r: bool, w: bool, x: bool)
    requires Sane(m) && Sane(n) && Extends(m, n) && a < SPLIT && Has(m, t, a, b, r, w, x)
    ensures Has(n, t, a, b, r, w, x)
  {
    hide Sane, Walk, Has, Mapped, SeenPage;
    FloorFrom(0, a);
    HasSeen(m, t, a, b, r, w, x);
    KeptWalk(m, n, t, a);
    hide Extends;
    PageWalk(a);
    SeenKept(m, n, t, a / 4096 * 4096) by { hide VpnOf, SeenPage; }
    SeenByte(m, n, t, a, b, r, w, x);
  }

  lemma KeptWalk(m: Machine, n: Machine, t: nat, a: nat)
    requires Sane(m) && Sane(n) && Extends(m, n) && a < SPLIT && Mapped(m, t, a)
    ensures t in m.tasks && t in n.tasks && n.tasks[t].root == m.tasks[t].root
    ensures Sized(m.mem) && Sized(n.mem) && |n.ram| == |m.ram|
    ensures Walk(n.mem, m.tasks[t].root, VpnOf(a)) == Walk(m.mem, m.tasks[t].root, VpnOf(a)) != Fault
  {
    hide Sane, Walk, OnlyTaken;
    SizedRam(n);
    assert ValidVpn(VpnOf(a));
    hide VpnOf;
  }

  /** After a fork exactly the addresses of the parent are mapped for the child. */
  lemma ForkMaps(m: Machine, n: Machine, p: nat, c: nat, a: nat)
    requires Sane(m) && Sane(n) && AtRest(m, p) && Forked(m, n, p, c) && a < 0x3f_0000_0000
    ensures Mapped(n, c, a) <==> Mapped(m, p, a)
    ensures Mapped(n, p, a) <==> Mapped(m, p, a)
  {
    hide Sane, Walk, AtRest, OthersRest, Extends, CopiesMapped, SeenPage, SeenAt, CanRead, Mapped;
    AreasMapped(m, p, a);
    AreasMapped(n, c, a);
    AreasMapped(n, p, a);
    TaskOf(n, c);
    var areas, copies := m.tasks[p].areas, n.tasks[c].areas;
    assert forall i | 0 <= i < |areas| :: InArea(copies[i], a) <==> InArea(areas[i], a);
  }

  /** What the parent could read at the fork is what the child has there, to be read, written and executed,
      and what the parent still has; and no frame is theirs both. */
  lemma ForkBytes(m: Machine, n: Machine, p: nat, c: nat, a: nat, b: u8, w: bool, x: bool)
    requires Sane(m) && Sane(n) && AtRest(m, p) && Forked(m, n, p, c) && a < 0x3f_0000_0000 && Has(m, p, a, b, true, w, x)
    ensures Has(n, c, a, b, true, true, true) && Has(n, p, a, b, true, w, x)
  {
    hide Sane, Walk, AtRest, OthersRest, Extends, SeenAt, CanRead, Has, MappedWith, SeenPage, Mapped, End;
    var va := a / 4096 * 4096;
    RoundDown(a);
    HasSeen(m, p, a, b, true, w, x);
    AreasMapped(m, p, a);
    var i :| 0 <= i < |m.tasks[p].areas| && InArea(m.tasks[p].areas[i], a);
    AreasAligned(m, p);
    SamePageIn(m.tasks[p].areas[i], a);
    TaskOf(n, c);
    CopyMapped(m, n, p, c, i, va);
    SeenHas(n, c, a, USER_ALL);
    KeptHas(m, n, p, a, b, true, w, x);
  }

  lemma CopyMapped(m: Machine, n: Machine, p: nat, c: nat, i: nat, va: nat)
    requires Forked(m, n, p, c) && i < |m.tasks[p].areas| && InArea(m.tasks[p].areas[i], va) && va % 4096 == 0
    ensures MappedWith(n, c, va, USER_ALL)
  {
    hide AtRest, OthersRest, Extends, SeenAt, CanRead, MappedWith, SeenPage;
    assert SameAreas(m.tasks[p].areas, n.tasks[c].areas);
    assert AllMappedWith(n, c, n.tasks[c].areas[i].va, End(n.tasks[c].areas[i]), USER_ALL);
    assert End(n.tasks[c].areas[i]) == End(m.tasks[p].areas[i]);
  }

  // ---------------------------------------------------------------- a grown stack

  /** A page that was not mapped before the stack grew is full of zeros. */
  lemma NewPageZero(m: Machine, n: Machine, t: nat, i: nat, va: nat, vb: nat)
    requires Sane(m) && Sane(n) && StackGrown(m, n, t, i, va) && vb % 4096 == 0 && vb < SPLIT
    requires Mapped(n, t, vb) && !Mapped(m, t, vb)
    ensures SeenPage(n, t, vb) == ZeroPage()
  {
    hide Walk, VpnOf, VaOf, Ledger, TablesOk, Balanced, KernelsMapped, AllMappedWith, OthersRest, AtRest, WalksKept, OnlyTaken;
    var f := SeenFrame(n, t, vb);
    if f in m.owner {
      FrameBefore(m, n, t, f);
      assert false;
    }
  }

  /** A frame that was held before was mapped before, at the same place. */
  lemma FrameBefore(m: Machine, n: Machine, t: nat, f: nat)
    requires Sane(m) && Extends(m, n) && t in m.tasks && f in m.owner && IsFrameOf(n.owner, f, t) && f in n.vaOf
    ensures Mapped(m, t, n.vaOf[f])
  {
    hide Walk, VpnOf, VaOf, Ledger, TablesOk, Balanced, KernelsMapped, WalksKept, OnlyTaken;
    assert MapOk(t, m.tasks[t].root, m.owner, m.vaOf, m.mem);
    assert FrameMapped(f, m.tasks[t].root, m.vaOf, m.mem);
  }

  /** When a fault at `stval` has made a stack grow, an area marked as a stack lies beyond, and all
      addresses from the page of the fault up to it, which were not mapped, hold zeros now, to be read,
      written and executed. Everything mapped before is as it was. */
  lemma GrownBytes(m: Machine, n: Machine, t: nat, stval: nat) returns (i: nat)
    requires Sane(m) && Sane(n) && AtRest(m, t) && StackExpanded(m, n, t, stval)
    ensures t in m.tasks && i < |m.tasks[t].areas| && 0x3e_e000_0000 <= stval < 0x3e_f000_0000
    ensures m.tasks[t].areas[i].flags & 1024 != 0 && stval < m.tasks[t].areas[i].va
    ensures forall a: nat | stval / 4096 * 4096 <= a < m.tasks[t].areas[i].va :: !Mapped(m, t, a) && Has(n, t, a, 0, true, true, true)
    ensures forall a: nat, b, r, w, x | a < 0x3f_0000_0000 && Has(m, t, a, b, r, w, x) :: Has(n, t, a, b, r, w, x)
  {
    hide Sane, Walk, Has, Mapped, Agrees, OthersRest, Extends, AllMappedWith, ZeroPage, SeenPage;
    var va := stval / 4096 * 4096;
    i :| StackFor(m.tasks[t].areas, stval, i) && StackGrown(m, n, t, i, va);
    AreasSorted(m, t);
    forall a: nat | va <= a < m.tasks[t].areas[i].va
      ensures !Mapped(m, t, a) && Has(n, t, a, 0, true, true, true)
    {
      GrownByte(m, n, t, i, stval, a);
    }
    forall a: nat, b, r, w, x | a < 0x3f_0000_0000 && Has(m, t, a, b, r, w, x)
      ensures Has(n, t, a, b, r, w, x)
    {
      KeptHas(m, n, t, a, b, r, w, x);
    }
  }

  lemma GrownByte(m: Machine, n: Machine, t: nat, i: nat, stval: nat, a: nat)
    requires Sane(m) && Sane(n) && AtRest(m, t) && StackFor(m.tasks[t].areas, stval, i)
    requires StackGrown(m, n, t, i, stval / 4096 * 4096) && stval / 4096 * 4096 <= a < m.tasks[t].areas[i].va
    ensures !Mapped(m, t, a) && Has(n, t, a, 0, true, true, true)
  {
    StackBeyond(m, t, stval, i);
    hide Sane, Walk, Has, Mapped, Agrees, AtRest, OthersRest, Extends, ZeroPage, SeenPage, MappedWith, StackFor, Sorted, StackGrown, VpnOf;
    var lo, va := stval / 4096 * 4096, a / 4096 * 4096;
    RoundDown(stval);
    NowMapped(m, n, t, i, lo, a);
    NotGrownYet(m, t, i, stval, a);
    NotGrownYet(m, t, i, stval, va);
    FloorFrom(0, a);
    NewPageZero(m, n, t, i, lo, va);
    ZeroHas(n, t, a);
  }

  lemma ZeroHas(n: Machine, t: nat, a: nat)
    requires a < SPLIT && MappedWith(n, t, a / 4096 * 4096, USER_ALL) && SeenPage(n, t, a / 4096 * 4096) == ZeroPage()
    ensures Has(n, t, a, 0, true, true, true)
  {
    hide Has, SeenPage, MappedWith, ZeroPage;
    SeenHas(n, t, a, USER_ALL);
  }

  lemma StackBeyond(m: Machine, t: nat, stval: nat, i: nat)
    requires AtRest(m, t) && StackFor(m.tasks[t].areas, stval, i)
    ensures t in m.tasks && i < |m.tasks[t].areas|
  {
  }

  lemma NotGrownYet(m: Machine, t: nat, i: nat, stval: nat, a: nat)
    requires Sane(m) && AtRest(m, t) && StackFor(m.tasks[t].areas, stval, i)
    requires stval / 4096 * 4096 <= a < m.tasks[t].areas[i].va
    ensures !Mapped(m, t, a)
  {
    AreasSorted(m, t);
    RoomBelow(m.tasks[t].areas, stval, i);
    AreaBelowSplit(m, t, i);
    hide Sane, Mapped, Agrees, StackFor, Sorted, End;
    AreasMapped(m, t, a);
  }

  lemma FloorFrom(va: nat, a: nat)
    requires va % 4096 == 0 && va <= a
    ensures va <= a / 4096 * 4096 <= a && a / 4096 * 4096 % 4096 == 0
  {
  }

  lemma NowMapped(m: Machine, n: Machine, t: nat, i: nat, va: nat, a: nat)
    requires AtRest(m, t) && StackGrown(m, n, t, i, va) && va % 4096 == 0 && va <= a < m.tasks[t].areas[i].va
    ensures va <= a / 4096 * 4096 < m.tasks[t].areas[i].va && a < SPLIT
    ensures MappedWith(n, t, a / 4096 * 4096, USER_ALL) && Mapped(n, t, a / 4096 * 4096)
  {
    AreaBelowSplit(m, t, i);
    hide Agrees, OthersRest, Extends, MappedWith, Mapped, End, SameButGrown, AtRest;
    FloorFrom(va, a);
    WithMapped(n, t, a / 4096 * 4096, USER_ALL);
  }

  lemma AreaBelowSplit(m: Machine, t: nat, i: nat)
    requires AtRest(m, t) && i < |m.tasks[t].areas|
    ensures End(m.tasks[t].areas[i]) <= SPLIT && m.tasks[t].areas[i].va <= End(m.tasks[t].areas[i])
  {
    AreasSorted(m, t);
    hide Agrees;
  }

  lemma WithMapped(m: Machine, t: nat, va: nat, flags: Flags)
    requires MappedWith(m, t, va, flags)
    ensures Mapped(m, t, va)
  {
  }

  // ---------------------------------------------------------------- a task gone

  /** When a task has ended, every other task has the bytes it had, with the permissions it had. */
  lemma GoneBytes(m: Machine, n: Machine, t: nat, u: nat, a: nat, b: u8, r: bool, w: bool, x: bool)
    requires Sane(m) && Sane(n) && TaskGone(m, n, t) && u != t && a < 0x3f_0000_0000 && Has(m, u, a, b, r, w, x)
    ensures Has(n, u, a, b, r, w, x)
  {
    hide Sane, Walk;
    FloorFrom(0, a);
    HasSeen(m, u, a, b, r, w, x);
    SizedRam(m);
    GoneSeen(m, n, t, u, a / 4096 * 4096);
    GoneWalk(m, n, t, u, a);
    SeenByte(m, n, u, a, b, r, w, x);
  }

  lemma GoneWalk(m: Machine, n: Machine, t: nat, u: nat, a: nat)
    requires Sane(m) && TaskGone(m, n, t) && u != t && u in m.tasks
    ensures u in n.tasks && n.tasks[u].root == m.tasks[u].root && Sized(n.mem) && Sized(m.mem)
    ensures Walk(n.mem, m.tasks[u].root, VpnOf(a)) == Walk(m.mem, m.tasks[u].root, VpnOf(a))
  {
    hide Walk, VpnOf, Ledger, MapsOk, Balanced, KernelsMapped;
    assert IsRoot(n.roles, m.tasks[u].root);
  }

  lemma SeenByte(m: Machine, n: Machine, u: nat, a: nat, b: u8, r: bool, w: bool, x: bool)
    requires Has(m, u, a, b, r, w, x) && a < SPLIT && u in n.tasks && Sized(n.mem) && |n.ram| == |m.ram| && n.tasks[u].root == m.tasks[u].root
    requires Walk(n.mem, m.tasks[u].root, VpnOf(a)) == Walk(m.mem, m.tasks[u].root, VpnOf(a))
    requires SeenPage(n, u, a / 4096 * 4096) == SeenPage(m, u, a / 4096 * 4096)
    ensures Has(n, u, a, b, r, w, x)
  {
    hide Walk;
    PageWalk(a);
    hide VpnOf;
  }

  // ---------------------------------------------------------------- kernel and user

  /** From SPLIT on every task has the gigabyte of the kernel's memory and that of the devices, and nothing
      else, and none of it in user mode. */
  lemma KernelPages(m: Machine, t: nat, a: nat)
    requires Sane(m) && t in m.tasks && 0x3f_0000_0000 <= a < 0x80_0000_0000
    ensures Sized(m.mem)
    ensures var walk := Walk(m.mem, m.tasks[t].root, VpnOf(a));
            if a < 0x3f_4000_0000 then
              && walk.To? && walk.ppn * 4096 + a % 4096 == a - 0x3f_0000_0000 + 0x8000_0000
              && walk.flags.r && walk.flags.w && walk.flags.x && !walk.flags.u
            else if a < 0x3f_8000_0000 then
              && walk.To? && walk.ppn * 4096 + a % 4096 == a - 0x3f_4000_0000
              && walk.flags.r && walk.flags.w && !walk.flags.x && !walk.flags.u
            else walk == Fault
  {
    hide Walk, Ledger, MapsOk, TablesOk, Balanced;
    assert KernelMapped(m.tasks[t].root, m.mem);
    PageStart(a);
    hide VpnOf, VaOf;
    assert KernelOnly(VpnOf(a), Walk(m.mem, m.tasks[t].root, VpnOf(a)));
    FloorFrom(0x3f_0000_0000, a);
    SameSide(a, 0x3f_4000_0000);
    SameSide(a, 0x3f_8000_0000);
    RoundDown(a);
  }

  lemma PageStart(a: nat)
    requires a < 0x80_0000_0000
    ensures ValidVpn(VpnOf(a)) && VaOf(VpnOf(a), 0) == a / 4096 * 4096
  {
    VaFields(a);
    RoundDown(a);
  }

  lemma SameSide(a: nat, limit: nat)
    requires limit % 4096 == 0
    ensures a / 4096 * 4096 < limit <==> a < limit
  {
    if a >= limit { FloorFrom(limit, a); }
  }

  /** In user mode a task reaches its own frames only, and no other task reaches them. */
  lemma UserReach(m: Machine, t: nat, a: nat)
    requires Sane(m) && t in m.tasks && a < 0x80_0000_0000
    ensures Sized(m.mem)
    ensures var walk := Walk(m.mem, m.tasks[t].root, VpnOf(a));
            walk.To? && walk.flags.u ==>
              && a < 0x3f_0000_0000 && walk.ppn >= 0x8_0000 && IsFrameOf(m.owner, walk.ppn - 0x8_0000, t)
              && forall u, v: nat | u in m.tasks && u != t && v < 0x80_0000_0000
                                    && Walk(m.mem, m.tasks[u].root, VpnOf(v)).To? && Walk(m.mem, m.tasks[u].root, VpnOf(v)).flags.u ::
                   Walk(m.mem, m.tasks[u].root, VpnOf(v)).ppn != walk.ppn
  {
    hide Sane, Walk, VpnOf;
    SizedRam(m);
    var walk := Walk(m.mem, m.tasks[t].root, VpnOf(a));
    if walk.To? && walk.flags.u {
      UserFrame(m, t, a);
      forall u, v: nat | u in m.tasks && u != t && v < 0x80_0000_0000
                         && Walk(m.mem, m.tasks[u].root, VpnOf(v)).To? && Walk(m.mem, m.tasks[u].root, VpnOf(v)).flags.u
        ensures Walk(m.mem, m.tasks[u].root, VpnOf(v)).ppn != walk.ppn
      {
        UserFrame(m, u, v);
      }
    }
  }

  lemma UserFrame(m: Machine, t: nat, a: nat)
    requires Sane(m) && t in m.tasks && a < 0x80_0000_0000 && Sized(m.mem)
    requires Walk(m.mem, m.tasks[t].root, VpnOf(a)).To? && Walk(m.mem, m.tasks[t].root, VpnOf(a)).flags.u
    ensures a < 0x3f_0000_0000 && Walk(m.mem, m.tasks[t].root, VpnOf(a)).ppn >= 0x8_0000
    ensures IsFrameOf(m.owner, Walk(m.mem, m.tasks[t].root, VpnOf(a)).ppn - 0x8_0000, t)
  {
    hide Walk, VaOf, Ledger, TablesOk, Balanced, KernelsMapped;
    if a >= 0x3f_0000_0000 {
      KernelPages(m, t, a);
    } else {
      PageWalk(a);
      PageWalk(a / 4096 * 4096);
      RoundDown(a);
      hide VpnOf;
      assert MapOk(t, m.tasks[t].root, m.owner, m.vaOf, m.mem);
      assert MappedToFrame(t, m.tasks[t].root, m.owner, m.vaOf, m.mem, VpnOf(a));
    }
  }

  /** So it is in every state of every run. */
  lemma RunClosed(ms: seq<Machine>, ops: seq<TaskOp>, k: nat, t: nat, a: nat)
    requires TaskRun(ms, ops) && InOrder(ms[0]) && k < |ms| && t in ms[k].tasks && a < 0x80_0000_0000
    ensures Sized(ms[k].mem)
    ensures var walk := Walk(ms[k].mem, ms[k].tasks[t].root, VpnOf(a));
            walk.To? && walk.flags.u ==>
              a < 0x3f_0000_0000 && walk.ppn >= 0x8_0000 && IsFrameOf(ms[k].owner, walk.ppn - 0x8_0000, t)
  {
    hide Does, InOrder, Sane, Walk, VpnOf;
    if k > 0 { assert TaskStep(ms[k - 1], ops[k - 1], ms[k]); }
    InOrderSane(ms[k]);
    UserReach(ms[k], t, a);
  }
}
