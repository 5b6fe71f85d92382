/** load_elf of kernel/elf.c: the segments of a program become areas of a task, its pages filled from
    the file, and a page of stack is added. */
module Loader {
  import opened Memlayout
  import opened Sv39
  import opened Vm
  import opened VmState
  import opened TaskRuns
  import opened VmOps

  const PT_LOAD: nat := 1
  const PT_DYNAMIC: nat := 2
  const PT_INTERP: nat := 3
  const PT_GNU_STACK: nat := 0x6474_e551
  const EM_RISCV: nat := 0xf3

  /** A program header. */
  datatype Phdr = Phdr(ptype: nat, r: bool, w: bool, x: bool, offset: nat, vaddr: nat, filesz: nat, memsz: nat)

  /** A program: what load_elf reads of the header, the program headers, and the file. */
  datatype Program = Program(machine: nat, phdrs: seq<Phdr>, bytes: seq<u8>)

  function SegStart(ph: Phdr): nat {
    ph.vaddr - ph.vaddr % PAGE_SIZE
  }

  function SegEnd(ph: Phdr): nat {
    var end := ph.vaddr + ph.memsz;
    if end % PAGE_SIZE == 0 then end else end - end % PAGE_SIZE + PAGE_SIZE
  }

  /** What belongs at address `a`: the bytes of the file where there are some, else zero. */
  function ImageByte(ph: Phdr, bytes: seq<u8>, a: nat): u8
    requires ph.offset + ph.filesz <= |bytes|
  {
    if ph.vaddr <= a < ph.vaddr + ph.filesz then bytes[ph.offset + (a - ph.vaddr)] else 0
  }

  /** How many bytes the copying loop takes from the file: one when there are none. */
  function Taken(ph: Phdr): nat {
    if ph.filesz == 0 then 1 else ph.filesz
  }

  predicate InFile(ph: Phdr, bytes: seq<u8>) {
    ph.offset + Taken(ph) <= |bytes|
  }

  /** What the copying loop puts at address `a`. */
  function LoadedByte(ph: Phdr, bytes: seq<u8>, a: nat): u8
    requires InFile(ph, bytes)
  {
    if ph.vaddr <= a < ph.vaddr + Taken(ph) then bytes[ph.offset + (a - ph.vaddr)] else 0
  }

  /** The two agree all over the segment's pages exactly when the file has bytes for the segment, or
      the byte taken by mistake is zero, or there is no page to put it on. */
  lemma StrayByte(ph: Phdr, bytes: seq<u8>)
    requires InFile(ph, bytes)
    ensures (forall a: nat | SegStart(ph) <= a < SegEnd(ph) :: LoadedByte(ph, bytes, a) == ImageByte(ph, bytes, a)) <==>
            ph.filesz > 0 || bytes[ph.offset] == 0 || SegStart(ph) == SegEnd(ph)
  {
    if ph.filesz == 0 && SegStart(ph) != SegEnd(ph) {
      assert SegStart(ph) <= ph.vaddr < SegEnd(ph);
      assert LoadedByte(ph, bytes, ph.vaddr) == bytes[ph.offset] && ImageByte(ph, bytes, ph.vaddr) == 0;
    }
  }

  // ---------------------------------------------------------------- the copying loop

  /** `off` and `from` when the loop has come to address `a`; -1 stands for NULL. */
  function OffAt(ph: Phdr, a: nat): nat {
    if a < ph.vaddr then ph.vaddr - a else 0
  }

  function FromAt(ph: Phdr, a: nat): int {
    if a <= ph.vaddr then ph.offset
    else if a - ph.vaddr < Taken(ph) then ph.offset + (a - ph.vaddr)
    else -1
  }

  /** Fill one page from address `va` on, in the way of the loop over `k`. */
  method FillPage(k: Kernel, page: nat, ph: Phdr, bytes: seq<u8>, va: nat, off0: nat, from0: int)
    returns (off: nat, from: int)
    requires k.ram.Length == PAGES && page < PAGES && |k.ram[page]| == PAGE_SIZE && InFile(ph, bytes)
    requires off0 == OffAt(ph, va) && from0 == FromAt(ph, va)
    modifies k.ram
    ensures k.ram[..] == old(k.ram[..])[page := LoadedPage(ph, bytes, va)]
    ensures off == OffAt(ph, va + PAGE_SIZE) && from == FromAt(ph, va + PAGE_SIZE)
  {
    off, from := off0, from0;
    var to := ph.offset + ph.filesz;
    var i := 0;
    ghost var was := k.ram[..];
    while i < PAGE_SIZE
      invariant 0 <= i <= PAGE_SIZE && |k.ram[page]| == PAGE_SIZE && k.ram[..] == was[page := k.ram[page]]
      invariant off == OffAt(ph, va + i) && from == FromAt(ph, va + i)
      invariant forall j | 0 <= j < i :: k.ram[page][j] == LoadedByte(ph, bytes, va + j)
    {
      if off > 0 {
        k.ram[page] := k.ram[page][i := 0];
        off := off - 1;
      } else {
        if from >= 0 {
          k.ram[page] := k.ram[page][i := bytes[from]];
          from := from + 1;
          if from >= to { from := -1; }
        } else {
          k.ram[page] := k.ram[page][i := 0];
        }
      }
      i := i + 1;
    }
    assert k.ram[page] == LoadedPage(ph, bytes, va);
  }

  function LoadedPage(ph: Phdr, bytes: seq<u8>, va: nat): (page: seq<u8>)
    requires InFile(ph, bytes)
    ensures |page| == PAGE_SIZE
  {
    seq<u8>(PAGE_SIZE, i requires 0 <= i < PAGE_SIZE => LoadedByte(ph, bytes, va + i))
  }

  // ---------------------------------------------------------------- segments

  function PteFlags(ph: Phdr): Flags {
    Flags(true, ph.r, ph.w, ph.x, true, false, false, false)
  }

  function AreaFlags(ph: Phdr): bv32 {
    (if ph.r then VM_READ else 0) | (if ph.w then VM_WRITE else 0) | (if ph.x then VM_EXEC else 0)
  }

  /** A segment that can be read, or only executed, lies below the stack page, and whose bytes are in the file. */
  predicate Loadable(ph: Phdr, bytes: seq<u8>) {
    Grants(PteFlags(ph)) && InFile(ph, bytes) && SegEnd(ph) <= USERSTACK - PAGE_SIZE
  }

  lemma SegmentBounds(ph: Phdr)
    ensures SegStart(ph) % PAGE_SIZE == 0 && SegEnd(ph) % PAGE_SIZE == 0 && SegStart(ph) <= SegEnd(ph)
    ensures SegStart(ph) + (SegEnd(ph) - SegStart(ph)) / PAGE_SIZE * PAGE_SIZE == SegEnd(ph)
  {
  }

  /** Task `t` sees the bytes of segment `ph` at its addresses below `hi`. */
  ghost predicate SegmentLoaded(m: Machine, t: nat, ph: Phdr, bytes: seq<u8>, hi: nat)
    requires InFile(ph, bytes)
  {
    && t in m.tasks && Sized(m.mem)
    && forall va: nat | SegStart(ph) <= va < hi && va % PAGE_SIZE == 0 ::
         va < SPLIT && MappedWith(m, t, va, PteFlags(ph)) && SeenPage(m, t, va) == LoadedPage(ph, bytes, va)
  }

  lemma StillLoaded(m: Machine, m': Machine, t: nat, ph: Phdr, bytes: seq<u8>, hi: nat)
    requires Sane(m) && Sane(m') && Extends(m, m') && t in m'.tasks && InFile(ph, bytes)
    requires SegmentLoaded(m, t, ph, bytes, hi) && m'.tasks[t].root == m.tasks[t].root
    ensures SegmentLoaded(m', t, ph, bytes, hi)
  {
    hide Walk, VpnOf, LoadedPage, Sane, Extends, PteFlags;
    SizedTables(m');
    forall va: nat | SegStart(ph) <= va < hi && va % PAGE_SIZE == 0
      ensures MappedWith(m', t, va, PteFlags(ph)) && SeenPage(m', t, va) == LoadedPage(ph, bytes, va)
    {
      WithKept(m, m', t, va, PteFlags(ph));
      SeenKept(m, m', t, va);
    }
  }

  lemma SizedTables(m: Machine)
    requires Sane(m)
    ensures Sized(m.mem)
  {
  }

  /** The list has got one more area, that of segment `ph`. */
  predicate OneMore(areas: seq<Area>, areas': seq<Area>, ph: Phdr) {
    && |areas'| == |areas| + 1 && areas'[..|areas|] == areas
    && areas'[|areas|].va == SegStart(ph) && End(areas'[|areas|]) == SegEnd(ph) && areas'[|areas|].flags == AreaFlags(ph)
  }

  /** Task `t` has got an area for `ph` as its last one, filled and loaded up to `hi`. */
  ghost predicate Loading(m: Machine, n: Machine, t: nat, ph: Phdr, bytes: seq<u8>, hi: nat)
    requires InFile(ph, bytes)
  {
    && t in m.tasks && t in n.tasks && n.tasks[t].root == m.tasks[t].root
    && OneMore(m.tasks[t].areas, n.tasks[t].areas, ph) && Filling(n, t, |m.tasks[t].areas|, hi)
    && OthersRest(m, n, t) && Extends(m, n) && SegmentLoaded(n, t, ph, bytes, hi)
  }

  lemma LoadStart(m: Machine, n: Machine, t: nat, ph: Phdr, bytes: seq<u8>, area: Area)
    requires Sane(m) && AtRest(m, t) && AreaAdded(m, n, t, area) && Loadable(ph, bytes)
    requires area.va == SegStart(ph) && End(area) == SegEnd(ph) && area.flags == AreaFlags(ph)
    requires forall j | 0 <= j < |m.tasks[t].areas| :: End(m.tasks[t].areas[j]) <= SegStart(ph)
    ensures Loading(m, n, t, ph, bytes, SegStart(ph))
  {
    hide Walk, FilledUpTo, Sane;
    SegmentBounds(ph);
    AreaFilling(m, n, t, area);
    AreaOthers(m, n, t, area);
  }

  lemma LoadRoom(m: Machine, n: Machine, t: nat, ph: Phdr, bytes: seq<u8>, hi: nat)
    requires Sane(n) && Loadable(ph, bytes) && Loading(m, n, t, ph, bytes, hi) && hi < SegEnd(ph)
    ensures hi % PAGE_SIZE == 0 && hi < SPLIT && SegStart(ph) <= hi && |m.tasks[t].areas| < |n.tasks[t].areas|
    ensures Walk(n.mem, n.tasks[t].root, VpnOf(hi)) == Fault
  {
    hide Walk, VpnOf, VaOf, LoadedPage, Sane;
    FillRoom(n, t, |m.tasks[t].areas|, hi);
  }

  lemma LoadStep(m: Machine, n: Machine, n': Machine, t: nat, ph: Phdr, bytes: seq<u8>, hi: nat, held: Held)
    requires Sane(n) && Sane(n') && Loadable(ph, bytes) && Loading(m, n, t, ph, bytes, hi) && hi < SegEnd(ph)
    requires PageAdded(n, n', t, |m.tasks[t].areas|, held, hi, PteFlags(ph)) && hi % PAGE_SIZE == 0 && hi < SPLIT
    requires n'.ram[held.frame] == LoadedPage(ph, bytes, hi)
    ensures Loading(m, n', t, ph, bytes, hi + PAGE_SIZE)
  {
    hide Walk, VpnOf, VaOf, Sane, LoadedPage, SeenPage, FilledUpTo, SegStart, SegEnd, AreaFlags, MappedWith, WalksKept, PteFlags;
    AddFilling(n, n', t, |m.tasks[t].areas|, held, hi, PteFlags(ph));
    RestExtends(m, n, n', t);
    StillLoaded(n, n', t, ph, bytes, hi);
    AddedSeen(n, n', t, |m.tasks[t].areas|, held, hi, PteFlags(ph));
    AddKept(n, n', t, |m.tasks[t].areas|, held, hi, PteFlags(ph));
    LoadedNext(n', t, ph, bytes, hi);
  }

  lemma LoadedNext(m: Machine, t: nat, ph: Phdr, bytes: seq<u8>, hi: nat)
    requires InFile(ph, bytes) && SegmentLoaded(m, t, ph, bytes, hi) && hi % PAGE_SIZE == 0 && hi < SPLIT
    requires MappedWith(m, t, hi, PteFlags(ph)) && SeenPage(m, t, hi) == LoadedPage(ph, bytes, hi)
    ensures SegmentLoaded(m, t, ph, bytes, hi + PAGE_SIZE)
  {
    hide Walk, VpnOf, LoadedPage, SeenPage, MappedWith;
    assert forall va: nat | hi <= va < hi + PAGE_SIZE && va % PAGE_SIZE == 0 :: va == hi;
  }

  lemma LoadDone(m: Machine, n: Machine, t: nat, ph: Phdr, bytes: seq<u8>)
    requires InFile(ph, bytes) && Loading(m, n, t, ph, bytes, SegEnd(ph))
    ensures AtRest(n, t)
  {
    hide Walk, VpnOf, LoadedPage, SegmentLoaded;
    FilledRests(n, t, |m.tasks[t].areas|);
  }

  /** One page of a segment. */
  method LoadPage(k: Kernel, t: nat, ph: Phdr, bytes: seq<u8>, va: nat, off0: nat, from0: int, ghost m: Machine)
    returns (r: Outcome<(nat, int)>)
    requires k.Valid() && Loadable(ph, bytes) && Loading(m, k.State(), t, ph, bytes, va) && va < SegEnd(ph)
    requires off0 == OffAt(ph, va) && from0 == FromAt(ph, va)
    modifies k.Repr()
    ensures r.Panic? ==> r.reason == OutOfMemory && k.mmu.alloc.Exhausted()
    ensures r.Ok? ==> k.Valid() && Loading(m, k.State(), t, ph, bytes, va + PAGE_SIZE)
    ensures r.Ok? ==> r.value == (OffAt(ph, va + PAGE_SIZE), FromAt(ph, va + PAGE_SIZE))
  {
    hide Sane, Loading, PageAdded, Walk, VpnOf, LoadedPage, SegStart, SegEnd, OffAt, FromAt;
    LoadRoom(m, k.State(), t, ph, bytes, va);
    ghost var before := k.State();
    LoadTask(m, before, t, ph, bytes, va);
    var i := |k.tasks[t].areas| - 1;
    var held := k.AddPage(t, i, va, PteFlags(ph));
    if held.Panic? { return Panic(held.reason); }
    ghost var added := k.State();
    AddedFrame(before, added, t, i, held.value, va, PteFlags(ph));
    PageSized(added, held.value.frame);
    var off, from := FillPage(k, held.value.frame, ph, bytes, va, off0, from0);
    RamSane(added, k.State(), held.value.frame);
    AddedRam(before, added, k.State(), t, i, held.value, va, PteFlags(ph));
    LoadStep(m, before, k.State(), t, ph, bytes, va, held.value);
    r := Ok((off, from));
  }

  lemma LoadTask(m: Machine, n: Machine, t: nat, ph: Phdr, bytes: seq<u8>, hi: nat)
    requires InFile(ph, bytes) && Loading(m, n, t, ph, bytes, hi)
    ensures t in n.tasks && t in m.tasks && |n.tasks[t].areas| == |m.tasks[t].areas| + 1
  {
  }

  lemma AddedFrame(m: Machine, m': Machine, t: nat, i: nat, held: Held, va: nat, flags: Flags)
    requires PageAdded(m, m', t, i, held, va, flags)
    ensures held.frame < PAGES
  {
  }

  lemma AddedRam(m: Machine, n: Machine, n': Machine, t: nat, i: nat, held: Held, va: nat, flags: Flags)
    requires PageAdded(m, n, t, i, held, va, flags) && |n'.ram| == PAGES
    requires n' == n.(ram := n.ram[held.frame := n'.ram[held.frame]])
    ensures PageAdded(m, n', t, i, held, va, flags)
  {
    hide MappedAt, Pushed, PushedOwners;
  }

  /** One PT_LOAD segment. */
  method LoadSegment(k: Kernel, t: nat, ph: Phdr, bytes: seq<u8>) returns (r: Outcome<()>)
    requires k.Valid() && AtRest(k.State(), t) && Loadable(ph, bytes)
    requires forall j | 0 <= j < |k.tasks[t].areas| :: End(k.tasks[t].areas[j]) <= SegStart(ph)
    modifies k.Repr()
    ensures r.Panic? ==> r.reason == OutOfMemory && k.mmu.alloc.Exhausted()
    ensures r.Ok? ==> k.Valid() && AtRest(k.State(), t) && Loading(old(k.State()), k.State(), t, ph, bytes, SegEnd(ph))
  {
    hide Sane, Loading, Agrees, Walk, VpnOf, LoadedPage;
    ghost var m := k.State();
    SegmentBounds(ph);
    var addr, endAddr := SegStart(ph), SegEnd(ph);
    var area := k.AddArea(t, addr, (endAddr - addr) / PAGE_SIZE, AreaFlags(ph));
    if area.Panic? { return Panic(area.reason); }
    LoadStart(m, k.State(), t, ph, bytes, area.value);
    var off, from: int := ph.vaddr % PAGE_SIZE, ph.offset;
    while addr < endAddr
      invariant SegStart(ph) <= addr <= endAddr && (endAddr - addr) % PAGE_SIZE == 0
      invariant k.Valid() && Loading(m, k.State(), t, ph, bytes, addr)
      invariant off == OffAt(ph, addr) && from == FromAt(ph, addr)
    {
      var next := LoadPage(k, t, ph, bytes, addr, off, from, m);
      if next.Panic? { return Panic(next.reason); }
      off, from := next.value.0, next.value.1;
      addr := addr + PAGE_SIZE;
    }
    LoadDone(m, k.State(), t, ph, bytes);
    r := Ok(());
  }

  // ---------------------------------------------------------------- programs

  /** The segments of a program: the headers of type PT_LOAD among the first `n`. */
  function Segments(phdrs: seq<Phdr>, n: nat): (segs: seq<Phdr>)
    requires n <= |phdrs|
    ensures forall ph | ph in segs :: ph in phdrs && ph.ptype == PT_LOAD
  {
    if n == 0 then []
    else if phdrs[n - 1].ptype == PT_LOAD then Segments(phdrs, n - 1) + [phdrs[n - 1]]
    else Segments(phdrs, n - 1)
  }

  /** A program whose segments can be loaded and come in ascending order, none on another's page. */
  ghost predicate Fits(p: Program) {
    && (forall ph | ph in p.phdrs && ph.ptype == PT_LOAD :: Loadable(ph, p.bytes))
    && (forall i, j | 0 <= i < j < |p.phdrs| && p.phdrs[i].ptype == PT_LOAD && p.phdrs[j].ptype == PT_LOAD ::
          SegEnd(p.phdrs[i]) <= SegStart(p.phdrs[j]))
  }

  /** The areas are those of the segments. */
  ghost predicate AreasFor(areas: seq<Area>, segs: seq<Phdr>) {
    |areas| == |segs| && forall i | 0 <= i < |segs| ::
      areas[i].va == SegStart(segs[i]) && End(areas[i]) == SegEnd(segs[i]) && areas[i].flags == AreaFlags(segs[i])
  }

  /** Task `t`, which had no areas in `m`, has got those of `segs`, with their contents, and is at rest. */
  ghost predicate Loaded(m: Machine, n: Machine, t: nat, segs: seq<Phdr>, bytes: seq<u8>) {
    && t in m.tasks && AtRest(n, t) && n.tasks[t].root == m.tasks[t].root && AreasFor(n.tasks[t].areas, segs)
    && OthersRest(m, n, t) && Extends(m, n)
    && forall ph | ph in segs :: InFile(ph, bytes) && SegmentLoaded(n, t, ph, bytes, SegEnd(ph))
  }

  lemma LoadedMore(m: Machine, n: Machine, n': Machine, t: nat, segs: seq<Phdr>, bytes: seq<u8>, ph: Phdr)
    requires Sane(n) && Sane(n') && Loaded(m, n, t, segs, bytes) && InFile(ph, bytes)
    requires Loading(n, n', t, ph, bytes, SegEnd(ph)) && AtRest(n', t)
    ensures Loaded(m, n', t, segs + [ph], bytes)
  {
    hide Walk, Sane, Agrees, LoadedPage, SegmentLoaded, SegStart, SegEnd, AreaFlags, Filling;
    RestExtends(m, n, n', t);
    forall s | s in segs
      ensures SegmentLoaded(n', t, s, bytes, SegEnd(s))
    {
      StillLoaded(n, n', t, s, bytes, SegEnd(s));
    }
    var areas := n.tasks[t].areas;
    assert forall i | 0 <= i < |segs| :: n'.tasks[t].areas[i] == areas[i];
  }

  /** load_elf up to the stack: 0, or -EINVAL when the program is for another machine or asks for a
      dynamic linker. */
  method LoadSegments(k: Kernel, t: nat, p: Program) returns (r: Outcome<int>, execstack: bool)
    requires k.Valid() && AtRest(k.State(), t) && k.State().tasks[t].areas == [] && Fits(p)
    modifies k.Repr()
    ensures r.Panic? ==> r.reason == OutOfMemory && k.mmu.alloc.Exhausted()
    ensures r.Ok? ==> k.Valid() && Changed(old(k.State()), k.State(), t)
    ensures r.Ok? ==> r.value == if Acceptable(p) then 0 else -EINVAL
    ensures r == Ok(0) ==> Loaded(old(k.State()), k.State(), t, Segments(p.phdrs, |p.phdrs|), p.bytes)
    ensures r == Ok(0) ==> execstack == ExecStack(p.phdrs, |p.phdrs|)
  {
    hide Sane, Loading, Agrees, Walk, VpnOf, Loaded, Changed, AtRest, Fits;
    execstack := false;
    ghost var m := k.State();
    NothingLoaded(m, t, p);
    LoadedRests(m, m, t, p, 0);
    if p.machine != EM_RISCV {
      return Ok(-EINVAL), false;
    }
    var i := 0;
    while i < |p.phdrs|
      invariant 0 <= i <= |p.phdrs| && k.Valid()
      invariant Loaded(m, k.State(), t, Segments(p.phdrs, i), p.bytes)
      invariant forall j | 0 <= j < i :: p.phdrs[j].ptype != PT_DYNAMIC && p.phdrs[j].ptype != PT_INTERP
      invariant execstack == ExecStack(p.phdrs, i)
    {
      var ph := p.phdrs[i];
      if ph.ptype == PT_LOAD {
        ghost var n := k.State();
        SegmentsBefore(m, n, t, p, i);
        var status := LoadSegment(k, t, ph, p.bytes);
        if status.Panic? { return Panic(status.reason), false; }
        LoadedMore(m, n, k.State(), t, Segments(p.phdrs, i), p.bytes, ph);
      } else if ph.ptype == PT_DYNAMIC || ph.ptype == PT_INTERP {
        LoadedRests(m, k.State(), t, p, i);
        return Ok(-EINVAL), false;
      } else if ph.ptype == PT_GNU_STACK {
        execstack := ph.x;
      }
      i := i + 1;
    }
    LoadedRests(m, k.State(), t, p, i);
    r := Ok(0);
  }

  lemma NothingLoaded(m: Machine, t: nat, p: Program)
    requires Sane(m) && AtRest(m, t) && m.tasks[t].areas == []
    ensures Loaded(m, m, t, Segments(p.phdrs, 0), p.bytes)
  {
    hide Agrees;
  }

  lemma LoadedRests(m: Machine, n: Machine, t: nat, p: Program, i: nat)
    requires i <= |p.phdrs| && Loaded(m, n, t, Segments(p.phdrs, i), p.bytes)
    ensures AtRest(n, t) && Changed(m, n, t)
  {
    hide AtRest, OthersRest, Extends, SegmentLoaded, SegStart, SegEnd;
    NoStackSegments(Segments(p.phdrs, i));
  }

  /** The areas of segments are not marked as stacks. */
  lemma NoStackSegments(segs: seq<Phdr>)
    ensures forall ph | ph in segs :: AreaFlags(ph) & VM_STACK == 0
  {
  }

  predicate Acceptable(p: Program) {
    p.machine == EM_RISCV && forall ph | ph in p.phdrs :: ph.ptype != PT_DYNAMIC && ph.ptype != PT_INTERP
  }

  /** The last PT_GNU_STACK header among the first `n` decides; without one the stack is not executable. */
  function ExecStack(phdrs: seq<Phdr>, n: nat): bool
    requires n <= |phdrs|
  {
    if n == 0 then false
    else if phdrs[n - 1].ptype == PT_GNU_STACK then phdrs[n - 1].x
    else ExecStack(phdrs, n - 1)
  }

  lemma SegmentsBefore(m: Machine, n: Machine, t: nat, p: Program, i: nat)
    requires Fits(p) && i < |p.phdrs| && p.phdrs[i].ptype == PT_LOAD && Loaded(m, n, t, Segments(p.phdrs, i), p.bytes)
    ensures Loadable(p.phdrs[i], p.bytes) && AtRest(n, t)
    ensures forall j | 0 <= j < |n.tasks[t].areas| :: End(n.tasks[t].areas[j]) <= SegStart(p.phdrs[i])
  {
    hide SegStart, SegEnd, Agrees, SegmentLoaded;
    var areas := n.tasks[t].areas;
    forall j | 0 <= j < |areas|
      ensures End(areas[j]) <= SegStart(p.phdrs[i])
    {
      var h := SegmentIndex(p.phdrs, i, j);
    }
  }

  lemma {:induction false} SegmentIndex(phdrs: seq<Phdr>, n: nat, j: nat) returns (h: nat)
    requires n <= |phdrs| && j < |Segments(phdrs, n)|
    ensures h < n && phdrs[h] == Segments(phdrs, n)[j] && phdrs[h].ptype == PT_LOAD
  {
    if phdrs[n - 1].ptype == PT_LOAD && j == |Segments(phdrs, n)| - 1 {
      h := n - 1;
    } else {
      h := SegmentIndex(phdrs, n - 1, j);
    }
  }

  // ---------------------------------------------------------------- the stack page

  const STACK_VA: nat := USERSTACK - PAGE_SIZE

  function StackFlags(execstack: bool): bv32 {
    VM_READ | VM_WRITE | VM_STACK | (if execstack then VM_EXEC else 0)
  }

  function StackPteFlags(execstack: bool): Flags {
    Flags(true, true, true, execstack, true, false, false, false)
  }

  /** Task `t` has been loaded: the areas of its segments with their contents, and a stack of one page. */
  ghost predicate ImageLoaded(m: Machine, n: Machine, t: nat, p: Program) {
    && t in m.tasks && AtRest(n, t) && OthersRest(m, n, t) && Extends(m, n) && n.tasks[t].root == m.tasks[t].root
    && var areas, segs := n.tasks[t].areas, Segments(p.phdrs, |p.phdrs|);
       && |areas| == |segs| + 1 && AreasFor(areas[..|segs|], segs)
       && areas[|segs|].va == STACK_VA && areas[|segs|].nPages == 1 && IsStack(areas[|segs|])
       && areas[|segs|].flags == StackFlags(ExecStack(p.phdrs, |p.phdrs|))
       && MappedWith(n, t, STACK_VA, StackPteFlags(ExecStack(p.phdrs, |p.phdrs|)))
       && forall ph | ph in segs :: InFile(ph, p.bytes) && SegmentLoaded(n, t, ph, p.bytes, SegEnd(ph))
  }

  /** And the stack is full of zeros. */
  ghost predicate ProgramLoaded(m: Machine, n: Machine, t: nat, p: Program) {
    ImageLoaded(m, n, t, p) && SeenPage(n, t, STACK_VA) == ZeroPage()
  }

  lemma StackIsStack(execstack: bool)
    ensures StackFlags(execstack) & VM_STACK != 0
  {
  }

  lemma ProgramChanged(m: Machine, n: Machine, t: nat, p: Program)
    requires ImageLoaded(m, n, t, p)
    ensures Changed(m, n, t)
  {
    hide AtRest, OthersRest, Extends, SegmentLoaded, SegStart, SegEnd, MappedWith, StackFlags;
    var segs := Segments(p.phdrs, |p.phdrs|);
    TaskOf(n, t);
    NoStackSegments(segs);
    assert forall j | 0 <= j < |segs| :: n.tasks[t].areas[j].flags == AreaFlags(segs[j]) && segs[j] in segs by {
      assert forall j | 0 <= j < |segs| :: n.tasks[t].areas[j] == n.tasks[t].areas[..|segs|][j];
    }
    hide AreaFlags;
  }

  /** The stack part of load_elf: an area of one page, zeroed and mapped. */
  method LoadStack(k: Kernel, t: nat, p: Program, execstack: bool, ghost m: Machine) returns (r: Outcome<()>)
    requires k.Valid() && Loaded(m, k.State(), t, Segments(p.phdrs, |p.phdrs|), p.bytes) && Fits(p)
    requires execstack == ExecStack(p.phdrs, |p.phdrs|)
    modifies k.Repr()
    ensures r.Panic? ==> r.reason == OutOfMemory && k.mmu.alloc.Exhausted()
    ensures r.Ok? ==> k.Valid() && ProgramLoaded(m, k.State(), t, p)
  {
    hide Sane, Agrees, Walk, VpnOf, Loaded, StackFlags, AreaAdded, PageAdded, Fits, ProgramLoaded;
    ghost var loaded := k.State();
    BelowStack(m, loaded, t, p);
    var area := k.AddArea(t, STACK_VA, 1, StackFlags(execstack));
    if area.Panic? { return Panic(area.reason); }
    ghost var listed := k.State();
    StackRoomFree(loaded, listed, t, area.value);
    var i := |k.tasks[t].areas| - 1;
    var flags := StackPteFlags(execstack);
    var held := k.AddPage(t, i, STACK_VA, flags);
    if held.Panic? { return Panic(held.reason); }
    ghost var added := k.State();
    AddedFrame(listed, added, t, i, held.value, STACK_VA, flags);
    PageSized(added, held.value.frame);
    k.ClearPage(held.value.frame);
    RamSane(added, k.State(), held.value.frame);
    AddedRam(listed, added, k.State(), t, i, held.value, STACK_VA, flags);
    StackIsStack(execstack);
    StackLoaded(m, loaded, listed, k.State(), t, p, area.value, held.value, flags);
    r := Ok(());
  }

  /** load_elf. */
  method LoadElf(k: Kernel, t: nat, p: Program) returns (r: Outcome<int>)
    requires k.Valid() && AtRest(k.State(), t) && k.State().tasks[t].areas == [] && Fits(p)
    modifies k.Repr()
    ensures r.Panic? ==> r.reason == OutOfMemory && k.mmu.alloc.Exhausted()
    ensures r.Ok? ==> k.Valid() && TaskStep(old(k.State()), Load(t), k.State()) && r.value == if Acceptable(p) then 0 else -EINVAL
    ensures r == Ok(0) ==> ProgramLoaded(old(k.State()), k.State(), t, p)
  {
    hide Sane, AtRest, Loaded, Fits, ImageLoaded, Changed, InOrder, TaskStep;
    ghost var m := k.State();
    var status, execstack := LoadSegments(k, t, p);
    if status.Panic? { return status; }
    if status.value == 0 {
      var stack := LoadStack(k, t, p, execstack, m);
      if stack.Panic? { return Panic(stack.reason); }
      ProgramChanged(m, k.State(), t, p);
    }
    k.Ordered();
    LoadStepped(m, k.State(), t);
    r := status;
  }

  lemma BelowStack(m: Machine, n: Machine, t: nat, p: Program)
    requires Fits(p) && Loaded(m, n, t, Segments(p.phdrs, |p.phdrs|), p.bytes)
    ensures AtRest(n, t)
    ensures forall j | 0 <= j < |n.tasks[t].areas| :: End(n.tasks[t].areas[j]) <= STACK_VA
    ensures forall j | 0 <= j < |n.tasks[t].areas| :: n.tasks[t].areas[j].va <= STACK_VA
  {
    hide SegStart, SegmentLoaded, Agrees;
    var segs := Segments(p.phdrs, |p.phdrs|);
    forall j | 0 <= j < |n.tasks[t].areas|
      ensures End(n.tasks[t].areas[j]) <= STACK_VA
    {
      assert segs[j] in p.phdrs;
    }
    assert forall j | 0 <= j < |n.tasks[t].areas| :: n.tasks[t].areas[j].va <= End(n.tasks[t].areas[j]);
  }

  lemma StackRoomFree(m: Machine, n: Machine, t: nat, area: Area)
    requires Sane(m) && Sane(n) && AtRest(m, t) && AreaAdded(m, n, t, area) && area.va == STACK_VA && area.nPages == 1
    requires forall j | 0 <= j < |m.tasks[t].areas| :: End(m.tasks[t].areas[j]) <= STACK_VA
    ensures Filling(n, t, |m.tasks[t].areas|, STACK_VA) && STACK_VA % PAGE_SIZE == 0
    ensures Walk(n.mem, n.tasks[t].root, VpnOf(STACK_VA)) == Fault
  {
    hide Walk, VpnOf, VaOf, Sane, FilledUpTo;
    AreaFilling(m, n, t, area);
    FillRoom(n, t, |m.tasks[t].areas|, STACK_VA);
  }

  /** Adding the area and the page of the stack disturbs nothing. */
  lemma StackKept(loaded: Machine, listed: Machine, n: Machine, t: nat, area: Area, held: Held, flags: Flags)
    requires Sane(loaded) && Sane(listed) && AreaAdded(loaded, listed, t, area) && area.va == STACK_VA && area.nPages == 1
    requires Filling(listed, t, |loaded.tasks[t].areas|, STACK_VA)
    requires PageAdded(listed, n, t, |loaded.tasks[t].areas|, held, STACK_VA, flags)
    ensures Extends(loaded, listed) && Extends(listed, n) && OthersRest(loaded, n, t) && Extends(loaded, n)
    ensures AtRest(n, t) && MappedWith(n, t, STACK_VA, flags) && SeenPage(n, t, STACK_VA) == n.ram[held.frame]
  {
    hide Walk, VpnOf, VaOf, Sane, FilledUpTo, SeenPage, MappedAt, MappedWith, WalksKept, OthersRest, Extends, NodesKept, OnlyTaken, PushedOwners;
    var i := |loaded.tasks[t].areas|;
    AreaOthers(loaded, listed, t, area);
    AddFilling(listed, n, t, i, held, STACK_VA, flags);
    FilledRests(n, t, i);
    RestExtends(loaded, listed, n, t);
    AddedSeen(listed, n, t, i, held, STACK_VA, flags);
    AddKept(listed, n, t, i, held, STACK_VA, flags);
  }

  lemma StackAreas(loaded: Machine, listed: Machine, n: Machine, t: nat, area: Area, held: Held, flags: Flags)
    requires AreaAdded(loaded, listed, t, area)
    requires PageAdded(listed, n, t, |loaded.tasks[t].areas|, held, STACK_VA, flags)
    ensures t in loaded.tasks && t in n.tasks && n.tasks[t].root == loaded.tasks[t].root
    ensures n.tasks[t].areas == loaded.tasks[t].areas + [area.(pages := [held])]
  {
    hide MappedAt, NodesKept, OnlyTaken, PushedOwners, Walk;
    assert area.pages + [held] == [held];
  }

  lemma StackSegments(loaded: Machine, listed: Machine, n: Machine, t: nat, segs: seq<Phdr>, bytes: seq<u8>)
    requires Sane(loaded) && Sane(listed) && Sane(n) && Extends(loaded, listed) && Extends(listed, n)
    requires t in loaded.tasks && t in listed.tasks && t in n.tasks
    requires listed.tasks[t].root == loaded.tasks[t].root && n.tasks[t].root == loaded.tasks[t].root
    requires forall ph | ph in segs :: InFile(ph, bytes) && SegmentLoaded(loaded, t, ph, bytes, SegEnd(ph))
    ensures forall ph | ph in segs :: SegmentLoaded(n, t, ph, bytes, SegEnd(ph))
  {
    hide Sane, SegmentLoaded, SegEnd, Extends;
    forall ph | ph in segs
      ensures SegmentLoaded(n, t, ph, bytes, SegEnd(ph))
    {
      StillLoaded(loaded, listed, t, ph, bytes, SegEnd(ph));
      StillLoaded(listed, n, t, ph, bytes, SegEnd(ph));
    }
  }

  lemma StackLoaded(m: Machine, loaded: Machine, listed: Machine, n: Machine, t: nat, p: Program, area: Area, held: Held, flags: Flags)
    requires Sane(loaded) && Sane(listed) && Sane(n) && Loaded(m, loaded, t, Segments(p.phdrs, |p.phdrs|), p.bytes)
    requires AreaAdded(loaded, listed, t, area) && area.va == STACK_VA && area.nPages == 1 && IsStack(area)
    requires var x := ExecStack(p.phdrs, |p.phdrs|); area.flags == StackFlags(x) && flags == StackPteFlags(x)
    requires Filling(listed, t, |loaded.tasks[t].areas|, STACK_VA)
    requires PageAdded(listed, n, t, |loaded.tasks[t].areas|, held, STACK_VA, flags) && n.ram[held.frame] == ZeroPage()
    ensures ProgramLoaded(m, n, t, p)
  {
    hide Sane, AtRest, OthersRest, Extends, SegmentLoaded, SegStart, SegEnd, AreaFlags, SeenPage, MappedWith, StackFlags, ExecStack, PageAdded, Filling;
    var segs := Segments(p.phdrs, |p.phdrs|);
    StackKept(loaded, listed, n, t, area, held, flags);
    StackAreas(loaded, listed, n, t, area, held, flags);
    StackSegments(loaded, listed, n, t, segs, p.bytes);
    RestExtends(m, loaded, n, t);
  }
}
