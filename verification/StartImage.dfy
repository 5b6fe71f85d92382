/** task_init_elf of kernel/elf.c: the arguments and the environment on the page of stack that a
    program starts with. */
module StartImage {
  import opened Memlayout

  type CString = s: seq<u8> | forall i | 0 <= i < |s| :: s[i] != 0

  const WORD: nat := 8

  /** The bytes that the strings take, each with its NUL. */
  function Total(strings: seq<CString>): nat {
    if strings == [] then 0 else |strings[0]| + 1 + Total(strings[1..])
  }

  /** The `n` low bytes of a number, lowest first. */
  function LittleEndian(value: nat, n: nat): (bytes: seq<u8>)
    ensures |bytes| == n
  {
    if n == 0 then [] else [value % 256] + LittleEndian(value / 256, n - 1)
  }

  function FromLittleEndian(bytes: seq<u8>): nat {
    if bytes == [] then 0 else bytes[0] + 256 * FromLittleEndian(bytes[1..])
  }

  function Pow256(n: nat): nat {
    if n == 0 then 1 else 256 * Pow256(n - 1)
  }

  lemma {:induction false} WordRoundTrip(value: nat, n: nat)
    requires value < Pow256(n)
    ensures FromLittleEndian(LittleEndian(value, n)) == value
  {
    if n > 0 {
      WordRoundTrip(value / 256, n - 1);
    }
  }

  // ---------------------------------------------------------------- the layout

  /** Slots for all pointers and two NULLs. */
  function TableSize(strings: seq<CString>): nat {
    (|strings| + 2) * WORD
  }

  /** How far below the top of the stack string `i` begins. */
  function StringOff(strings: seq<CString>, i: nat): nat
    requires i <= |strings|
  {
    TableSize(strings) + Total(strings[i..])
  }

  /** The word in slot `i` of the pointer table. */
  function Slot(page: seq<u8>, strings: seq<CString>, i: nat): nat
    requires |page| == PAGE_SIZE && i < |strings| + 2 && TableSize(strings) <= PAGE_SIZE
  {
    var at := PAGE_SIZE - TableSize(strings) + i * WORD;
    FromLittleEndian(page[at..at + WORD])
  }

  /** String `i` lies where slot `i` points, which is in the stack page and below the table. */
  ghost predicate Placed(page: seq<u8>, strings: seq<CString>, i: nat)
    requires |page| == PAGE_SIZE && i < |strings|
  {
    && StringOff(strings, i) <= PAGE_SIZE
    && StringOff(strings, i) == StringOff(strings, i + 1) + |strings[i]| + 1
    && StringOff(strings, i + 1) >= TableSize(strings)
    && Slot(page, strings, i) == USERSTACK - StringOff(strings, i)
    && page[PAGE_SIZE - StringOff(strings, i)..PAGE_SIZE - StringOff(strings, i + 1)] == strings[i] + [0]
  }

  lemma {:induction false} TotalStep(strings: seq<CString>, i: nat)
    requires i < |strings|
    ensures StringOff(strings, i) == StringOff(strings, i + 1) + |strings[i]| + 1
    ensures StringOff(strings, i + 1) >= TableSize(strings)
  {
    assert strings[i..][1..] == strings[i + 1..];
  }

  lemma {:induction false} TotalSuffix(strings: seq<CString>, i: nat)
    requires i <= |strings|
    ensures Total(strings[i..]) <= Total(strings)
    decreases i
  {
    if i == 0 {
      assert strings[0..] == strings;
    } else {
      TotalSuffix(strings, i - 1);
      TotalStep(strings, i - 1);
    }
  }

  lemma TotalOne(str: CString)
    ensures Total([str]) == |str| + 1 && Total([]) == 0
  {
  }

  lemma {:induction false} TotalAppend(a: seq<CString>, b: seq<CString>)
    ensures Total(a + b) == Total(a) + Total(b)
  {
    if a == [] {
      assert a + b == b;
    } else {
      assert (a + b)[1..] == a[1..] + b;
      TotalAppend(a[1..], b);
    }
  }

  // ---------------------------------------------------------------- writing it

  /** A page with `bytes` written over it from `at` on. */
  function Patch(page: seq<u8>, at: nat, bytes: seq<u8>): (r: seq<u8>)
    requires at + |bytes| <= |page|
    ensures |r| == |page|
  {
    page[..at] + bytes + page[at + |bytes|..]
  }

  lemma PatchRead(page: seq<u8>, at: nat, bytes: seq<u8>, lo: nat, hi: nat)
    requires at + |bytes| <= |page| && lo <= hi <= |page|
    ensures hi <= at || lo >= at + |bytes| ==> Patch(page, at, bytes)[lo..hi] == page[lo..hi]
    ensures lo == at && hi == at + |bytes| ==> Patch(page, at, bytes)[lo..hi] == bytes
  {
    var r := Patch(page, at, bytes);
    assert forall i | 0 <= i < at :: r[i] == page[i];
    assert forall i | at <= i < at + |bytes| :: r[i] == bytes[i - at];
    assert forall i | at + |bytes| <= i < |r| :: r[i] == page[i];
  }

  /** A page that differs from another by these bytes only. */
  lemma IsPatch(page: seq<u8>, was: seq<u8>, at: nat, bytes: seq<u8>)
    requires at + |bytes| <= |was| == |page|
    requires forall k | 0 <= k < |page| && !(at <= k < at + |bytes|) :: page[k] == was[k]
    requires forall k | 0 <= k < |bytes| :: page[at + k] == bytes[k]
    ensures page == Patch(was, at, bytes)
  {
    var r := Patch(was, at, bytes);
    forall k | 0 <= k < |page|
      ensures page[k] == r[k]
    {
      if at <= k < at + |bytes| { assert page[at + (k - at)] == bytes[k - at]; }
    }
  }

  /** `*(u64 *)(page + at) = value`. */
  method Store(page: array<u8>, at: nat, value: nat)
    requires at + WORD <= page.Length
    modifies page
    ensures page[..] == Patch(old(page[..]), at, LittleEndian(value, WORD))
  {
    ghost var was, bytes := page[..], LittleEndian(value, WORD);
    hide Patch;
    var i := 0;
    var rest := value;
    while i < WORD
      invariant 0 <= i <= WORD && bytes[i..] == LittleEndian(rest, WORD - i)
      invariant forall k | 0 <= k < page.Length && !(at <= k < at + i) :: page[k] == was[k]
      invariant forall k | 0 <= k < i :: page[at + k] == bytes[k]
    {
      NextByte(rest, WORD - i);
      assert bytes[i] == bytes[i..][0] && bytes[i + 1..] == bytes[i..][1..];
      hide LittleEndian;
      page[at + i] := rest % 256;
      rest := rest / 256;
      i := i + 1;
    }
    IsPatch(page[..], was, at, bytes);
  }

  lemma NextByte(value: nat, n: nat)
    requires n > 0
    ensures LittleEndian(value, n)[0] == value % 256 && LittleEndian(value, n)[1..] == LittleEndian(value / 256, n - 1)
  {
  }

  /** strlcpy to `page + at`, of at most `n` bytes. */
  method Strlcpy(page: array<u8>, at: nat, src: CString, n: nat) returns (size: nat)
    requires n > 0 && at + n <= page.Length
    modifies page
    ensures |src| < n ==> size == |src| && page[..] == Patch(old(page[..]), at, src + [0])
    ensures |src| >= n ==> size == n && page[..] == Patch(old(page[..]), at, src[..n - 1] + [0])
  {
    hide Patch;
    ghost var was := page[..];
    var i := 0;
    while i < n
      invariant 0 <= i <= n && i <= |src|
      invariant forall k | 0 <= k < page.Length && !(at <= k < at + i) :: page[k] == was[k]
      invariant forall k | 0 <= k < i :: page[at + k] == src[k]
    {
      var c := if i < |src| then src[i] else 0;
      page[at + i] := c;
      if c == 0 {
        IsPatch(page[..], was, at, src + [0]);
        return i;
      }
      i := i + 1;
    }
    page[at + n - 1] := 0;
    IsPatch(page[..], was, at, src[..n - 1] + [0]);
    size := n;
  }

  /** The page after string `i` and the pointer to it have been written. */
  function WithString(page: seq<u8>, strings: seq<CString>, i: nat): seq<u8>
    requires |page| == PAGE_SIZE && i < |strings| && TableSize(strings) + Total(strings) <= PAGE_SIZE
    requires StringOff(strings, i) <= PAGE_SIZE && StringOff(strings, i) >= |strings[i]| + 1
  {
    Patch(Patch(page, PAGE_SIZE - TableSize(strings) + i * WORD, LittleEndian(USERSTACK - StringOff(strings, i), WORD)),
          PAGE_SIZE - StringOff(strings, i), strings[i] + [0])
  }

  lemma WithStringPlaced(page: seq<u8>, strings: seq<CString>, i: nat)
    requires |page| == PAGE_SIZE && i < |strings| && TableSize(strings) + Total(strings) <= PAGE_SIZE
    requires StringOff(strings, i) <= PAGE_SIZE && StringOff(strings, i) >= |strings[i]| + 1
    ensures Placed(WithString(page, strings, i), strings, i)
  {
    hide LittleEndian, FromLittleEndian, Pow256, Total, Patch;
    TotalStep(strings, i);
    var at, value := PAGE_SIZE - TableSize(strings) + i * WORD, USERSTACK - StringOff(strings, i);
    var first := Patch(page, at, LittleEndian(value, WORD));
    PatchRead(page, at, LittleEndian(value, WORD), at, at + WORD);
    PatchRead(first, PAGE_SIZE - StringOff(strings, i), strings[i] + [0], at, at + WORD);
    PatchRead(first, PAGE_SIZE - StringOff(strings, i), strings[i] + [0], PAGE_SIZE - StringOff(strings, i), PAGE_SIZE - StringOff(strings, i + 1));
    UserstackFits();
    WordRoundTrip(value, WORD);
  }

  lemma UserstackFits()
    ensures USERSTACK < Pow256(WORD)
  {
    assert Pow256(4) == 0x1_0000_0000;
    assert Pow256(8) == 256 * 256 * 256 * 256 * Pow256(4);
  }

  lemma WithStringKeeps(page: seq<u8>, strings: seq<CString>, i: nat, j: nat)
    requires |page| == PAGE_SIZE && j < i < |strings| && TableSize(strings) + Total(strings) <= PAGE_SIZE
    requires StringOff(strings, i) <= PAGE_SIZE && StringOff(strings, i) >= |strings[i]| + 1
    requires Placed(page, strings, j)
    ensures Placed(WithString(page, strings, i), strings, j)
  {
    hide LittleEndian, FromLittleEndian, Pow256, Total, Patch;
    TotalStep(strings, i);
    OffsDescend(strings, j + 1, i);
    var at, value := PAGE_SIZE - TableSize(strings) + i * WORD, USERSTACK - StringOff(strings, i);
    var first := Patch(page, at, LittleEndian(value, WORD));
    var slot := PAGE_SIZE - TableSize(strings) + j * WORD;
    var lo, hi := PAGE_SIZE - StringOff(strings, j), PAGE_SIZE - StringOff(strings, j + 1);
    PatchRead(page, at, LittleEndian(value, WORD), slot, slot + WORD);
    PatchRead(first, PAGE_SIZE - StringOff(strings, i), strings[i] + [0], slot, slot + WORD);
    PatchRead(page, at, LittleEndian(value, WORD), lo, hi);
    PatchRead(first, PAGE_SIZE - StringOff(strings, i), strings[i] + [0], lo, hi);
  }

  lemma {:induction false} OffsDescend(strings: seq<CString>, i: nat, j: nat)
    requires i <= j <= |strings|
    ensures StringOff(strings, j) <= StringOff(strings, i)
    decreases j - i
  {
    if i < j {
      TotalStep(strings, i);
      OffsDescend(strings, i + 1, j);
    }
  }

  /** The two slots after the last pointer are not written. */
  lemma WithStringTail(page: seq<u8>, strings: seq<CString>, i: nat)
    requires |page| == PAGE_SIZE && i < |strings| && TableSize(strings) + Total(strings) <= PAGE_SIZE
    requires StringOff(strings, i) <= PAGE_SIZE && StringOff(strings, i) >= |strings[i]| + 1
    ensures WithString(page, strings, i)[PAGE_SIZE - 2 * WORD..PAGE_SIZE] == page[PAGE_SIZE - 2 * WORD..PAGE_SIZE]
  {
    hide LittleEndian, FromLittleEndian, Pow256, Total, Patch;
    TotalStep(strings, i);
    var at, value := PAGE_SIZE - TableSize(strings) + i * WORD, USERSTACK - StringOff(strings, i);
    var first := Patch(page, at, LittleEndian(value, WORD));
    PatchRead(page, at, LittleEndian(value, WORD), PAGE_SIZE - 2 * WORD, PAGE_SIZE);
    PatchRead(first, PAGE_SIZE - StringOff(strings, i), strings[i] + [0], PAGE_SIZE - 2 * WORD, PAGE_SIZE);
  }

  /** The pointer to a string goes into its slot, the string to where `off` says. */
  method PutString(page: array<u8>, slotAt: nat, off: nat, ghost strings: seq<CString>, str: CString, ghost i: nat) returns (next: nat)
    requires page.Length == PAGE_SIZE && i < |strings| && strings[i] == str && TableSize(strings) + Total(strings) <= PAGE_SIZE
    requires off == StringOff(strings, i) && slotAt == PAGE_SIZE - TableSize(strings) + i * WORD
    modifies page
    ensures |str| + 1 <= StringOff(strings, i) <= PAGE_SIZE
    ensures page[..] == WithString(old(page[..]), strings, i) && next == StringOff(strings, i + 1)
  {
    hide LittleEndian, FromLittleEndian, Pow256, Total, Patch;
    TotalStep(strings, i);
    TotalSuffix(strings, i);
    Store(page, slotAt, USERSTACK - off);
    var size := Strlcpy(page, PAGE_SIZE - off, str, off);
    next := off - (size + 1);
  }

  datatype Start = Start(argc: nat, argv: nat, envp: nat, sp: nat) | TooBig

  /** How many strings there are, and the bytes they take: the loops with strlen. */
  method StringSizes(strings: seq<CString>) returns (count: nat, size: nat)
    ensures count == |strings| && size == Total(strings)
  {
    count, size := 0, 0;
    while count < |strings|
      invariant 0 <= count <= |strings| && size + Total(strings[count..]) == Total(strings)
    {
      assert strings[count..][1..] == strings[count + 1..];
      size := size + |strings[count]| + 1;
      count := count + 1;
    }
  }

  /** The argument part of task_init_elf, on the stack page that load_elf has cleared. */
  method InitArguments(page: array<u8>, argv: seq<CString>, envp: seq<CString>) returns (r: Start)
    requires page.Length == PAGE_SIZE && forall i | 0 <= i < PAGE_SIZE :: page[i] == 0
    modifies page
    ensures r == TooBig <==> 8 * (|argv| + |envp| + 2) + Total(argv) + Total(envp) > 4096
    ensures r.Start? ==> StartOk(page[..], argv, envp, r)
  {
    hide LittleEndian, FromLittleEndian, Pow256, Total, Patch, WithString, Placed;
    var argc, argSize := StringSizes(argv);
    var envc, envSize := StringSizes(envp);
    argSize := argSize + envSize + (argc + envc + 2) * WORD;
    ghost var strings := argv + envp;
    TotalAppend(argv, envp);
    NoStringsLeft(strings);
    if argSize > PAGE_SIZE {
      return TooBig;
    }
    var off := argSize;
    var argvOff := (argc + envc + 2) * WORD;
    var envpOff := (envc + 2) * WORD;
    var i := 0;
    while i < argc
      invariant 0 <= i <= argc && off == StringOff(strings, i) && ArgumentsUpTo(page[..], strings, i)
    {
      ghost var before := page[..];
      off := PutString(page, PAGE_SIZE - argvOff + i * WORD, off, strings, argv[i], i);
      OneMoreString(before, page[..], strings, i);
      i := i + 1;
    }
    i := 0;
    while i < envc
      invariant 0 <= i <= envc && off == StringOff(strings, argc + i) && ArgumentsUpTo(page[..], strings, argc + i)
    {
      ghost var before := page[..];
      off := PutString(page, PAGE_SIZE - envpOff + i * WORD, off, strings, envp[i], argc + i);
      OneMoreString(before, page[..], strings, argc + i);
      i := i + 1;
    }
    assert off == argvOff; // kassert: "stack size mismatch"
    TailSlots(page[..], strings);
    var alignedOff := (argSize + 15) / 16 * 16;
    r := Start(argc, USERSTACK - argvOff, USERSTACK - envpOff, USERSTACK - alignedOff);
  }

  lemma NoStringsLeft(strings: seq<CString>)
    ensures StringOff(strings, |strings|) == TableSize(strings)
    ensures StringOff(strings, 0) == TableSize(strings) + Total(strings)
  {
    assert strings[0..] == strings;
  }

  ghost predicate ArgumentsUpTo(page: seq<u8>, strings: seq<CString>, n: nat) {
    && |page| == PAGE_SIZE && n <= |strings| && (forall j | 0 <= j < n :: Placed(page, strings, j))
    && forall k | PAGE_SIZE - 2 * WORD <= k < PAGE_SIZE :: page[k] == 0
  }

  lemma OneMoreString(before: seq<u8>, after: seq<u8>, strings: seq<CString>, i: nat)
    requires i < |strings| && TableSize(strings) + Total(strings) <= PAGE_SIZE && ArgumentsUpTo(before, strings, i)
    requires StringOff(strings, i) <= PAGE_SIZE && StringOff(strings, i) >= |strings[i]| + 1
    requires after == WithString(before, strings, i)
    ensures ArgumentsUpTo(after, strings, i + 1)
  {
    WithStringPlaced(before, strings, i);
    WithStringTail(before, strings, i);
    forall j | 0 <= j < i
      ensures Placed(after, strings, j)
    {
      WithStringKeeps(before, strings, i, j);
    }
    forall k | PAGE_SIZE - 2 * WORD <= k < PAGE_SIZE
      ensures after[k] == 0
    {
      assert after[PAGE_SIZE - 2 * WORD..PAGE_SIZE][k - (PAGE_SIZE - 2 * WORD)] == before[PAGE_SIZE - 2 * WORD..PAGE_SIZE][k - (PAGE_SIZE - 2 * WORD)];
    }
  }

  lemma {:induction false} ZeroWord(bytes: seq<u8>)
    requires forall k | 0 <= k < |bytes| :: bytes[k] == 0
    ensures FromLittleEndian(bytes) == 0
  {
    if bytes != [] { ZeroWord(bytes[1..]); }
  }

  lemma TailSlots(page: seq<u8>, strings: seq<CString>)
    requires ArgumentsUpTo(page, strings, |strings|) && TableSize(strings) <= PAGE_SIZE
    ensures Slot(page, strings, |strings|) == 0 && Slot(page, strings, |strings| + 1) == 0
  {
    ZeroWord(page[PAGE_SIZE - 2 * WORD..PAGE_SIZE - WORD]);
    ZeroWord(page[PAGE_SIZE - WORD..PAGE_SIZE]);
  }

  /** What a program finds: its strings, untruncated, where the pointers say; the tables where the
      registers say, the one of the environment beginning where the arguments' ends; two NULLs at the
      end; and the stack pointer at the highest aligned address below all of it. */
  ghost predicate StartOk(page: seq<u8>, argv: seq<CString>, envp: seq<CString>, r: Start) {
    var strings := argv + envp;
    && r.Start? && |page| == PAGE_SIZE && TableSize(strings) <= PAGE_SIZE && r.argc == |argv|
    && (forall i | 0 <= i < |strings| :: Placed(page, strings, i))
    && Slot(page, strings, |strings|) == 0 && Slot(page, strings, |strings| + 1) == 0
    && r.argv == USERSTACK - TableSize(strings) && r.envp == r.argv + |argv| * WORD
    && r.sp % 16 == 0 && USERSTACK - PAGE_SIZE <= r.sp <= USERSTACK - StringOff(strings, 0) < r.sp + 16
  }

  /** The argument table ends in a NULL only when there is no environment: the slot after the last
      argument is the first of the environment's. */
  lemma ArgvTerminated(page: seq<u8>, argv: seq<CString>, envp: seq<CString>, r: Start)
    requires StartOk(page, argv, envp, r)
    ensures Slot(page, argv + envp, |argv|) == 0 <==> envp == []
  {
    if envp != [] {
      assert Placed(page, argv + envp, |argv|);
    }
  }

  /** Strings do not overlap. */
  lemma StringsApart(page: seq<u8>, argv: seq<CString>, envp: seq<CString>, r: Start, i: nat, j: nat)
    requires StartOk(page, argv, envp, r) && i < j < |argv + envp|
    ensures var strings := argv + envp;
            Slot(page, strings, i) + |strings[i]| + 1 <= Slot(page, strings, j)
  {
    var strings := argv + envp;
    assert Placed(page, strings, i) && Placed(page, strings, j);
    OffsDescend(strings, i + 1, j);
  }

  /** The bytes further up in a word weigh more. */
  lemma {:induction false} WordJoin(low: seq<u8>, high: seq<u8>)
    ensures FromLittleEndian(low + high) == FromLittleEndian(low) + Pow256(|low|) * FromLittleEndian(high)
  {
    if low == [] {
      assert low + high == high;
    } else {
      WordJoin(low[1..], high);
      assert (low + high)[1..] == low[1..] + high;
      assert (low + high)[0] == low[0] && Pow256(|low|) == 256 * Pow256(|low| - 1);
      Weigh(low[0], FromLittleEndian(low[1..]), Pow256(|low| - 1), FromLittleEndian(high));
    }
  }

  lemma Weigh(d: nat, l: nat, p: nat, h: nat)
    ensures d + 256 * (l + p * h) == d + 256 * l + (256 * p) * h
  {
  }

  /** In addresses: `argc` pointers from the address in a1 on and as many as there is environment from the
      address in a2 on, eight bytes each, lead to the strings in their order; behind the last one stand two
      NULLs; the words up to the top of the page are nothing but those. */
  lemma StartAddresses(page: seq<u8>, argv: seq<CString>, envp: seq<CString>, r: Start, i: nat)
    requires StartOk(page, argv, envp, r) && i < |argv| + |envp| + 2
    ensures r.argc == |argv| && r.argv == USERSTACK - 8 * (|argv| + |envp| + 2) && r.envp == r.argv + 8 * |argv|
    ensures var at := r.argv + 8 * i - (USERSTACK - 4096);
            && 0 <= at && at + 8 <= |page| == 4096
            && (i >= |argv| + |envp| ==> FromLittleEndian(page[at..at + 8]) == 0)
            && (i < |argv| + |envp| ==>
                  var str := if i < |argv| then argv[i] else envp[i - |argv|];
                  var to := FromLittleEndian(page[at..at + 8]) - (USERSTACK - 4096);
                  && 0 <= to && to + |str| + 1 <= 4096 && page[to..to + |str| + 1] == str + [0]
                  && r.sp <= USERSTACK - 4096 + to && to + |str| + 1 <= r.argv - (USERSTACK - 4096))
  {
    var strings := argv + envp;
    if i < |strings| {
      assert Placed(page, strings, i);
      OffsDescend(strings, 0, i);
    }
  }

  /** SP leaves out fewer than 16 bytes: it is the size of all strings and both tables, rounded up. */
  lemma StackPointer(page: seq<u8>, argv: seq<CString>, envp: seq<CString>, r: Start)
    requires StartOk(page, argv, envp, r)
    ensures var size := Total(argv) + Total(envp) + 8 * (|argv| + |envp| + 2);
            r.sp == USERSTACK - (size + 15) / 16 * 16
  {
    hide StartOk, StringOff, Total;
    TotalAppend(argv, envp);
    NoStringsLeft(argv + envp);
    SpRounded(page, argv, envp, r, Total(argv) + Total(envp) + 8 * (|argv| + |envp| + 2));
  }

  lemma SpRounded(page: seq<u8>, argv: seq<CString>, envp: seq<CString>, r: Start, size: nat)
    requires StartOk(page, argv, envp, r) && size == StringOff(argv + envp, 0)
    ensures r.Start? && r.sp == USERSTACK - (size + 15) / 16 * 16
  {
    hide Placed, Slot, StringOff, TableSize;
    AlignDown(USERSTACK, size, r.sp);
  }

  lemma AlignDown(top: nat, size: nat, sp: nat)
    requires top % 16 == 0 && sp % 16 == 0 && sp <= top - size < sp + 16
    ensures sp == top - (size + 15) / 16 * 16
  {
    var j := top / 16 - sp / 16;
    assert top - sp == 16 * j;
    assert 16 * j - 15 <= size <= 16 * j;
    assert (size + 15) / 16 == j;
  }
}
