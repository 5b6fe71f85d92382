/** The buddy allocator as kernel/mm.c runs it: ten list heads, and links kept in the first word of
    the free pages themselves. Every operation is proved to do to the lists what module Buddy says. */
module BuddyAllocator {
  import opened Bits
  import opened Buddy
  import opened Memlayout

  const NULL: nat := 0
  const WORD_BITS: nat := 64
  /** sizeof(u32): kmalloc keeps the order in front of the buffer. */
  const HEADER: nat := 4
  const U32: nat := 0x1_0000_0000

  /** The address of block `i` of order `k`. */
  function Addr(i: nat, k: nat): nat {
    KERN_PHYBASE + PAGE_SIZE * Page(i, k)
  }

  /** The link that leads to element `n` of a list. */
  function Link(list: seq<nat>, k: nat, n: nat): nat {
    if n < |list| then Addr(list[n], k) else NULL
  }

  // ---------------------------------------------------------------- address arithmetic

  lemma {:induction false} PageSum(i: nat, j: nat, k: nat)
    ensures Page(i + j, k) == Page(i, k) + Page(j, k)
    decreases k
  {
    if k > 0 { PageSum(2 * i, 2 * j, k - 1); }
  }

  lemma {:induction false} BitAnc(a: nat, n: nat)
    ensures Bit(a, n) <==> Anc(a, n) % 2 == 1
  {
    if n > 0 {
      BitAnc(a / 2, n - 1);
      AncHalf(a, n - 1);
    }
  }

  /** The base lies on a boundary of twice the largest block size. */
  lemma {:induction false} BaseIndex(k: nat) returns (b: nat)
    requires k < MAX_ORDER
    ensures b % 2 == 0 && KERN_PHYBASE == PAGE_SIZE * Page(b, k)
    ensures b == [0x3f0_0000, 0x1f8_0000, 0xfc_0000, 0x7e_0000, 0x3f_0000, 0x1f_8000, 0xf_c000, 0x7_e000, 0x3_f000, 0x1_f800][k]
  {
    b := KERN_PHYBASE / PAGE_SIZE;
    if k > 0 {
      b := BaseIndex(k - 1);
      b := b / 2;
    }
  }

  lemma Shifted(p: nat, n: nat)
    ensures Anc(p * Pow2(n), n) == p
  {
    PageProduct(p, n);
    FirstPage(p, n);
  }

  /** So the bit that tells siblings apart is the lowest bit of the index. */
  lemma SiblingBit(i: nat, k: nat, pageBits: nat)
    requires k < MAX_ORDER && Pow2(pageBits) == PAGE_SIZE
    ensures Pow2(pageBits + k) == PAGE_SIZE * Pow2(k)
    ensures Bit(Addr(i, k), pageBits + k) <==> i % 2 == 1
  {
    hide Page, Pow2, Anc, Bit;
    Pow2Sum(pageBits, k);
    var b := BaseIndex(k);
    PageSum(b, i, k);
    var p := Page(b + i, k);
    Shifted(p, pageBits);
    FirstPage(b + i, k);
    AncAnc(p * PAGE_SIZE, pageBits, k);
    assert Addr(i, k) == p * PAGE_SIZE && (b + i) % 2 == i % 2;
    BitAnc(Addr(i, k), pageBits + k);
  }

  lemma {:induction false} Pow2Sum(a: nat, b: nat)
    ensures Pow2(a + b) == Pow2(a) * Pow2(b)
  {
    if a > 0 {
      Pow2Sum(a - 1, b);
      assert Pow2(a) * Pow2(b) == 2 * (Pow2(a - 1) * Pow2(b));
    }
  }

  lemma PageBits() returns (n: nat)
    ensures Pow2(n) == PAGE_SIZE && n < 20
  {
    n := 12;
    assert Pow2(12) == PAGE_SIZE;
  }

  /** `address ^ size` is the address of the sibling. */
  lemma BuddyAddress(i: nat, k: nat)
    requires k < MAX_ORDER
    ensures Xor(Addr(i, k), PAGE_SIZE * Pow2(k)) == Addr(Sibling(i), k)
  {
    var n := PageBits();
    SiblingBit(i, k, n);
    XorPow2(Addr(i, k), n + k);
    HalfAddress(i, k);
    HalfAddress(Sibling(i), k);
    hide Addr, Pow2, Xor, Bit;
  }

  lemma HalfAddress(i: nat, k: nat)
    ensures Addr(i, k) == Addr(i / 2, k + 1) + if i % 2 == 1 then PAGE_SIZE * Pow2(k) else 0
  {
    PageStep(2 * (i / 2), k);
  }

  /** `address & ~size` is the address of the block both are halves of. */
  lemma ParentAddress(i: nat, k: nat, width: nat)
    requires k + 1 < MAX_ORDER && width >= 32 && Addr(i, k) < Pow2(width)
    ensures PAGE_SIZE * Pow2(k) < Pow2(width)
    ensures And(Addr(i, k), Not(width, PAGE_SIZE * Pow2(k))) == Addr(i / 2, k + 1)
  {
    MaskedAddress(i, k, width);
    HalfAddress(i, k);
  }

  lemma MaskedAddress(i: nat, k: nat, width: nat)
    requires k + 1 < MAX_ORDER && width >= 32 && Addr(i, k) < Pow2(width)
    ensures PAGE_SIZE * Pow2(k) < Pow2(width)
    ensures i % 2 == 1 ==> Addr(i, k) >= PAGE_SIZE * Pow2(k)
    ensures And(Addr(i, k), Not(width, PAGE_SIZE * Pow2(k))) == if i % 2 == 1 then Addr(i, k) - PAGE_SIZE * Pow2(k) else Addr(i, k)
  {
    var n := PageBits();
    SiblingBit(i, k, n);
    ClearBit(width, Addr(i, k), n + k, PAGE_SIZE * Pow2(k));
  }

  lemma ClearBit(width: nat, a: nat, n: nat, size: nat)
    requires n < width && a < Pow2(width) && size == Pow2(n)
    ensures size < Pow2(width)
    ensures Bit(a, n) ==> a >= size
    ensures And(a, Not(width, size)) == if Bit(a, n) then a - size else a
  {
    AndNotPow2(width, a, n);
  }

  lemma Square(n: nat, p: nat)
    requires Pow2(n) == p
    ensures Pow2(2 * n) == p * p
  {
    Pow2Sum(n, n);
  }

  lemma WordSize()
    ensures Pow2(WORD_BITS) > 0x4000_0000_0000
  {
    assert Pow2(12) == 4096;
    Square(12, 4096);
    Square(24, 4096 * 4096);
    Pow2Less(48, WORD_BITS);
  }

  /** Blocks of the region have addresses inside physical memory. */
  lemma RegionAddress(i: nat, k: nat)
    requires InRegion(i, k)
    ensures FIRST_PAGE <= Page(i, k) < LAST_PAGE
    ensures KERN_PHYBASE < Addr(i, k) < KERN_PHYSTOP && PageOf(Addr(i, k)) == Page(i, k)
    ensures Addr(i, k) < Pow2(WORD_BITS)
  {
    FirstPage(i, k);
    WordSize();
  }

  lemma SameAddress(i: nat, j: nat, k: nat)
    requires Addr(i, k) == Addr(j, k)
    ensures i == j
  {
    FirstPage(i, k);
    FirstPage(j, k);
  }

  /** A block's address leads to its first page, where no other block starts. */
  lemma BlockAddress(fl: Lists, live: set<Block>, i: nat, k: nat)
    requires Tiling(fl, live) && IsBlock(fl, live, i, k)
    ensures FIRST_PAGE <= Page(i, k) < LAST_PAGE
    ensures KERN_PHYBASE < Addr(i, k) < KERN_PHYSTOP && PageOf(Addr(i, k)) == Page(i, k)
    ensures Addr(i, k) < Pow2(WORD_BITS)
    ensures forall m, n | 0 <= m < MAX_ORDER && 0 <= n < |fl[m]| && Page(fl[m][n], m) == Page(i, k) ::
              m == k && fl[m][n] == i
    ensures forall m, n | 0 <= m < MAX_ORDER && 0 <= n < |fl[m]| :: Page(fl[m][n], m) < PAGES
  {
    assert InRegion(i, k);
    RegionAddress(i, k);
    forall m, n | 0 <= m < MAX_ORDER && 0 <= n < |fl[m]|
      ensures Page(fl[m][n], m) == Page(i, k) ==> m == k && fl[m][n] == i
      ensures Page(fl[m][n], m) < PAGES
    {
      assert IsBlock(fl, live, fl[m][n], m);
      FirstPage(fl[m][n], m);
      if Page(fl[m][n], m) == Page(i, k) {
        SamePageSameBlock(fl, live, fl[m][n], m, i, k);
      }
    }
  }

  ghost predicate LinkIn(list: seq<nat>, k: nat, n: nat, word: seq<nat>)
    requires n < |list|
  {
    Page(list[n], k) < |word| && word[Page(list[n], k)] == Link(list, k, n + 1)
  }

  /** Heads and links spell out the free lists: each head leads to the first block of its list, and
      the first word of each free block to the next one. */
  ghost predicate Chained(fl: Lists, head: seq<nat>, word: seq<nat>) {
    && |fl| == |head| == MAX_ORDER && |word| == PAGES
    && (forall k | 0 <= k < MAX_ORDER :: head[k] == Link(fl[k], k, 0))
    && (forall k, n | 0 <= k < MAX_ORDER && 0 <= n < |fl[k]| :: LinkIn(fl[k], k, n, word))
  }

  /** The pages whose first word a split writes are those the two halves start on. */
  lemma HalfPages(fl: Lists, live: set<Block>, order: nat)
    requires Tiling(fl, live) && 0 < order < MAX_ORDER && fl[order] != []
    ensures var i := fl[order][0];
            && KERN_PHYBASE < Addr(i, order) == Addr(2 * i, order - 1)
            && Addr(2 * i + 1, order - 1) == Addr(i, order) + PAGE_SIZE * Pow2(order - 1)
            && PageOf(Addr(i, order)) == Page(2 * i, order - 1) < PAGES
            && PageOf(Addr(2 * i + 1, order - 1)) == Page(2 * i + 1, order - 1) < PAGES
            && Page(2 * i, order - 1) != Page(2 * i + 1, order - 1)
  {
    FirstInRegion(fl, live, order);
    HalvesInRegion(fl[order][0], order);
  }

  lemma HalvesInRegion(i: nat, order: nat)
    requires 0 < order < MAX_ORDER && InRegion(i, order)
    ensures KERN_PHYBASE < Addr(i, order) == Addr(2 * i, order - 1)
    ensures Addr(2 * i + 1, order - 1) == Addr(i, order) + PAGE_SIZE * Pow2(order - 1)
    ensures PageOf(Addr(i, order)) == Page(2 * i, order - 1) < PAGES
    ensures PageOf(Addr(2 * i + 1, order - 1)) == Page(2 * i + 1, order - 1) < PAGES
    ensures Page(2 * i, order - 1) != Page(2 * i + 1, order - 1)
  {
    hide Addr, Page, Pow2, PageOf, InRegion;
    var j := order - 1;
    assert 2 * i / 2 == i && (2 * i + 1) / 2 == i && 2 * i % 2 == 0 && (2 * i + 1) % 2 == 1;
    RegionHalves(i, j);
    RegionAddress(2 * i, j);
    RegionAddress(2 * i + 1, j);
    HalfAddress(2 * i, j);
    HalfAddress(2 * i + 1, j);
    PageStep(2 * i, j);
  }

  lemma FirstInRegion(fl: Lists, live: set<Block>, order: nat)
    requires Tiling(fl, live) && order < MAX_ORDER && fl[order] != []
    ensures |fl| == MAX_ORDER && InRegion(fl[order][0], order)
  {
    assert IsBlock(fl, live, fl[order][0], order);
  }

  lemma HalvesWereFree(fl: Lists, order: nat)
    requires |fl| == MAX_ORDER && 0 < order < MAX_ORDER && fl[order] != []
    ensures PageFree(fl, Page(2 * fl[order][0], order - 1)) && PageFree(fl, Page(2 * fl[order][0] + 1, order - 1))
  {
    var i, j := fl[order][0], order - 1;
    FirstPage(2 * i, j);
    FirstPage(2 * i + 1, j);
    assert Anc(Page(2 * i, j), order) == i && Anc(Page(2 * i + 1, j), order) == i;
  }

  /** No other free block starts on those pages. */
  lemma HalvesApart(fl: Lists, live: set<Block>, order: nat, k: nat, n: nat)
    requires Tiling(fl, live) && 0 < order < MAX_ORDER && fl[order] != []
    requires k < MAX_ORDER && n < |fl[k]| && !(k == order && n == 0)
    ensures Page(fl[k][n], k) != Page(2 * fl[order][0], order - 1)
    ensures Page(fl[k][n], k) != Page(2 * fl[order][0] + 1, order - 1)
  {
    var i, j := fl[order][0], order - 1;
    assert IsBlock(fl, live, i, order) && IsBlock(fl, live, fl[k][n], k);
    var p := Page(fl[k][n], k);
    FirstPage(fl[k][n], k);
    FirstPage(2 * i, j);
    FirstPage(2 * i + 1, j);
    if p == Page(2 * i, j) || p == Page(2 * i + 1, j) {
      assert Anc(p, order) == i;
      assert Owns(fl, live, p, order) && Owns(fl, live, p, k);
    }
  }

  lemma SplitChained(fl: Lists, head: seq<nat>, word: seq<nat>, order: nat)
    requires Chained(fl, head, word) && 0 < order < MAX_ORDER && fl[order] != []
    requires var i, j := fl[order][0], order - 1;
            && Addr(i, order) == Addr(2 * i, j) && Page(2 * i, j) < PAGES && Page(2 * i + 1, j) < PAGES
            && Page(2 * i, j) != Page(2 * i + 1, j)
    requires forall k, n | 0 <= k < MAX_ORDER && 0 <= n < |fl[k]| && !(k == order && n == 0) ::
              Page(fl[k][n], k) != Page(2 * fl[order][0], order - 1) && Page(fl[k][n], k) != Page(2 * fl[order][0] + 1, order - 1)
    ensures var i, j := fl[order][0], order - 1;
            Chained(Split(fl, order), head[order := word[Page(2 * i, j)]][j := head[order]],
                    word[Page(2 * i, j) := Addr(2 * i + 1, j)][Page(2 * i + 1, j) := head[j]])
  {
    var i, fl', j := fl[order][0], Split(fl, order), order - 1;
    assert LinkIn(fl[order], order, 0, word);
    var word' := word[Page(2 * i, j) := Addr(2 * i + 1, j)][Page(2 * i + 1, j) := head[j]];
    forall k, n | 0 <= k < MAX_ORDER && 0 <= n < |fl'[k]|
      ensures LinkIn(fl'[k], k, n, word')
    {
      if k == order {
        assert LinkIn(fl[k], k, n + 1, word);
      } else if k == j && n >= 2 {
        assert LinkIn(fl[k], k, n - 2, word);
      } else if k != j {
        assert LinkIn(fl[k], k, n, word);
      }
    }
  }

  /** Tiling and links after a split, with the words it reads and writes named. */
  lemma SplitLinked(fl: Lists, live: set<Block>, head: seq<nat>, word: seq<nat>, order: nat)
    requires Tiling(fl, live) && Chained(fl, head, word) && 0 < order < MAX_ORDER && fl[order] != []
    ensures |head| == MAX_ORDER && |word| == PAGES && head[order] == Addr(fl[order][0], order)
    ensures var i, j := fl[order][0], order - 1;
            && Page(2 * i, j) < PAGES && Page(2 * i + 1, j) < PAGES && Tiling(Split(fl, order), live)
            && Chained(Split(fl, order), head[order := word[Page(2 * i, j)]][j := head[order]],
                       word[Page(2 * i, j) := Addr(2 * i + 1, j)][Page(2 * i + 1, j) := head[j]])
  {
    HalfPages(fl, live, order);
    SplitTiling(fl, live, order);
    forall k, n | 0 <= k < MAX_ORDER && 0 <= n < |fl[k]| && !(k == order && n == 0) {
      HalvesApart(fl, live, order, k, n);
    }
    hide Tiling, Split;
    SplitChained(fl, head, word, order);
  }

  lemma InitialChained(head: seq<nat>, word: seq<nat>)
    requires |head| == MAX_ORDER && |word| == PAGES
    requires forall k | 0 <= k < SKIP_ORDER :: head[k] == NULL
    requires forall k | SKIP_ORDER <= k < MAX_ORDER :: Page(1, k) < PAGES && head[k] == Addr(1, k) && word[Page(1, k)] == NULL
    ensures Chained(Initial, head, word)
  {
    forall k, n | 0 <= k < MAX_ORDER && 0 <= n < |Initial[k]|
      ensures LinkIn(Initial[k], k, n, word)
    {
      assert k == 8 || k == 9;
    }
  }

  /** At boot exactly the three MiB from 1 MiB on are free: the areas the first loop of
      page_allocator_init links up behind the first one are lost. */
  lemma InitialFreePages(q: nat)
    ensures PageFree(Initial, q) <==> 256 <= q < 1024
  {
    InitialInv();
    FreeIffNotLive(Initial, {}, q);
  }

  lemma StoreChained(fl: Lists, head: seq<nat>, word: seq<nat>, page: nat, value: nat)
    requires Chained(fl, head, word) && page < PAGES && !PageFree(fl, page)
    ensures Chained(fl, head, word[page := value])
  {
    var word' := word[page := value];
    forall k, n | 0 <= k < MAX_ORDER && 0 <= n < |fl[k]|
      ensures LinkIn(fl[k], k, n, word')
    {
      assert LinkIn(fl[k], k, n, word);
      FirstPage(fl[k][n], k);
      assert PageFree(fl, Page(fl[k][n], k));
    }
  }

  /** A word after a u32 is written over its low half. */
  function SetLowHalf(word: nat, low: nat): (r: nat)
    requires low < U32
    ensures r % U32 == low && r / U32 == word / U32
  {
    word / U32 * U32 + low
  }

  /** The order kmalloc asks for: how often the page count can be halved. */
  function Log2(n: nat): nat {
    if n <= 1 then 0 else 1 + Log2(n / 2)
  }

  /** The pages kmalloc counts for `size` bytes and the word that holds the order. */
  function PagesFor(size: nat): (n: nat)
    ensures n >= 1 && 4096 * (n - 1) < size + 4 <= 4096 * n
  {
    (size + PAGE_SIZE - 1 + HEADER) / PAGE_SIZE
  }

  lemma {:induction false} Log2Floor(n: nat)
    requires n >= 1
    ensures Pow2(Log2(n)) <= n < 2 * Pow2(Log2(n))
  {
    if n > 1 { Log2Floor(n / 2); }
  }

  lemma {:induction false} Log2Pow2(m: nat)
    ensures Log2(Pow2(m)) == m
  {
    if m > 0 { Log2Pow2(m - 1); }
  }

  /** What kmalloc hands out is large enough exactly when the page count is a power of two. */
  lemma KmallocFits(size: nat)
    ensures PAGE_SIZE * Pow2(Log2(PagesFor(size))) >= size + HEADER <==> exists m :: PagesFor(size) == Pow2(m)
  {
    var n := PagesFor(size);
    Log2Floor(n);
    if m :| n == Pow2(m) {
      Log2Pow2(m);
    }
    if PAGE_SIZE * Pow2(Log2(n)) >= size + HEADER {
      assert n == Pow2(Log2(n));
    }
  }

  /** Three pages' worth of bytes gets two pages. */
  lemma KmallocTooSmall()
    ensures PAGE_SIZE * Pow2(Log2(PagesFor(12000))) < 12000
  {
    assert PagesFor(12000) == 3 && Log2(3) == 1 && Pow2(1) == 2;
  }

  lemma PopChained(fl: Lists, live: set<Block>, head: seq<nat>, word: seq<nat>, order: nat)
    requires Tiling(fl, live) && Chained(fl, head, word) && order < MAX_ORDER && fl[order] != []
    ensures KERN_PHYBASE < head[order] == Addr(fl[order][0], order) && PageOf(head[order]) < PAGES
    ensures Chained(fl[order := fl[order][1..]], head[order := word[PageOf(head[order])]], word)
  {
    BlockAddress(fl, live, fl[order][0], order);
    assert LinkIn(fl[order], order, 0, word);
    var fl' := fl[order := fl[order][1..]];
    forall k, n | 0 <= k < MAX_ORDER && 0 <= n < |fl'[k]|
      ensures LinkIn(fl'[k], k, n, word)
    {
      if k == order {
        assert LinkIn(fl[k], k, n + 1, word);
      } else {
        assert LinkIn(fl[k], k, n, word);
      }
    }
  }

  lemma PushChained(fl: Lists, live: set<Block>, head: seq<nat>, word: seq<nat>, i: nat, k: nat)
    requires Tiling(fl, live) && Chained(fl, head, word) && Block(i, k) in live
    ensures k < MAX_ORDER && KERN_PHYBASE < Addr(i, k) && PageOf(Addr(i, k)) == Page(i, k) < PAGES
    ensures Chained(fl[k := [i] + fl[k]], head[k := Addr(i, k)], word[Page(i, k) := head[k]])
  {
    assert IsBlock(fl, live, i, k);
    BlockAddress(fl, live, i, k);
    var fl', word' := fl[k := [i] + fl[k]], word[Page(i, k) := head[k]];
    forall m, n | 0 <= m < MAX_ORDER && 0 <= n < |fl'[m]|
      ensures LinkIn(fl'[m], m, n, word')
    {
      if m != k {
        assert LinkIn(fl[m], m, n, word);
      } else if n > 0 {
        assert LinkIn(fl[k], k, n - 1, word);
      }
    }
  }

  lemma NoDupIn(fl: Lists, live: set<Block>, k: nat)
    requires Tiling(fl, live) && k < MAX_ORDER
    ensures |fl| == MAX_ORDER && NoDup(fl[k])
  {
  }

  /** Taking element `n` off a list by copying its link over the one that led to it. */
  lemma UnlinkChained(fl: Lists, live: set<Block>, head: seq<nat>, word: seq<nat>, k: nat, n: nat)
    requires Tiling(fl, live) && Chained(fl, head, word) && k < MAX_ORDER && n < |fl[k]|
    ensures KERN_PHYBASE < Addr(fl[k][n], k) && PageOf(Addr(fl[k][n], k)) == Page(fl[k][n], k) < PAGES
    ensures n > 0 ==> Page(fl[k][n - 1], k) < PAGES
    ensures var next := word[Page(fl[k][n], k)];
            Chained(fl[k := fl[k][..n] + fl[k][n + 1..]],
                    if n == 0 then head[k := next] else head,
                    if n == 0 then word else word[Page(fl[k][n - 1], k) := next])
  {
    var list := fl[k];
    BlockAddress(fl, live, list[n], k);
    assert LinkIn(list, k, n, word);
    var fl' := fl[k := list[..n] + list[n + 1..]];
    var word' := word;
    if n > 0 {
      BlockAddress(fl, live, list[n - 1], k);
      word' := word[Page(list[n - 1], k) := word[Page(list[n], k)]];
    }
    NoDupIn(fl, live, k);
    hide Tiling, Addr, PageOf;
    forall m, l | 0 <= m < MAX_ORDER && 0 <= l < |fl'[m]|
      ensures LinkIn(fl'[m], m, l, word')
    {
      if m == k && l >= n {
        assert LinkIn(list, k, l + 1, word);
      } else {
        assert LinkIn(fl[m], m, l, word);
      }
    }
  }

  lemma AddressPage(i: nat, k: nat)
    ensures Addr(i, k) >= KERN_PHYBASE && PageOf(Addr(i, k)) == Page(i, k)
  {
  }

  /** The pages of an allocated block were free and are not any more; its address is in memory. */
  lemma AllocatedPage(fl: Lists, live: set<Block>, k: nat)
    requires Inv(fl, live) && k < MAX_ORDER && Buddy.Alloc(fl, k).Some?
    ensures var (fl', i) := Buddy.Alloc(fl, k).value;
            && FIRST_PAGE <= Page(i, k) < LAST_PAGE && PageOf(Addr(i, k)) == Page(i, k)
            && KERN_PHYBASE < Addr(i, k)
            && !PageFree(fl', Page(i, k)) && PageFree(fl, Page(i, k))
  {
    var (fl', i) := Buddy.Alloc(fl, k).value;
    AllocInv(fl, live, k);
    var live' := live + {Block(i, k)};
    assert IsBlock(fl', live', i, k);
    RegionAddress(i, k);
    FirstPage(i, k);
    var q := Page(i, k);
    FreeIffNotLive(fl', live', q);
    FreeIffNotLive(fl, live, q);
    assert Owns(fl', live', q, k);
    assert forall m: nat | Block(Anc(q, m), m) in live :: Owns(fl', live', q, m);
  }

  /** Between two states the first word of every page held in both is left alone: the links are
      written into other pages. */
  ghost predicate HeldWords(live: set<Block>, word: seq<nat>, live': set<Block>, word': seq<nat>) {
    && |word| == |word'| == PAGES
    && forall q: nat | q < PAGES && Block(q, 0) in live && Block(q, 0) in live' :: word'[q] == word[q]
  }

  lemma HeldWordsTwice(live: set<Block>, word: seq<nat>, live': set<Block>, word': seq<nat>, live'': set<Block>, word'': seq<nat>)
    requires HeldWords(live, word, live', word') && HeldWords(live', word', live'', word'')
    requires live <= live' || live'' <= live'
    ensures HeldWords(live, word, live'', word'')
  {
  }

  lemma WordsSized(live: set<Block>, word: seq<nat>, live': set<Block>, word': seq<nat>)
    requires HeldWords(live, word, live', word')
    ensures |word| == |word'| == PAGES
  {
  }

  lemma HeldNotFree(fl: Lists, live: set<Block>, q: nat)
    requires Inv(fl, live) && Block(q, 0) in live
    ensures !PageFree(fl, q)
  {
    FreeIffNotLive(fl, live, q);
    assert Anc(q, 0) == q;
  }

  class Allocator {
    /** `buddy_pages`: the first free block of every order. */
    const head: array<nat>
    /** The first eight bytes of every page of physical memory. */
    const word: array<nat>
    ghost var free: Lists
    ghost var live: set<Block>

    /** Heads and links spell out the free lists. */
    ghost predicate Linked()
      reads this, head, word
    {
      head != word && Tiling(free, live) && Chained(free, head[..], word[..])
    }

    ghost predicate Valid()
      reads this, head, word
    {
      Linked() && Coalesced(free)
    }

    /** Every page of the region is taken. */
    ghost predicate Exhausted()
      reads this
    {
      |free| == MAX_ORDER && forall q: nat :: !PageFree(free, q)
    }

    /** Then every page from 1 MiB to 4 MiB lies in a block in use. */
    lemma NothingFree(q: nat) returns (k: nat)
      requires Valid() && Exhausted() && 256 <= q < 1024
      ensures Block(Anc(q, k), k) in live
    {
      FreeIffNotLive(free, live, q);
      assert !PageFree(free, q);
      k :| Block(Anc(q, k), k) in live;
    }

    lemma NothingWritten()
      requires Valid()
      ensures HeldWords(live, word[..], live, word[..])
    {
    }

    /** page_allocator_init: first the areas of order 9 are linked up to the end of memory; then the
        loop over the orders starts at 9 again and makes its first area the only one. */
    constructor ()
      ensures Valid() && fresh(head) && fresh(word)
      ensures free == Initial && live == {}
    {
      head := new nat[MAX_ORDER];
      word := new nat[PAGES];
      new;
      for i := 0 to MAX_ORDER
        invariant forall k | 0 <= k < i :: head[k] == NULL
      {
        head[i] := NULL;
      }
      LinkAreas();
      FirstAreas();
      free := Initial;
      live := {};
      InitialInv();
      InitialChained(head[..], word[..]);
    }

    /** The first loop of page_allocator_init: the areas of order 9 from 2 MiB on, linked up. */
    method LinkAreas()
      requires head != word && head.Length == MAX_ORDER && word.Length == PAGES
      requires forall k | 0 <= k < MAX_ORDER :: head[k] == NULL
      modifies head, word
      ensures forall k | 0 <= k < MAX_ORDER - 1 :: head[k] == NULL
    {
      var areaSize := PAGE_SIZE * Pow2(MAX_ORDER - 1);
      assert Pow2(9) == 512 && areaSize == 0x20_0000;
      hide Pow2;
      var page := KERN_PHYBASE + areaSize;
      ghost var n: nat := 1;
      head[MAX_ORDER - 1] := page;
      while page < KERN_PHYSTOP
        invariant page == KERN_PHYBASE + 0x20_0000 * n
        invariant forall k | 0 <= k < MAX_ORDER - 1 :: head[k] == NULL
        decreases KERN_PHYSTOP - page
      {
        var nextPage := page + areaSize;
        word[PageOf(page)] := nextPage;
        page := nextPage;
        n := n + 1;
      }
      word[PageOf(KERN_PHYSTOP - areaSize)] := NULL;
    }

    /** The second loop, which starts at order 9 again: one area each for the orders 9 and 8. */
    method FirstAreas()
      requires head != word && head.Length == MAX_ORDER && word.Length == PAGES
      requires forall k | 0 <= k < MAX_ORDER - 1 :: head[k] == NULL
      modifies head, word
      ensures forall k | 0 <= k < SKIP_ORDER :: head[k] == NULL
      ensures forall k | SKIP_ORDER <= k < MAX_ORDER :: Page(1, k) < PAGES && head[k] == Addr(1, k) && word[Page(1, k)] == NULL
    {
      assert Pow2(8) == 256 && Pow2(9) == 512 && Page(1, 8) == 256 && Page(1, 9) == 512;
      var order := MAX_ORDER - 1;
      while order >= SKIP_ORDER
        invariant SKIP_ORDER - 1 <= order < MAX_ORDER
        invariant forall k | 0 <= k < SKIP_ORDER :: head[k] == NULL
        invariant forall k | order < k < MAX_ORDER :: head[k] == Addr(1, k) && word[Page(1, k)] == NULL
      {
        var page := KERN_PHYBASE + PAGE_SIZE * Pow2(order);
        head[order] := page;
        word[PageOf(page)] := NULL;
        order := order - 1;
      }
    }

    /** Whoever holds a live block may overwrite its first word: the lists are not affected. */
    method Store(page: nat, value: nat)
      requires Valid() && page < PAGES && !PageFree(free, page)
      modifies word
      ensures Valid() && word[page] == value
      ensures forall q | 0 <= q < PAGES && q != page :: word[q] == old(word[q])
    {
      StoreChained(free, head[..], word[..], page, value);
      word[page] := value;
    }

    method SplitArea(order: nat)
      requires Linked() && 0 < order < MAX_ORDER && free[order] != []
      modifies this`free, head, word
      ensures Linked() && free == Split(old(free), order)
      ensures forall q | 0 <= q < PAGES && !PageFree(old(free), q) :: word[q] == old(word[q])
    {
      HalfPages(free, live, order);
      HalvesWereFree(free, order);
      SplitLinked(free, live, head[..], word[..], order);
      hide Tiling, Chained, PageFree;
      var area1 := head[order];
      head[order] := word[PageOf(area1)];
      var area2 := area1 + PAGE_SIZE * Pow2(order - 1);
      word[PageOf(area1)] := area2;
      word[PageOf(area2)] := head[order - 1];
      head[order - 1] := area1;
      free := Split(free, order);
    }

    /** `*(void **)address = head; head = address`. */
    method Push(address: nat, order: nat, ghost i: nat)
      requires Valid() && Block(i, order) in live && address == Addr(i, order)
      requires order + 1 < MAX_ORDER ==> Sibling(i) !in free[order]
      modifies this, head, word
      ensures Valid() && live == old(live) - {Block(i, order)} && order < MAX_ORDER
      ensures free == old(free)[order := [i] + old(free)[order]]
      ensures forall q | 0 <= q < PAGES && q != Page(i, order) :: word[q] == old(word[q])
    {
      PushChained(free, live, head[..], word[..], i, order);
      PushInv(free, live, i, order);
      word[PageOf(address)] := head[order];
      head[order] := address;
      free := free[order := [i] + free[order]];
      live := live - {Block(i, order)};
    }

    method AllocPages(order: nat) returns (r: Outcome<nat>)
      requires Valid()
      modifies this, head, word
      ensures Valid()
      ensures r == Panic(BadOrder) <==> order >= 10
      ensures order < MAX_ORDER ==>
                match Buddy.Alloc(old(free), order)
                case None => r == Panic(OutOfMemory)
                case Some((lists, i)) =>
                  r == Ok(Addr(i, order)) && free == lists && live == old(live) + {Block(i, order)}
      ensures r.Panic? ==> free == old(free) && live == old(live)
      ensures forall q | 0 <= q < PAGES && !PageFree(old(free), q) :: word[q] == old(word[q])
    {
      if order >= MAX_ORDER {
        return Panic(BadOrder);
      }
      var promotedOrder := order;
      while promotedOrder < MAX_ORDER && head[promotedOrder] == NULL
        invariant order <= promotedOrder <= MAX_ORDER
        invariant forall k | order <= k < promotedOrder :: free[k] == []
      {
        promotedOrder := promotedOrder + 1;
      }
      AllocSucceeds(free, order);
      if promotedOrder == MAX_ORDER {
        return Panic(OutOfMemory);
      }
      AllocInv(free, live, order);
      while promotedOrder > order
        invariant order <= promotedOrder < MAX_ORDER
        invariant Linked() && live == old(live)
        invariant forall k | order <= k < promotedOrder :: free[k] == []
        invariant free[promotedOrder] != []
        invariant Buddy.Alloc(free, order) == Buddy.Alloc(old(free), order)
        invariant forall q | 0 <= q < PAGES && !PageFree(old(free), q) :: word[q] == old(word[q])
        invariant forall q | PageFree(free, q) :: PageFree(old(free), q)
      {
        SplitThenAlloc(free, order, promotedOrder);
        SplitKeepsFree(free, promotedOrder);
        SplitArea(promotedOrder);
        promotedOrder := promotedOrder - 1;
      }
      PopChained(free, live, head[..], word[..], order);
      var page := head[order];
      head[order] := word[PageOf(page)];
      ghost var i := free[order][0];
      free := free[order := free[order][1..]];
      live := live + {Block(i, order)};
      r := Ok(page);
    }

    /** Look for `buddy` along the links, keeping the page whose link led there, -1 for the head. */
    method Scan(order: nat, buddy: nat, ghost s: nat) returns (prev: int, found: bool, ghost n: nat)
      requires Valid() && order < MAX_ORDER && buddy == Addr(s, order)
      ensures found <==> s in free[order]
      ensures found ==> n < |free[order]| && free[order][n] == s && forall j | 0 <= j < n :: free[order][j] != s
      ensures found ==> prev == if n == 0 then -1 else Page(free[order][n - 1], order)
    {
      prev, n := -1, 0;
      var cur := head[order];
      ghost var list := free[order];
      while cur != NULL && cur != buddy
        invariant 0 <= n <= |list| && cur == Link(list, order, n)
        invariant prev == if n == 0 then -1 else Page(list[n - 1], order)
        invariant forall j | 0 <= j < n :: list[j] != s
        decreases |list| - n
      {
        BlockAddress(free, live, list[n], order);
        assert LinkIn(list, order, n, word[..]);
        prev := PageOf(cur);
        cur := word[PageOf(cur)];
        n := n + 1;
      }
      found := cur == buddy;
      if found {
        SameAddress(s, list[n], order);
      }
    }

    /** `*prev = *free`: take the sibling of live block `i` off its list. The two then make up one
        live block of the next order. */
    method Unlink(order: nat, prev: int, address: nat, ghost i: nat, ghost n: nat)
      requires Valid() && order + 1 < MAX_ORDER && Block(i, order) in live
      requires n < |free[order]| && free[order][n] == Sibling(i) && address == Addr(Sibling(i), order)
      requires forall j | 0 <= j < n :: free[order][j] != Sibling(i)
      requires prev == if n == 0 then -1 else Page(free[order][n - 1], order)
      modifies this, head, word
      ensures Valid() && free == old(free)[order := Remove(old(free)[order], Sibling(i))]
      ensures live == old(live) - {Block(i, order)} + {Block(i / 2, order + 1)} && Block(i / 2, order + 1) !in old(live)
      ensures forall q | 0 <= q < PAGES && !PageFree(free, q) :: word[q] == old(word[q])
    {
      if n > 0 {
        FirstPage(free[order][n - 1], order);
        RemoveIn(free[order], Sibling(i));
      }
      MergeInv(free, live, i, order);
      UnlinkChained(free, live, head[..], word[..], order, n);
      RemoveAt(free[order], n);
      if prev == -1 {
        head[order] := word[PageOf(address)];
      } else {
        word[prev] := word[PageOf(address)];
      }
      free := free[order := free[order][..n] + free[order][n + 1..]];
      live := live - {Block(i, order)} + {Block(i / 2, order + 1)};
    }

    /** Return the live block at `address`, which is block `i` of its order. */
    method FreePages(address: nat, order: nat, ghost i: nat) returns (r: Outcome<()>)
      requires Valid()
      requires order < MAX_ORDER ==> address == Addr(i, order) && Block(i, order) in live
      modifies this, head, word
      ensures Valid()
      ensures order >= MAX_ORDER ==> r == Panic(BadOrder) && free == old(free) && live == old(live)
      ensures order < MAX_ORDER ==>
                r == Ok(()) && free == Buddy.Free(old(free), i, order) && live == old(live) - {Block(i, order)}
      ensures forall q | 0 <= q < PAGES && !PageFree(free, q) :: word[q] == old(word[q])
      decreases MAX_ORDER - order
    {
      if order >= MAX_ORDER {
        return Panic(BadOrder);
      }
      FreeGrows(free, live, i, order);
      FirstPage(i, order);
      if order == MAX_ORDER - 1 {
        Push(address, order, i);
        return Ok(());
      }
      BuddyAddress(i, order);
      BlockAddress(free, live, i, order);
      ParentAddress(i, order, WORD_BITS);
      var areaSize := PAGE_SIZE * Pow2(order);
      var buddy := Xor(address, areaSize);
      var prev, found, n := Scan(order, buddy, Sibling(i));
      if found {
        Unlink(order, prev, buddy, i, n);
        FreeGrows(free, live, i / 2, order + 1);
        r := FreePages(And(address, Not(WORD_BITS, areaSize)), order + 1, i / 2);
        return;
      }
      Push(address, order, i);
      r := Ok(());
    }

    /** A buffer of `size` bytes, the order of its block in the four bytes before it. */
    method Kmalloc(size: nat) returns (r: Outcome<nat>)
      requires Valid()
      modifies this, head, word
      ensures Valid()
      ensures r.Panic? <==> Log2(PagesFor(size)) >= MAX_ORDER || Buddy.Alloc(old(free), Log2(PagesFor(size))).None?
      ensures r.Panic? ==> free == old(free) && live == old(live)
      ensures r.Ok? ==>
                var order := Log2(PagesFor(size));
                var (lists, i) := Buddy.Alloc(old(free), order).value;
                && r.value == 0x3f_0000_0000 + 4096 * Page(i, order) + 4 && free == lists && live == old(live) + {Block(i, order)}
                && Page(i, order) < PAGES && word[Page(i, order)] % U32 == order
      ensures forall q | 0 <= q < PAGES && !PageFree(old(free), q) :: word[q] == old(word[q])
    {
      var order: nat := 0;
      var pages: nat := (size + PAGE_SIZE - 1 + HEADER) / PAGE_SIZE;
      while pages > 1
        invariant order + Log2(pages) == Log2(PagesFor(size))
      {
        order := order + 1;
        pages := pages / 2;
      }
      r := AllocPages(order);
      if r.Panic? {
        return;
      }
      ghost var i := Buddy.Alloc(old(free), order).value.1;
      AllocatedPage(old(free), old(live), order);
      var page := PageOf(r.value);
      Store(page, SetLowHalf(word[page], order));
      r := Ok(r.value + HEADER);
    }

    /** Return the buffer of live block `i` of order `k`, whose header is intact. */
    method Kfree(buf: nat, ghost i: nat, ghost k: nat) returns (r: Outcome<()>)
      requires Valid() && Block(i, k) in live && buf == Addr(i, k) + HEADER
      requires Page(i, k) < PAGES && word[Page(i, k)] % U32 == k
      modifies this, head, word
      ensures Valid() && r == Ok(()) && k < MAX_ORDER
      ensures free == Buddy.Free(old(free), i, k) && live == old(live) - {Block(i, k)}
      ensures forall q | 0 <= q < PAGES && !PageFree(free, q) :: word[q] == old(word[q])
    {
      var page := buf - HEADER;
      AddressPage(i, k);
      r := FreePages(page, word[PageOf(page)] % U32, i);
    }

    /** alloc_pages(0): one page, which nobody holds yet. */
    method AllocPage() returns (r: Outcome<nat>)
      requires Valid()
      modifies this, head, word
      ensures Valid()
      ensures r.Ok? ==>
                && r.value >= KERN_PHYBASE && r.value == PageAddress(PageOf(r.value))
                && FIRST_PAGE <= PageOf(r.value) < LAST_PAGE
                && Block(PageOf(r.value), 0) !in old(live) && live == old(live) + {Block(PageOf(r.value), 0)}
      ensures r.Panic? ==> r.reason == OutOfMemory && Exhausted() && live == old(live) && free == old(free)
      ensures forall q | 0 <= q < PAGES && !PageFree(old(free), q) :: word[q] == old(word[q])
      ensures HeldWords(old(live), old(word[..]), live, word[..])
    {
      AllocSucceeds(free, 0);
      r := AllocPages(0);
      forall q: nat | q < PAGES && Block(q, 0) in old(live)
        ensures word[q] == old(word[q])
      {
        HeldNotFree(old(free), old(live), q);
      }
      if r.Ok? {
        AllocatedPage(old(free), old(live), 0);
        AllocInv(old(free), old(live), 0);
      }
    }

    /** free_pages of one page. */
    method FreePage(address: nat)
      requires Valid() && address >= KERN_PHYBASE && address == PageAddress(PageOf(address))
      requires Block(PageOf(address), 0) in live
      modifies this, head, word
      ensures Valid() && live == old(live) - {Block(PageOf(address), 0)}
      ensures forall q | 0 <= q < PAGES && !PageFree(free, q) :: word[q] == old(word[q])
      ensures HeldWords(old(live), old(word[..]), live, word[..])
    {
      var r := FreePages(address, 0, PageOf(address));
      forall q: nat | q < PAGES && Block(q, 0) in live
        ensures word[q] == old(word[q])
      {
        HeldNotFree(free, live, q);
      }
    }
  }
}
