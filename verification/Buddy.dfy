/** The buddy allocator of kernel/mm.c on values: ten free lists, and what taking and returning a
    block does to them.

    A block of order `k` is named by its index `i`: it is the `2^k` pages from page `i * 2^k` on,
    counted from KERN_PHYBASE. Its two halves are the blocks `2i` and `2i+1` of order `k-1`, and
    the block of order `k` that covers page `q` is the block `Anc(q, k)`. */
module Buddy {
  import opened Bits
  import opened Memlayout

  const MAX_ORDER: nat := 10
  const SKIP_ORDER: nat := 8
  /** The pages the allocator manages: the MiB-sized block at 1 MiB and the 2 MiB block after it. */
  const FIRST_PAGE: nat := 256
  const LAST_PAGE: nat := 1024

  datatype Block = Block(index: nat, order: nat)

  /** Lists[k] holds the indexes of the free blocks of order k, in list order. */
  type Lists = seq<seq<nat>>

  function Anc(q: nat, k: nat): nat {
    if k == 0 then q else Anc(q, k - 1) / 2
  }

  /** The first page of block `i` of order `k`. */
  function Page(i: nat, k: nat): nat
    decreases k
  {
    if k == 0 then i else Page(2 * i, k - 1)
  }

  /** The other half of the block that `i` is a half of. */
  function Sibling(i: nat): (s: nat)
    ensures s != i && s / 2 == i / 2 && (s == 2 * (i / 2) || s == 2 * (i / 2) + 1)
  {
    if i % 2 == 0 then i + 1 else i - 1
  }

  function Remove<T(==)>(s: seq<T>, x: T): seq<T> {
    if s == [] then []
    else if s[0] == x then s[1..]
    else [s[0]] + Remove(s[1..], x)
  }

  /** Take a block of order `k`: from its own list, or half of a block of the next order. */
  function Alloc(fl: Lists, k: nat): (r: Option<(Lists, nat)>)
    requires |fl| == MAX_ORDER && k < MAX_ORDER
    ensures r.Some? ==> |r.value.0| == MAX_ORDER && r.value.0[..k] == fl[..k]
    decreases MAX_ORDER - k
  {
    if fl[k] != [] then Some((fl[k := fl[k][1..]], fl[k][0]))
    else if k + 1 == MAX_ORDER then None
    else
      match Alloc(fl, k + 1)
      case None => None
      case Some((rest, i)) => Some((rest[k := [2 * i + 1] + rest[k]], 2 * i))
  }

  /** Return block `i` of order `k`, merging it with its sibling as long as that one is free. */
  function Free(fl: Lists, i: nat, k: nat): (r: Lists)
    requires |fl| == MAX_ORDER && k < MAX_ORDER
    ensures |r| == MAX_ORDER
    decreases MAX_ORDER - k
  {
    if k + 1 == MAX_ORDER || Sibling(i) !in fl[k] then fl[k := [i] + fl[k]]
    else Free(fl[k := Remove(fl[k], Sibling(i))], i / 2, k + 1)
  }

  /** Halve the first free block of order `j`, both halves going to the front of the list below. */
  function Split(fl: Lists, j: nat): (r: Lists)
    requires |fl| == MAX_ORDER && 0 < j < MAX_ORDER && fl[j] != []
    ensures |r| == MAX_ORDER
  {
    fl[j := fl[j][1..]][j - 1 := [2 * fl[j][0], 2 * fl[j][0] + 1] + fl[j - 1]]
  }

  // ---------------------------------------------------------------- invariant

  predicate NoDup<T(==)>(s: seq<T>) {
    forall i, j :: 0 <= i < j < |s| ==> s[i] != s[j]
  }

  ghost predicate InRegion(i: nat, k: nat) {
    FIRST_PAGE <= Page(i, k) && Page(i + 1, k) <= LAST_PAGE
  }

  /** Block `i` of order `k` is one of the blocks memory is divided into. */
  ghost predicate IsBlock(fl: Lists, live: set<Block>, i: nat, k: nat)
    requires |fl| == MAX_ORDER
  {
    k < MAX_ORDER && (i in fl[k] || Block(i, k) in live)
  }

  ghost predicate Owns(fl: Lists, live: set<Block>, q: nat, k: nat)
    requires |fl| == MAX_ORDER
  {
    IsBlock(fl, live, Anc(q, k), k)
  }

  ghost predicate Owned(fl: Lists, live: set<Block>, q: nat)
    requires |fl| == MAX_ORDER
  {
    exists k :: Owns(fl, live, q, k)
  }

  /** Free and live blocks are apart, lie in the region, and every page of the region is in exactly
      one of them. */
  ghost predicate Tiling(fl: Lists, live: set<Block>) {
    && |fl| == MAX_ORDER
    && (forall k | 0 <= k < MAX_ORDER :: NoDup(fl[k]))
    && (forall k, i | 0 <= k < MAX_ORDER && i in fl[k] :: Block(i, k) !in live)
    && (forall i, k | IsBlock(fl, live, i, k) :: InRegion(i, k))
    && (forall b | b in live :: b.order < MAX_ORDER)
    && (forall q | FIRST_PAGE <= q < LAST_PAGE :: Owned(fl, live, q))
    && (forall q, k, m | FIRST_PAGE <= q < LAST_PAGE && Owns(fl, live, q, k) && Owns(fl, live, q, m) :: k == m)
  }

  /** No two free halves of the same block are left apart. */
  ghost predicate Coalesced(fl: Lists)
    requires |fl| == MAX_ORDER
  {
    forall k, i | 0 <= k < MAX_ORDER - 1 && i in fl[k] :: Sibling(i) !in fl[k]
  }

  ghost predicate Inv(fl: Lists, live: set<Block>) {
    Tiling(fl, live) && Coalesced(fl)
  }

  /** What page_allocator_init leaves: one block of order 8 and one of order 9. */
  const Initial: Lists := [[], [], [], [], [], [], [], [], [1], [1]]

  // ---------------------------------------------------------------- blocks and pages

  lemma {:induction false} PageStep(i: nat, k: nat)
    ensures Page(i + 1, k) == Page(i, k) + Pow2(k)
    decreases k
  {
    if k > 0 {
      PageStep(2 * i, k - 1);
      PageStep(2 * i + 1, k - 1);
    }
  }

  lemma {:induction false} PageProduct(i: nat, k: nat)
    ensures Page(i, k) == i * Pow2(k)
    decreases k
  {
    if k > 0 {
      PageProduct(2 * i, k - 1);
      assert i * Pow2(k) == 2 * i * Pow2(k - 1);
    }
  }

  /** The pages whose ancestor is the block are exactly those from its first page on. */
  lemma {:induction false} AncPage(q: nat, i: nat, k: nat)
    ensures Anc(q, k) == i <==> Page(i, k) <= q < Page(i + 1, k)
    decreases k
  {
    if k > 0 {
      AncPage(q, 2 * i, k - 1);
      AncPage(q, 2 * i + 1, k - 1);
      PageStep(2 * i, k - 1);
      PageStep(2 * i + 1, k - 1);
    }
  }

  lemma FirstPage(i: nat, k: nat)
    ensures Anc(Page(i, k), k) == i
    ensures InRegion(i, k) ==> FIRST_PAGE <= Page(i, k) < LAST_PAGE
  {
    PageStep(i, k);
    AncPage(Page(i, k), i, k);
  }

  lemma {:induction false} AncAnc(q: nat, k: nat, m: nat)
    ensures Anc(q, k + m) == Anc(Anc(q, k), m)
  {
    if m > 0 { AncAnc(q, k, m - 1); }
  }

  lemma AncHalf(h: nat, n: nat)
    ensures Anc(h, n + 1) == Anc(h / 2, n)
  {
    AncAnc(h, 1, n);
    assert Anc(h, 1) == h / 2;
  }

  /** Halves lie in the region exactly when the whole does. */
  lemma RegionHalves(i: nat, k: nat)
    ensures InRegion(i, k + 1) <==> InRegion(2 * i, k) && InRegion(2 * i + 1, k)
  {
    PageStep(2 * i, k);
    PageStep(2 * i + 1, k);
  }

  /** No page is in two blocks: blocks one inside the other are the same block. */
  lemma BlocksApart(fl: Lists, live: set<Block>, i: nat, k: nat, j: nat, m: nat)
    requires Tiling(fl, live)
    requires IsBlock(fl, live, i, k) && IsBlock(fl, live, j, m)
    requires k <= m && Anc(i, m - k) == j
    ensures k == m && i == j
  {
    var q := Page(i, k);
    FirstPage(i, k);
    AncAnc(q, k, m - k);
    assert Owns(fl, live, q, k) && Owns(fl, live, q, m);
  }

  // ---------------------------------------------------------------- Remove

  lemma Cons<T>(x: T, s: seq<T>)
    requires NoDup(s) && x !in s
    ensures NoDup([x] + s)
    ensures forall y :: y in [x] + s <==> y == x || y in s
  {
    assert forall y :: y in [x] + s <==> y == x || y in s;
  }

  lemma {:induction false} RemoveIn<T>(s: seq<T>, x: T)
    requires NoDup(s)
    ensures forall y :: y in Remove(s, x) <==> y in s && y != x
    ensures NoDup(Remove(s, x))
  {
    if s == [] {
    } else if s[0] == x {
      assert forall y :: y in s <==> y == x || y in s[1..];
    } else {
      RemoveIn(s[1..], x);
      Cons(s[0], Remove(s[1..], x));
    }
  }

  lemma {:induction false} RemoveAt<T>(s: seq<T>, n: nat)
    requires n < |s| && forall j | 0 <= j < n :: s[j] != s[n]
    ensures Remove(s, s[n]) == s[..n] + s[n + 1..]
  {
    if n > 0 {
      RemoveAt(s[1..], n - 1);
    }
  }

  // ---------------------------------------------------------------- the invariant is kept

  lemma InitialInv()
    ensures Inv(Initial, {})
  {
    assert Page(1, 8) == 256 && Page(2, 8) == Page(1, 9) == 512 && Page(2, 9) == 1024;
    forall q: nat | FIRST_PAGE <= q < LAST_PAGE
      ensures Owned(Initial, {}, q)
    {
      AncPage(q, 1, 8);
      AncPage(q, 1, 9);
      if q < 512 {
        assert Owns(Initial, {}, q, 8);
      } else {
        assert Owns(Initial, {}, q, 9);
      }
    }
    forall q, k, m | FIRST_PAGE <= q < LAST_PAGE && Owns(Initial, {}, q, k) && Owns(Initial, {}, q, m)
      ensures k == m
    {
      AncPage(q, 1, 8);
      AncPage(q, 1, 9);
    }
  }

  /** Handing out the first block of a list. */
  lemma PopInv(fl: Lists, live: set<Block>, k: nat)
    requires Inv(fl, live) && k < MAX_ORDER && fl[k] != []
    ensures Inv(fl[k := fl[k][1..]], live + {Block(fl[k][0], k)})
    ensures Block(fl[k][0], k) !in live
  {
    var fl', live' := fl[k := fl[k][1..]], live + {Block(fl[k][0], k)};
    assert forall i :: i in fl[k] <==> i in fl'[k] || i == fl[k][0];
    SameBlocks(fl, live, fl', live');
  }

  /** Putting a live block whose sibling is not free on its list. */
  lemma PushInv(fl: Lists, live: set<Block>, i: nat, k: nat)
    requires Inv(fl, live) && Block(i, k) in live
    requires k + 1 == MAX_ORDER || Sibling(i) !in fl[k]
    ensures Inv(fl[k := [i] + fl[k]], live - {Block(i, k)})
  {
    SameBlocks(fl, live, fl[k := [i] + fl[k]], live - {Block(i, k)});
  }

  /** Tiling depends only on which blocks there are. */
  lemma SameBlocks(fl: Lists, live: set<Block>, fl': Lists, live': set<Block>)
    requires Tiling(fl, live) && |fl'| == MAX_ORDER
    requires forall k | 0 <= k < MAX_ORDER :: NoDup(fl'[k])
    requires forall k, i | 0 <= k < MAX_ORDER && i in fl'[k] :: Block(i, k) !in live'
    requires forall b | b in live' :: b.order < MAX_ORDER
    requires forall i, k :: IsBlock(fl, live, i, k) <==> IsBlock(fl', live', i, k)
    ensures Tiling(fl', live')
  {
    forall q | FIRST_PAGE <= q < LAST_PAGE
      ensures Owned(fl', live', q)
    {
      assert Owned(fl, live, q);
      var k :| Owns(fl, live, q, k);
      assert Owns(fl', live', q, k);
    }
    forall q, k, m | FIRST_PAGE <= q < LAST_PAGE && Owns(fl', live', q, k) && Owns(fl', live', q, m)
      ensures k == m
    {
      assert Owns(fl, live, q, k) && Owns(fl, live, q, m);
    }
  }

  /** Tiling after one block is replaced by its two halves. */
  lemma HalveBlock(fl: Lists, live: set<Block>, fl': Lists, live': set<Block>, i: nat, k: nat)
    requires Tiling(fl, live) && |fl'| == MAX_ORDER && IsBlock(fl, live, i, k + 1)
    requires forall k | 0 <= k < MAX_ORDER :: NoDup(fl'[k])
    requires forall k, i | 0 <= k < MAX_ORDER && i in fl'[k] :: Block(i, k) !in live'
    requires forall b | b in live' :: b.order < MAX_ORDER
    requires forall j: nat, m: nat :: IsBlock(fl', live', j, m) <==>
                              (IsBlock(fl, live, j, m) && !(j == i && m == k + 1)) || (j / 2 == i && m == k)
    ensures Tiling(fl', live')
  {
    RegionHalves(i, k);
    forall q | FIRST_PAGE <= q < LAST_PAGE
      ensures Owned(fl', live', q)
    {
      assert Owned(fl, live, q);
      var m :| Owns(fl, live, q, m);
      assert Owns(fl', live', q, if m == k + 1 && Anc(q, m) == i then k else m);
    }
    forall q, m, n | FIRST_PAGE <= q < LAST_PAGE && Owns(fl', live', q, m) && Owns(fl', live', q, n)
      ensures m == n
    {
      assert Owns(fl, live, q, m) || (m == k && Owns(fl, live, q, k + 1));
      assert Owns(fl, live, q, n) || (n == k && Owns(fl, live, q, k + 1));
    }
  }

  /** Tiling after the two halves of a block are replaced by it. */
  lemma JoinBlocks(fl: Lists, live: set<Block>, fl': Lists, live': set<Block>, i: nat, k: nat)
    requires Tiling(fl, live) && |fl'| == MAX_ORDER && k + 1 < MAX_ORDER
    requires IsBlock(fl, live, 2 * i, k) && IsBlock(fl, live, 2 * i + 1, k)
    requires forall k | 0 <= k < MAX_ORDER :: NoDup(fl'[k])
    requires forall k, i | 0 <= k < MAX_ORDER && i in fl'[k] :: Block(i, k) !in live'
    requires forall b | b in live' :: b.order < MAX_ORDER
    requires forall j: nat, m: nat :: IsBlock(fl', live', j, m) <==>
                              (IsBlock(fl, live, j, m) && !(j / 2 == i && m == k)) || (j == i && m == k + 1)
    ensures Tiling(fl', live')
  {
    RegionHalves(i, k);
    forall q | FIRST_PAGE <= q < LAST_PAGE
      ensures Owned(fl', live', q)
    {
      assert Owned(fl, live, q);
      var m :| Owns(fl, live, q, m);
      assert Owns(fl', live', q, if m == k && Anc(q, m) / 2 == i then k + 1 else m);
    }
    forall q, m, n | FIRST_PAGE <= q < LAST_PAGE && Owns(fl', live', q, m) && Owns(fl', live', q, n)
      ensures m == n
    {
      JoinedOwner(fl, live, fl', live', i, k, q, m);
      JoinedOwner(fl, live, fl', live', i, k, q, n);
    }
  }

  lemma JoinedOwner(fl: Lists, live: set<Block>, fl': Lists, live': set<Block>, i: nat, k: nat, q: nat, m: nat)
    requires |fl| == MAX_ORDER && |fl'| == MAX_ORDER && k + 1 < MAX_ORDER
    requires IsBlock(fl, live, 2 * i, k) && IsBlock(fl, live, 2 * i + 1, k)
    requires forall j: nat, m: nat :: IsBlock(fl', live', j, m) <==>
                              (IsBlock(fl, live, j, m) && !(j / 2 == i && m == k)) || (j == i && m == k + 1)
    requires Owns(fl', live', q, m)
    ensures if m == k + 1 && Anc(q, m) == i then Owns(fl, live, q, k) else Owns(fl, live, q, m) && !(m == k && Anc(q, k) / 2 == i)
  {
    if m == k + 1 && Anc(q, m) == i {
      assert Anc(q, k) == 2 * i || Anc(q, k) == 2 * i + 1;
    }
  }

  /** Splitting a live block: the lower half stays live, the upper one becomes free. */
  lemma SplitInv(fl: Lists, live: set<Block>, i: nat, k: nat)
    requires Inv(fl, live) && Block(i, k + 1) in live
    ensures k < MAX_ORDER && Inv(fl[k := [2 * i + 1] + fl[k]], live - {Block(i, k + 1)} + {Block(2 * i, k)})
    ensures 2 * i !in fl[k] && 2 * i + 1 !in fl[k] && Block(2 * i, k) !in live && Block(2 * i + 1, k) !in live
  {
    var fl', live' := fl[k := [2 * i + 1] + fl[k]], live - {Block(i, k + 1)} + {Block(2 * i, k)};
    forall j | j / 2 == i && IsBlock(fl, live, j, k)
      ensures false
    {
      BlocksApart(fl, live, j, k, i, k + 1);
    }
    assert !IsBlock(fl, live, 2 * i, k) && !IsBlock(fl, live, 2 * i + 1, k);
    Cons(2 * i + 1, fl[k]);
    HalveBlock(fl, live, fl', live', i, k);
  }

  /** Merging a live block with its free sibling. */
  lemma MergeInv(fl: Lists, live: set<Block>, i: nat, k: nat)
    requires Inv(fl, live) && Block(i, k) in live && k + 1 < MAX_ORDER && Sibling(i) in fl[k]
    ensures Inv(fl[k := Remove(fl[k], Sibling(i))], live - {Block(i, k)} + {Block(i / 2, k + 1)})
    ensures Block(i / 2, k + 1) !in live
  {
    var fl', live' := fl[k := Remove(fl[k], Sibling(i))], live - {Block(i, k)} + {Block(i / 2, k + 1)};
    if IsBlock(fl, live, i / 2, k + 1) {
      BlocksApart(fl, live, i, k, i / 2, k + 1);
      assert false;
    }
    RemoveIn(fl[k], Sibling(i));
    JoinBlocks(fl, live, fl', live', i / 2, k);
  }

  /** Allocation keeps the invariant; the block it hands out was not live. */
  lemma {:induction false} AllocInv(fl: Lists, live: set<Block>, k: nat)
    requires Inv(fl, live) && k < MAX_ORDER && Alloc(fl, k).Some?
    ensures var (fl', i) := Alloc(fl, k).value;
            Inv(fl', live + {Block(i, k)}) && Block(i, k) !in live
    decreases MAX_ORDER - k
  {
    if fl[k] != [] {
      PopInv(fl, live, k);
    } else {
      AllocInv(fl, live, k + 1);
      var (rest, i) := Alloc(fl, k + 1).value;
      SplitInv(rest, live + {Block(i, k + 1)}, i, k);
      assert live + {Block(i, k + 1)} - {Block(i, k + 1)} + {Block(2 * i, k)} == live + {Block(2 * i, k)};
    }
  }

  /** So does freeing a live block. */
  lemma {:induction false} FreeInv(fl: Lists, live: set<Block>, i: nat, k: nat)
    requires Inv(fl, live) && Block(i, k) in live
    ensures k < MAX_ORDER && Inv(Free(fl, i, k), live - {Block(i, k)})
    decreases MAX_ORDER - k
  {
    if k + 1 == MAX_ORDER || Sibling(i) !in fl[k] {
      PushInv(fl, live, i, k);
    } else {
      MergeInv(fl, live, i, k);
      var merged := live - {Block(i, k)} + {Block(i / 2, k + 1)};
      FreeInv(fl[k := Remove(fl[k], Sibling(i))], merged, i / 2, k + 1);
      assert merged - {Block(i / 2, k + 1)} == live - {Block(i, k)};
    }
  }

  // ---------------------------------------------------------------- what the invariant gives

  /** Page `q` lies in a free block. */
  ghost predicate PageFree(fl: Lists, q: nat)
    requires |fl| == MAX_ORDER
  {
    exists k :: 0 <= k < MAX_ORDER && Anc(q, k) in fl[k]
  }

  /** All `2^k` pages of block `i` of order `k` are free. */
  ghost predicate RunFree(fl: Lists, i: nat, k: nat)
    requires |fl| == MAX_ORDER
  {
    forall q | i * Pow2(k) <= q < (i + 1) * Pow2(k) :: PageFree(fl, q)
  }

  lemma HalvesFree(fl: Lists, i: nat, k: nat)
    requires |fl| == MAX_ORDER && k > 0 && RunFree(fl, i, k)
    ensures RunFree(fl, 2 * i, k - 1) && RunFree(fl, 2 * i + 1, k - 1)
  {
    assert i * Pow2(k) == 2 * i * Pow2(k - 1);
    assert (i + 1) * Pow2(k) == (2 * i + 2) * Pow2(k - 1);
    assert (2 * i + 1) * Pow2(k - 1) == 2 * i * Pow2(k - 1) + Pow2(k - 1);
    assert (2 * i + 2) * Pow2(k - 1) == (2 * i + 1) * Pow2(k - 1) + Pow2(k - 1);
  }

  /** A free aligned run lies in one free block: halves that are both free have been merged. */
  lemma {:induction false} FreeRunIsInBlock(fl: Lists, live: set<Block>, i: nat, k: nat) returns (m: nat)
    requires Inv(fl, live) && k < MAX_ORDER && RunFree(fl, i, k)
    ensures k <= m < MAX_ORDER && Anc(i, m - k) in fl[m]
    decreases k
  {
    if k == 0 {
      assert PageFree(fl, i);
      m :| 0 <= m < MAX_ORDER && Anc(i, m) in fl[m];
    } else {
      HalvesFree(fl, i, k);
      m := FreeRunIsInBlock(fl, live, 2 * i, k - 1);
      var n := FreeRunIsInBlock(fl, live, 2 * i + 1, k - 1);
      assert Sibling(2 * i) == 2 * i + 1;
      if m == k - 1 {
        AncHalf(2 * i + 1, n - k);
        m := n;
      } else {
        AncHalf(2 * i, m - k);
      }
    }
  }

  lemma BlockIsFreeRun(fl: Lists, i: nat, k: nat, m: nat)
    requires |fl| == MAX_ORDER && k <= m < MAX_ORDER && Anc(i, m - k) in fl[m]
    ensures RunFree(fl, i, k)
  {
    forall q | i * Pow2(k) <= q < (i + 1) * Pow2(k)
      ensures PageFree(fl, q)
    {
      PageProduct(i, k);
      PageProduct(i + 1, k);
      AncPage(q, i, k);
      AncAnc(q, k, m - k);
    }
  }

  lemma {:induction false} AllocSucceeds(fl: Lists, k: nat)
    requires |fl| == MAX_ORDER && k < MAX_ORDER
    ensures Alloc(fl, k).Some? <==> exists m :: k <= m < MAX_ORDER && fl[m] != []
    decreases MAX_ORDER - k
  {
    if fl[k] == [] && k + 1 < MAX_ORDER {
      AllocSucceeds(fl, k + 1);
    }
  }

  /** Allocation is complete: it runs out of memory exactly when no aligned run of `2^k` pages is free. */
  lemma AllocComplete(fl: Lists, live: set<Block>, k: nat)
    requires Inv(fl, live) && k < MAX_ORDER
    ensures Alloc(fl, k).None? <==> forall i: nat :: !RunFree(fl, i, k)
  {
    AllocSucceeds(fl, k);
    if i: nat :| RunFree(fl, i, k) {
      var m := FreeRunIsInBlock(fl, live, i, k);
    }
    if m :| k <= m < MAX_ORDER && fl[m] != [] {
      var i := Page(fl[m][0], m - k);
      FirstPage(fl[m][0], m - k);
      BlockIsFreeRun(fl, i, k, m);
    }
  }

  /** Canonical form: which blocks are free follows from which pages are free. */
  lemma Canonical(fl: Lists, live: set<Block>, i: nat, k: nat)
    requires Inv(fl, live) && k < MAX_ORDER
    ensures i in fl[k] <==> RunFree(fl, i, k) && (k + 1 < MAX_ORDER ==> !RunFree(fl, i / 2, k + 1))
  {
    if i in fl[k] {
      BlockIsFreeRun(fl, i, k, k);
      if k + 1 < MAX_ORDER && RunFree(fl, i / 2, k + 1) {
        var m := FreeRunIsInBlock(fl, live, i / 2, k + 1);
        AncHalf(i, m - k - 1);
        BlocksApart(fl, live, i, k, Anc(i, m - k), m);
      }
    }
    if RunFree(fl, i, k) {
      var m := FreeRunIsInBlock(fl, live, i, k);
      if m > k {
        AncHalf(i, m - k - 1);
        BlockIsFreeRun(fl, i / 2, k + 1, m);
      }
    }
  }

  /** A page is free exactly when it is in the region and in no live block. */
  lemma FreeIffNotLive(fl: Lists, live: set<Block>, q: nat)
    requires Inv(fl, live)
    ensures PageFree(fl, q) <==> FIRST_PAGE <= q < LAST_PAGE && forall k :: Block(Anc(q, k), k) !in live
  {
    forall k: nat | IsBlock(fl, live, Anc(q, k), k)
      ensures FIRST_PAGE <= q < LAST_PAGE && Owns(fl, live, q, k)
    {
      AncPage(q, Anc(q, k), k);
      assert InRegion(Anc(q, k), k);
    }
    if FIRST_PAGE <= q < LAST_PAGE {
      assert Owned(fl, live, q);
      var k :| Owns(fl, live, q, k);
      assert forall m: nat :: Block(Anc(q, m), m) in live ==> m == k;
      if PageFree(fl, q) {
        var m :| 0 <= m < MAX_ORDER && Anc(q, m) in fl[m];
        assert Owns(fl, live, q, m);
      } else {
        assert Block(Anc(q, k), k) in live;
      }
    }
  }

  /** The free blocks are determined by the live ones, however the state came about. */
  lemma LiveDeterminesFree(fl: Lists, fl': Lists, live: set<Block>)
    requires Inv(fl, live) && Inv(fl', live)
    ensures forall k, i | 0 <= k < MAX_ORDER :: i in fl[k] <==> i in fl'[k]
  {
    forall q: nat
      ensures PageFree(fl, q) <==> PageFree(fl', q)
    {
      FreeIffNotLive(fl, live, q);
      FreeIffNotLive(fl', live, q);
    }
    forall k, i | 0 <= k < MAX_ORDER
      ensures i in fl[k] <==> i in fl'[k]
    {
      Canonical(fl, live, i, k);
      Canonical(fl', live, i, k);
    }
  }

  /** Freeing the lower half while the upper one is free is freeing the whole. */
  lemma FreeHalf(fl: Lists, i: nat, k: nat)
    requires |fl| == MAX_ORDER && k + 1 < MAX_ORDER && fl[k] == []
    ensures Free(fl[k := [2 * i + 1] + fl[k]], 2 * i, k) == Free(fl, i, k + 1)
  {
    var list := [2 * i + 1] + fl[k];
    assert Sibling(2 * i) == list[0] && Remove(list, list[0]) == [];
    assert fl[k := list][k := []] == fl;
  }

  /** Freeing what was just allocated restores every list, order and all. */
  lemma {:induction false} FreeUndoesAlloc(fl: Lists, live: set<Block>, k: nat)
    requires Inv(fl, live) && k < MAX_ORDER && Alloc(fl, k).Some?
    ensures var (fl', i) := Alloc(fl, k).value; Free(fl', i, k) == fl
    decreases MAX_ORDER - k
  {
    if fl[k] != [] {
      var fl', i := fl[k := fl[k][1..]], fl[k][0];
      assert [i] + fl'[k] == fl[k];
      assert fl'[k := [i] + fl'[k]] == fl;
    } else {
      FreeUndoesAlloc(fl, live, k + 1);
      var (rest, i) := Alloc(fl, k + 1).value;
      assert rest[k] == rest[..k + 1][k] == fl[k];
      FreeHalf(rest, i, k);
    }
  }

  /** Two blocks that start on the same page are the same block. */
  lemma SamePageSameBlock(fl: Lists, live: set<Block>, i: nat, k: nat, j: nat, m: nat)
    requires Tiling(fl, live) && IsBlock(fl, live, i, k) && IsBlock(fl, live, j, m)
    requires Page(i, k) == Page(j, m)
    ensures i == j && k == m
  {
    FirstPage(i, k);
    FirstPage(j, m);
    assert Owns(fl, live, Page(i, k), k) && Owns(fl, live, Page(i, k), m);
  }

  // ---------------------------------------------------------------- runs

  datatype Op = Take(order: nat) | Give(block: Block)
  datatype State = State(free: Lists, live: set<Block>)

  /** One call of alloc_pages or free_pages; None is a panic. */
  function Step(s: State, op: Op): (r: Option<State>)
    requires |s.free| == MAX_ORDER
    ensures r.Some? ==> |r.value.free| == MAX_ORDER
  {
    match op
    case Take(k) =>
      if k >= MAX_ORDER then None
      else
        (match Alloc(s.free, k)
         case None => None
         case Some((free, i)) => Some(State(free, s.live + {Block(i, k)})))
    case Give(b) =>
      if b.order >= MAX_ORDER then None
      else Some(State(Free(s.free, b.index, b.order), s.live - {b}))
  }

  /** Run `t` is reached from `s` by the calls `ops`, only live blocks being returned. */
  ghost predicate Run(s: State, ops: seq<Op>, t: State)
    requires |s.free| == MAX_ORDER
    decreases |ops|
  {
    if ops == [] then s == t
    else
      && (ops[0].Give? ==> ops[0].block in s.live)
      && Step(s, ops[0]).Some?
      && Run(Step(s, ops[0]).value, ops[1..], t)
  }

  /** Every state of every run satisfies the invariant: blocks stay aligned and apart, tile the
      region, never touch the first MiB, and no two free halves of a block are left apart. */
  lemma {:induction false} RunInv(s: State, ops: seq<Op>, t: State)
    requires Inv(s.free, s.live) && Run(s, ops, t)
    ensures Inv(t.free, t.live)
    decreases |ops|
  {
    if ops != [] {
      match ops[0] {
        case Take(k) => AllocInv(s.free, s.live, k);
        case Give(b) => FreeInv(s.free, s.live, b.index, b.order);
      }
      RunInv(Step(s, ops[0]).value, ops[1..], t);
    }
  }

  lemma {:induction false} CountNoDup<T>(s: seq<T>, x: T)
    requires NoDup(s)
    ensures multiset(s)[x] == if x in s then 1 else 0
  {
    if s != [] {
      assert s == [s[0]] + s[1..];
      CountNoDup(s[1..], x);
    }
  }

  lemma SameMembers<T>(s: seq<T>, t: seq<T>)
    requires NoDup(s) && NoDup(t) && forall x :: x in s <==> x in t
    ensures multiset(s) == multiset(t)
  {
    forall x
      ensures multiset(s)[x] == multiset(t)[x]
    {
      CountNoDup(s, x);
      CountNoDup(t, x);
    }
  }

  /** A run that in the end has returned what it took leaves every free list with the blocks it had,
      whatever the order of the calls. */
  lemma BalancedRun(s: State, ops: seq<Op>, t: State)
    requires Inv(s.free, s.live) && Run(s, ops, t) && t.live == s.live
    ensures |t.free| == MAX_ORDER
    ensures forall k | 0 <= k < MAX_ORDER :: multiset(t.free[k]) == multiset(s.free[k])
  {
    RunInv(s, ops, t);
    LiveDeterminesFree(s.free, t.free, s.live);
    forall k | 0 <= k < MAX_ORDER
      ensures multiset(t.free[k]) == multiset(s.free[k])
    {
      assert forall i :: i in s.free[k] <==> i in t.free[k];
      SameMembers(t.free[k], s.free[k]);
    }
  }

  /** From boot on, alloc_pages panics exactly when no aligned run of the size asked for is free. */
  lemma OutOfMemory(ops: seq<Op>, t: State, k: nat)
    requires Run(State(Initial, {}), ops, t) && k < MAX_ORDER
    ensures |t.free| == MAX_ORDER
    ensures Step(t, Take(k)).None? <==> forall i: nat :: !RunFree(t.free, i, k)
  {
    InitialInv();
    RunInv(State(Initial, {}), ops, t);
    AllocComplete(t.free, t.live, k);
  }

  // ---------------------------------------------------------------- the loop form of allocation

  /** Halving the block that allocation would halve first changes nothing for the allocation. */
  lemma {:induction false} SplitThenAlloc(fl: Lists, k: nat, j: nat)
    requires |fl| == MAX_ORDER && k < j < MAX_ORDER && fl[j] != []
    requires forall m | k <= m < j :: fl[m] == []
    ensures Alloc(Split(fl, j), k) == Alloc(fl, k)
    decreases j - k
  {
    var i, split := fl[j][0], Split(fl, j);
    if k + 1 == j {
      assert Alloc(fl, j) == Some((fl[j := fl[j][1..]], i));
      assert split[k][1..] == [2 * i + 1] + fl[k];
      assert split[k := split[k][1..]] == fl[j := fl[j][1..]][k := [2 * i + 1] + fl[k]];
    } else {
      SplitThenAlloc(fl, k + 1, j);
      assert split[k] == [];
    }
  }

  /** Tiling survives the halving of a free block, although its halves are then free siblings. */
  lemma SplitTiling(fl: Lists, live: set<Block>, j: nat)
    requires Tiling(fl, live) && 0 < j < MAX_ORDER && fl[j] != []
    ensures Tiling(Split(fl, j), live)
  {
    var i, fl', k := fl[j][0], Split(fl, j), j - 1;
    forall h: nat | h / 2 == i && IsBlock(fl, live, h, k)
      ensures false
    {
      BlocksApart(fl, live, h, k, i, j);
    }
    assert !IsBlock(fl, live, 2 * i, k) && !IsBlock(fl, live, 2 * i + 1, k);
    Cons(2 * i + 1, fl[k]);
    Cons(2 * i, [2 * i + 1] + fl[k]);
    assert fl'[k] == [2 * i] + ([2 * i + 1] + fl[k]);
    assert fl[j] == [i] + fl'[j];
    HalveBlock(fl, live, fl', live, i, j - 1);
  }

  /** Halving a free block frees no page. */
  lemma SplitKeepsFree(fl: Lists, j: nat)
    requires |fl| == MAX_ORDER && 0 < j < MAX_ORDER && fl[j] != []
    ensures forall q | PageFree(Split(fl, j), q) :: PageFree(fl, q)
  {
    forall q | PageFree(Split(fl, j), q)
      ensures PageFree(fl, q)
    {
      var k :| 0 <= k < MAX_ORDER && Anc(q, k) in Split(fl, j)[k];
      assert Anc(q, k) in fl[k] || (k + 1 == j && Anc(q, j) == fl[j][0]);
    }
  }

  /** Freeing a block frees its pages and takes no page from the free ones. */
  lemma FreeGrows(fl: Lists, live: set<Block>, i: nat, k: nat)
    requires Inv(fl, live) && Block(i, k) in live
    ensures forall q: nat | PageFree(fl, q) || Anc(q, k) == i :: PageFree(Free(fl, i, k), q)
  {
    FreeInv(fl, live, i, k);
    assert IsBlock(fl, live, i, k);
    forall q: nat | PageFree(fl, q) || Anc(q, k) == i
      ensures PageFree(Free(fl, i, k), q)
    {
      FreeIffNotLive(fl, live, q);
      FreeIffNotLive(Free(fl, i, k), live - {Block(i, k)}, q);
      if Anc(q, k) == i {
        AncPage(q, i, k);
        assert Owns(fl, live, q, k);
        assert forall m: nat | Block(Anc(q, m), m) in live :: Owns(fl, live, q, m);
      }
    }
  }

  /** Which block is handed out, and where the rest of it goes: the first block of the smallest order that
      has one is halved until it fits, the lower half is kept each time, and the upper half is the one block
      of its list. */
  lemma {:induction false} AllocExactly(fl: Lists, k: nat) returns (m: nat)
    requires |fl| == MAX_ORDER && k < MAX_ORDER && Alloc(fl, k).Some?
    ensures k <= m < MAX_ORDER && fl[m] != [] && forall j | k <= j < m :: fl[j] == []
    ensures var (fl', i) := Alloc(fl, k).value;
            && Page(i, k) == Page(fl[m][0], m) && fl'[m] == fl[m][1..]
            && (forall j | k <= j < m :: |fl'[j]| == 1 && Page(fl'[j][0], j) == Page(i, k) + Pow2(j))
            && forall j | 0 <= j < k || m < j < MAX_ORDER :: fl'[j] == fl[j]
    decreases MAX_ORDER - k
  {
    if fl[k] != [] {
      m := k;
    } else {
      m := AllocExactly(fl, k + 1);
      var (rest, i) := Alloc(fl, k + 1).value;
      PageStep(2 * i, k);
    }
  }

  /** The block of order `j` that block `i` of order `k` lies in. */
  function Within(i: nat, k: nat, j: nat): nat
    requires k <= j
  {
    Anc(i, j - k)
  }

  lemma WithinHalf(i: nat, k: nat, j: nat)
    requires k < j
    ensures Within(i / 2, k + 1, j) == Within(i, k, j)
  {
    AncHalf(i, j - (k + 1));
  }

  /** Where a block goes that is freed: it grows by its sibling as long as that one is free, each of which
      leaves its list, and what comes of it is the first block of its list. */
  lemma {:induction false} FreeExactly(fl: Lists, i: nat, k: nat) returns (m: nat)
    requires |fl| == MAX_ORDER && k < MAX_ORDER
    ensures k <= m < MAX_ORDER && (m == MAX_ORDER - 1 || Sibling(Within(i, k, m)) !in fl[m])
    ensures forall j | k <= j < m ::
              Sibling(Within(i, k, j)) in fl[j] && Free(fl, i, k)[j] == Remove(fl[j], Sibling(Within(i, k, j)))
    ensures Free(fl, i, k)[m] == [Within(i, k, m)] + fl[m]
    ensures forall j | 0 <= j < k || m < j < MAX_ORDER :: Free(fl, i, k)[j] == fl[j]
    decreases MAX_ORDER - k
  {
    assert Within(i, k, k) == i;
    if k + 1 == MAX_ORDER || Sibling(i) !in fl[k] {
      m := k;
    } else {
      var fl' := fl[k := Remove(fl[k], Sibling(i))];
      m := FreeExactly(fl', i / 2, k + 1);
      forall j | k < j <= m
        ensures Within(i, k, j) == Within(i / 2, k + 1, j)
      {
        WithinHalf(i, k, j);
      }
      assert Free(fl, i, k) == Free(fl', i / 2, k + 1);
      hide Free, Within, Sibling, Remove;
    }
  }
}
