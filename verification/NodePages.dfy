/** list_destroy of kernel/list.h on the bytes of memory. A list node lies in a page of its own behind
    the header of kmalloc, and a free page has a link of the allocator in its first eight bytes. */
module NodePages {
  import opened Memlayout
  import opened Buddy
  import opened BuddyAllocator
  import opened StartImage

  /** Where `next` of struct list_node lies in the page of a node. */
  const NEXT: nat := HEADER + 24

  function NextOf(page: seq<u8>): nat
    requires |page| == PAGE_SIZE
  {
    FromLittleEndian(page[NEXT..NEXT + WORD])
  }

  /** The address of the node in page `p`. */
  function NodeAddress(p: nat): nat {
    PageAddress(p) + HEADER
  }

  /** The first eight bytes of every page are the word that the allocator works with. */
  ghost predicate Coherent(bytes: seq<seq<u8>>, word: seq<nat>) {
    && |bytes| == |word| == PAGES
    && forall q | 0 <= q < PAGES :: |bytes[q]| == PAGE_SIZE && bytes[q][..WORD] == LittleEndian(word[q], WORD)
  }

  /** A link written into the page of a node leaves `next` as it is. */
  lemma LinkSparesNext(page: seq<u8>, link: nat)
    requires |page| == PAGE_SIZE
    ensures NextOf(Patch(page, 0, LittleEndian(link, WORD))) == NextOf(page) == FromLittleEndian(page[28..36])
    ensures Patch(page, 0, LittleEndian(link, WORD))[WORD..] == page[WORD..]
  {
    hide LittleEndian, FromLittleEndian, Patch;
    PatchRead(page, 0, LittleEndian(link, WORD), NEXT, NEXT + WORD);
    PatchRead(page, 0, LittleEndian(link, WORD), WORD, PAGE_SIZE);
  }

  lemma SameLink(page: seq<u8>, link: nat)
    requires |page| == PAGE_SIZE && page[..WORD] == LittleEndian(link, WORD)
    ensures Patch(page, 0, LittleEndian(link, WORD)) == page
  {
    hide LittleEndian;
    assert page == page[..WORD] + page[WORD..];
  }

  /** The nodes in the pages `nodes` follow one another from address `first` on, and the last leads to
      NULL. */
  ghost predicate Leads(bytes: seq<seq<u8>>, first: nat, nodes: seq<nat>) {
    && (forall i | 0 <= i < |nodes| :: nodes[i] < |bytes| && |bytes[nodes[i]]| == PAGE_SIZE)
    && first == (if nodes == [] then NULL else NodeAddress(nodes[0]))
    && forall i | 0 <= i < |nodes| :: NextOf(bytes[nodes[i]]) == if i == |nodes| - 1 then NULL else NodeAddress(nodes[i + 1])
  }

  class PageMemory {
    const alloc: Allocator
    const bytes: array<seq<u8>>

    ghost predicate Valid()
      reads this, bytes, alloc, alloc.head, alloc.word
    {
      alloc.Valid() && Coherent(bytes[..], alloc.word[..])
    }

    /** The buffer in page `p` was handed out by kmalloc for less than a page. */
    ghost predicate Node(p: nat)
      reads this, alloc, alloc.word
    {
      p < alloc.word.Length && Block(p, 0) in alloc.live && alloc.word[p] % U32 == 0
    }

    constructor (allocator: Allocator, memory: array<seq<u8>>)
      requires allocator.Valid() && Coherent(memory[..], allocator.word[..])
      ensures Valid() && alloc == allocator && bytes == memory
    {
      alloc := allocator;
      bytes := memory;
    }

    /** The words that the allocator has written, put among the bytes. */
    method WriteLinks()
      requires alloc.Valid() && alloc.word.Length == bytes.Length == PAGES
      requires forall q | 0 <= q < PAGES :: |bytes[q]| == PAGE_SIZE
      modifies bytes
      ensures Coherent(bytes[..], alloc.word[..])
      ensures forall q | 0 <= q < PAGES :: bytes[q] == Patch(old(bytes[q]), 0, LittleEndian(alloc.word[q], WORD))
    {
      hide LittleEndian;
      for q := 0 to PAGES
        invariant forall p | 0 <= p < q :: bytes[p] == Patch(old(bytes[p]), 0, LittleEndian(alloc.word[p], WORD))
        invariant forall p | q <= p < PAGES :: bytes[p] == old(bytes[p])
      {
        bytes[q] := Patch(bytes[q], 0, LittleEndian(alloc.word[q], WORD));
      }
    }

    /** kfree of the node in page `p`. No page still held is written to, and of no page more than the
        first eight bytes. */
    method Free(p: nat)
      requires Valid() && Node(p)
      modifies alloc, alloc.head, alloc.word, bytes
      ensures Valid() && alloc.live == old(alloc.live) - {Block(p, 0)}
      ensures forall q | 0 <= q < PAGES :: |bytes[q]| == PAGE_SIZE && bytes[q][WORD..] == old(bytes[q])[WORD..]
      ensures forall q: nat | q < PAGES && Block(q, 0) in alloc.live :: bytes[q] == old(bytes[q]) && alloc.word[q] == old(alloc.word[q])
    {
      hide Tiling, Chained, Coalesced, LittleEndian, FromLittleEndian, Patch, PageFree;
      FirstPageAddress(p);
      var r := alloc.Kfree(NodeAddress(p), p, 0);
      forall q: nat | q < PAGES && Block(q, 0) in alloc.live
        ensures alloc.word[q] == old(alloc.word[q])
      {
        HeldNotFree(alloc.free, alloc.live, q);
      }
      WriteLinks();
      forall q | 0 <= q < PAGES
        ensures bytes[q][WORD..] == old(bytes[q])[WORD..]
      {
        LinkSparesNext(old(bytes[q]), alloc.word[q]);
      }
      forall q: nat | q < PAGES && Block(q, 0) in alloc.live
        ensures bytes[q] == old(bytes[q])
      {
        SameLink(old(bytes[q]), alloc.word[q]);
      }
    }

    /** list_destroy: `next` is read from a node that has just been freed. Each node is freed once, and
        no other page is touched that is still held. */
    method ListDestroy(first: nat, ghost nodes: seq<nat>)
      requires Valid() && Leads(bytes[..], first, nodes)
      requires (forall i, j | 0 <= i < j < |nodes| :: nodes[i] != nodes[j]) && forall i | 0 <= i < |nodes| :: Node(nodes[i])
      modifies alloc, alloc.head, alloc.word, bytes
      ensures Valid() && alloc.live == old(alloc.live) - set p | p in nodes :: Block(p, 0)
      ensures forall q: nat | q < PAGES && Block(q, 0) in alloc.live :: bytes[q] == old(bytes[q])
    {
      hide Tiling, Chained, Coalesced, LittleEndian, FromLittleEndian, Patch;
      ghost var i := 0;
      var node := first;
      while node != NULL
        invariant i <= |nodes| && Valid() && node == if i == |nodes| then NULL else NodeAddress(nodes[i])
        invariant alloc.live == old(alloc.live) - set p | p in nodes[..i] :: Block(p, 0)
        invariant forall q: nat | q < PAGES && Block(q, 0) in alloc.live :: bytes[q] == old(bytes[q]) && alloc.word[q] == old(alloc.word[q])
        decreases |nodes| - i
      {
        var p := PageOf(node - HEADER);
        assert p == nodes[i] && Block(p, 0) in alloc.live;
        assert bytes[p] == old(bytes[p]);
        ghost var page := bytes[p];
        Free(p);
        assert nodes[..i + 1] == nodes[..i] + [p];
        NextBehindLink(page, bytes[p]);
        node := NextOf(bytes[p]);
        i := i + 1;
      }
      assert nodes[..i] == nodes;
    }
  }

  /** `next` lies behind the first eight bytes. */
  lemma NextBehindLink(page: seq<u8>, page': seq<u8>)
    requires |page| == |page'| == PAGE_SIZE && page'[WORD..] == page[WORD..]
    ensures NextOf(page') == NextOf(page)
  {
    hide FromLittleEndian;
    var a, b := page[NEXT..NEXT + WORD], page'[NEXT..NEXT + WORD];
    forall k | 0 <= k < |a|
      ensures a[k] == b[k]
    {
      assert page[NEXT + k] == page[WORD..][NEXT - WORD + k] && page'[NEXT + k] == page'[WORD..][NEXT - WORD + k];
    }
    assert a == b;
  }

  lemma FirstPageAddress(p: nat)
    ensures Page(p, 0) == p && NodeAddress(p) == Addr(p, 0) + HEADER
  {
  }
}
