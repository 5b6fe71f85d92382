/** Sv39 address translation: the field layouts of kernel/mmdefs.h and the walk of section 4.3.2 of
    the RISC-V Privileged Architecture, version 20211203. */
module Sv39 {
  import opened Bits
  import opened Memlayout

  const FANOUT: nat := 512
  /** KERNPHY, the frame number memory starts at. */
  const RAM_PPN: nat := 0x8_0000
  const PPN_LIMIT: nat := 0x1000_0000_0000 // 2^44
  const MEGA: nat := 512                   // frames in a 2M page
  const GIGA: nat := 512 * 512             // frames in a 1G page

  // ---------------------------------------------------------------- fields

  datatype Flags = Flags(v: bool, r: bool, w: bool, x: bool, u: bool, g: bool, a: bool, d: bool)

  /** A page table entry; the rsw and reserved bits are never set. */
  datatype Pte = Pte(flags: Flags, ppn: nat)

  /** The three indexes of a virtual page. */
  datatype Vpn = Vpn(v2: nat, v1: nat, v0: nat)

  ghost predicate ValidVpn(v: Vpn) {
    v.v2 < FANOUT && v.v1 < FANOUT && v.v0 < FANOUT
  }

  function VpnOf(va: nat): (v: Vpn)
    ensures ValidVpn(v)
  {
    var page := va / PAGE_SIZE;
    var mega := page / FANOUT;
    Vpn(mega / FANOUT % FANOUT, mega % FANOUT, page % FANOUT)
  }

  function VaOf(v: Vpn, off: nat): nat {
    ((v.v2 * FANOUT + v.v1) * FANOUT + v.v0) * PAGE_SIZE + off
  }

  function Offset(address: nat): nat {
    address % PAGE_SIZE
  }

  function SetPpn1(ppn: nat, i: nat): nat {
    ppn / GIGA * GIGA + i * MEGA + ppn % MEGA
  }

  function SetPpn0(ppn: nat, i: nat): nat {
    ppn / MEGA * MEGA + i
  }

  /** The number with these bits, lowest first. */
  function FromBits(bits: seq<bool>): nat {
    if bits == [] then 0 else (if bits[0] then 1 else 0) + 2 * FromBits(bits[1..])
  }

  function ToBits(n: nat, width: nat): (bits: seq<bool>)
    ensures |bits| == width
  {
    if width == 0 then [] else [n % 2 == 1] + ToBits(n / 2, width - 1)
  }

  /** The 64-bit value of an entry. */
  function Encode(pte: Pte): nat {
    var f := pte.flags;
    FromBits([f.v, f.r, f.w, f.x, f.u, f.g, f.a, f.d]) + 1024 * pte.ppn
  }

  function Decode(value: nat): Pte {
    var b := ToBits(value % 256, 8);
    Pte(Flags(b[0], b[1], b[2], b[3], b[4], b[5], b[6], b[7]), value / 1024 % PPN_LIMIT)
  }

  lemma {:induction false} BitsRoundTrip(bits: seq<bool>)
    ensures FromBits(bits) < Pow2(|bits|) && ToBits(FromBits(bits), |bits|) == bits
  {
    if bits != [] { BitsRoundTrip(bits[1..]); }
  }

  lemma {:induction false} NumberRoundTrip(n: nat, width: nat)
    requires n < Pow2(width)
    ensures FromBits(ToBits(n, width)) == n
  {
    if width > 0 { NumberRoundTrip(n / 2, width - 1); }
  }

  lemma DecodeEncode(pte: Pte)
    requires pte.ppn < PPN_LIMIT
    ensures Decode(Encode(pte)) == pte
    ensures Encode(pte) < 1024 * PPN_LIMIT
  {
    var f := pte.flags;
    var bits := [f.v, f.r, f.w, f.x, f.u, f.g, f.a, f.d];
    assert Pow2(8) == 256;
    hide FromBits, ToBits, Pow2;
    BitsRoundTrip(bits);
    LowByte(FromBits(bits), pte.ppn);
  }

  lemma LowByte(byte: nat, high: nat)
    requires byte < 256
    ensures (byte + 1024 * high) % 256 == byte && (byte + 1024 * high) / 1024 == high
  {
  }

  /** Entries survive the other way round when the rsw and reserved bits are clear. */
  lemma EncodeDecode(value: nat)
    ensures Encode(Decode(value)) == value <==> value / 256 % 4 == 0 && value < 1024 * PPN_LIMIT
  {
    assert Pow2(8) == 256;
    NumberRoundTrip(value % 256, 8);
    var b := ToBits(value % 256, 8);
    assert b == [b[0], b[1], b[2], b[3], b[4], b[5], b[6], b[7]];
    UnusedBits(value);
  }

  lemma UnusedBits(value: nat)
    ensures value % 256 + 1024 * (value / 1024 % PPN_LIMIT) == value <==> value / 256 % 4 == 0 && value < 1024 * PPN_LIMIT
  {
    var high := value / 256;
    assert value == value % 256 + 256 * high && high == high % 4 + 4 * (value / 1024);
  }

  lemma VaRoundTrip(v: Vpn, off: nat)
    requires ValidVpn(v) && off < PAGE_SIZE
    ensures VpnOf(VaOf(v, off)) == v && Offset(VaOf(v, off)) == off
    ensures VaOf(v, off) < 0x80_0000_0000
  {
    var mega := v.v2 * FANOUT + v.v1;
    var page := mega * FANOUT + v.v0;
    assert VaOf(v, off) / PAGE_SIZE == page;
    assert page / FANOUT == mega && page % FANOUT == v.v0;
    assert mega / FANOUT == v.v2 && mega % FANOUT == v.v1;
  }

  /** Which bits of an address the indexes are. */
  lemma IndexFields(va: nat)
    ensures VpnOf(va).v2 == va / 0x4000_0000 % 512 && VpnOf(va).v1 == va / 0x20_0000 % 512 && VpnOf(va).v0 == va / 4096 % 512
  {
    assert va / 4096 / 512 == va / 0x20_0000;
    assert va / 0x20_0000 / 512 == va / 0x4000_0000;
  }

  lemma VaFields(va: nat)
    ensures VaOf(VpnOf(va), Offset(va)) == va % 0x80_0000_0000
  {
    var page := va / PAGE_SIZE;
    var mega := page / FANOUT;
    var giga := mega / FANOUT;
    assert va == ((giga * FANOUT + mega % FANOUT) * FANOUT + page % FANOUT) * PAGE_SIZE + Offset(va);
    assert giga == giga / FANOUT * FANOUT + giga % FANOUT;
    assert va == giga / FANOUT * 0x80_0000_0000 + VaOf(VpnOf(va), Offset(va));
    VaRoundTrip(VpnOf(va), Offset(va));
  }

  /** The three indexes name the page. */
  lemma SamePage(x: nat, y: nat)
    requires x < 0x80_0000_0000 && y < 0x80_0000_0000
    ensures VpnOf(x) == VpnOf(y) <==> x / PAGE_SIZE == y / PAGE_SIZE
  {
    PageNumber(x);
    PageNumber(y);
    hide VpnOf;
  }

  lemma PageNumber(x: nat)
    requires x < 0x80_0000_0000
    ensures var v := VpnOf(x); x / PAGE_SIZE == (v.v2 * FANOUT + v.v1) * FANOUT + v.v0
    ensures VpnOf(x) == VpnOfPage(x / PAGE_SIZE)
  {
    var page := x / PAGE_SIZE;
    var mega := page / FANOUT;
    assert page == mega * FANOUT + page % FANOUT;
    assert mega == mega / FANOUT * FANOUT + mega % FANOUT && mega / FANOUT < FANOUT;
  }

  /** The three indexes of a page number. */
  function VpnOfPage(page: nat): Vpn {
    Vpn(page / FANOUT / FANOUT % FANOUT, page / FANOUT % FANOUT, page % FANOUT)
  }

  // ---------------------------------------------------------------- the walk

  predicate IsLeaf(flags: Flags) {
    flags.r || flags.w || flags.x
  }

  /** The permissions a leaf may have: it can be read, or only executed. */
  predicate Grants(flags: Flags) {
    flags.r || (flags.x && !flags.w)
  }

  predicate InvalidOrLeaf(pte: Pte) {
    !pte.flags.v || IsLeaf(pte.flags)
  }

  /** Memory, page by page from KERN_PHYBASE, as page table nodes. */
  type Memory = seq<seq<Pte>>

  predicate Sized(mem: Memory) {
    forall p | 0 <= p < |mem| :: |mem[p]| == FANOUT
  }

  /** subtable_from_pte: the page an entry points to. */
  function Child(pte: Pte): int {
    pte.ppn - RAM_PPN
  }

  predicate Points(pte: Pte, page: nat) {
    !InvalidOrLeaf(pte) && Child(pte) == page
  }

  datatype Translation = Fault | To(ppn: nat, flags: Flags)

  /** What a leaf found at `level` says about page `v`. */
  function LeafAt(pte: Pte, level: nat, v: Vpn): Translation {
    if !pte.flags.v || (!pte.flags.r && pte.flags.w) then Fault
    else if level == 2 then
      if pte.ppn % GIGA != 0 then Fault else To(pte.ppn + v.v1 * MEGA + v.v0, pte.flags)
    else if level == 1 then
      if pte.ppn % MEGA != 0 then Fault else To(pte.ppn + v.v0, pte.flags)
    else To(pte.ppn, pte.flags)
  }

  function WalkLow(mem: Memory, page: int, v: Vpn): Translation
    requires Sized(mem) && ValidVpn(v)
  {
    if !(0 <= page < |mem|) then Fault
    else
      var pte := mem[page][v.v0];
      if InvalidOrLeaf(pte) then LeafAt(pte, 0, v) else Fault
  }

  function WalkMid(mem: Memory, page: int, v: Vpn): Translation
    requires Sized(mem) && ValidVpn(v)
  {
    if !(0 <= page < |mem|) then Fault
    else
      var pte := mem[page][v.v1];
      if InvalidOrLeaf(pte) then LeafAt(pte, 1, v) else WalkLow(mem, Child(pte), v)
  }

  /** The translation of page `v` by the table whose root is `page`. */
  function Walk(mem: Memory, page: int, v: Vpn): Translation
    requires Sized(mem) && ValidVpn(v)
  {
    if !(0 <= page < |mem|) then Fault
    else
      var pte := mem[page][v.v2];
      if InvalidOrLeaf(pte) then LeafAt(pte, 2, v) else WalkMid(mem, Child(pte), v)
  }

  /** The physical address of a virtual one. */
  function Translate(mem: Memory, root: int, va: nat): Option<nat>
    requires Sized(mem)
  {
    match Walk(mem, root, VpnOf(va))
    case Fault => None
    case To(ppn, _) => Some(ppn * PAGE_SIZE + Offset(va))
  }

  // ---------------------------------------------------------------- splitting a superpage

  /** expand_superpage: the entries of the next level that stand for `pte`. */
  function Expand(pte: Pte, level: nat): (node: seq<Pte>)
    ensures |node| == FANOUT
  {
    seq(FANOUT, i requires 0 <= i < FANOUT =>
      if level == 1 then pte.(ppn := SetPpn1(pte.ppn, i))
      else if level == 0 then pte.(ppn := SetPpn0(pte.ppn, i))
      else pte)
  }

  predicate Aligned(pte: Pte, level: nat) {
    pte.flags.v && IsLeaf(pte.flags) ==>
      if level == 2 then pte.ppn % GIGA == 0 else if level == 1 then pte.ppn % MEGA == 0 else true
  }

  lemma GigaAligned(ppn: nat)
    ensures ppn % MEGA == 0 && ppn / MEGA % 512 == 0 <==> ppn % GIGA == 0
  {
    var mega := ppn / MEGA;
    assert ppn == mega * MEGA + ppn % MEGA && mega == mega / 512 * 512 + mega % 512;
    assert ppn == mega / 512 * GIGA + (mega % 512 * MEGA + ppn % MEGA);
  }

  lemma SetPpn1Fields(ppn: nat, i: nat)
    requires i < FANOUT
    ensures SetPpn1(ppn, i) % MEGA == ppn % MEGA
    ensures ppn % GIGA == 0 ==> SetPpn1(ppn, i) == ppn + i * MEGA
  {
    assert SetPpn1(ppn, i) == (ppn / GIGA * 512 + i) * MEGA + ppn % MEGA;
  }

  /** A 1G entry and the table that replaces it translate alike for every page, exactly when the
      entry is no leaf that is misaligned in the middle field alone. */
  lemma ExpandGiga(pte: Pte)
    requires InvalidOrLeaf(pte)
    ensures (forall v | ValidVpn(v) :: LeafAt(Expand(pte, 1)[v.v1], 1, v) == LeafAt(pte, 2, v)) <==>
            (pte.flags.v && (pte.flags.r || !pte.flags.w) && pte.ppn % MEGA == 0 ==> pte.ppn % GIGA == 0)
    ensures Aligned(pte, 2) ==> forall i | 0 <= i < FANOUT :: Aligned(Expand(pte, 1)[i], 1)
  {
    forall v | ValidVpn(v)
      ensures SetPpn1(pte.ppn, v.v1) % MEGA == pte.ppn % MEGA
      ensures pte.ppn % GIGA == 0 ==> SetPpn1(pte.ppn, v.v1) == pte.ppn + v.v1 * MEGA
    {
      SetPpn1Fields(pte.ppn, v.v1);
    }
    forall i | 0 <= i < FANOUT
      ensures Expand(pte, 1)[i] == pte.(ppn := SetPpn1(pte.ppn, i))
      ensures Aligned(pte, 2) ==> Aligned(Expand(pte, 1)[i], 1)
    {
      SetPpn1Fields(pte.ppn, i);
    }
    var v := Vpn(0, 0, 0);
    assert ValidVpn(v);
  }

  /** Likewise for a 2M entry: exactly when it is no misaligned leaf. */
  lemma ExpandMega(pte: Pte)
    requires InvalidOrLeaf(pte)
    ensures (forall v | ValidVpn(v) :: LeafAt(Expand(pte, 0)[v.v0], 0, v) == LeafAt(pte, 1, v)) <==>
            (pte.flags.v && (pte.flags.r || !pte.flags.w) ==> pte.ppn % MEGA == 0)
  {
    var v := Vpn(0, 0, 0);
    assert ValidVpn(v);
  }

  lemma {:induction false} FromBitsBit(bits: seq<bool>, n: nat)
    requires n < |bits|
    ensures Bit(FromBits(bits), n) <==> bits[n]
  {
    if n > 0 { FromBitsBit(bits[1..], n - 1); }
  }

  lemma {:induction false} LowBits(low: nat, high: nat, width: nat, n: nat)
    requires low < Pow2(width) && n < width
    ensures Bit(low + Pow2(width) * high, n) <==> Bit(low, n)
  {
    var all := low + Pow2(width) * high;
    var p := Pow2(width - 1);
    assert Pow2(width) == 2 * p;
    var half := low / 2;
    assert Pow2(width) * high == 2 * (p * high) by { assert (2 * p) * high == 2 * (p * high); }
    assert all / 2 == half + p * high && all % 2 == low % 2;
    if n > 0 { LowBits(half, high, width - 1, n - 1); }
  }

  /** Where the fields of an entry stand in its word: the flags in the lowest eight bits, in the order of
      section 4.4 of the RISC-V Privileged Architecture, two bits clear, and the frame number from bit 10. */
  lemma EntryLayout(pte: Pte)
    requires pte.ppn < PPN_LIMIT
    ensures var word, f := Encode(pte), pte.flags;
            && (Bit(word, 0) <==> f.v) && (Bit(word, 1) <==> f.r) && (Bit(word, 2) <==> f.w) && (Bit(word, 3) <==> f.x)
            && (Bit(word, 4) <==> f.u) && (Bit(word, 5) <==> f.g) && (Bit(word, 6) <==> f.a) && (Bit(word, 7) <==> f.d)
            && word / 256 % 4 == 0 && word / 1024 == pte.ppn
  {
    EntryBit(pte, 0);
    EntryBit(pte, 1);
    EntryBit(pte, 2);
    EntryBit(pte, 3);
    EntryBit(pte, 4);
    EntryBit(pte, 5);
    EntryBit(pte, 6);
    EntryBit(pte, 7);
    hide Bit;
  }

  /** The flags, in order. */
  function FlagBits(f: Flags): (bits: seq<bool>)
    ensures |bits| == 8
  {
    [f.v, f.r, f.w, f.x, f.u, f.g, f.a, f.d]
  }

  lemma EntryBit(pte: Pte, n: nat)
    requires n < 8
    ensures Bit(Encode(pte), n) <==> FlagBits(pte.flags)[n]
    ensures Encode(pte) / 256 % 4 == 0 && Encode(pte) / 1024 == pte.ppn
  {
    var bits := FlagBits(pte.flags);
    var low := FromBits(bits);
    BitsRoundTrip(bits);
    EightBits();
    assert Encode(pte) == low + Pow2(8) * (4 * pte.ppn);
    hide FromBits, Encode, Bit, Pow2;
    LowBits(low, 4 * pte.ppn, 8, n);
    FromBitsBit(bits, n);
    EntryDivides(low, pte.ppn);
  }

  lemma EntryDivides(low: nat, ppn: nat)
    requires low < 256
    ensures (low + 256 * (4 * ppn)) / 256 % 4 == 0 && (low + 256 * (4 * ppn)) / 1024 == ppn
  {
  }

  lemma EightBits()
    ensures Pow2(8) == 256
  {
  }

  /** pte_is_leaf and pte_invalid_or_leaf, on the word. */
  lemma LeafBits(pte: Pte)
    requires pte.ppn < PPN_LIMIT
    ensures IsLeaf(pte.flags) <==> Bit(Encode(pte), 1) || Bit(Encode(pte), 2) || Bit(Encode(pte), 3)
    ensures InvalidOrLeaf(pte) <==> !Bit(Encode(pte), 0) || IsLeaf(pte.flags)
  {
    hide Encode, Bit;
    EntryLayout(pte);
  }
}
