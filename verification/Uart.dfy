/** The ring buffers of kernel/uart.c: 64-bit counters that wrap around, and a buffer of 32 bytes. */
module Uart {
  import opened Memlayout

  const UART_TX_BUF_SIZE: nat := 32
  const U64: nat := 0x1_0000_0000_0000_0000

  /** `counter + n` as the machine adds. */
  function Add64(counter: nat, n: nat): nat {
    (counter + n) % U64
  }

  /** How far counter `w` is ahead of counter `r`. */
  function Distance(r: nat, w: nat): nat
    requires r < U64 && w < U64
  {
    if w >= r then w - r else U64 - r + w
  }

  /** The `n` bytes from counter `r` on. */
  function Window(buf: seq<u8>, r: nat, n: nat): (s: seq<u8>)
    requires |buf| == UART_TX_BUF_SIZE
    ensures |s| == n
    decreases n
  {
    if n == 0 then [] else [buf[r % UART_TX_BUF_SIZE]] + Window(buf, Add64(r, 1), n - 1)
  }

  /** The buffer size divides 2^64, so wrapping a counter around does not move its place. */
  lemma WrapKeepsPlace(counter: nat, n: nat)
    requires counter < U64 && n <= UART_TX_BUF_SIZE
    ensures Add64(counter, n) % UART_TX_BUF_SIZE == (counter % UART_TX_BUF_SIZE + n) % UART_TX_BUF_SIZE
    ensures Add64(counter, n) == if counter + n < U64 then counter + n else counter + n - U64
  {
    assert U64 == 0x800_0000_0000_0000 * UART_TX_BUF_SIZE;
  }

  lemma NextPlace(r: nat, n: nat)
    requires r < U64 && 0 < n < UART_TX_BUF_SIZE
    ensures Add64(r, 1) < U64
    ensures (Add64(r, 1) % UART_TX_BUF_SIZE + (n - 1)) % UART_TX_BUF_SIZE == (r % UART_TX_BUF_SIZE + n) % UART_TX_BUF_SIZE
    ensures (r % UART_TX_BUF_SIZE + n) % UART_TX_BUF_SIZE != r % UART_TX_BUF_SIZE
  {
    WrapKeepsPlace(r, 1);
    var place := r % UART_TX_BUF_SIZE;
    assert (place + 1) % UART_TX_BUF_SIZE == if place + 1 == UART_TX_BUF_SIZE then 0 else place + 1;
    assert (place + n) % UART_TX_BUF_SIZE == if place + n >= UART_TX_BUF_SIZE then place + n - UART_TX_BUF_SIZE else place + n;
  }

  lemma {:induction false} WindowWrite(buf: seq<u8>, r: nat, m: nat, n: nat, c: u8)
    requires |buf| == UART_TX_BUF_SIZE && r < U64 && m <= n < UART_TX_BUF_SIZE
    ensures Window(buf[(r % UART_TX_BUF_SIZE + n) % UART_TX_BUF_SIZE := c], r, m) == Window(buf, r, m)
    decreases m
  {
    if m > 0 {
      NextPlace(r, n);
      WindowWrite(buf, Add64(r, 1), m - 1, n - 1, c);
    }
  }

  lemma {:induction false} WindowGrow(buf: seq<u8>, r: nat, n: nat)
    requires |buf| == UART_TX_BUF_SIZE && r < U64 && n < UART_TX_BUF_SIZE
    ensures Window(buf, r, n + 1) == Window(buf, r, n) + [buf[(r % UART_TX_BUF_SIZE + n) % UART_TX_BUF_SIZE]]
    decreases n
  {
    if n > 0 {
      NextPlace(r, n);
      WindowGrow(buf, Add64(r, 1), n - 1);
    }
  }

  /** Counters that are apart by no more than the buffer size tell by comparison alone whether the
      ring is full or empty. */
  lemma Counters(r: nat, w: nat)
    requires r < U64 && w < U64 && Distance(r, w) <= UART_TX_BUF_SIZE
    ensures Distance(r, w) == 0 <==> w == r
    ensures Distance(r, w) == UART_TX_BUF_SIZE <==> w == Add64(r, UART_TX_BUF_SIZE)
    ensures Distance(r, Add64(w, 1)) == Distance(r, w) + 1
    ensures Distance(r, w) > 0 ==> Distance(Add64(r, 1), w) == Distance(r, w) - 1
    ensures w == Add64(r, Distance(r, w))
  {
    WrapKeepsPlace(r, UART_TX_BUF_SIZE);
    WrapKeepsPlace(r, 1);
    WrapKeepsPlace(w, 1);
    WrapKeepsPlace(r, Distance(r, w));
  }

  class Ring {
    const buf: array<u8>
    var w: nat
    var r: nat

    ghost predicate Valid()
      reads this
    {
      buf.Length == UART_TX_BUF_SIZE && w < U64 && r < U64 && Distance(r, w) <= UART_TX_BUF_SIZE
    }

    /** The bytes in the ring, oldest first. */
    ghost function Contents(): (s: seq<u8>)
      requires Valid()
      reads this, buf
      ensures |s| == Distance(r, w) <= UART_TX_BUF_SIZE
    {
      Window(buf[..], r, Distance(r, w))
    }

    constructor ()
      ensures Valid() && fresh(buf) && Contents() == []
    {
      buf := new u8[UART_TX_BUF_SIZE];
      w, r := 0, 0;
    }

    method Full() returns (full: bool)
      requires Valid()
      ensures full <==> |Contents()| == UART_TX_BUF_SIZE
    {
      Counters(r, w);
      full := w == Add64(r, UART_TX_BUF_SIZE);
    }

    method Empty() returns (empty: bool)
      requires Valid()
      ensures empty <==> Contents() == []
    {
      Counters(r, w);
      empty := w == r;
    }

    method Put(c: u8)
      requires Valid() && |Contents()| < UART_TX_BUF_SIZE
      modifies this`w, buf
      ensures Valid() && Contents() == old(Contents()) + [c]
    {
      ghost var n := Distance(r, w);
      Counters(r, w);
      WrapKeepsPlace(r, n);
      WindowWrite(buf[..], r, n, n, c);
      buf[w % UART_TX_BUF_SIZE] := c;
      WindowGrow(buf[..], r, n);
      w := Add64(w, 1);
    }

    method Get() returns (c: u8)
      requires Valid() && Contents() != []
      modifies this`r
      ensures Valid() && [c] + Contents() == old(Contents())
    {
      Counters(r, w);
      WrapKeepsPlace(r, 1);
      c := buf[r % UART_TX_BUF_SIZE];
      r := Add64(r, 1);
    }
  }
}
