/** The decimal printer and reader of user/stdio.h. */
module Stdio {
  import opened Memlayout

  const MINUS: u8 := 45
  const ZERO: u8 := 48
  const BUFLEN: nat := 64
  const INT_MAX: int := 0x7fff_ffff
  const INT_MIN: int := -0x8000_0000
  const ULLONG_MAX: int := 0xffff_ffff_ffff_ffff

  predicate InInt(x: int) {
    INT_MIN <= x <= INT_MAX
  }

  /** The 32-bit int that `x` becomes in two's complement. */
  function Wrap(x: int): (r: int)
    ensures InInt(r)
    ensures InInt(x) ==> r == x
  {
    (x - INT_MIN) % 0x1_0000_0000 + INT_MIN
  }

  /** It differs from `x` by a multiple of 2^32. */
  lemma WrapIs(x: int)
    ensures (x - Wrap(x)) % 0x1_0000_0000 == 0 && -0x8000_0000 <= Wrap(x) < 0x8000_0000
  {
    var m := 0x1_0000_0000;
    assert Wrap(x) == x - (x - INT_MIN) / m * m;
  }

  predicate IsDigit(c: u8) {
    48 <= c <= 57
  }

  // ---------------------------------------------------------------- printing

  /** The digits of `x`, most significant first. */
  function Digits(x: nat): (ds: seq<u8>)
    ensures ds != [] && forall d | d in ds :: IsDigit(d)
    decreases x
  {
    (if x < 10 then [] else Digits(x / 10)) + [(48 + x % 10) as u8]
  }

  /** The number that the digits make. */
  function Value(ds: seq<u8>): int
    decreases |ds|
  {
    if ds == [] then 0 else Value(ds[..|ds| - 1]) * 10 + (ds[|ds| - 1] as int - 48)
  }

  lemma {:induction false} ValueOfDigits(x: nat)
    ensures Value(Digits(x)) == x
    decreases x
  {
    if x >= 10 {
      ValueOfDigits(x / 10);
      assert Digits(x)[..|Digits(x)| - 1] == Digits(x / 10);
    }
  }

  function Pow10(n: nat): nat {
    if n == 0 then 1 else 10 * Pow10(n - 1)
  }

  lemma {:induction false} Pow10Plus(m: nat, n: nat)
    ensures Pow10(m + n) == Pow10(m) * Pow10(n)
  {
    if m > 0 { Pow10Plus(m - 1, n); }
  }

  lemma TwentyDigits()
    ensures Pow10(20) > ULLONG_MAX
  {
    Pow10Plus(5, 5);
    Pow10Plus(10, 10);
  }

  /** The buffer is printed from one above its last digit, so the digits come after a NUL. */
  function Printed(v: int): seq<u8> {
    if v < 0 then [MINUS, 0] + Digits(-v) else [0] + Digits(v)
  }

  function Reversed(s: seq<u8>): seq<u8> {
    if s == [] then [] else Reversed(s[1..]) + [s[0]]
  }

  lemma {:induction false} ReversedMore(s: seq<u8>, d: u8)
    ensures Reversed(s + [d]) == [d] + Reversed(s)
  {
    if s != [] {
      ReversedMore(s[1..], d);
      assert (s + [d])[1..] == s[1..] + [d];
    }
  }

  lemma DigitStep(left: nat, n: nat)
    requires left < Pow10(n) && n > 0
    ensures left / 10 < Pow10(n - 1)
  {
  }

  lemma DigitsStep(x: nat, left: nat, was: seq<u8>, d: u8)
    requires Digits(x) == Digits(left) + Reversed(was) && d as int == left % 10 + 48
    ensures Digits(x) == (if left / 10 != 0 then Digits(left / 10) else []) + Reversed(was + [d])
  {
    assert Digits(left) == (if left < 10 then [] else Digits(left / 10)) + [d];
    ReversedMore(was, d);
    hide *;
    var high := if left < 10 then [] else Digits(left / 10);
    assert high + [d] + Reversed(was) == high + ([d] + Reversed(was));
  }

  /** The first loop of print_uint: the digits from the last one on, and NULs behind them. */
  method FillDigits(x: nat) returns (buf: array<u8>, top: nat)
    requires x <= ULLONG_MAX
    ensures fresh(buf) && buf.Length == BUFLEN && 0 < top <= 20 && buf[top] == 0 && Digits(x) == Reversed(buf[..top])
  {
    hide Pow10, Digits;
    assert Reversed([]) == [];
    hide Reversed;
    buf := new u8[BUFLEN](i => 0);
    top := 0;
    var left: nat := x;
    TwentyDigits();
    var more := true;
    while more
      invariant top <= 20 && (more ==> top < 20) && (!more ==> top > 0) && left < Pow10(20 - top)
      invariant forall i | top <= i < BUFLEN :: buf[i] == 0
      invariant Digits(x) == (if more then Digits(left) else []) + Reversed(buf[..top])
      decreases more, left
    {
      ghost var was := buf[..top];
      DigitStep(left, 20 - top);
      buf[top] := (left % 10 + 48) as u8;
      DigitsStep(x, left, was, buf[top]);
      top := top + 1;
      assert buf[..top] == was + [buf[top - 1]];
      left := left / 10;
      more := left != 0;
      if more && top == 20 { OneMore(left); }
    }
  }

  /** print_uint. */
  method PrintUint(x: nat, neg: bool) returns (out: seq<u8>)
    requires x <= ULLONG_MAX
    ensures out == (if neg then [MINUS] else []) + [0] + Digits(x)
  {
    var buf, top := FillDigits(x);
    hide Digits;
    ghost var all := buf[..top] + [0];
    ReversedMore(buf[..top], 0);
    assert Reversed(all) == [0] + Digits(x) && all[..top + 1] == all;
    ghost var sign: seq<u8> := if neg then [MINUS] else [];
    out := if neg then [MINUS] else [];
    var n: int := top;
    while n >= 0
      invariant -1 <= n <= top && buf[..top + 1] == all
      invariant out + Reversed(all[..n + 1]) == sign + Reversed(all)
      modifies {}
    {
      assert all[..n + 1] == all[..n] + [all[n]] && buf[n] == buf[..top + 1][n];
      ReversedMore(all[..n], all[n]);
      out := out + [buf[n]];
      n := n - 1;
    }
    assert all[..n + 1] == [] && Reversed([]) == [];
    assert out + [] == out && sign + ([0] + Digits(x)) == sign + [0] + Digits(x);
  }

  lemma OneMore(left: nat)
    requires left < Pow10(0)
    ensures left == 0
  {
  }

  /** putint. */
  method Putint(value: int) returns (out: seq<u8>)
    requires InInt(value)
    ensures out == Printed(value)
  {
    if value < 0 {
      out := PrintUint(-value, true);
    } else {
      out := PrintUint(value, false);
    }
  }

  // ---------------------------------------------------------------- reading

  /** The first index from `p` on with a digit, or the end. */
  function NextDigit(s: seq<u8>, p: nat): (q: nat)
    requires p <= |s|
    ensures p <= q <= |s| && (forall i | p <= i < q :: !IsDigit(s[i])) && (q < |s| ==> IsDigit(s[q]))
    decreases |s| - p
  {
    if p == |s| || IsDigit(s[p]) then p else NextDigit(s, p + 1)
  }

  /** The first index from `p` on with no digit, or the end. */
  function EndDigits(s: seq<u8>, p: nat): (q: nat)
    requires p <= |s|
    ensures p <= q <= |s| && (forall i | p <= i < q :: IsDigit(s[i])) && (q < |s| ==> !IsDigit(s[q]))
    decreases |s| - p
  {
    if p == |s| || !IsDigit(s[p]) then p else EndDigits(s, p + 1)
  }

  function Sign(before: seq<u8>): int {
    if MINUS in before then -1 else 1
  }

  /** What getint reads from index `p` on, and where it stops: behind the first byte that ends the
      digits. Without one it is still waiting. */
  function Scan(s: seq<u8>, p: nat): Option<(int, nat)>
    requires p <= |s|
  {
    var q := NextDigit(s, p);
    var e := EndDigits(s, q);
    if e == |s| then None else Some((Wrap(Sign(s[p..q]) * Value(s[q..e])), e + 1))
  }

  /** No intermediate of the loop over the digits leaves the range of int. */
  predicate Exact(ds: seq<u8>)
    decreases |ds|
  {
    ds == [] ||
    var init := ds[..|ds| - 1];
    var i, c := Value(init), ds[|ds| - 1] as int;
    Exact(init) && InInt(i * 10) && InInt(i * 10 + c) && InInt(i * 10 + c - 48)
  }

  /** Whether getint computes without leaving the range. */
  predicate ScanExact(s: seq<u8>, p: nat)
    requires p <= |s|
  {
    var q := NextDigit(s, p);
    var ds := s[q..EndDigits(s, q)];
    Exact(ds) && InInt(Sign(s[p..q]) * Value(ds))
  }

  lemma WrapTimes(x: int, k: int)
    ensures Wrap(Wrap(x) * k) == Wrap(x * k)
  {
    var m := 0x1_0000_0000;
    var n := (x - INT_MIN) / m;
    assert Wrap(x) == x - n * m;
    assert Wrap(x) * k == x * k - (n * k) * m by { assert n * m * k == (n * k) * m; }
    WrapShift(x * k, -(n * k));
  }

  lemma {:induction false} WrapShift(x: int, n: int)
    ensures Wrap(x + n * 0x1_0000_0000) == Wrap(x)
    decreases if n < 0 then -n else n
  {
    if n > 0 { WrapShift(x, n - 1); WrapNext(x + (n - 1) * 0x1_0000_0000); }
    if n < 0 { WrapShift(x, n + 1); WrapNext(x + n * 0x1_0000_0000); }
  }

  lemma WrapNext(x: int)
    ensures Wrap(x + 0x1_0000_0000) == Wrap(x)
  {
  }

  /** One round of the second loop, with the three operations wrapping one by one. */
  lemma WrapDigit(v: int, c: int)
    ensures Wrap(Wrap(Wrap(Wrap(v) * 10) + c) - 48) == Wrap(v * 10 + (c - 48))
  {
    WrapTimes(v, 10);
    WrapPlus(v * 10, c);
    WrapPlus(v * 10 + c, -48);
  }

  lemma WrapPlus(x: int, k: int)
    ensures Wrap(Wrap(x) + k) == Wrap(x + k)
  {
    var n := (x - INT_MIN) / 0x1_0000_0000;
    assert Wrap(x) == x - n * 0x1_0000_0000;
    WrapShift(x + k, -n);
  }

  lemma OneDigit(s: seq<u8>, q: nat, n: nat)
    requires q <= n < |s|
    ensures var v, c := Value(s[q..n]), s[n] as int;
            && Value(s[q..n + 1]) == v * 10 + (c - 48)
            && (Exact(s[q..n + 1]) <==> Exact(s[q..n]) && InInt(v * 10) && InInt(v * 10 + c) && InInt(v * 10 + c - 48))
  {
    var ds := s[q..n + 1];
    assert ds[..|ds| - 1] == s[q..n];
  }

  lemma EndStep(s: seq<u8>, n: nat)
    requires n <= |s|
    ensures if n < |s| && IsDigit(s[n]) then EndDigits(s, n) == EndDigits(s, n + 1) else EndDigits(s, n) == n
  {
  }

  /** The second loop of getint, from the first digit on. `more` is left if the input ends in it. */
  method GetDigits(input: seq<u8>, q: nat) returns (i: int, n: nat, more: bool, ghost exact: bool)
    requires q < |input| && IsDigit(input[q])
    ensures n == EndDigits(input, q) && (more <==> n == |input|)
    ensures !more ==> i == Wrap(Value(input[q..n])) && (exact <==> Exact(input[q..n]))
  {
    assert input[q..q] == [];
    i, n, exact := 0, q, true;
    assert i == Wrap(Value(input[q..n])) && (exact <==> Exact(input[q..n]));
    hide Wrap, Value, Exact, InInt, IsDigit, EndDigits;
    more := true;
    while more && n < |input|
      invariant q <= n <= |input| && EndDigits(input, n) == EndDigits(input, q)
      invariant if more then n < |input| ==> IsDigit(input[n]) else n < |input| && !IsDigit(input[n])
      invariant i == Wrap(Value(input[q..n])) && (exact <==> Exact(input[q..n]))
      decreases more, |input| - n
    {
      OneDigit(input, q, n);
      EndStep(input, n);
      ghost var v := Value(input[q..n]);
      var c: int := input[n];
      WrapDigit(v, c);
      exact := exact && InInt(v * 10) && InInt(v * 10 + c) && InInt(v * 10 + c - 48);
      i := Wrap(Wrap(Wrap(i * 10) + c) - 48);
      n := n + 1;
      if n < |input| {
        more := IsDigit(input[n]);
      }
    }
    EndStep(input, n);
  }

  /** getint on the bytes to come from index `p` on. `exact` tells whether no intermediate left the
      range of int. */
  method Getint(input: seq<u8>, p: nat) returns (r: Option<(int, nat)>, ghost exact: bool)
    requires p <= |input|
    ensures r == Scan(input, p)
    ensures r.Some? ==> (exact <==> ScanExact(input, p))
  {
    hide Wrap;
    ghost var q := NextDigit(input, p);
    ghost var e := EndDigits(input, q);
    var i, sign := 0, 1;
    exact := true;
    var n := p;
    while n < |input| && !IsDigit(input[n])
      invariant p <= n <= q && NextDigit(input, n) == q && sign == Sign(input[p..n])
    {
      assert input[p..n + 1] == input[p..n] + [input[n]];
      if input[n] == MINUS {
        sign := -1;
      }
      n := n + 1;
    }
    if n == |input| { return None, exact; }
    var more;
    i, n, more, exact := GetDigits(input, n);
    if more { return None, exact; }
    ghost var v := Value(input[q..e]);
    WrapTimes(v, sign);
    exact := exact && InInt(v * sign);
    r := Some((Wrap(i * sign), n + 1));
  }

  // ---------------------------------------------------------------- one after the other

  /** Whatever is printed is read back, wherever it stands in the input, if a byte that is no digit
      comes next. */
  lemma PutThenGet(before: seq<u8>, v: int, c: u8, after: seq<u8>)
    requires InInt(v) && !IsDigit(c)
    ensures Scan(before + Printed(v) + [c] + after, |before|) == Some((v, |before| + |Printed(v)| + 1))
    ensures ScanExact(before + Printed(v) + [c] + after, |before|) <==> -2147483599 <= v <= 2147483599
  {
    var s := before + Printed(v) + [c] + after;
    var m := if v < 0 then -v else v;
    var q := |before| + if v < 0 then 2 else 1;
    hide Scan, ScanExact, Digits, Value, Exact, Printed, Sign, IsDigit;
    Placed(before, v, c, after);
    Found(s, |before|, q, q + |Digits(m)|);
    ValueOfDigits(m);
    ExactDigits(m);
    SignOf(v);
  }

  lemma SignOf(v: int)
    ensures Sign(if v < 0 then [MINUS, 0] else [0]) == if v < 0 then -1 else 1
  {
  }

  /** Where things are in the input. */
  lemma Placed(before: seq<u8>, v: int, c: u8, after: seq<u8>)
    requires !IsDigit(c)
    ensures var s := before + Printed(v) + [c] + after;
            var m := if v < 0 then -v else v;
            var q := |before| + if v < 0 then 2 else 1;
            var e := q + |Digits(m)|;
            && e < |s| && s[e] == c && s[q..e] == Digits(m) && s[|before|..q] == (if v < 0 then [MINUS, 0] else [0])
            && (forall i | |before| <= i < q :: !IsDigit(s[i])) && (forall i | q <= i < e :: IsDigit(s[i]))
            && |Printed(v)| == e - |before|
  {
    hide Digits;
    var m := if v < 0 then -v else v;
    Layout(before, if v < 0 then [MINUS, 0] else [0], Digits(m), c, after);
  }

  lemma Layout(before: seq<u8>, sign: seq<u8>, ds: seq<u8>, c: u8, after: seq<u8>)
    requires (forall d | d in sign :: !IsDigit(d)) && forall d | d in ds :: IsDigit(d)
    ensures var s := before + (sign + ds) + [c] + after;
            var q := |before| + |sign|;
            var e := q + |ds|;
            && e < |s| && s[e] == c && s[q..e] == ds && s[|before|..q] == sign
            && (forall i | |before| <= i < q :: !IsDigit(s[i])) && (forall i | q <= i < e :: IsDigit(s[i]))
  {
    hide IsDigit;
    var s := before + (sign + ds) + [c] + after;
    var q := |before| + |sign|;
    assert forall i | |before| <= i < q :: s[i] == sign[i - |before|];
    assert forall i | q <= i < q + |ds| :: s[i] == ds[i - q];
  }

  /** Whatever was skipped before the first digit, one minus sign in it negates the number, and without
      one it stays as it is. */
  lemma SkippedSign(before: seq<u8>, skipped: seq<u8>, ds: seq<u8>, c: u8, after: seq<u8>)
    requires (forall i | 0 <= i < |skipped| :: !(48 <= skipped[i] <= 57)) && !(48 <= c <= 57)
    requires ds != [] && forall i | 0 <= i < |ds| :: 48 <= ds[i] <= 57
    ensures var s := before + (skipped + ds) + [c] + after;
            && ((exists i :: 0 <= i < |skipped| && skipped[i] == 45) ==>
                  Scan(s, |before|) == Some((Wrap(-Value(ds)), |before| + |skipped| + |ds| + 1)))
            && (!(exists i :: 0 <= i < |skipped| && skipped[i] == 45) ==>
                  Scan(s, |before|) == Some((Wrap(Value(ds)), |before| + |skipped| + |ds| + 1)))
  {
    hide Scan, Value, Wrap, Sign, IsDigit;
    NoDigits(skipped);
    AllDigits(ds);
    NoDigits([c]);
    assert !IsDigit([c][0]);
    SkippedScan(before, skipped, ds, c, after);
    SignIs(skipped);
  }

  lemma NoDigits(s: seq<u8>)
    requires forall i | 0 <= i < |s| :: !(48 <= s[i] <= 57)
    ensures forall d | d in s :: !IsDigit(d)
  {
  }

  lemma AllDigits(s: seq<u8>)
    requires forall i | 0 <= i < |s| :: 48 <= s[i] <= 57
    ensures forall d | d in s :: IsDigit(d)
  {
  }

  lemma SignIs(skipped: seq<u8>)
    ensures Sign(skipped) == if exists i :: 0 <= i < |skipped| && skipped[i] == 45 then -1 else 1
  {
  }

  lemma SkippedScan(before: seq<u8>, skipped: seq<u8>, ds: seq<u8>, c: u8, after: seq<u8>)
    requires (forall d | d in skipped :: !IsDigit(d)) && !IsDigit(c)
    requires ds != [] && forall d | d in ds :: IsDigit(d)
    ensures Scan(before + (skipped + ds) + [c] + after, |before|) ==
            Some((Wrap(Sign(skipped) * Value(ds)), |before| + |skipped| + |ds| + 1))
  {
    hide Scan, Value, Wrap, Sign, IsDigit;
    Layout(before, skipped, ds, c, after);
    Found(before + (skipped + ds) + [c] + after, |before|, |before| + |skipped|, |before| + |skipped| + |ds|);
  }

  /** A digit put in front counts as many times as its place says. */
  lemma {:induction false} ValueInFront(d: u8, ds: seq<u8>)
    ensures Value([d] + ds) == (d as int - 48) * Pow10(|ds|) + Value(ds)
    decreases |ds|
  {
    var all := [d] + ds;
    if ds == [] {
      assert all[..0] == [];
    } else {
      ValueInFront(d, ds[..|ds| - 1]);
      assert all[..|all| - 1] == [d] + ds[..|ds| - 1];
      var p := Pow10(|ds| - 1);
      assert ((d as int - 48) * p + Value(ds[..|ds| - 1])) * 10 == (d as int - 48) * (10 * p) + Value(ds[..|ds| - 1]) * 10;
    }
  }

  /** No number is printed with a zero in front, but zero itself. */
  lemma {:induction false} NoLeadingZero(x: nat)
    ensures Digits(x)[0] == 48 ==> x == 0 && Digits(x) == [48]
    decreases x
  {
    if x >= 10 { NoLeadingZero(x / 10); }
  }

  lemma Found(s: seq<u8>, p: nat, q: nat, e: nat)
    requires p <= q < e < |s| && !IsDigit(s[e])
    requires (forall i | p <= i < q :: !IsDigit(s[i])) && forall i | q <= i < e :: IsDigit(s[i])
    ensures Scan(s, p) == Some((Wrap(Sign(s[p..q]) * Value(s[q..e])), e + 1))
    ensures ScanExact(s, p) <==> Exact(s[q..e]) && InInt(Sign(s[p..q]) * Value(s[q..e]))
  {
    assert NextDigit(s, p) == q && EndDigits(s, q) == e by { assert IsDigit(s[q]); }
  }

  lemma {:induction false} ExactDigits(x: nat)
    ensures Exact(Digits(x)) <==> x <= 2147483599
    decreases x
  {
    var ds := Digits(x);
    var init := ds[..|ds| - 1];
    assert init == if x < 10 then [] else Digits(x / 10);
    if x >= 10 {
      ExactDigits(x / 10);
      ValueOfDigits(x / 10);
    }
    assert Value(init) == x / 10;
  }
}
