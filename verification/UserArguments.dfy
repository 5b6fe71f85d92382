/** user_copy_args of kernel/mm.c: the strings of an argument vector copied from user memory into a
    buffer, behind a table of pointers to them. */
module UserArguments {
  import opened Memlayout
  import opened StartImage

  const ARG_MAX: nat := PAGE_SIZE - 16

  /** With TooMany the buffer stays allocated, with TooLong it is freed; BadLength is the panic of
      strlcpy when it is given no room at all. */
  datatype Copying = Copied | TooMany | TooLong | BadLength

  /** Where in the buffer string `i` begins. */
  function Offset(strings: seq<CString>, i: nat): nat
    requires i <= |strings|
  {
    (|strings| + 1) * WORD + Total(strings[..i])
  }

  function Word(buf: seq<u8>, i: nat): nat
    requires (i + 1) * WORD <= |buf|
  {
    FromLittleEndian(buf[i * WORD..i * WORD + WORD])
  }

  /** String `i` is in the buffer, and slot `i` points to it. */
  ghost predicate Holds(buf: seq<u8>, base: nat, strings: seq<CString>, i: nat)
    requires i < |strings|
  {
    && (|strings| + 1) * WORD <= Offset(strings, i) < Offset(strings, i + 1) <= |buf|
    && Word(buf, i) == base + Offset(strings, i)
    && buf[Offset(strings, i)..Offset(strings, i + 1)] == strings[i] + [0]
  }

  lemma OffsetStep(strings: seq<CString>, i: nat)
    requires i < |strings|
    ensures Offset(strings, i + 1) == Offset(strings, i) + |strings[i]| + 1
  {
    assert strings[..i + 1] == strings[..i] + [strings[i]];
    TotalAppend(strings[..i], [strings[i]]);
  }

  lemma {:induction false} OffsetsAscend(strings: seq<CString>, i: nat, j: nat)
    requires i <= j <= |strings|
    ensures Offset(strings, i) <= Offset(strings, j) && (i < j ==> Offset(strings, i) < Offset(strings, j))
    decreases j - i
  {
    if i < j {
      OffsetStep(strings, i);
      OffsetsAscend(strings, i + 1, j);
    }
  }

  /** Some string would have to begin exactly at the end of the buffer. */
  ghost predicate EndsFull(strings: seq<CString>) {
    exists i | 0 <= i < |strings| :: Offset(strings, i) == ARG_MAX
  }

  lemma EndsFullIs(strings: seq<CString>)
    ensures EndsFull(strings) <==> exists i | 0 <= i < |strings| :: 8 * (|strings| + 1) + Total(strings[..i]) == 4080
  {
    if i :| 0 <= i < |strings| && 8 * (|strings| + 1) + Total(strings[..i]) == 4080 {
      assert Offset(strings, i) == ARG_MAX;
    }
  }

  /** The buffer after the pointer to string `i` and the string have been written. */
  function WithArgument(buf: seq<u8>, base: nat, strings: seq<CString>, i: nat): (r: seq<u8>)
    requires i < |strings| && (|strings| + 1) * WORD <= |buf| && Offset(strings, i) + |strings[i]| + 1 <= |buf|
    ensures |r| == |buf|
  {
    Patch(Patch(buf, i * WORD, LittleEndian(base + Offset(strings, i), WORD)), Offset(strings, i), strings[i] + [0])
  }

  lemma WithArgumentHolds(buf: seq<u8>, base: nat, strings: seq<CString>, i: nat)
    requires i < |strings| && (|strings| + 1) * WORD <= |buf| && Offset(strings, i + 1) <= |buf|
    requires base + |buf| <= Pow256(WORD)
    ensures Offset(strings, i + 1) == Offset(strings, i) + |strings[i]| + 1
    ensures Holds(WithArgument(buf, base, strings, i), base, strings, i)
  {
    hide LittleEndian, FromLittleEndian, Pow256, Total, Patch;
    OffsetStep(strings, i);
    var value, off := base + Offset(strings, i), Offset(strings, i);
    var first := Patch(buf, i * WORD, LittleEndian(value, WORD));
    PatchRead(buf, i * WORD, LittleEndian(value, WORD), i * WORD, i * WORD + WORD);
    PatchRead(first, off, strings[i] + [0], i * WORD, i * WORD + WORD);
    PatchRead(first, off, strings[i] + [0], off, off + |strings[i]| + 1);
    WordRoundTrip(value, WORD);
  }

  lemma WithArgumentKeeps(buf: seq<u8>, base: nat, strings: seq<CString>, i: nat, j: nat)
    requires j < i < |strings| && (|strings| + 1) * WORD <= |buf| && Offset(strings, i) + |strings[i]| + 1 <= |buf|
    requires Holds(buf, base, strings, j)
    ensures Holds(WithArgument(buf, base, strings, i), base, strings, j)
  {
    hide LittleEndian, FromLittleEndian, Pow256, Total, Patch;
    OffsetsAscend(strings, j + 1, i);
    var value, off := base + Offset(strings, i), Offset(strings, i);
    var first := Patch(buf, i * WORD, LittleEndian(value, WORD));
    var lo, hi := Offset(strings, j), Offset(strings, j + 1);
    PatchRead(buf, i * WORD, LittleEndian(value, WORD), j * WORD, j * WORD + WORD);
    PatchRead(first, off, strings[i] + [0], j * WORD, j * WORD + WORD);
    PatchRead(buf, i * WORD, LittleEndian(value, WORD), lo, hi);
    PatchRead(first, off, strings[i] + [0], lo, hi);
  }

  /** The NULL behind the last pointer leaves the rest alone. */
  lemma TerminatorKeeps(buf: seq<u8>, base: nat, strings: seq<CString>, j: nat)
    requires j < |strings| && Holds(buf, base, strings, j)
    ensures Holds(Patch(buf, |strings| * WORD, LittleEndian(0, WORD)), base, strings, j)
  {
    hide LittleEndian, FromLittleEndian, Total, Patch;
    PatchRead(buf, |strings| * WORD, LittleEndian(0, WORD), j * WORD, j * WORD + WORD);
    PatchRead(buf, |strings| * WORD, LittleEndian(0, WORD), Offset(strings, j), Offset(strings, j + 1));
  }

  lemma TerminatorIsNull(buf: seq<u8>, at: nat)
    requires at + WORD <= |buf|
    ensures FromLittleEndian(Patch(buf, at, LittleEndian(0, WORD))[at..at + WORD]) == 0
  {
    hide LittleEndian, FromLittleEndian, Patch, Pow256;
    PatchRead(buf, at, LittleEndian(0, WORD), at, at + WORD);
    UserstackFits();
    WordRoundTrip(0, WORD);
  }

  /** One round of the loop: string `i` with its pointer, if there is room. */
  method CopyOne(buf: array<u8>, base: nat, strings: seq<CString>, i: nat, off: nat) returns (length: nat)
    requires buf.Length == ARG_MAX && i < |strings| && off == Offset(strings, i) < ARG_MAX
    modifies buf
    ensures length >= ARG_MAX - off <==> Offset(strings, i + 1) > ARG_MAX
    ensures Offset(strings, i + 1) <= ARG_MAX ==>
              && length == |strings[i]| && Offset(strings, i) + |strings[i]| + 1 <= ARG_MAX
              && buf[..] == WithArgument(old(buf[..]), base, strings, i)
  {
    hide LittleEndian, Total, Patch;
    OffsetStep(strings, i);
    Store(buf, i * WORD, base + off);
    length := Strlcpy(buf, off, strings[i], ARG_MAX - off);
  }

  /** What the loop has done before round `n`. */
  ghost predicate HoldsUpTo(buf: seq<u8>, base: nat, strings: seq<CString>, n: nat)
    requires n <= |strings|
  {
    |buf| == ARG_MAX && forall j | 0 <= j < n :: Holds(buf, base, strings, j)
  }

  lemma OneMore(before: seq<u8>, after: seq<u8>, base: nat, strings: seq<CString>, i: nat)
    requires i < |strings| && HoldsUpTo(before, base, strings, i) && base + ARG_MAX <= Pow256(WORD)
    requires (|strings| + 1) * WORD <= ARG_MAX && Offset(strings, i + 1) <= ARG_MAX
    requires Offset(strings, i) + |strings[i]| + 1 <= ARG_MAX && after == WithArgument(before, base, strings, i)
    ensures HoldsUpTo(after, base, strings, i + 1)
  {
    hide Holds, WithArgument, Pow256, Total;
    WithArgumentHolds(before, base, strings, i);
    forall j | 0 <= j < i
      ensures Holds(after, base, strings, j)
    {
      WithArgumentKeeps(before, base, strings, i, j);
    }
  }

  /** user_copy_args into a buffer at address `base`. It copies exactly when the table and the strings
      fit; short of that it panics exactly when a string would begin at the very end. */
  method UserCopyArgs(buf: array<u8>, base: nat, args: seq<CString>) returns (r: Copying)
    requires buf.Length == ARG_MAX && base + ARG_MAX <= Pow256(WORD)
    modifies buf
    ensures r == TooMany <==> 8 * (|args| + 1) > 4080
    ensures r == Copied <==> 8 * (|args| + 1) + Total(args) <= 4080
    ensures r == BadLength <==> exists i | 0 <= i < |args| :: 8 * (|args| + 1) + Total(args[..i]) == 4080
    ensures r == Copied ==> HoldsUpTo(buf[..], base, args, |args|) && Word(buf[..], |args|) == 0
  {
    hide Holds, WithArgument, Pow256, Total, LittleEndian, FromLittleEndian, Patch;
    assert args[..|args|] == args;
    EndsFullIs(args);
    OffsetsAscend(args, 0, |args|);
    StartsBehindTable(args);
    var argc := 0;
    while argc < |args|
      invariant argc <= |args|
      modifies {}
    {
      argc := argc + 1;
    }
    var off := (argc + 1) * WORD;
    if off > ARG_MAX { return TooMany; }
    for i := 0 to argc
      invariant off == Offset(args, i) <= ARG_MAX && HoldsUpTo(buf[..], base, args, i)
      invariant forall j | 0 <= j < i :: Offset(args, j) < ARG_MAX
    {
      OffsetsAscend(args, i, argc);
      if off == ARG_MAX { return BadLength; } // kassert in strlcpy: "bad n"
      ghost var before := buf[..];
      OffsetStep(args, i);
      var length := CopyOne(buf, base, args, i, off);
      if length >= ARG_MAX - off {
        LaterAbove(args, i + 1);
        return TooLong;
      }
      OneMore(before, buf[..], base, args, i);
      off := off + length + 1;
    }
    ghost var before := buf[..];
    Store(buf, argc * WORD, 0);
    TerminatorIsNull(before, argc * WORD);
    forall j | 0 <= j < argc
      ensures Holds(buf[..], base, args, j)
    {
      TerminatorKeeps(before, base, args, j);
    }
    r := Copied;
  }

  lemma StartsBehindTable(strings: seq<CString>)
    ensures Offset(strings, 0) == (|strings| + 1) * WORD
    ensures (|strings| + 1) * WORD > ARG_MAX ==> !EndsFull(strings)
  {
    forall i | 0 <= i < |strings|
      ensures Offset(strings, i) >= (|strings| + 1) * WORD
    {
    }
  }

  lemma LaterAbove(strings: seq<CString>, i: nat)
    requires i <= |strings| && Offset(strings, i) > ARG_MAX
    ensures forall j | i <= j <= |strings| :: Offset(strings, j) > ARG_MAX
  {
    forall j | i <= j <= |strings|
      ensures Offset(strings, j) > ARG_MAX
    {
      OffsetsAscend(strings, i, j);
    }
  }
}
