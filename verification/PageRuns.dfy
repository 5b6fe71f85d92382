/** What runs of calls do to a page table: the last call that covers a page decides about it. */
module PageRuns {
  import opened Memlayout
  import opened Sv39
  import opened PageTree
  import opened PageTables

  /** A state between two calls. */
  datatype Tables = Tables(mem: Memory, roles: Roles)

  /** `ts` are the states before and after each of the calls, all of which succeeded. */
  ghost predicate Run(calls: seq<Call>, ts: seq<Tables>) {
    && |ts| == |calls| + 1 && (forall i | 0 <= i < |ts| :: Sized(ts[i].mem))
    && forall i, j | 0 <= i < |calls| && j == i + 1 :: Done(calls[i], ts[i].mem, ts[j].mem, ts[i].roles)
  }

  /** The last of the calls that covers page `w` of table `s`. */
  function Last(calls: seq<Call>, s: nat, w: Vpn): Option<Call>
    decreases |calls|
  {
    if calls == [] then None
    else
      var n := |calls| - 1;
      if Covers(calls[n], s, w) then Some(calls[n]) else Last(calls[..n], s, w)
  }

  /** However superpages were split and overwritten on the way, a page translates by the last call
      that covers it, and as at first if there is none. */
  lemma {:induction false} LastCallDecides(calls: seq<Call>, ts: seq<Tables>, s: nat, w: Vpn)
    requires Run(calls, ts) && ValidVpn(w) && forall i | 0 <= i < |ts| :: IsRoot(ts[i].roles, s)
    ensures Walk(ts[|calls|].mem, s, w) ==
            match Last(calls, s, w)
            case None => Walk(ts[0].mem, s, w)
            case Some(call) => Answer(call, w)
    decreases |calls|
  {
    if calls != [] {
      var n := |calls| - 1;
      LastCallDecides(calls[..n], ts[..|calls|], s, w);
      assert Done(calls[n], ts[n].mem, ts[n + 1].mem, ts[n].roles);
    }
  }

  /** Calls that cover no page in common may be swapped. */
  lemma SwapCalls(before: seq<Call>, a: Call, b: Call, after: seq<Call>, ts: seq<Tables>, us: seq<Tables>, s: nat, w: Vpn)
    requires Run(before + [a, b] + after, ts) && Run(before + [b, a] + after, us) && ts[0] == us[0] && ValidVpn(w)
    requires !(Covers(a, s, w) && Covers(b, s, w))
    requires forall i | 0 <= i < |ts| :: IsRoot(ts[i].roles, s) && IsRoot(us[i].roles, s)
    ensures Walk(ts[|ts| - 1].mem, s, w) == Walk(us[|us| - 1].mem, s, w)
  {
    LastCallDecides(before + [a, b] + after, ts, s, w);
    LastCallDecides(before + [b, a] + after, us, s, w);
    LastSwapped(before, a, b, after, s, w);
  }

  lemma {:induction false} LastSwapped(before: seq<Call>, a: Call, b: Call, after: seq<Call>, s: nat, w: Vpn)
    requires !(Covers(a, s, w) && Covers(b, s, w))
    ensures Last(before + [a, b] + after, s, w) == Last(before + [b, a] + after, s, w)
    decreases |after|
  {
    var x, y := before + [a, b] + after, before + [b, a] + after;
    var n := |x| - 1;
    if after == [] {
      assert x[..n] == before + [a] && y[..n] == before + [b];
      assert (before + [a])[..|before|] == before == (before + [b])[..|before|];
    } else {
      var rest := after[..|after| - 1];
      LastSwapped(before, a, b, rest, s, w);
      assert x[..n] == before + [a, b] + rest && y[..n] == before + [b, a] + rest;
    }
  }
}
