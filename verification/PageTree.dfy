/** The shape of the page tables in memory, and what replacing entries does to it and to the
    translation of every address.

    Every page that is a node has a role: it is the root of a table, or the node below entry `i` of a
    root, or the node below entry `j` of that one. As a page has one role only, nodes are never
    shared, neither within a table nor between tables. */
module PageTree {
  import opened Sv39

  datatype Role = Root(root: nat) | Mid(root: nat, i: nat) | Low(root: nat, i: nat, j: nat)
  type Roles = map<nat, Role>

  /** A pointer entry leads to the node with role `r`. */
  ghost predicate LeadsTo(pte: Pte, roles: Roles, r: Role) {
    !InvalidOrLeaf(pte) ==> Child(pte) >= 0 && Child(pte) in roles && roles[Child(pte)] == r
  }

  ghost predicate RootOk(mem: Memory, roles: Roles, p: nat)
    requires Sized(mem) && p < |mem|
  {
    forall i | 0 <= i < FANOUT :: LeadsTo(mem[p][i], roles, Mid(p, i)) && Aligned(mem[p][i], 2)
  }

  ghost predicate MidOk(mem: Memory, roles: Roles, p: nat, root: nat, i: nat)
    requires Sized(mem) && p < |mem|
  {
    && root in roles && root < |mem| && roles[root] == Root(root) && i < FANOUT && Points(mem[root][i], p)
    && forall j | 0 <= j < FANOUT :: LeadsTo(mem[p][j], roles, Low(root, i, j)) && Aligned(mem[p][j], 1)
  }

  ghost predicate LowOk(mem: Memory, roles: Roles, p: nat, root: nat, i: nat, j: nat)
    requires Sized(mem) && p < |mem|
  {
    && root in roles && root < |mem| && roles[root] == Root(root) && i < FANOUT && j < FANOUT
    && !InvalidOrLeaf(mem[root][i]) && 0 <= Child(mem[root][i]) < |mem|
    && Child(mem[root][i]) in roles && roles[Child(mem[root][i])] == Mid(root, i)
    && Points(mem[Child(mem[root][i])][j], p)
    && forall k | 0 <= k < FANOUT :: InvalidOrLeaf(mem[p][k])
  }

  ghost predicate NodeOk(mem: Memory, roles: Roles, p: nat)
    requires Sized(mem) && p in roles
  {
    && p < |mem|
    && match roles[p]
       case Root(r) => r == p && RootOk(mem, roles, p)
       case Mid(r, i) => MidOk(mem, roles, p, r, i)
       case Low(r, i, j) => LowOk(mem, roles, p, r, i, j)
  }

  /** All nodes together form trees of depth three, one under each root. */
  ghost predicate TreeOk(mem: Memory, roles: Roles) {
    Sized(mem) && forall p | p in roles :: NodeOk(mem, roles, p)
  }

  ghost predicate IsRoot(roles: Roles, r: nat) {
    r in roles && roles[r] == Root(r)
  }

  /** What a pointer in a root or at the middle level leads to. */
  lemma ChildNode(mem: Memory, roles: Roles, p: nat, i: nat)
    requires TreeOk(mem, roles) && p in roles && i < FANOUT
    ensures p < |mem|
    ensures roles[p].Low? ==> InvalidOrLeaf(mem[p][i])
    ensures !InvalidOrLeaf(mem[p][i]) ==>
              && 0 <= Child(mem[p][i]) < |mem| && Child(mem[p][i]) in roles
              && roles[Child(mem[p][i])] == if roles[p].Root? then Mid(p, i) else Low(roles[p].root, roles[p].i, i)
  {
    assert NodeOk(mem, roles, p);
    if !InvalidOrLeaf(mem[p][i]) {
      assert LeadsTo(mem[p][i], roles, if roles[p].Root? then Mid(p, i) else Low(roles[p].root, roles[p].i, i));
      assert NodeOk(mem, roles, Child(mem[p][i]));
    }
  }

  // ---------------------------------------------------------------- frames

  /** The walk from a root reads that table's nodes only. */
  lemma WalkFrame(mem: Memory, mem': Memory, roles: Roles, r: nat, v: Vpn)
    requires TreeOk(mem, roles) && Sized(mem') && |mem'| == |mem| && IsRoot(roles, r) && ValidVpn(v)
    requires forall p | p in roles && roles[p].root == r && p < |mem| :: mem'[p] == mem[p]
    ensures Walk(mem', r, v) == Walk(mem, r, v)
  {
    assert NodeOk(mem, roles, r);
    assert LeadsTo(mem[r][v.v2], roles, Mid(r, v.v2));
    if !InvalidOrLeaf(mem[r][v.v2]) {
      var mid := Child(mem[r][v.v2]);
      assert NodeOk(mem, roles, mid);
      assert LeadsTo(mem[mid][v.v1], roles, Low(r, v.v2, v.v1));
    }
  }

  /** What is in a page that is no node does not matter. */
  lemma FreshNode(mem: Memory, roles: Roles, q: nat, node: seq<Pte>)
    requires TreeOk(mem, roles) && q < |mem| && q !in roles && |node| == FANOUT
    ensures TreeOk(mem[q := node], roles)
    ensures forall s: nat, v | IsRoot(roles, s) && ValidVpn(v) :: Walk(mem[q := node], s, v) == Walk(mem, s, v)
  {
    var mem' := mem[q := node];
    forall p | p in roles
      ensures NodeOk(mem', roles, p)
    {
      assert NodeOk(mem, roles, p);
    }
    forall s: nat, v | IsRoot(roles, s) && ValidVpn(v)
      ensures Walk(mem', s, v) == Walk(mem, s, v)
    {
      WalkFrame(mem, mem', roles, s, v);
    }
  }

  // ---------------------------------------------------------------- splitting

  function Pointer(p: nat): Pte {
    Pte(Flags(true, false, false, false, false, false, false, false), RAM_PPN + p)
  }

  /** Memory after entry `i` of node `p` has been split at `level` into the fresh page `q`. */
  function Splitting(mem: Memory, p: nat, i: nat, level: nat, q: nat): (mem': Memory)
    requires Sized(mem) && p < |mem| && q < |mem| && i < FANOUT
    ensures |mem'| == |mem| && Sized(mem')
  {
    mem[q := Expand(mem[p][i], level)][p := mem[p][i := Pointer(q)]]
  }

  /** Splitting a 1G entry keeps the trees in shape. */
  lemma SplitGiga(mem: Memory, roles: Roles, r: nat, i: nat, q: nat)
    requires TreeOk(mem, roles) && IsRoot(roles, r) && i < FANOUT && q < |mem| && q !in roles
    requires r < |mem| && InvalidOrLeaf(mem[r][i])
    ensures TreeOk(Splitting(mem, r, i, 1, q), roles[q := Mid(r, i)])
  {
    var mem', roles' := Splitting(mem, r, i, 1, q), roles[q := Mid(r, i)];
    assert NodeOk(mem, roles, r);
    assert Aligned(mem[r][i], 2);
    ExpandGiga(mem[r][i]);
    forall p | p in roles'
      ensures NodeOk(mem', roles', p)
    {
      if p in roles { assert NodeOk(mem, roles, p); }
    }
  }

  /** And no table translates any address differently. */
  lemma SplitGigaWalk(mem: Memory, roles: Roles, r: nat, i: nat, q: nat, s: nat, v: Vpn)
    requires TreeOk(mem, roles) && IsRoot(roles, r) && i < FANOUT && q < |mem| && q !in roles
    requires r < |mem| && InvalidOrLeaf(mem[r][i])
    requires IsRoot(roles, s) && ValidVpn(v)
    ensures Walk(Splitting(mem, r, i, 1, q), s, v) == Walk(mem, s, v)
  {
    var mem' := Splitting(mem, r, i, 1, q);
    assert NodeOk(mem, roles, r);
    if s != r {
      WalkFrame(mem, mem', roles, s, v);
    } else if v.v2 == i {
      assert Aligned(mem[r][i], 2);
      ExpandGiga(mem[r][i]);
      assert mem'[q] == Expand(mem[r][i], 1);
    } else {
      BranchFrame(mem, mem', roles, r, v);
    }
  }

  /** The walk below an entry of a root reads the nodes below that entry only. */
  lemma BranchFrame(mem: Memory, mem': Memory, roles: Roles, r: nat, v: Vpn)
    requires TreeOk(mem, roles) && Sized(mem') && |mem'| == |mem| && IsRoot(roles, r) && ValidVpn(v) && r < |mem|
    requires mem'[r][v.v2] == mem[r][v.v2]
    requires forall p | p in roles && p < |mem| && (roles[p] == Mid(r, v.v2) || roles[p] == Low(r, v.v2, v.v1)) ::
               mem'[p] == mem[p]
    ensures Walk(mem', r, v) == Walk(mem, r, v)
  {
    assert NodeOk(mem, roles, r);
    assert LeadsTo(mem[r][v.v2], roles, Mid(r, v.v2));
    if !InvalidOrLeaf(mem[r][v.v2]) {
      var mid := Child(mem[r][v.v2]);
      assert NodeOk(mem, roles, mid);
      assert LeadsTo(mem[mid][v.v1], roles, Low(r, v.v2, v.v1));
    }
  }

  /** Splitting a 2M entry keeps the trees in shape. */
  lemma SplitMega(mem: Memory, roles: Roles, m: nat, j: nat, q: nat)
    requires TreeOk(mem, roles) && m in roles && roles[m].Mid? && j < FANOUT && q < |mem| && q !in roles
    requires m < |mem| && InvalidOrLeaf(mem[m][j])
    ensures TreeOk(Splitting(mem, m, j, 0, q), roles[q := Low(roles[m].root, roles[m].i, j)])
  {
    var r, i := roles[m].root, roles[m].i;
    var mem', roles' := Splitting(mem, m, j, 0, q), roles[q := Low(r, i, j)];
    assert NodeOk(mem, roles, m) && NodeOk(mem, roles, r);
    forall p | p in roles'
      ensures NodeOk(mem', roles', p)
    {
      if p in roles { assert NodeOk(mem, roles, p); }
    }
  }

  lemma SplitMegaWalk(mem: Memory, roles: Roles, m: nat, j: nat, q: nat, s: nat, v: Vpn)
    requires TreeOk(mem, roles) && m in roles && roles[m].Mid? && j < FANOUT && q < |mem| && q !in roles
    requires m < |mem| && InvalidOrLeaf(mem[m][j])
    requires IsRoot(roles, s) && ValidVpn(v)
    ensures Walk(Splitting(mem, m, j, 0, q), s, v) == Walk(mem, s, v)
  {
    var r, i := roles[m].root, roles[m].i;
    var mem' := Splitting(mem, m, j, 0, q);
    assert NodeOk(mem, roles, m) && NodeOk(mem, roles, r) && NodeOk(mem, roles, s);
    if s != r {
      WalkFrame(mem, mem', roles, s, v);
    } else if v.v2 == i && v.v1 == j {
      assert Aligned(mem[m][j], 1);
      ExpandMega(mem[m][j]);
      assert mem'[q] == Expand(mem[m][j], 0);
    } else if v.v2 == i {
      assert mem'[r] == mem[r] && mem'[m][v.v1] == mem[m][v.v1];
      assert LeadsTo(mem[m][v.v1], roles, Low(r, i, v.v1));
    } else {
      BranchFrame(mem, mem', roles, r, v);
    }
  }

  // ---------------------------------------------------------------- replacing entries

  function SetEntry(mem: Memory, p: nat, i: nat, pte: Pte): (mem': Memory)
    requires Sized(mem) && p < |mem| && i < FANOUT
    ensures |mem'| == |mem| && Sized(mem')
  {
    mem[p := mem[p][i := pte]]
  }

  /** The roles left when the nodes below an entry are cut off. */
  function CutMega(roles: Roles, r: nat, i: nat, j: nat): Roles {
    map p | p in roles && roles[p] != Low(r, i, j) :: roles[p]
  }

  predicate Below(role: Role, r: nat, i: nat) {
    role == Mid(r, i) || (role.Low? && role.root == r && role.i == i)
  }

  function CutGiga(roles: Roles, r: nat, i: nat): Roles {
    map p | p in roles && !Below(roles[p], r, i) :: roles[p]
  }

  function CutTable(roles: Roles, r: nat): Roles {
    map p | p in roles && roles[p].root != r :: roles[p]
  }

  /** What an entry at the lowest level says; a pointer there says nothing. */
  function LowAnswer(pte: Pte, v: Vpn): Translation {
    if InvalidOrLeaf(pte) then LeafAt(pte, 0, v) else Fault
  }

  /** A new entry at the lowest level. */
  lemma SetLow(mem: Memory, roles: Roles, p: nat, k: nat, pte: Pte)
    requires TreeOk(mem, roles) && p in roles && roles[p].Low? && p < |mem| && k < FANOUT && InvalidOrLeaf(pte)
    ensures TreeOk(SetEntry(mem, p, k, pte), roles)
  {
    forall q | q in roles
      ensures NodeOk(SetEntry(mem, p, k, pte), roles, q)
    {
      assert NodeOk(mem, roles, q) && NodeOk(mem, roles, p);
    }
  }

  lemma SetLowWalk(mem: Memory, roles: Roles, p: nat, k: nat, pte: Pte, s: nat, v: Vpn)
    requires TreeOk(mem, roles) && p in roles && roles[p].Low? && p < |mem| && k < FANOUT
    requires IsRoot(roles, s) && ValidVpn(v)
    ensures Walk(SetEntry(mem, p, k, pte), s, v) ==
            if s == roles[p].root && v == Vpn(roles[p].i, roles[p].j, k) then LowAnswer(pte, v) else Walk(mem, s, v)
  {
    var mem' := SetEntry(mem, p, k, pte);
    var r, i, j := roles[p].root, roles[p].i, roles[p].j;
    assert NodeOk(mem, roles, p) && NodeOk(mem, roles, s);
    if s != r {
      WalkFrame(mem, mem', roles, s, v);
    } else if v.v2 != i || v.v1 != j {
      BranchFrame(mem, mem', roles, s, v);
    } else {
      assert mem'[r] == mem[r];
    }
  }

  /** A new entry at the middle level; what hung below it is cut off. */
  lemma SetMid(mem: Memory, roles: Roles, p: nat, j: nat, pte: Pte)
    requires TreeOk(mem, roles) && p in roles && roles[p].Mid? && p < |mem| && j < FANOUT
    requires InvalidOrLeaf(pte) && Aligned(pte, 1)
    ensures TreeOk(SetEntry(mem, p, j, pte), CutMega(roles, roles[p].root, roles[p].i, j))
  {
    var mem', roles' := SetEntry(mem, p, j, pte), CutMega(roles, roles[p].root, roles[p].i, j);
    forall q | q in roles'
      ensures NodeOk(mem', roles', q)
    {
      assert NodeOk(mem, roles, q) && NodeOk(mem, roles, p);
    }
  }

  lemma SetMidWalk(mem: Memory, roles: Roles, p: nat, j: nat, pte: Pte, s: nat, v: Vpn)
    requires TreeOk(mem, roles) && p in roles && roles[p].Mid? && p < |mem| && j < FANOUT
    requires InvalidOrLeaf(pte) && Aligned(pte, 1)
    requires IsRoot(roles, s) && ValidVpn(v)
    ensures Walk(SetEntry(mem, p, j, pte), s, v) ==
            if s == roles[p].root && v.v2 == roles[p].i && v.v1 == j then LeafAt(pte, 1, v) else Walk(mem, s, v)
  {
    var mem' := SetEntry(mem, p, j, pte);
    var r, i := roles[p].root, roles[p].i;
    assert NodeOk(mem, roles, p) && NodeOk(mem, roles, s);
    if s != r {
      WalkFrame(mem, mem', roles, s, v);
    } else if v.v2 != i {
      BranchFrame(mem, mem', roles, s, v);
    } else if v.v1 != j {
      assert mem'[r] == mem[r] && mem'[p][v.v1] == mem[p][v.v1];
      assert LeadsTo(mem[p][v.v1], roles, Low(r, i, v.v1));
    } else {
      assert mem'[r] == mem[r];
    }
  }

  /** A new entry in a root; what hung below it is cut off. */
  lemma SetRoot(mem: Memory, roles: Roles, r: nat, i: nat, pte: Pte)
    requires TreeOk(mem, roles) && IsRoot(roles, r) && r < |mem| && i < FANOUT && InvalidOrLeaf(pte) && Aligned(pte, 2)
    ensures TreeOk(SetEntry(mem, r, i, pte), CutGiga(roles, r, i))
  {
    var mem', roles' := SetEntry(mem, r, i, pte), CutGiga(roles, r, i);
    forall q | q in roles'
      ensures NodeOk(mem', roles', q)
    {
      assert NodeOk(mem, roles, q) && NodeOk(mem, roles, r);
    }
  }

  lemma SetRootWalk(mem: Memory, roles: Roles, r: nat, i: nat, pte: Pte, s: nat, v: Vpn)
    requires TreeOk(mem, roles) && IsRoot(roles, r) && r < |mem| && i < FANOUT && InvalidOrLeaf(pte) && Aligned(pte, 2)
    requires IsRoot(roles, s) && ValidVpn(v)
    ensures Walk(SetEntry(mem, r, i, pte), s, v) ==
            if s == r && v.v2 == i then LeafAt(pte, 2, v) else Walk(mem, s, v)
  {
    var mem' := SetEntry(mem, r, i, pte);
    assert NodeOk(mem, roles, s);
    if s != r {
      WalkFrame(mem, mem', roles, s, v);
    } else if v.v2 != i {
      BranchFrame(mem, mem', roles, s, v);
    }
  }

  /** Forgetting a whole table leaves the others in shape. */
  lemma DropTable(mem: Memory, roles: Roles, r: nat)
    requires TreeOk(mem, roles)
    ensures TreeOk(mem, CutTable(roles, r))
  {
    var roles' := CutTable(roles, r);
    forall q | q in roles'
      ensures NodeOk(mem, roles', q)
    {
      assert NodeOk(mem, roles, q);
    }
  }

  // ---------------------------------------------------------------- cutting off and tearing down

  /** Nothing hangs below an entry that is no pointer. */
  lemma NothingBelow(mem: Memory, roles: Roles, p: nat, i: nat)
    requires TreeOk(mem, roles) && p in roles && i < FANOUT && p < |mem| && InvalidOrLeaf(mem[p][i])
    ensures roles[p].Root? ==> CutGiga(roles, p, i) == roles
    ensures roles[p].Mid? ==> CutMega(roles, roles[p].root, roles[p].i, i) == roles
  {
    assert NodeOk(mem, roles, p);
    forall q | q in roles
      ensures roles[p].Root? ==> !Below(roles[q], p, i)
      ensures roles[p].Mid? ==> roles[q] != Low(roles[p].root, roles[p].i, i)
    {
      assert NodeOk(mem, roles, q);
    }
  }

  function Level(role: Role): nat {
    match role case Root(_) => 2 case Mid(_, _) => 1 case Low(_, _, _) => 0
  }

  /** The node is `p` or hangs below it, below one of its first `n` entries. */
  predicate Under(role: Role, p: Role, n: nat) {
    match p
    case Root(r) => role.root == r && !role.Root? && role.i < n
    case Mid(r, i) => role.Low? && role.root == r && role.i == i && role.j < n
    case Low(_, _, _) => false
  }

  /** The nodes below the first `n` entries of node `p`. */
  function Branches(roles: Roles, p: nat, n: nat): set<nat>
    requires p in roles
  {
    set q | q in roles && Under(roles[q], roles[p], n)
  }

  /** A node and all below it. */
  function Subtree(roles: Roles, p: nat): set<nat>
    requires p in roles
  {
    {p} + Branches(roles, p, FANOUT)
  }

  /** The nodes below one more entry are those of the subtree it points to, if it does. */
  lemma NextBranch(mem: Memory, roles: Roles, p: nat, n: nat)
    requires TreeOk(mem, roles) && p in roles && n < FANOUT && p < |mem|
    ensures InvalidOrLeaf(mem[p][n]) ==> Branches(roles, p, n + 1) == Branches(roles, p, n)
    ensures !InvalidOrLeaf(mem[p][n]) ==>
              && Child(mem[p][n]) >= 0 && Child(mem[p][n]) in roles
              && Level(roles[p]) > 0 && Level(roles[Child(mem[p][n])]) == Level(roles[p]) - 1
              && Branches(roles, p, n + 1) == Branches(roles, p, n) + Subtree(roles, Child(mem[p][n]))
              && Branches(roles, p, n) !! Subtree(roles, Child(mem[p][n])) && p !in Subtree(roles, Child(mem[p][n]))
  {
    ChildNode(mem, roles, p, n);
    assert NodeOk(mem, roles, p);
    if InvalidOrLeaf(mem[p][n]) {
      NothingBelow(mem, roles, p, n);
      assert roles[p].Root? ==> forall q | q in roles :: q in CutGiga(roles, p, n);
      assert roles[p].Mid? ==> forall q | q in roles :: q in CutMega(roles, roles[p].root, roles[p].i, n);
    } else {
      var c := Child(mem[p][n]);
      forall q | q in roles
        ensures Under(roles[q], roles[p], n + 1) <==>
                Under(roles[q], roles[p], n) || q == c || Under(roles[q], roles[c], FANOUT)
      {
        assert NodeOk(mem, roles, q);
      }
    }
  }

  lemma WholeTable(mem: Memory, roles: Roles, r: nat)
    requires TreeOk(mem, roles) && IsRoot(roles, r)
    ensures forall q | q in roles :: q in Subtree(roles, r) <==> roles[q].root == r
    ensures forall q | q in roles :: q in CutTable(roles, r) <==> q !in Subtree(roles, r)
  {
    forall q | q in roles
      ensures q in Subtree(roles, r) <==> roles[q].root == r
    {
      assert NodeOk(mem, roles, q);
    }
  }
}
