/** The rule tree as the program grows it: nodes updated in place while a cursor walks down. Node 0 is
    the root, every link leads to a node created later, and no node is reached twice. */
module TrieArena {
  import opened Json
  import opened Fnv
  import opened RuleTrie

  datatype Link = Link(hash: Hash64, target: nat)

  datatype ArenaNode = ArenaNode(links: seq<Link>, rule: Option<nat>)

  type Nodes = seq<ArenaNode>

  function FindLink(ls: seq<Link>, h: Hash64): (r: Option<nat>)
    ensures r.Some? ==> r.value < |ls| && ls[r.value].hash == h
  {
    if |ls| == 0 then None
    else if ls[0].hash == h then Some(0)
    else match FindLink(ls[1..], h)
      case None => None
      case Some(i) => Some(i + 1)
  }

  ghost predicate Forward(ns: Nodes) {
    forall n: nat, i: nat {:trigger ns[n].links[i]} :: n < |ns| && i < |ns[n].links| ==>
      n < ns[n].links[i].target < |ns|
  }

  /** The tree below a node. */
  function TreeAt(ns: Nodes, n: nat): Trie
    requires Forward(ns) && n < |ns|
    decreases |ns| - n
  {
    Node(BranchesAt(ns, n), ns[n].rule)
  }

  function BranchesAt(ns: Nodes, n: nat): seq<Branch>
    requires Forward(ns) && n < |ns|
    decreases |ns| - n, 0
  {
    seq(|ns[n].links|, i requires 0 <= i < |ns[n].links| =>
      Branch(ns[n].links[i].hash, TreeAt(ns, ns[n].links[i].target)))
  }

  // ---------------------------------------------------------------- what a node reaches

  ghost function Reach(ns: Nodes, n: nat): set<nat>
    requires Forward(ns) && n < |ns|
    decreases |ns| - n
  {
    {n} + ReachOf(ns, n, |ns[n].links|)
  }

  ghost function ReachOf(ns: Nodes, n: nat, i: nat): set<nat>
    requires Forward(ns) && n < |ns| && i <= |ns[n].links|
    decreases |ns| - n, 0, i
  {
    if i == 0 then {} else ReachOf(ns, n, i - 1) + Reach(ns, ns[n].links[i - 1].target)
  }

  ghost function ChildReach(ns: Nodes, n: nat, i: nat): set<nat>
    requires Forward(ns) && n < |ns| && i < |ns[n].links|
  {
    Reach(ns, ns[n].links[i].target)
  }

  lemma {:induction false} ReachBounds(ns: Nodes, n: nat)
    requires Forward(ns) && n < |ns|
    ensures forall x :: x in Reach(ns, n) ==> n <= x < |ns|
    decreases |ns| - n
  {
    ReachOfBounds(ns, n, |ns[n].links|);
  }

  lemma {:induction false} ReachOfBounds(ns: Nodes, n: nat, i: nat)
    requires Forward(ns) && n < |ns| && i <= |ns[n].links|
    ensures forall x :: x in ReachOf(ns, n, i) ==> n < x < |ns|
    decreases |ns| - n, 0, i
  {
    if i > 0 {
      ReachOfBounds(ns, n, i - 1);
      ReachBounds(ns, ns[n].links[i - 1].target);
    }
  }

  lemma {:induction false} ReachOfHas(ns: Nodes, n: nat, i: nat, x: nat)
    requires Forward(ns) && n < |ns| && i <= |ns[n].links|
    ensures x in ReachOf(ns, n, i) <==> exists j: nat :: j < i && x in ChildReach(ns, n, j)
    decreases i
  {
    if i > 0 {
      ReachOfHas(ns, n, i - 1, x);
      assert ReachOf(ns, n, i) == ReachOf(ns, n, i - 1) + ChildReach(ns, n, i - 1);
    }
  }

  /** What lies below a node depends on what it reaches, and on nothing else. */
  lemma {:induction false} SameBelow(ns: Nodes, ms: Nodes, n: nat)
    requires Forward(ns) && Forward(ms) && n < |ns| <= |ms|
    requires forall x :: x in Reach(ns, n) ==> x < |ns| && ms[x] == ns[x]
    ensures TreeAt(ms, n) == TreeAt(ns, n) && Reach(ms, n) == Reach(ns, n)
    decreases |ns| - n
  {
    assert n in Reach(ns, n);
    forall i: nat | i < |ns[n].links|
      ensures TreeAt(ms, ns[n].links[i].target) == TreeAt(ns, ns[n].links[i].target)
      ensures ChildReach(ms, n, i) == ChildReach(ns, n, i)
    {
      ChildWithin(ns, n, i);
      SameBelow(ns, ms, ns[n].links[i].target);
    }
    SameReachOf(ns, ms, n, |ns[n].links|);
    assert BranchesAt(ms, n) == BranchesAt(ns, n);
  }

  lemma {:induction false} ChildWithin(ns: Nodes, n: nat, i: nat)
    requires Forward(ns) && n < |ns| && i < |ns[n].links|
    ensures ChildReach(ns, n, i) <= ReachOf(ns, n, |ns[n].links|)
  {
    forall x | x in ChildReach(ns, n, i)
      ensures x in ReachOf(ns, n, |ns[n].links|)
    {
      ReachOfHas(ns, n, |ns[n].links|, x);
    }
  }

  lemma {:induction false} SameReachOf(ns: Nodes, ms: Nodes, n: nat, i: nat)
    requires Forward(ns) && Forward(ms) && n < |ns| <= |ms| && ms[n].links == ns[n].links && i <= |ns[n].links|
    requires forall j: nat :: j < |ns[n].links| ==> ChildReach(ms, n, j) == ChildReach(ns, n, j)
    ensures ReachOf(ms, n, i) == ReachOf(ns, n, i)
    decreases i
  {
    if i > 0 {
      SameReachOf(ns, ms, n, i - 1);
      assert ReachOf(ns, n, i) == ReachOf(ns, n, i - 1) + ChildReach(ns, n, i - 1);
      assert ReachOf(ms, n, i) == ReachOf(ms, n, i - 1) + ChildReach(ms, n, i - 1);
    }
  }

  /** Different links of a node lead to disjoint subtrees. */
  ghost predicate Apart(ns: Nodes)
    requires Forward(ns)
  {
    forall n: nat, i: nat, j: nat :: n < |ns| && i < j < |ns[n].links| ==> ChildReach(ns, n, i) !! ChildReach(ns, n, j)
  }

  ghost predicate Valid(ns: Nodes) {
    |ns| > 0 && Forward(ns) && Apart(ns)
  }

  // ---------------------------------------------------------------- one step of the cursor

  /** `children.entry(h).or_default()`. */
  function Enter(ns: Nodes, n: nat, h: Hash64): (r: (Nodes, nat))
    requires Forward(ns) && n < |ns|
    ensures |r.0| >= |ns| && r.1 < |r.0|
  {
    match FindLink(ns[n].links, h)
    case Some(i) => (ns, ns[n].links[i].target)
    case None => (ns[n := ArenaNode(ns[n].links + [Link(h, |ns|)], ns[n].rule)] + [ArenaNode([], None)], |ns|)
  }

  lemma EnterForward(ns: Nodes, n: nat, h: Hash64)
    requires Forward(ns) && n < |ns|
    ensures Forward(Enter(ns, n, h).0)
  {
    if FindLink(ns[n].links, h).None? {
      var ms := Enter(ns, n, h).0;
      forall m: nat, i: nat {:trigger ms[m].links[i]} | m < |ms| && i < |ms[m].links|
        ensures m < ms[m].links[i].target < |ms|
      {
        if m < |ns| && i < |ns[m].links| { assert ms[m].links[i] == ns[m].links[i]; }
      }
    }
  }

  lemma {:induction false} GrownReach(ns: Nodes, n: nat, h: Hash64, m: nat)
    requires Forward(ns) && n < |ns| && m < |ns| && FindLink(ns[n].links, h).None? && Forward(Enter(ns, n, h).0)
    ensures Reach(Enter(ns, n, h).0, m) <= Reach(ns, m) + {|ns|}
    ensures n !in Reach(ns, m) ==> Reach(Enter(ns, n, h).0, m) == Reach(ns, m)
    decreases |ns| - m
  {
    var ms := Enter(ns, n, h).0;
    if n !in Reach(ns, m) {
      ReachBounds(ns, m);
      SameBelow(ns, ms, m);
    } else {
      forall x | x in Reach(ms, m) && x != m ensures x in Reach(ns, m) + {|ns|} {
        ReachOfHas(ms, m, |ms[m].links|, x);
        var j: nat :| j < |ms[m].links| && x in ChildReach(ms, m, j);
        if m != n || j < |ns[n].links| {
          GrownReach(ns, n, h, ns[m].links[j].target);
          ChildWithin(ns, m, j);
        } else {
          NewNodeReach(ns, n, h);
        }
      }
    }
  }

  lemma {:induction false} NewNodeReach(ns: Nodes, n: nat, h: Hash64)
    requires Forward(ns) && n < |ns| && FindLink(ns[n].links, h).None? && Forward(Enter(ns, n, h).0)
    ensures Reach(Enter(ns, n, h).0, |ns|) == {|ns|} && TreeAt(Enter(ns, n, h).0, |ns|) == EMPTY
  {
    var ms := Enter(ns, n, h).0;
    assert ms[|ns|] == ArenaNode([], None);
    assert ReachOf(ms, |ns|, 0) == {};
    assert BranchesAt(ms, |ns|) == [];
  }

  lemma EnterApart(ns: Nodes, n: nat, h: Hash64)
    requires Valid(ns) && n < |ns|
    ensures Valid(Enter(ns, n, h).0)
  {
    EnterForward(ns, n, h);
    if FindLink(ns[n].links, h).None? {
      var ms := Enter(ns, n, h).0;
      forall m: nat, i: nat, j: nat | m < |ms| && i < j < |ms[m].links|
        ensures ChildReach(ms, m, i) !! ChildReach(ms, m, j)
      {
        EnterApartAt(ns, n, h, m, i, j);
      }
    }
  }

  lemma {:induction false} EnterApartAt(ns: Nodes, n: nat, h: Hash64, m: nat, i: nat, j: nat)
    requires Valid(ns) && n < |ns| && FindLink(ns[n].links, h).None? && Forward(Enter(ns, n, h).0)
    requires m < |Enter(ns, n, h).0| && i < j < |Enter(ns, n, h).0[m].links|
    ensures ChildReach(Enter(ns, n, h).0, m, i) !! ChildReach(Enter(ns, n, h).0, m, j)
  {
    var ms := Enter(ns, n, h).0;
    assert m < |ns|;
    assert ms[m].links[i] == ns[m].links[i];
    var a := ns[m].links[i].target;
    GrownReach(ns, n, h, a);
    ReachBounds(ns, a);
    if j < |ns[m].links| {
      assert ms[m].links[j] == ns[m].links[j];
      var b := ns[m].links[j].target;
      assert ChildReach(ns, m, i) !! ChildReach(ns, m, j);
      GrownReach(ns, n, h, b);
      ReachBounds(ns, b);
    } else {
      NewNodeReach(ns, n, h);
    }
  }

  // ---------------------------------------------------------------- the whole walk

  /** The nodes after the cursor has walked from `n` along the hashes and marked its end. */
  function Walk(ns: Nodes, n: nat, hs: seq<Hash64>, idx: nat): Nodes
    requires Forward(ns) && n < |ns|
    decreases |hs|
  {
    if |hs| == 0 then ns[n := ArenaNode(ns[n].links, Some(idx))]
    else
      EnterForward(ns, n, hs[0]);
      Walk(Enter(ns, n, hs[0]).0, Enter(ns, n, hs[0]).1, hs[1..], idx)
  }

  /** What a walk from `n` may change: nodes below `n`, and new ones. */
  ghost predicate OnlyBelow(ns: Nodes, ms: Nodes, n: nat)
    requires Forward(ns) && n < |ns|
  {
    |ns| <= |ms| && forall x :: 0 <= x < |ns| && x !in Reach(ns, n) ==> ms[x] == ns[x]
  }

  ghost predicate Inserted(ns: Nodes, ms: Nodes, n: nat, hs: seq<Hash64>, idx: nat)
    requires Forward(ns) && n < |ns|
  {
    Valid(ms) && OnlyBelow(ns, ms, n) && TreeAt(ms, n) == Insert(TreeAt(ns, n), hs, idx)
  }

  lemma {:induction false} FindAgrees(ls: seq<Link>, bs: seq<Branch>, h: Hash64)
    requires |ls| == |bs| && forall i :: 0 <= i < |ls| ==> bs[i].hash == ls[i].hash
    ensures FindBranch(bs, h) == FindLink(ls, h)
  {
    if |ls| != 0 { FindAgrees(ls[1..], bs[1..], h); }
  }

  /** The walk inserts the path into the tree below its start. */
  lemma {:induction false} WalkInserts(ns: Nodes, n: nat, hs: seq<Hash64>, idx: nat)
    requires Valid(ns) && n < |ns|
    ensures Inserted(ns, Walk(ns, n, hs, idx), n, hs, idx)
    decreases |hs|
  {
    if |hs| == 0 {
      MarkInserts(ns, n, idx);
    } else {
      FindAgrees(ns[n].links, BranchesAt(ns, n), hs[0]);
      EnterApart(ns, n, hs[0]);
      var (ns1, c) := Enter(ns, n, hs[0]);
      WalkInserts(ns1, c, hs[1..], idx);
      match FindLink(ns[n].links, hs[0])
      case Some(i) => ThroughLink(ns, n, i, Walk(ns, n, hs, idx), hs, idx);
      case None => ThroughNew(ns, n, Walk(ns, n, hs, idx), hs, idx);
    }
  }

  lemma MarkInserts(ns: Nodes, n: nat, idx: nat)
    requires Valid(ns) && n < |ns|
    ensures Inserted(ns, ns[n := ArenaNode(ns[n].links, Some(idx))], n, [], idx)
  {
    var ms := ns[n := ArenaNode(ns[n].links, Some(idx))];
    assert forall m: nat :: m < |ms| ==> ms[m].links == ns[m].links;
    forall m: nat | m < |ns| ensures Reach(ms, m) == Reach(ns, m) { SameLinksReach(ns, ms, m); }
    forall m: nat, i: nat, j: nat | m < |ms| && i < j < |ms[m].links|
      ensures ChildReach(ms, m, i) !! ChildReach(ms, m, j)
    {
      assert ChildReach(ns, m, i) !! ChildReach(ns, m, j);
    }
    forall i: nat | i < |ns[n].links| ensures BranchesAt(ms, n)[i] == BranchesAt(ns, n)[i] {
      ReachBounds(ns, ns[n].links[i].target);
      SameBelow(ns, ms, ns[n].links[i].target);
    }
    assert BranchesAt(ms, n) == BranchesAt(ns, n);
    assert n in Reach(ns, n);
  }

  lemma {:induction false} SameLinksReach(ns: Nodes, ms: Nodes, m: nat)
    requires Forward(ns) && Forward(ms) && m < |ns| == |ms| && forall x :: 0 <= x < |ns| ==> ms[x].links == ns[x].links
    ensures Reach(ms, m) == Reach(ns, m)
    decreases |ns| - m
  {
    forall j: nat | j < |ns[m].links| ensures ChildReach(ms, m, j) == ChildReach(ns, m, j) {
      SameLinksReach(ns, ms, ns[m].links[j].target);
    }
    SameReachOf(ns, ms, m, |ns[m].links|);
  }

  /** The walk went through an existing link: its sibling subtrees are untouched. */
  lemma {:induction false} ThroughLink(ns: Nodes, n: nat, i: nat, ms: Nodes, hs: seq<Hash64>, idx: nat)
    requires Valid(ns) && n < |ns| && |hs| > 0 && FindLink(ns[n].links, hs[0]) == Some(i)
    requires FindBranch(BranchesAt(ns, n), hs[0]) == Some(i)
    requires ns[n].links[i].target < |ns| && Inserted(ns, ms, ns[n].links[i].target, hs[1..], idx)
    ensures Inserted(ns, ms, n, hs, idx)
  {
    var c := ns[n].links[i].target;
    ReachBounds(ns, c);
    assert ms[n] == ns[n];
    ChildWithin(ns, n, i);
    forall j: nat | j < |ns[n].links|
      ensures BranchesAt(ms, n)[j] == if j == i then Branch(hs[0], TreeAt(ms, c)) else BranchesAt(ns, n)[j]
    {
      if j != i {
        SiblingsApart(ns, n, i, j);
        ReachBounds(ns, ns[n].links[j].target);
        SameBelow(ns, ms, ns[n].links[j].target);
      }
    }
    assert BranchesAt(ms, n) == BranchesAt(ns, n)[i := Branch(hs[0], TreeAt(ms, c))];
  }

  lemma SiblingsApart(ns: Nodes, n: nat, i: nat, j: nat)
    requires Valid(ns) && n < |ns| && i < |ns[n].links| && j < |ns[n].links| && i != j
    ensures ChildReach(ns, n, i) !! ChildReach(ns, n, j)
  {
    if i < j {
      assert ChildReach(ns, n, i) !! ChildReach(ns, n, j);
    } else {
      assert ChildReach(ns, n, j) !! ChildReach(ns, n, i);
    }
  }

  lemma {:induction false} OldBranchKept(ns: Nodes, n: nat, ms: Nodes, h: Hash64, j: nat)
    requires Valid(ns) && n < |ns| && FindLink(ns[n].links, h).None? && Valid(ms) && j < |ns[n].links|
    requires Valid(Enter(ns, n, h).0) && OnlyBelow(Enter(ns, n, h).0, ms, |ns|) && ms[n] == Enter(ns, n, h).0[n]
    ensures BranchesAt(ms, n)[j] == BranchesAt(ns, n)[j]
  {
    NewNodeReach(ns, n, h);
    ReachBounds(ns, ns[n].links[j].target);
    SameBelow(ns, ms, ns[n].links[j].target);
  }

  /** The walk created a link: the old subtrees are untouched and the new one is last. */
  lemma {:induction false} ThroughNew(ns: Nodes, n: nat, ms: Nodes, hs: seq<Hash64>, idx: nat)
    requires Valid(ns) && n < |ns| && |hs| > 0 && FindLink(ns[n].links, hs[0]).None?
    requires FindBranch(BranchesAt(ns, n), hs[0]).None?
    requires Valid(Enter(ns, n, hs[0]).0) && Inserted(Enter(ns, n, hs[0]).0, ms, |ns|, hs[1..], idx)
    ensures Inserted(ns, ms, n, hs, idx)
  {
    var ns1 := Enter(ns, n, hs[0]).0;
    NewNodeReach(ns, n, hs[0]);
    assert ms[n] == ns1[n];
    assert n in Reach(ns, n);
    var k := |ns[n].links|;
    forall j: nat | j < k ensures BranchesAt(ms, n)[j] == BranchesAt(ns, n)[j] { OldBranchKept(ns, n, ms, hs[0], j); }
    assert ns1[n].links[k] == Link(hs[0], |ns|);
    assert BranchesAt(ms, n) == BranchesAt(ns, n) + [Branch(hs[0], TreeAt(ms, |ns|))];
  }

  // ---------------------------------------------------------------- program

  class PathTrie {
    var nodes: Nodes

    constructor ()
      ensures Valid(nodes) && Tree() == EMPTY
    {
      nodes := [ArenaNode([], None)];
    }

    function Tree(): Trie
      reads this
      requires Valid(nodes)
    {
      TreeAt(nodes, 0)
    }

    /** Walking down from the root, creating what is missing, and setting the rule at the end. */
    method InsertPath(segments: seq<string>, idx: nat)
      requires Valid(nodes)
      modifies this
      ensures Valid(nodes) && Tree() == Insert(old(Tree()), HashAll(segments), idx)
    {
      ghost var hs, before := HashAll(segments), nodes;
      WalkInserts(nodes, 0, hs, idx);
      var node: nat := 0;
      assert hs[0..] == hs;
      for i := 0 to |segments|
        invariant Forward(nodes) && node < |nodes|
        invariant Walk(nodes, node, hs[i..], idx) == Walk(before, 0, hs, idx)
      {
        var h := Fnv1aHash(segments[i]);
        EnterForward(nodes, node, h);
        assert hs[i..][0] == h && hs[i..][1..] == hs[i + 1..];
        match FindLink(nodes[node].links, h) {
          case Some(j) =>
            node := nodes[node].links[j].target;
          case None =>
            var created := |nodes|;
            var grown := ArenaNode(nodes[node].links + [Link(h, created)], nodes[node].rule);
            nodes := nodes[node := grown] + [ArenaNode([], None)];
            node := created;
        }
      }
      assert hs[|segments|..] == [];
      nodes := nodes[node := ArenaNode(nodes[node].links, Some(idx))];
    }
  }
}
