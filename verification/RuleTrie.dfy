/** Masking rules as a prefix tree over hashed path segments, and which rule the tree selects. */
module RuleTrie {
  import opened Json
  import opened Fnv
  import opened Paths

  /** What the compiled matcher returns when no rule matches: `u32::MAX`. */
  const SENTINEL: nat := 0xFFFF_FFFF

  // ---------------------------------------------------------------- splitting rule paths

  function FlushText(cur: string): seq<string> {
    if cur == "" then [] else [cur]
  }

  /** `split('.')` without the empty pieces, from the characters still to read and the piece so far. */
  function SplitChars(cs: string, cur: string): seq<string> {
    if |cs| == 0 then FlushText(cur)
    else if cs[0] == '.' then FlushText(cur) + SplitChars(cs[1..], "")
    else SplitChars(cs[1..], cur + [cs[0]])
  }

  function SplitPath(path: string): seq<string> {
    SplitChars(TrimDollars(path), "")
  }

  function HashAll(segs: seq<string>): (hs: seq<Hash64>)
    ensures |hs| == |segs|
    ensures forall i :: 0 <= i < |segs| ==> hs[i] == Fnv1a(segs[i])
  {
    if |segs| == 0 then [] else [Fnv1a(segs[0])] + HashAll(segs[1..])
  }

  // ---------------------------------------------------------------- the tree

  datatype Branch = Branch(hash: Hash64, child: Trie)

  datatype Trie = Node(children: seq<Branch>, rule: Option<nat>)

  const EMPTY := Node([], None)

  function FindBranch(bs: seq<Branch>, h: Hash64): (r: Option<nat>)
    ensures r.Some? ==> r.value < |bs| && bs[r.value].hash == h
    ensures r.None? ==> forall i :: 0 <= i < |bs| ==> bs[i].hash != h
  {
    if |bs| == 0 then None
    else if bs[0].hash == h then Some(0)
    else match FindBranch(bs[1..], h)
      case None => None
      case Some(i) => Some(i + 1)
  }

  ghost predicate DistinctHashes(bs: seq<Branch>) {
    forall i, j :: 0 <= i < j < |bs| ==> bs[i].hash != bs[j].hash
  }

  /** What a hash map guarantees: no node has two children under one hash. */
  ghost predicate WellFormedTrie(t: Trie) {
    DistinctHashes(t.children) && forall i :: 0 <= i < |t.children| ==> WellFormedTrie(t.children[i].child)
  }

  /** Walking down from the root, creating missing nodes, and marking the last one. */
  function Insert(t: Trie, hs: seq<Hash64>, idx: nat): Trie
    decreases |hs|
  {
    if |hs| == 0 then t.(rule := Some(idx))
    else
      match FindBranch(t.children, hs[0])
      case Some(i) => t.(children := t.children[i := Branch(hs[0], Insert(t.children[i].child, hs[1..], idx))])
      case None => t.(children := t.children + [Branch(hs[0], Insert(EMPTY, hs[1..], idx))])
  }

  /** The tree of a rule list; indices are cast to 32 bits. */
  function BuildTrie(rules: seq<seq<Hash64>>): Trie {
    if |rules| == 0 then EMPTY
    else Insert(BuildTrie(rules[..|rules| - 1]), rules[|rules| - 1], (|rules| - 1) % 0x1_0000_0000)
  }

  /** What the generated code computes: the rule of the leaf whose path is a prefix of the input. */
  function Match(t: Trie, hs: seq<Hash64>): nat
    decreases |hs|
  {
    if t.rule.Some? && t.children == [] then t.rule.value
    else if |hs| == 0 then SENTINEL
    else
      match FindBranch(t.children, hs[0])
      case Some(i) => Match(t.children[i].child, hs[1..])
      case None => SENTINEL
  }

  // ---------------------------------------------------------------- what a tree contains

  /** The node reached from `t` along `hs`. */
  function At(t: Trie, hs: seq<Hash64>): Option<Trie>
    decreases |hs|
  {
    if |hs| == 0 then Some(t)
    else
      match FindBranch(t.children, hs[0])
      case Some(i) => At(t.children[i].child, hs[1..])
      case None => None
  }

  function RuleAt(t: Trie, hs: seq<Hash64>): Option<nat> {
    if At(t, hs).Some? then At(t, hs).value.rule else None
  }

  lemma {:induction false} AtEmpty(hs: seq<Hash64>)
    ensures At(EMPTY, hs).Some? <==> hs == []
    ensures RuleAt(EMPTY, hs) == None
  {
  }

  lemma {:induction false} InsertWellFormed(t: Trie, p: seq<Hash64>, idx: nat)
    requires WellFormedTrie(t)
    ensures WellFormedTrie(Insert(t, p, idx))
    decreases |p|
  {
    if |p| > 0 {
      match FindBranch(t.children, p[0])
      case Some(i) => InsertWellFormed(t.children[i].child, p[1..], idx);
      case None => InsertWellFormed(EMPTY, p[1..], idx);
    }
  }

  lemma {:induction false} BuildWellFormed(rules: seq<seq<Hash64>>)
    ensures WellFormedTrie(BuildTrie(rules))
  {
    if |rules| != 0 {
      BuildWellFormed(rules[..|rules| - 1]);
      InsertWellFormed(BuildTrie(rules[..|rules| - 1]), rules[|rules| - 1], (|rules| - 1) % 0x1_0000_0000);
    }
  }

  lemma {:induction false} FindInserted(t: Trie, p: seq<Hash64>, idx: nat, h: Hash64)
    requires |p| > 0
    ensures
      var bs := Insert(t, p, idx).children;
      match FindBranch(t.children, h)
      case Some(i) =>
        FindBranch(bs, h) == Some(i)
        && bs[i].child == if h == p[0] then Insert(t.children[i].child, p[1..], idx) else t.children[i].child
      case None =>
        if h == p[0] then FindBranch(bs, h).Some? && bs[FindBranch(bs, h).value].child == Insert(EMPTY, p[1..], idx)
        else FindBranch(bs, h) == None
  {
    match FindBranch(t.children, p[0])
    case Some(i) => FindUpdated(t.children, i, Insert(t.children[i].child, p[1..], idx), h);
    case None => FindAppended(t.children, Branch(p[0], Insert(EMPTY, p[1..], idx)), h);
  }

  lemma FindUpdated(bs: seq<Branch>, i: nat, c: Trie, h: Hash64)
    requires i < |bs|
    ensures FindBranch(bs[i := Branch(bs[i].hash, c)], h) == FindBranch(bs, h)
  {
    if |bs| != 0 && i > 0 {
      assert bs[i := Branch(bs[i].hash, c)][1..] == bs[1..][i - 1 := Branch(bs[i].hash, c)];
      FindUpdated(bs[1..], i - 1, c, h);
    }
  }

  lemma {:induction false} FindAppended(bs: seq<Branch>, b: Branch, h: Hash64)
    ensures FindBranch(bs + [b], h) ==
      if FindBranch(bs, h).Some? then FindBranch(bs, h) else if h == b.hash then Some(|bs|) else None
  {
    if |bs| != 0 {
      assert (bs + [b])[1..] == bs[1..] + [b];
      FindAppended(bs[1..], b, h);
    }
  }

  /** Inserting a path adds exactly its prefixes and sets the rule at its end. */
  lemma {:induction false} InsertContent(t: Trie, p: seq<Hash64>, idx: nat, hs: seq<Hash64>)
    ensures At(Insert(t, p, idx), hs).Some? <==> At(t, hs).Some? || hs <= p
    ensures RuleAt(Insert(t, p, idx), hs) == if hs == p then Some(idx) else RuleAt(t, hs)
    decreases |p|
  {
    if |p| > 0 && |hs| > 0 {
      FindInserted(t, p, idx, hs[0]);
      assert hs <= p <==> hs[0] == p[0] && hs[1..] <= p[1..];
      assert hs == p <==> hs[0] == p[0] && hs[1..] == p[1..];
      if hs[0] == p[0] {
        match FindBranch(t.children, hs[0])
        case Some(i) => InsertContent(t.children[i].child, p[1..], idx, hs[1..]);
        case None =>
          InsertContent(EMPTY, p[1..], idx, hs[1..]);
          AtEmpty(hs[1..]);
      }
    }
  }

  ghost predicate SomeRuleExtends(rules: seq<seq<Hash64>>, hs: seq<Hash64>) {
    exists j :: 0 <= j < |rules| && hs <= rules[j]
  }

  ghost predicate LastWith(rules: seq<seq<Hash64>>, i: nat, hs: seq<Hash64>) {
    i < |rules| && rules[i] == hs && forall j :: i < j < |rules| ==> rules[j] != hs
  }

  lemma ExtendsLast(rules: seq<seq<Hash64>>, hs: seq<Hash64>)
    requires |rules| > 0
    ensures SomeRuleExtends(rules, hs) <==> SomeRuleExtends(rules[..|rules| - 1], hs) || hs <= rules[|rules| - 1]
  {
    var init := rules[..|rules| - 1];
    if SomeRuleExtends(init, hs) {
      var j :| 0 <= j < |init| && hs <= init[j];
      assert hs <= rules[j];
    }
    if SomeRuleExtends(rules, hs) {
      var j :| 0 <= j < |rules| && hs <= rules[j];
      if j < |init| { assert hs <= init[j]; }
    }
  }

  /** The tree of a rule list holds exactly the prefixes of the rules. */
  lemma {:induction false} BuildHolds(rules: seq<seq<Hash64>>, hs: seq<Hash64>)
    ensures At(BuildTrie(rules), hs).Some? <==> hs == [] || SomeRuleExtends(rules, hs)
  {
    if |rules| == 0 {
      AtEmpty(hs);
    } else {
      BuildHolds(rules[..|rules| - 1], hs);
      ExtendsLast(rules, hs);
      InsertContent(BuildTrie(rules[..|rules| - 1]), rules[|rules| - 1], (|rules| - 1) % 0x1_0000_0000, hs);
    }
  }

  lemma LastWithInit(rules: seq<seq<Hash64>>, i: nat, hs: seq<Hash64>)
    requires |rules| > 0
    ensures if rules[|rules| - 1] == hs then LastWith(rules, i, hs) <==> i == |rules| - 1
            else LastWith(rules, i, hs) <==> LastWith(rules[..|rules| - 1], i, hs)
  {
  }

  /** At a rule's end the tree holds the last rule with that path. */
  lemma {:induction false} BuildRule(rules: seq<seq<Hash64>>, hs: seq<Hash64>, i: nat)
    requires |rules| <= SENTINEL
    ensures RuleAt(BuildTrie(rules), hs) == Some(i) <==> LastWith(rules, i, hs)
  {
    if |rules| == 0 {
      AtEmpty(hs);
    } else {
      var n := |rules| - 1;
      LastWithInit(rules, i, hs);
      BuildRule(rules[..n], hs, i);
      assert n % 0x1_0000_0000 == n;
      InsertContent(BuildTrie(rules[..n]), rules[n], n, hs);
    }
  }

  // ---------------------------------------------------------------- what matching selects

  /** Every rule that extends the path is the path. */
  ghost predicate NoneLonger(rules: seq<seq<Hash64>>, hs: seq<Hash64>) {
    forall j :: 0 <= j < |rules| && hs <= rules[j] ==> rules[j] == hs
  }

  /** Rule `i` is selected by an input: its path is a prefix of the input, no rule strictly extends
      that path, and no later rule has the same path. */
  ghost predicate Selected(rules: seq<seq<Hash64>>, i: nat, input: seq<Hash64>) {
    i < |rules| && LastWith(rules, i, rules[i]) && rules[i] <= input && NoneLonger(rules, rules[i])
  }

  ghost predicate LeafAt(t: Trie, hs: seq<Hash64>) {
    At(t, hs).Some? && At(t, hs).value.rule.Some? && At(t, hs).value.children == []
  }

  /** Matching stops at the leaf on the input's path, and only at a leaf. */
  lemma {:induction false} MatchFindsLeaf(t: Trie, input: seq<Hash64>, k: nat)
    requires k <= |input| && LeafAt(t, input[..k])
    ensures Match(t, input) == RuleAt(t, input[..k]).value
    decreases k
  {
    if k > 0 {
      assert input[..k][0] == input[0] && input[..k][1..] == input[1..][..k - 1];
      var i := FindBranch(t.children, input[0]).value;
      MatchFindsLeaf(t.children[i].child, input[1..], k - 1);
    }
  }

  lemma MatchIsLeaf(t: Trie, input: seq<Hash64>) returns (k: nat)
    requires Match(t, input) != SENTINEL
    ensures k <= |input| && LeafAt(t, input[..k]) && Match(t, input) == RuleAt(t, input[..k]).value
    decreases |input|
  {
    if t.rule.Some? && t.children == [] {
      k := 0;
    } else {
      var i := FindBranch(t.children, input[0]).value;
      var m := MatchIsLeaf(t.children[i].child, input[1..]);
      k := m + 1;
      assert input[..k][0] == input[0] && input[..k][1..] == input[1..][..m];
    }
  }

  /** A node without children is one that no other path goes through. */
  lemma {:induction false} ChildlessAt(t: Trie, hs: seq<Hash64>)
    requires At(t, hs).Some?
    ensures At(t, hs).value.children == [] <==> forall h :: At(t, hs + [h]).None?
    decreases |hs|
  {
    if |hs| == 0 {
      if t.children != [] {
        var h := t.children[0].hash;
        assert FindBranch(t.children, h) == Some(0);
        assert ([] + [h])[1..] == [];
        assert At(t, hs + [h]).Some?;
      } else {
        forall h ensures At(t, hs + [h]).None? { assert (hs + [h])[0] == h; }
      }
    } else {
      var i := FindBranch(t.children, hs[0]).value;
      ChildlessAt(t.children[i].child, hs[1..]);
      forall h ensures At(t, hs + [h]) == At(t.children[i].child, hs[1..] + [h]) {
        assert (hs + [h])[0] == hs[0] && (hs + [h])[1..] == hs[1..] + [h];
      }
    }
  }

  lemma {:induction false} LongerRuleIsBelow(rules: seq<seq<Hash64>>, hs: seq<Hash64>, j: nat)
    requires j < |rules| && hs < rules[j] && At(BuildTrie(rules), hs).Some?
    ensures At(BuildTrie(rules), hs).value.children != []
  {
    var h := rules[j][|hs|];
    BuildHolds(rules, hs + [h]);
    assert hs + [h] == rules[j][..|hs| + 1];
    assert hs + [h] <= rules[j] && SomeRuleExtends(rules, hs + [h]);
    ChildlessAt(BuildTrie(rules), hs);
    assert At(BuildTrie(rules), hs + [h]).Some?;
  }

  lemma {:induction false} LeafHasNoneLonger(rules: seq<seq<Hash64>>, hs: seq<Hash64>)
    requires LeafAt(BuildTrie(rules), hs)
    ensures NoneLonger(rules, hs)
  {
    forall j | 0 <= j < |rules| && hs <= rules[j] ensures rules[j] == hs {
      if hs != rules[j] { LongerRuleIsBelow(rules, hs, j); }
    }
  }

  lemma NothingBelow(rules: seq<seq<Hash64>>, hs: seq<Hash64>, h: Hash64)
    requires NoneLonger(rules, hs)
    ensures !SomeRuleExtends(rules, hs + [h])
  {
    forall j | 0 <= j < |rules| ensures !(hs + [h] <= rules[j]) {
      if hs <= rules[j] {
        assert rules[j] == hs;
      } else {
        assert !(hs + [h] <= rules[j]) by { assert hs <= hs + [h]; }
      }
    }
  }

  lemma {:induction false} NoneLongerIsLeaf(rules: seq<seq<Hash64>>, i: nat, hs: seq<Hash64>)
    requires |rules| <= SENTINEL && LastWith(rules, i, hs) && NoneLonger(rules, hs)
    ensures LeafAt(BuildTrie(rules), hs)
  {
    BuildRule(rules, hs, i);
    ChildlessAt(BuildTrie(rules), hs);
    forall h ensures At(BuildTrie(rules), hs + [h]).None? {
      BuildHolds(rules, hs + [h]);
      NothingBelow(rules, hs, h);
    }
  }

  /** The tree of a rule list returns `i` exactly when rule `i` is selected, and otherwise the sentinel. */
  lemma {:induction false} MatchSelects(rules: seq<seq<Hash64>>, input: seq<Hash64>, i: nat)
    requires |rules| <= SENTINEL && i != SENTINEL
    ensures Match(BuildTrie(rules), input) == i <==> Selected(rules, i, input)
  {
    var t := BuildTrie(rules);
    if Match(t, input) == i {
      var k := MatchIsLeaf(t, input);
      BuildRule(rules, input[..k], i);
      LeafHasNoneLonger(rules, input[..k]);
    }
    if Selected(rules, i, input) {
      assert input[..|rules[i]|] == rules[i];
      BuildRule(rules, rules[i], i);
      NoneLongerIsLeaf(rules, i, rules[i]);
      MatchFindsLeaf(t, input, |rules[i]|);
    }
  }
}
