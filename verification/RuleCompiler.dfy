/** Compiling the rule tree to basic blocks: a small block language with an interpreter, the code
    generator, and the proof that the generated code computes what the tree means. */
module RuleCompiler {
  import opened Json
  import opened Fnv
  import opened RuleTrie
  import opened TrieArena

  // ---------------------------------------------------------------- the block language

  /** `dst := input[index]`; the only memory access generated. */
  datatype Inst = Load(dst: nat, index: nat)

  datatype Terminator =
    | Return(value: nat)
    | BranchInBounds(index: nat, thn: nat, els: nat)
    | BranchEq(reg: nat, hash: Hash64, thn: nat, els: nat)
    | Jump(target: nat)

  /** A block under construction has no terminator yet. */
  datatype Block = Block(insts: seq<Inst>, term: Option<Terminator>)

  type Code = seq<Block>

  /** Running traps on a load out of bounds, an undefined register, an unfinished block, or after too many steps. */
  datatype Outcome = Returned(value: nat) | Trapped

  function RunInsts(insts: seq<Inst>, regs: map<nat, Hash64>, input: seq<Hash64>): Option<map<nat, Hash64>> {
    if |insts| == 0 then Some(regs)
    else if insts[0].index >= |input| then None
    else RunInsts(insts[1..], regs[insts[0].dst := input[insts[0].index]], input)
  }

  function Run(code: Code, b: nat, regs: map<nat, Hash64>, input: seq<Hash64>, steps: nat): Outcome
    decreases steps, 1
  {
    if steps == 0 || b >= |code| || code[b].term.None? then Trapped
    else
      match RunInsts(code[b].insts, regs, input)
      case None => Trapped
      case Some(regs') => RunTerm(code, code[b].term.value, regs', input, steps)
  }

  function RunTerm(code: Code, t: Terminator, regs: map<nat, Hash64>, input: seq<Hash64>, steps: nat): Outcome
    requires steps > 0
    decreases steps, 0
  {
    match t
    case Return(v) => Returned(v)
    case BranchInBounds(i, thn, els) => Run(code, if i < |input| then thn else els, regs, input, steps - 1)
    case BranchEq(r, h, thn, els) =>
      if r in regs then Run(code, if regs[r] == h then thn else els, regs, input, steps - 1) else Trapped
    case Jump(target) => Run(code, target, regs, input, steps - 1)
  }

  /** Calling compiled code: it may visit each of its blocks once. */
  function Execute(code: Code, input: seq<Hash64>): Outcome {
    Run(code, 0, map[], input, |code| + 1)
  }

  // ---------------------------------------------------------------- code for a tree

  ghost predicate IsLeaf(t: Trie) {
    t.rule.Some? && t.children == []
  }

  ghost function AllChildren(t: Trie): set<nat> {
    set i: nat {:trigger t.children[i]} | i < |t.children|
  }

  /** The code from block `b` on decides the input from position `depth` on as the tree `t` does. */
  ghost predicate NodeCode(code: Code, b: nat, t: Trie, depth: nat, noMatch: nat)
    decreases t, 1, 0
  {
    b < |code| &&
    if IsLeaf(t) then code[b] == Block([], Some(Return(t.rule.value)))
    else
      && code[b].insts == [] && code[b].term.Some? && code[b].term.value.BranchInBounds?
      && var br := code[b].term.value;
      && br.index == depth && br.els == noMatch && b < br.thn < |code|
      && |code[br.thn].insts| == 1 && code[br.thn].insts[0].index == depth
      && ChecksCode(code, br.thn, code[br.thn].insts[0].dst, t, AllChildren(t), depth, noMatch)
  }

  /** From block `cur` on, register `r` is compared with the hashes of the children in `left`. */
  ghost predicate ChecksCode(code: Code, cur: nat, r: nat, t: Trie, left: set<nat>, depth: nat, noMatch: nat)
    decreases t, 0, |left|
  {
    cur < |code| && code[cur].term.Some? &&
    if left == {} then code[cur].term.value == Jump(noMatch)
    else
      && code[cur].term.value.BranchEq?
      && var br := code[cur].term.value;
      && br.reg == r && FindBranch(t.children, br.hash).Some?
      && var i := FindBranch(t.children, br.hash).value;
      && i in left && cur < br.thn < |code| && cur < br.els < |code| && code[br.els].insts == []
      && NodeCode(code, br.thn, t.children[i].child, depth + 1, noMatch)
      && ChecksCode(code, br.els, r, t, left - {i}, depth, noMatch)
  }

  ghost predicate NoMatchBlock(code: Code, noMatch: nat) {
    noMatch < |code| && code[noMatch] == Block([], Some(Return(SENTINEL)))
  }

  /** What the comparisons of one level decide. */
  ghost function Decide(t: Trie, left: set<nat>, hs: seq<Hash64>): nat
    requires |hs| > 0
  {
    var i := FindBranch(t.children, hs[0]);
    if i.Some? && i.value in left then Match(t.children[i.value].child, hs[1..]) else SENTINEL
  }

  lemma {:induction false} DecideAll(t: Trie, hs: seq<Hash64>)
    requires |hs| > 0 && !IsLeaf(t)
    ensures Decide(t, AllChildren(t), hs) == Match(t, hs)
  {
    var i := FindBranch(t.children, hs[0]);
    if i.Some? { assert t.children[i.value].hash == hs[0]; }
  }

  lemma {:induction false} RunNoMatch(code: Code, noMatch: nat, regs: map<nat, Hash64>, input: seq<Hash64>, steps: nat)
    requires NoMatchBlock(code, noMatch) && steps > 0
    ensures Run(code, noMatch, regs, input, steps) == Returned(SENTINEL)
  {
    assert RunInsts(code[noMatch].insts, regs, input) == Some(regs);
  }

  lemma {:induction false} RunNode(code: Code, b: nat, t: Trie, depth: nat, noMatch: nat,
          regs: map<nat, Hash64>, input: seq<Hash64>, steps: nat)
    requires NodeCode(code, b, t, depth, noMatch) && NoMatchBlock(code, noMatch)
    requires depth <= |input| && steps > |code| - b
    ensures Run(code, b, regs, input, steps) == Returned(Match(t, input[depth..]))
    decreases t, 1, 0
  {
    assert RunInsts(code[b].insts, regs, input) == Some(regs);
    if !IsLeaf(t) {
      var br := code[b].term.value;
      if depth < |input| {
        var load := code[br.thn].insts[0];
        var regs' := regs[load.dst := input[depth]];
        assert code[br.thn].insts[1..] == [];
        assert RunInsts(code[br.thn].insts, regs, input) == Some(regs');
        RunChecks(code, br.thn, load.dst, t, AllChildren(t), depth, noMatch, regs', input, steps - 1);
        DecideAll(t, input[depth..]);
        assert Run(code, br.thn, regs, input, steps - 1)
            == RunTerm(code, code[br.thn].term.value, regs', input, steps - 1);
      } else {
        assert input[depth..] == [];
        RunNoMatch(code, noMatch, regs, input, steps - 1);
      }
    }
  }

  lemma {:induction false} RunChecks(code: Code, cur: nat, r: nat, t: Trie, left: set<nat>, depth: nat, noMatch: nat,
          regs: map<nat, Hash64>, input: seq<Hash64>, steps: nat)
    requires ChecksCode(code, cur, r, t, left, depth, noMatch) && NoMatchBlock(code, noMatch)
    requires depth < |input| && r in regs && regs[r] == input[depth] && steps > |code| - cur
    ensures RunTerm(code, code[cur].term.value, regs, input, steps) == Returned(Decide(t, left, input[depth..]))
    decreases t, 0, |left|
  {
    assert input[depth..][0] == input[depth] && input[depth..][1..] == input[depth + 1..];
    if left == {} {
      RunNoMatch(code, noMatch, regs, input, steps - 1);
    } else {
      var br := code[cur].term.value;
      var i := FindBranch(t.children, br.hash).value;
      if input[depth] == br.hash {
        RunNode(code, br.thn, t.children[i].child, depth + 1, noMatch, regs, input, steps - 1);
      } else {
        RunChecks(code, br.els, r, t, left - {i}, depth, noMatch, regs, input, steps - 1);
        assert RunInsts(code[br.els].insts, regs, input) == Some(regs);
        assert Run(code, br.els, regs, input, steps - 1)
            == RunTerm(code, code[br.els].term.value, regs, input, steps - 1);
        assert Decide(t, left - {i}, input[depth..]) == Decide(t, left, input[depth..]);
      }
    }
  }

  /** The code of a tree returns what the tree selects, for every input; it never traps, so every
      load stays within the input. */
  lemma {:induction false} CodeComputesMatch(code: Code, t: Trie, input: seq<Hash64>)
    requires NodeCode(code, 0, t, 0, 1) && NoMatchBlock(code, 1)
    ensures Execute(code, input) == Returned(Match(t, input))
  {
    RunNode(code, 0, t, 0, 1, map[], input, |code| + 1);
    assert input[0..] == input;
  }

  // ---------------------------------------------------------------- finished blocks stay

  ghost predicate Keeps(code: Code, code': Code) {
    |code| <= |code'| && forall i {:trigger code'[i]} :: 0 <= i < |code| && code[i].term.Some? ==> code'[i] == code[i]
  }

  lemma {:induction false} NodeCodeKept(code: Code, code': Code, b: nat, t: Trie, depth: nat, noMatch: nat)
    requires Keeps(code, code') && NodeCode(code, b, t, depth, noMatch)
    ensures NodeCode(code', b, t, depth, noMatch)
    decreases t, 1, 0
  {
    assert code'[b] == code[b];
    if !IsLeaf(t) {
      var br := code[b].term.value;
      ChecksCodeKept(code, code', br.thn, code[br.thn].insts[0].dst, t, AllChildren(t), depth, noMatch);
    }
  }

  lemma {:induction false} ChecksCodeKept(code: Code, code': Code, cur: nat, r: nat, t: Trie, left: set<nat>,
          depth: nat, noMatch: nat)
    requires Keeps(code, code') && ChecksCode(code, cur, r, t, left, depth, noMatch)
    ensures ChecksCode(code', cur, r, t, left, depth, noMatch) && code'[cur] == code[cur]
    decreases t, 0, |left|
  {
    assert code'[cur] == code[cur];
    if left != {} {
      var br := code[cur].term.value;
      var i := FindBranch(t.children, br.hash).value;
      NodeCodeKept(code, code', br.thn, t.children[i].child, depth + 1, noMatch);
      ChecksCodeKept(code, code', br.els, r, t, left - {i}, depth, noMatch);
    }
  }

  // ---------------------------------------------------------------- a level under construction

  /** The comparisons emitted so far lead from block `from`, where `left` are to be compared, to block
      `to`, where `rest` remain. */
  ghost predicate Chain(code: Code, from: nat, to: nat, r: nat, t: Trie, left: set<nat>, rest: set<nat>, depth: nat,
          noMatch: nat)
    decreases |left|
  {
    from < |code| &&
    if left == rest then from == to
    else
      && left != {} && code[from].term.Some? && code[from].term.value.BranchEq?
      && var br := code[from].term.value;
      && br.reg == r && FindBranch(t.children, br.hash).Some?
      && var i := FindBranch(t.children, br.hash).value;
      && i in left && from < br.thn < |code| && from < br.els < |code| && code[br.els].insts == []
      && NodeCode(code, br.thn, t.children[i].child, depth + 1, noMatch)
      && Chain(code, br.els, to, r, t, left - {i}, rest, depth, noMatch)
  }

  lemma {:induction false} ChainKept(code: Code, code': Code, from: nat, to: nat, r: nat, t: Trie,
          left: set<nat>, rest: set<nat>, depth: nat, noMatch: nat)
    requires Keeps(code, code') && Chain(code, from, to, r, t, left, rest, depth, noMatch)
    requires to < |code| && code'[to].insts == code[to].insts
    ensures Chain(code', from, to, r, t, left, rest, depth, noMatch) && code'[from].insts == code[from].insts
    decreases |left|
  {
    if left != rest {
      assert code'[from] == code[from];
      var br := code[from].term.value;
      var i := FindBranch(t.children, br.hash).value;
      NodeCodeKept(code, code', br.thn, t.children[i].child, depth + 1, noMatch);
      ChainKept(code, code', br.els, to, r, t, left - {i}, rest, depth, noMatch);
    }
  }

  ghost predicate NextCheck(code: Code, to: nat, i: nat, r: nat, t: Trie, depth: nat, noMatch: nat) {
    && to < |code| && i < |t.children| && code[to].term.Some? && code[to].term.value.BranchEq?
    && var br := code[to].term.value;
    && br.reg == r && br.hash == t.children[i].hash
    && to < br.thn < |code| && to < br.els < |code| && code[br.els].insts == []
    && NodeCode(code, br.thn, t.children[i].child, depth + 1, noMatch)
  }

  lemma {:induction false} FindSelf(bs: seq<Branch>, i: nat)
    requires i < |bs| && DistinctHashes(bs)
    ensures FindBranch(bs, bs[i].hash) == Some(i)
  {
    var j := FindBranch(bs, bs[i].hash).value;
    assert bs[j].hash == bs[i].hash;
  }

  lemma {:induction false} ChainGrows(code: Code, from: nat, to: nat, i: nat, r: nat, t: Trie,
          left: set<nat>, rest: set<nat>, depth: nat, noMatch: nat)
    requires Chain(code, from, to, r, t, left, rest, depth, noMatch) && DistinctHashes(t.children)
    requires NextCheck(code, to, i, r, t, depth, noMatch) && i in rest && rest <= left
    ensures Chain(code, from, code[to].term.value.els, r, t, left, rest - {i}, depth, noMatch)
    decreases |left|
  {
    FindSelf(t.children, i);
    if left == rest {
      assert left != rest - {i};
    } else {
      var j := FindBranch(t.children, code[from].term.value.hash).value;
      ChainCovers(code, code[from].term.value.els, to, r, t, left - {j}, rest, depth, noMatch);
      ChainGrows(code, code[from].term.value.els, to, i, r, t, left - {j}, rest, depth, noMatch);
    }
  }

  lemma {:induction false} ChainCovers(code: Code, from: nat, to: nat, r: nat, t: Trie,
          left: set<nat>, rest: set<nat>, depth: nat, noMatch: nat)
    requires Chain(code, from, to, r, t, left, rest, depth, noMatch)
    ensures rest <= left
    decreases |left|
  {
    if left != rest {
      var br := code[from].term.value;
      ChainCovers(code, br.els, to, r, t, left - {FindBranch(t.children, br.hash).value}, rest, depth, noMatch);
    }
  }

  lemma {:induction false} ChainCloses(code: Code, from: nat, to: nat, r: nat, t: Trie, left: set<nat>, depth: nat,
          noMatch: nat)
    requires Chain(code, from, to, r, t, left, {}, depth, noMatch)
    requires to < |code| && code[to].term == Some(Jump(noMatch))
    ensures ChecksCode(code, from, r, t, left, depth, noMatch)
    decreases |left|
  {
    if left != {} {
      var br := code[from].term.value;
      ChainCloses(code, br.els, to, r, t, left - {FindBranch(t.children, br.hash).value}, depth, noMatch);
    }
  }

  // ---------------------------------------------------------------- the code generator

  class FunctionBuilder {
    var blocks: Code
    var current: nat
    var nextReg: nat

    constructor ()
      ensures blocks == [] && current == 0
    {
      blocks, current, nextReg := [], 0, 0;
    }

    /** Instructions go to a block that is not finished yet. */
    ghost predicate Open()
      reads this
    {
      current < |blocks| && blocks[current].term.None?
    }

    method CreateBlock() returns (b: nat)
      modifies this
      ensures b == |old(blocks)| && blocks == old(blocks) + [Block([], None)] && current == old(current)
    {
      b := |blocks|;
      blocks := blocks + [Block([], None)];
    }

    method SwitchToBlock(b: nat)
      requires b < |blocks| && blocks[b].term.None?
      modifies this
      ensures current == b && blocks == old(blocks)
    {
      current := b;
    }

    method EmitLoad(index: nat) returns (r: nat)
      requires Open()
      modifies this
      ensures current == old(current)
      ensures blocks == old(blocks)[current := Block(old(blocks)[current].insts + [Load(r, index)], None)]
    {
      r := nextReg;
      nextReg := nextReg + 1;
      blocks := blocks[current := Block(blocks[current].insts + [Load(r, index)], None)];
    }

    method Terminate(t: Terminator)
      requires Open()
      modifies this
      ensures current == old(current)
      ensures blocks == old(blocks)[current := Block(old(blocks)[current].insts, Some(t))]
    {
      blocks := blocks[current := Block(blocks[current].insts, Some(t))];
    }
  }

  /** Only the named block of the old code was written, and blocks were added. */
  ghost predicate OnlyWrote(code: Code, code': Code, b: nat) {
    |code| <= |code'| && forall i {:trigger code'[i]} :: 0 <= i < |code| && i != b ==> code'[i] == code[i]
  }

  method EmitTrieLevel(b: FunctionBuilder, t: Trie, depth: nat, noMatch: nat)
    requires b.Open() && b.blocks[b.current].insts == [] && WellFormedTrie(t)
    modifies b
    ensures NodeCode(b.blocks, old(b.current), t, depth, noMatch)
    ensures OnlyWrote(old(b.blocks), b.blocks, old(b.current))
    decreases t, 1
  {
    if t.rule.Some? && t.children == [] {
      b.Terminate(Return(t.rule.value));
      return;
    }
    ghost var start, code0 := b.current, b.blocks;
    var boundsOk := b.CreateBlock();
    b.Terminate(BranchInBounds(depth, boundsOk, noMatch));
    b.SwitchToBlock(boundsOk);
    var r := b.EmitLoad(depth);
    ghost var code1 := b.blocks;
    EmitChecks(b, t, r, depth, noMatch);
    assert code1[start].term.Some? && b.blocks[start] == code1[start];
  }

  /** One comparison per child, in whatever order the hash map yields the children. */
  method EmitChecks(b: FunctionBuilder, t: Trie, r: nat, depth: nat, noMatch: nat)
    requires b.Open() && WellFormedTrie(t)
    modifies b
    ensures ChecksCode(b.blocks, old(b.current), r, t, AllChildren(t), depth, noMatch)
    ensures b.blocks[old(b.current)].insts == old(b.blocks)[old(b.current)].insts
    ensures OnlyWrote(old(b.blocks), b.blocks, old(b.current))
    decreases t, 0, 2
  {
    ghost var from, code0 := b.current, b.blocks;
    var left := set i: nat {:trigger t.children[i]} | i < |t.children|;
    ghost var all := left;
    while left != {}
      invariant left <= all == AllChildren(t)
      invariant b.Open() && Building(b.blocks, b.current, code0, from, r, t, all, left, depth, noMatch)
      decreases |left|
    {
      var i :| i in left;
      ExtendChain(b, t, i, r, depth, noMatch, from, code0, all, left);
      left := left - {i};
    }
    ghost var to, code := b.current, b.blocks;
    b.Terminate(Jump(noMatch));
    ChainKept(code, b.blocks, from, to, r, t, all, {}, depth, noMatch);
    ChainCloses(b.blocks, from, to, r, t, all, depth, noMatch);
  }

  /** The level begun in block `from` of `code0` has reached block `current`, with `left` still to compare. */
  ghost predicate Building(code: Code, current: nat, code0: Code, from: nat, r: nat, t: Trie,
                           all: set<nat>, left: set<nat>, depth: nat, noMatch: nat) {
    && from < |code0| && OnlyWrote(code0, code, from) && (current == from || current >= |code0|)
    && code[from].insts == code0[from].insts && Chain(code, from, current, r, t, all, left, depth, noMatch)
  }

  method ExtendChain(b: FunctionBuilder, t: Trie, i: nat, r: nat, depth: nat, noMatch: nat,
                     ghost from: nat, ghost code0: Code, ghost all: set<nat>, ghost left: set<nat>)
    requires b.Open() && WellFormedTrie(t) && i < |t.children| && i in left && left <= all
    requires Building(b.blocks, b.current, code0, from, r, t, all, left, depth, noMatch)
    modifies b
    ensures b.Open() && Building(b.blocks, b.current, code0, from, r, t, all, left - {i}, depth, noMatch)
    decreases t, 0, 1
  {
    ghost var to, code := b.current, b.blocks;
    EmitCheck(b, t, i, r, depth, noMatch);
    ChainKept(code, b.blocks, from, to, r, t, all, left, depth, noMatch);
    ChainGrows(b.blocks, from, to, i, r, t, all, left, depth, noMatch);
  }

  /** The comparison with one child's hash, the child's own code, and a fresh block for what follows. */
  method EmitCheck(b: FunctionBuilder, t: Trie, i: nat, r: nat, depth: nat, noMatch: nat)
    requires b.Open() && WellFormedTrie(t) && i < |t.children|
    modifies b
    ensures NextCheck(b.blocks, old(b.current), i, r, t, depth, noMatch)
    ensures b.blocks[old(b.current)].insts == old(b.blocks)[old(b.current)].insts
    ensures b.current == b.blocks[old(b.current)].term.value.els && b.current >= |old(b.blocks)| && b.Open()
    ensures OnlyWrote(old(b.blocks), b.blocks, old(b.current))
    decreases t, 0, 0
  {
    ghost var to := b.current;
    var matchBlock := b.CreateBlock();
    var nextCheck := b.CreateBlock();
    b.Terminate(BranchEq(r, t.children[i].hash, matchBlock, nextCheck));
    b.SwitchToBlock(matchBlock);
    ghost var code := b.blocks;
    EmitTrieLevel(b, t.children[i].child, depth + 1, noMatch);
    assert b.blocks[to] == code[to] && b.blocks[nextCheck] == code[nextCheck];
    b.SwitchToBlock(nextCheck);
  }

  function RuleHashes(paths: seq<string>): seq<seq<Hash64>> {
    seq(|paths|, i requires 0 <= i < |paths| => HashAll(SplitPath(paths[i])))
  }

  /** The loop over the rules: each path is walked into the tree, and its end marked with the rule's index. */
  method BuildPathTrie(paths: seq<string>) returns (root: Trie)
    ensures root == BuildTrie(RuleHashes(paths))
  {
    var trie := new PathTrie();
    ghost var rules := RuleHashes(paths);
    for idx := 0 to |paths|
      invariant Valid(trie.nodes) && trie.Tree() == BuildTrie(rules[..idx])
    {
      assert rules[..idx + 1][..idx] == rules[..idx];
      trie.InsertPath(SplitPath(paths[idx]), idx % 0x1_0000_0000);
    }
    assert rules[..|paths|] == rules;
    root := trie.Tree();
  }

  /** Compiling a rule list. Whatever order the children are visited in, running the code on any
      hash array gives what the rule tree selects. */
  method CompileRules(paths: seq<string>) returns (code: Code)
    ensures forall input :: Execute(code, input) == Returned(Match(BuildTrie(RuleHashes(paths)), input))
    ensures |paths| <= SENTINEL ==>
      forall input, i: nat :: i != SENTINEL ==>
        (Execute(code, input) == Returned(i) <==> Selected(RuleHashes(paths), i, input))
  {
    ghost var rules := RuleHashes(paths);
    var root := BuildPathTrie(paths);
    BuildWellFormed(rules);
    var b := new FunctionBuilder();
    var entry := b.CreateBlock();
    b.SwitchToBlock(entry);
    var noMatch := b.CreateBlock();
    EmitTrieLevel(b, root, 0, noMatch);
    ghost var before := b.blocks;
    b.SwitchToBlock(noMatch);
    b.Terminate(Return(SENTINEL));
    code := b.blocks;
    NodeCodeKept(before, code, entry, root, 0, noMatch);
    forall input ensures Execute(code, input) == Returned(Match(BuildTrie(rules), input)) {
      CodeComputesMatch(code, root, input);
    }
    if |paths| <= SENTINEL {
      forall input, i: nat | i != SENTINEL ensures Execute(code, input) == Returned(i) <==> Selected(rules, i, input) {
        MatchSelects(rules, input, i);
      }
    }
  }
}
