# ApiSnap's algorithms, verified

ApiSnap records API responses as JSON trees, masks what is volatile or sensitive, stores the trees in a
content-addressed store, and compares later responses with them. This project models the differ, the store, the
masker and the protocols around them, and proves what they are for. `dafny verify dfyconfig.toml` checks everything.

A JSON document is `Json.Value`: objects keep their insertion order, as serde_json's map does with
`preserve_order`, and equality up to key order is equality of the order-free view `Json.Canon`. Each file is
one component. A function states what a piece of the program means (`Diff`, `Mask`, `IngestDisk`, `Cases`,
`Act`); the methods and classes beside it are the program, with the source's loops and mutable fields, and are
proved equal to it; the theorems are about that function. What such a function could get wrong together with its
method is stated apart from both, on documents and in literal values: what a record says (`RecordTruth`), where a
rule lands (`MaskedPositions`), what a summary counts (`DeltaCounts`), how long a token lives
(`TokenCache.ServedWithinLifetime`), whose response an endpoint gets (`Dispatcher.RunAnswers`), which bytes are hashed
(`MerkleEncoding.NodeLayout`), and what is tried on a field (`Mutator.CasesByTable`).

| component | files |
|---|---|
| documents, strings, paths | `Json`, `Text`, `Paths`, `Navigation`, `Skeletons`, `Bytes`, `Fnv` |
| semantic differ | `Differ`, `DifferEquality`, `GreedyMatching`, `TolerantMatching`, `EqualityShortcut`, `DifferOptions`, `RecordTruth`, `EditScript` |
| content-addressed store, timeline | `MerkleEncoding`, `MerkleTree`, `MerkleIdentity`, `MerkleDisk`, `MerkleStore`, `DeltaCounts`, `Timeline` |
| rule compiler, masker | `RuleTrie`, `TrieArena`, `RuleCompiler`, `Masker`, `MaskerAgreement`, `MaskedPositions`, `MaskLaws` |
| learner, fuzz mutator | `Learner`, `Mutator` |
| concurrent protocols | `Dispatcher`, `TokenCache` |
| shadow drift filter | `ShadowFilter` |

Foreign code is a parameter, and a theorem that needs something from it says so: Unicode NFC and the distance
of two doubles (`Options.nfc`, `Options.gap`), BLAKE3 and integer-to-double conversion (`Platform`), the regular
expressions (`Regexes`), the JSON text of a scalar (`repr`), the JSON parser of the filter (`parse`). BLAKE3 is
never assumed injective: `NoCollision` speaks only of the finite set of encodings involved. No lemma uses
Dafny's automatic induction: every inductive step is written out.

## What the proofs found

Some statements one would expect are false of the code. Each is shown by a concrete case, next to the exact
condition under which it does hold.

* The two zeros are equal for serde_json, and have two Merkle roots (`MerkleIdentity.ZerosHaveTwoRoots`). An
  integer above `i64::MAX` comes back as a double and shares its root with that double
  (`LargeIntegersShareRoots`); a stored document comes back unchanged exactly when it holds no such integer.
* With a positive tolerance the greedy matching of a set-mode array can miss a bijection
  (`TolerantMatching.ToleranceBreaksCompleteness`). It finds every bijection exactly when the tolerance relates
  numbers in a zigzag: two expected numbers that match one actual number match the same actual numbers
  (`CompleteIffZigzag`). A tolerance of zero does (`ExactDiffIffEqual`), and ordered arrays need nothing: an
  empty diff is semantic equality for them at every tolerance (`EmptyDiffIffEqual`).
* When key normalisation identifies two keys of one object, the equality shortcut hides differences the walk
  would report (`EqualityShortcut.ShortcutHidesCollidingKeys`), and the drift filter can report what the differ
  does not see (`ShadowFilter.CollidingKeysUnreported`). Over any set of keys, the shortcut changes no answer,
  and the differ explains every drift, exactly when normalisation tells those keys apart
  (`ShortcutTransparentIff`, `DriftAlwaysReported`), as it does keys that are already in normal form
  (`NormalDriftIsReported`).
* Of two rules for one path the compiled matcher takes the last and the rule list the first
  (`MaskerAgreement.DuplicateRulesDisagree`), and a rule whose dot-separated pieces spell a bracket fires on keys
  that spell it (`BracketKeyDisagrees`). Compiled and list masking agree on every document whose keys collide
  with no rule piece exactly when the list does the same as the code wherever the code can fire
  (`CompiledMaskingAgrees`): no piece there holds a bracket (`ListedWithoutBrackets`), and the first rule for the
  path has the effect of the last.
* The fuzz case that should drop the key `a.b` is the unchanged body (`Mutator.DottedKeyIsKept`): dropping works
  exactly on paths that survive being printed and parsed (`DropsExactlyCleanPaths`).
* `get_timeline` with limit 0 returns one commit. With concurrency 0 the dispatcher answers nothing and says so
  to nobody.

## Model

| member | source | states |
|---|---|---|
| `Json.SerdeEqIsCanonical` | src/engine/differ.rs:179-193 | the `==` of the fast path, an asymmetric walk with map lookups, is equality of order-free views, hence an equivalence relation |
| `Paths.ParseJsonPathToSegments` | src/engine/masker.rs:144-185 | the character loop of the masker's parser yields the segments of its recursive definition |
| `Paths.ParseJsonPath` | src/fuzz/mutator.rs:264-302 | the same for the mutator's parser, which does not know wildcards |
| `Paths.PrintParse` | src/engine/masker.rs:144-185 | printing a path and parsing it back is the identity if and only if keys are non-empty without `.` or `[` and indices fit a `usize`; for both parsers |
| `Paths.PrintedIsRendered` | src/engine/masker.rs:325-336 | the path string grown step by step along a walk is the printed segment list |
| `Paths.ParsersAgree` | src/fuzz/mutator.rs:264-302 | on wildcard-free clean paths both parsers read the same segments |
| `Paths.RenderInjective` | src/engine/masker.rs:325-336 | different clean paths print differently |
| `Differ.CompareJsonAst` | src/engine/differ.rs:179-193 | the program appends exactly the records of `Diff`, after the equality shortcut |
| `Differ.DiffRecursive` | src/engine/differ.rs:195-341 | each call appends the records of its node to the shared list and touches nothing before them |
| `Differ.DiffArrayAsSet` | src/engine/differ.rs:343-382 | the flag array and its two loops append what greedy matching leaves over |
| `Differ.FindFree` | src/engine/differ.rs:354-365 | the inner scan returns the index of the first free item without differences, or the length if there is none |
| `RecordTruth.RecordsAreTrue` | src/engine/differ.rs:195-382 | for documents with normal keys, at every tolerance and in every array mode, each record is true: old and new values, or lengths, are those found at its path in the expected and the actual document, they differ in kind for a type mismatch and in content otherwise, and a removed or added value is on its side only |
| `RecordTruth.RecordsAreComplete` | src/engine/differ.rs:195-382 | conversely every position the walk reaches has the record its two values call for |
| `DifferOptions.NumbersCompared` | src/engine/differ.rs:310-327 | two numbers yield no record exactly when they are within epsilon, if that is positive, or equal up to the sign of zero, if not or if the shortcut is on |
| `DifferOptions.OrderIgnored` | src/engine/differ.rs:264-301 | swapping two different items goes unrecorded exactly when the array's own printed path is configured as a set and the depth limit leaves room for the items |
| `DifferEquality.EmptyDiffMeansEqual` | src/engine/differ.rs:195-382 | for every tolerance and array mode, no records means semantic equality; a set-mode array then has a bijection of equal items |
| `DifferEquality.EmptyUnorderedMatches` | src/engine/differ.rs:343-382 | an empty result of the greedy matching exhibits a one-to-one and onto matching |
| `DifferEquality.DiffFieldsEmpty` | src/engine/differ.rs:223-258 | two objects yield no records exactly when their normalised keys agree and no common value differs |
| `GreedyMatching.GreedyDecidesBags` | src/engine/differ.rs:343-382 | without a tolerance, greedy matching leaves nothing over exactly when the two bags of canonical forms are equal |
| `GreedyMatching.ExactDiffDecidesForms` | src/engine/differ.rs:195-382 | without a tolerance, no records exactly when canonical forms are equal and nothing lies below the depth limit |
| `GreedyMatching.SetDiffIsDifference` | src/engine/differ.rs:343-382 | without a tolerance, the records of a set-mode array are the two differences of its bags of canonical forms: removed is what has no counterpart, or lies too deep to be compared; added is what no expected item accounts for; nothing else is recorded |
| `TolerantMatching.ExactDiffIffEqual` | src/engine/differ.rs:195-382 | without a tolerance, no records if and only if semantically equal, in every array mode |
| `TolerantMatching.EmptyDiffIffEqual` | src/engine/differ.rs:195-382 | no records if and only if semantically equal, with bijections for set-mode arrays: at every tolerance when arrays are ordered, and in all modes when the tolerance relates numbers in a zigzag, as a tolerance of zero does |
| `TolerantMatching.CompleteIffZigzag` | src/engine/differ.rs:343-382 | at a set-mode place, greedy matching recognises every semantically equal pair if and only if the tolerance relates numbers in a zigzag |
| `TolerantMatching.ToleranceBreaksCompleteness` | src/engine/differ.rs:310-327 | with a positive tolerance there are semantically equal arrays that greedy matching reports as different |
| `EqualityShortcut.ShortcutTransparent` | src/engine/differ.rs:186-189 | the shortcut returns what the walk would, exactly when equal documents also fit the depth limit, for keys that normalisation keeps apart |
| `EqualityShortcut.ShortcutTransparentIff` | src/engine/differ.rs:186-189 | over documents with keys from any given set that fit the depth limit, the shortcut changes no answer if and only if normalisation tells those keys apart |
| `EqualityShortcut.ShortcutHidesCollidingKeys` | src/engine/differ.rs:223-234 | colliding normalised keys: equal documents for the shortcut, a difference for the walk |
| `EditScript.EditScriptComplete` | src/engine/differ.rs:195-341 | applied in order to the expected document, the records yield the actual one |
| `EditScript.EditScriptByPath` | src/engine/differ.rs:47-60 | the same when each record is located only by its printed `json_path` |
| `MerkleEncoding.NumberRoundTrip` | src/storage/merkle.rs:206-237 | a number comes back from its canonical bytes exactly as `StoredNumber` says: unchanged unless above `i64::MAX` |
| `MerkleEncoding.NumberLayout` | src/storage/merkle.rs:206-217 | the canonical bytes are a tag, 0 for a signed 64-bit integer and 1 for a double, and eight bytes whose big-endian value is the two's complement or the bits |
| `MerkleEncoding.NodeLayout` | src/storage/merkle.rs:102-136 | the hashed bytes of each kind of node: its tag, 0 to 5, then the truth value, number, text, or a little-endian length modulo 2^32 and 32-byte hashes, key before value |
| `MerkleEncoding.EncodeInjective` | src/storage/merkle.rs:102-136 | the tagged, length-prefixed encoding of a node determines the node, if its keys' hashes do not collide |
| `MerkleEncoding.HashIdentifies` | src/storage/merkle.rs:102-136 | among nodes without collisions, equal hashes mean equal nodes |
| `MerkleTree.SortOrderSorts` | src/storage/merkle.rs:92-94 | the stable sort of an object's entries is a permutation in key order |
| `MerkleTree.RootsEqualIffRestoredEqual` | src/storage/merkle.rs:72-136 | for all documents, roots are equal exactly when what the store would give back is equal |
| `MerkleIdentity.RestoredIsSame` | src/storage/merkle.rs:167-237 | what the store gives back equals the document up to key order exactly when no integer exceeds `i64::MAX` |
| `MerkleIdentity.RootIdentifiesDocument` | src/storage/merkle.rs:72-136 | roots are equal if and only if documents are equal up to key order |
| `MerkleIdentity.ZerosHaveTwoRoots` | src/storage/merkle.rs:206-217 | 0.0 and -0.0 are equal for serde_json and have different roots |
| `MerkleIdentity.LargeIntegersShareRoots` | src/storage/merkle.rs:206-217 | an integer above `i64::MAX` has the root of the double it converts to |
| `MerkleDisk.IngestKeepsSound` | src/storage/merkle.rs:72-100 | an ingest keeps the disk content-addressed, closed under child hashes and acyclic |
| `MerkleDisk.IngestAddsSubtrees` | src/storage/merkle.rs:69-100 | the disk after an ingest is the disk before plus exactly the hashes of the document's subtrees |
| `MerkleDisk.ReingestWritesNothing` | src/storage/merkle.rs:69-71 | ingesting what is stored changes nothing |
| `MerkleDisk.ReplacementGrowth` | src/storage/merkle.rs:69-71 | replacing a subtree at depth p by x adds at most p nodes and the distinct nodes of x |
| `MerkleStore.RebuildStable` | src/storage/merkle.rs:167-191 | what a hash rebuilds to does not change while the disk grows |
| `MerkleStore.StoreRoundTrip` | src/storage/merkle.rs:72-191 | from any sound store, ingest then any later ingests then reconstruct gives the document back up to key order, exactly when it holds no integer above `i64::MAX` |
| `MerkleStore.IngestThenReconstruct` | src/storage/merkle.rs:72-203 | on a coherent store, ingest then reconstruct gives the document back up to key order, exactly when it holds no integer above `i64::MAX`; only a failed write is an error, because an ingest caches every node, so that no unreadable file matters |
| `MerkleStore.LaterIngests` | src/storage/merkle.rs:72-100 | every store reached by ingests from a sound one is sound and has lost nothing |
| `MerkleStore.AllReadable` | src/storage/merkle.rs:167-203 | when every file can be read, whatever is on disk can be reconstructed: no child is ever missing |
| `MerkleStore.MerkleCasStore.constructor` | src/storage/merkle.rs:60-66 | reopening any sound directory with an empty cache is a valid, coherent store |
| `MerkleStore.MerkleCasStore.Load` | src/storage/merkle.rs:193-203 | returns what the disk holds, from cache or disk, and fails exactly for a hash that is not cached and whose file is missing, unreadable or does not decode; the cache stays coherent |
| `MerkleStore.MerkleCasStore.WriteIfAbsent` | src/storage/merkle.rs:139-164 | writes at most one file, never over an existing one, and keeps cache and disk in agreement |
| `MerkleStore.MerkleCasStore.Ingest` | src/storage/merkle.rs:72-100 | returns the root and leaves exactly the disk of `IngestDisk`; cut short after any write it leaves a sound disk that lost nothing and gained only subtrees of the document; after success every node of the document is cached |
| `MerkleStore.MerkleCasStore.Reconstruct` | src/storage/merkle.rs:167-191 | terminates on every sound store and returns what the disk spells, or an error exactly when the root or a node below it is missing or cannot be read |
| `Timeline.NewestFirstIsSuffix` | src/storage/timeline.rs:112-141 | the timeline is the newest-first suffix of the history; its length is the limit, cut to the history, if and only if the limit is at least 1 or the history empty, and otherwise 1 |
| `Timeline.TimelineStore.GetTimeline` | src/storage/timeline.rs:112-141 | the backward scan with its early exit returns that suffix |
| `Timeline.TimelineStore.RecordObservation` | src/storage/timeline.rs:53-109 | appends one commit with the observation's fields, whose parent is the previous commit; its summary is zero for a first commit, has zero counts when one of the two documents cannot be read, and is otherwise that of their records; the store keeps its contents |
| `Timeline.TimelineStore.DiffHistoricalCommits` | src/storage/timeline.rs:144-173 | recomputes the records between two stored documents, and fails exactly when one cannot be read back |
| `Timeline.Summarize` | src/storage/timeline.rs:79-86 | the counters are the numbers of records that are additions, removals and type changes, modulo 2^32 |
| `DeltaCounts.ObjectCounts` | src/engine/differ.rs:223-258 | for two objects whose common values have nothing to go into, the records of each sort are as many as the keys only the actual one has, the keys only the expected one has, and the common keys whose values differ in kind |
| `Timeline.CommitCountsKeys` | src/storage/timeline.rs:53-109 | the commit of such an object stored after such an object has these numbers, modulo 2^32, and the difference of the latencies |
| `Timeline.LedgerIsChain` | src/storage/timeline.rs:53-109 | in every run each commit's parent is the commit before it, and each stored summary equals the one recomputed later, because the store only grows |
| `Timeline.LatencyTelescopes` | src/storage/timeline.rs:66-67 | latency deltas add up to last minus first latency |
| `Fnv.Fnv1aHash` | src/engine/jit_rule.rs:25-34 | the hash loop computes 64-bit FNV-1a of the UTF-8 bytes |
| `Fnv.FnvValues` | src/engine/jit_rule.rs:25-34 | the published hashes of the empty string, "a" and "id" |
| `Fnv.StepInjective` | src/engine/jit_rule.rs:29-32 | one step of the hash forgets neither the hash so far nor the byte |
| `TrieArena.WalkInserts` | src/engine/jit_rule.rs:62-67 | a cursor walk over nodes updated in place inserts the path into the tree below its start, touches nothing it does not reach, and keeps every node below one parent only |
| `TrieArena.PathTrie.InsertPath` | src/engine/jit_rule.rs:57-67 | the loop that moves the cursor, creates missing nodes and marks the end performs that insertion |
| `RuleTrie.BuildHolds` | src/engine/jit_rule.rs:54-68 | the tree built by successive insertions has exactly the prefixes of the rules as nodes |
| `RuleTrie.BuildRule` | src/engine/jit_rule.rs:54-68 | at a rule's end the tree holds the last rule with that path |
| `RuleTrie.MatchSelects` | src/engine/jit_rule.rs:128-175 | the tree returns i if and only if rule i is a prefix of the input, no rule strictly extends it, and it is the last with its path |
| `RuleCompiler.BuildPathTrie` | src/engine/jit_rule.rs:54-68 | inserting all rules in place builds the tree of the rule list |
| `RuleCompiler.CodeComputesMatch` | src/engine/jit_rule.rs:128-175 | running the blocks of a tree gives what the tree selects and never traps, so every load is in bounds |
| `RuleCompiler.EmitTrieLevel` | src/engine/jit_rule.rs:128-175 | the recursive generator emits code for its tree and leaves all finished blocks alone |
| `RuleCompiler.EmitChecks` | src/engine/jit_rule.rs:157-174 | one comparison per child, visited in any order |
| `RuleCompiler.CompileRules` | src/engine/jit_rule.rs:48-124 | on every hash array the compiled function returns i if and only if rule i is selected, whatever the order of the hash maps |
| `Masker.NewContext` | src/engine/masker.rs:82-135 | a context holds the global rules, then the overrides, parsed and compiled together |
| `Masker.MatchTokenizedRule` | src/engine/masker.rs:280-307 | the fast path where it applies and fires, and otherwise the first rule of the list that matches |
| `Masker.MaskValue` | src/engine/masker.rs:188-191 | the traversal computes `Mask` from the root |
| `Masker.MaskRecursive` | src/engine/masker.rs:193-274 | each call masks its value and restores the segment stack it pushes to |
| `MaskerAgreement.FiresAtItsPath` | src/engine/masker.rs:280-299 | where the traversal stands, the compiled code fires only for a rule that names exactly this position |
| `MaskerAgreement.CompiledMaskingAgrees` | src/engine/masker.rs:280-307 | compiled masking with fallback equals list masking on every document whose keys collide with no rule piece, if and only if at every position where the code can fire the list finds a rule of the same effect |
| `MaskerAgreement.ListedWithoutBrackets` | src/engine/jit_rule.rs:57-61 | the list matches the position a rule names to the code if and only if no dot-separated piece of the rule holds a bracket |
| `MaskerAgreement.DistinctRulesListed` | src/engine/masker.rs:280-307 | rules without brackets and with pairwise different segments meet that condition |
| `MaskerAgreement.SplitIsParse` | src/engine/jit_rule.rs:57-61 | on paths without brackets, splitting at dots and parsing read the same keys |
| `MaskerAgreement.CodeApplies` | src/engine/masker.rs:280-299 | at the end of a path the code can select, compiled masking applies the last rule with that path |
| `MaskerAgreement.ListApplies` | src/engine/masker.rs:300-307 | and list masking the first rule that matches there |
| `MaskerAgreement.DuplicateRulesDisagree` | src/engine/jit_rule.rs:67-67 | two rules for `$.a` and a document the two ways of masking treat differently |
| `MaskerAgreement.BracketKeyDisagrees` | src/engine/jit_rule.rs:57-61 | the rule `$.a[*]` and a key `a[*]` the two ways of masking treat differently |
| `MaskedPositions.MaskedAt` | src/engine/masker.rs:193-322 | masking position by position: below the depth limit the depth marker; where a rule covers the position, keys matching keys and wildcards any index, its replacement, or the pattern's matches replaced; elsewhere the value that strict mode and the heuristics leave |
| `MaskedPositions.ElsewhereUnchanged` | src/engine/masker.rs:193-322 | with rules alone, a value that no rule covers, above, at or below it, is as it was |
| `MaskedPositions.OneRuleMasks` | src/engine/masker.rs:280-322 | with one rule, exactly the positions that are its path with an index for each wildcard hold the replacement, and what lies neither above nor below them is unchanged |
| `MaskedPositions.HeuristicsTakeTheFirst` | src/engine/masker.rs:232-256 | a text that is not masked yet becomes the marker of the first heuristic, in the source's order, that recognises it, and otherwise stays |
| `MaskLaws.MaskIdempotent` | src/engine/masker.rs:193-274 | masking twice is masking once, for rules whose patterns are stable; rules without patterns are |
| `MaskLaws.MaskIgnoresOrder` | src/engine/masker.rs:193-274 | documents equal up to key order mask to documents equal up to key order |
| `MaskLaws.StrictMaskingHidesValues` | src/engine/masker.rs:212-218 | in strict mode without patterns, documents with the same shape and the same scalars at allowed paths mask to the same document, exactly or up to key order |
| `MaskLaws.StrictMaskingShowsVisible` | src/engine/masker.rs:212-218 | without rules and heuristics, and within the depth limit, strict mode replaces exactly the scalars at paths that are not allowed |
| `Learner.CollectPathValues` | src/engine/learner.rs:88-113 | the walk records the text of every scalar under its printed path in the shared table |
| `Learner.LearnEndpoint` | src/engine/learner.rs:50-84 | the proposed paths ascend and are, for clean documents, exactly those at which two masked responses hold different scalars; each has one rule, with the learned token and no pattern; fewer than two responses propose nothing |
| `Learner.CandidatesAreUnstable` | src/engine/learner.rs:58-74 | a path is proposed if and only if two masked responses hold different scalars there |
| `Learner.LearningClosesNoise` | src/engine/learner.rs:50-77 | masked responses of one skeleton become one document once the candidates are added to the rules |
| `Learner.LearnAndExtend` | src/cli/commands.rs:78-110 | a context from the configuration and learning from two or more responses, and then the context a user gets by adopting the printed candidates as overrides: with it all clean responses of one skeleton mask to one document |
| `Mutator.ReplacePathInAst` | src/fuzz/mutator.rs:147-202 | the cursor loop performs the replacement, or leaves the body alone where the path leads nowhere |
| `Mutator.RemovePathInAst` | src/fuzz/mutator.rs:205-257 | the cursor loop performs the removal |
| `Mutator.EditLands` | src/fuzz/mutator.rs:147-257 | an edit at an existing field puts its value there, or leaves an object without the key |
| `Mutator.EditIsLocal` | src/fuzz/mutator.rs:147-257 | and changes nothing at paths not prefix-related to it |
| `Mutator.GenerateMutations` | src/fuzz/mutator.rs:13-33 | the walk pushes exactly the cases of `Mutations`, in order |
| `Mutator.MutationCount` | src/fuzz/mutator.rs:35-144 | there are 2 cases plus 2 per key, 4 per string, 3 per number and 1 per array |
| `Mutator.CaseIsMutant` | src/fuzz/mutator.rs:35-144 | every case but the first two names a field of the body and, when the field's path survives printing, is its mutant: the chosen value or absence there, all else as before; in a clean body every path survives |
| `Mutator.EveryChoiceIsTried` | src/fuzz/mutator.rs:35-144 | every field and everything to be tried on it has its case, which is the mutant wherever the path survives printing |
| `Mutator.CasesByTable` | src/fuzz/mutator.rs:13-144 | the first two cases replace the whole body with null and with an empty object; every other one leaves, at the field it names, the value the table lists for its kind, or no key, and all else as before |
| `Mutator.TableIsCovered` | src/fuzz/mutator.rs:35-144 | wherever the table says a kind is tried there is its case: null and removal for keys, four texts for strings, three numbers for numbers, the empty array for arrays |
| `Mutator.DropsExactlyCleanPaths` | src/fuzz/mutator.rs:205-257 | the case for a key is the body without it if and only if the key's path survives printing |
| `Mutator.DottedKeyIsKept` | src/fuzz/mutator.rs:39-52 | for the key `a.b` the case that should drop it is the unchanged body |
| `Dispatcher.DispatchRequests` | src/cli/commands.rs:944-1013 | the program is a finished run of the protocol; it returns, in the order of the joins, each endpoint whose task ended with a response beside that task's own response, and the others are the failed ones |
| `Dispatcher.RunAnswers` | src/cli/commands.rs:983-1010 | in every run the results so far are the successful joins so far, in order, each with its own response, and the failed ones are the bag of the other joins |
| `Dispatcher.RunSafe` | src/cli/commands.rs:954-1010 | in every state of every run: running tasks within the concurrency; queue, running, answered and failed are the input; while endpoints wait, running plus failed is the first batch |
| `Dispatcher.RunBalanced` | src/cli/commands.rs:954-1010 | the endpoints taken so far are the prefix of the input whose length is the first batch plus the results |
| `Dispatcher.RunTerminates` | src/cli/commands.rs:983-1010 | after i steps exactly i tasks have ended and all other endpoints run or wait, so a run has at most one step per endpoint |
| `Dispatcher.FinishedDrained` | src/cli/commands.rs:983-1010 | at the end the queue is empty if and only if first batch and results cover the input; fewer failed joins than the first batch is enough; concurrency 0 answers nothing |
| `TokenCache.OAuth2ClientCredentialsAuth.FastPath` | src/client/auth.rs:177-186 | the check under the read lock is the protocol's step |
| `TokenCache.OAuth2ClientCredentialsAuth.SlowPath` | src/client/auth.rs:188-195 | the second check under the write lock is the protocol's step, and returns or starts a fetch |
| `TokenCache.OAuth2ClientCredentialsAuth.OnResponse` | src/client/auth.rs:209-244 | a response is stored with the lifetime it declares, or an hour, and returned; a failure leaves the cache alone |
| `TokenCache.FetchesAreNeeded` | src/client/auth.rs:188-195 | under any interleaving, after a token was stored no fetch starts before a check, under the fetch's own hold of the lock, that finds at most 30 seconds left |
| `TokenCache.ServedTokensAreFresh` | src/client/auth.rs:178-195 | a token from the cache is the one stored last and had more than 30 seconds left at its check |
| `TokenCache.ServedWithinLifetime` | src/client/auth.rs:178-244 | a token from the cache is served only while more than 30 seconds are left of the lifetime its own response declared, or of an hour, counted from its storing |
| `TokenCache.StoredWasReceived` | src/client/auth.rs:209-244 | every stored text and lifetime are those of a response that arrived then |
| `TokenCache.OneFetchAtATime` | src/client/auth.rs:188-244 | from the start of a fetch nothing is served or fetched until it has ended |
| `TokenCache.CacheIsLastStored` | src/client/auth.rs:236-244 | the cache is always what the last successful fetch stored; failed and cancelled ones leave it alone |
| `TokenCache.ReturnsAreLogged` | src/client/auth.rs:176-246 | in every run, a call that stands at the return of a token got it in the last entry it logged, served or stored, and the cache held exactly that token then |
| `TokenCache.NeverStuck` | src/client/auth.rs:176-246 | while a call is unfinished some caller can move on |
| `ShadowFilter.DriftIsSkeleton` | src/wasm/shadow_filter.rs:74-101 | drift is reported if and only if the skeletons differ |
| `ShadowFilter.NoDriftIsEquivalence` | src/wasm/shadow_filter.rs:74-101 | not having drifted is an equivalence relation |
| `ShadowFilter.DriftIsReported` | src/wasm/shadow_filter.rs:74-101 | drift implies a record of the differ under its default options, for keys that normalisation tells apart |
| `ShadowFilter.NormalDriftIsReported` | src/wasm/shadow_filter.rs:74-101 | drift between documents whose keys are in normal form always yields a record |
| `ShadowFilter.DriftAlwaysReported` | src/engine/differ.rs:166-176 | over documents with keys from any given set, the differ explains every drift if and only if normalisation tells those keys apart |
| `ShadowFilter.CollidingKeysUnreported` | src/engine/differ.rs:223-234 | two keys with one normal form: drift, and no record |
| `ShadowFilter.ShadowSession.OnBodyChunk` | src/wasm/shadow_filter.rs:42-52 | each side's buffer is the concatenation of its chunks, however interleaved |
| `ShadowFilter.ShadowSession.CheckStructuralDrift` | src/wasm/shadow_filter.rs:55-69 | the verdict depends only on those concatenations: an empty side is no drift, a baseline that does not parse is reported before a candidate that does not, and two well-formed documents have drifted exactly when their skeletons differ |

## Left out

- HTTP, proxy, sniffer, command line, progress bars, report rendering and the editor extension: I/O and user interface.
- OpenAPI inference and verification, gRPC framing, the importers, the approval ledger and blast-radius analysis are not part of this model.
- JSON values edited through `&mut Value` are values that a method returns: the segment stack, the record list, the table, the case list and the store are mutable, aliasing of subtrees is not modelled.
- The mutable cursor of `replace_path_in_ast` and `remove_path_in_ast` is a walk down that keeps what lies above, and a walk back.
- The nodes of the rule tree lie in one sequence that the trie object updates, with indices where the source has references.
- Cranelift is a block language with an interpreter: instruction selection, sealing and register allocation are not modelled, and running may visit each block once.
- The compile cache and `compute_ruleset_hash` are left out: every context compiles its own rules.
- RuleTrie.MatchSelects: for rule lists shorter than 2^32 - 1; beyond that the source's index cast wraps, and so does the model's.
- MaskerAgreement.CompiledMaskingAgrees: for document keys whose 64-bit hash is not that of a different rule piece; the compiled matcher compares hashes only, so nothing can be said of a colliding key without knowing the collision.
- MaskedPositions.MaskedAt: under the same condition on hashes, and for keys that are no bracketed rule piece (`BracketKeyDisagrees` shows why); which of several covering rules is applied is left to `CodeApplies` and `ListApplies`.
- RecordTruth.RecordsAreTrue: for documents whose keys are in normal form; a record's path names the normal key, and where keys differ from their normal forms it is no path of the document.
- DeltaCounts.ObjectCounts: for objects whose common values are scalars or differ in kind; deeper documents add the counts of their parts.
- EditScript.EditScriptComplete: for ordered arrays, no tolerance, keys in normal form and documents within the depth limit; set-mode records carry no position, and a `DepthExceeded` record no change.
- Learner.LearningClosesNoise: the hypotheses on responses are the shared skeleton and clean keys; that no hash of a document key collides with another piece of an old rule is assumed too. `LearnAndExtend` meets the hypothesis on the contexts for rules without patterns.
- The network half of `learn_endpoint` and the reading of endpoint configuration: the responses are given.
- Doubles are bit patterns; the difference of two doubles and the conversion of large integers are parameters, so rounding is not modelled. Latencies are real numbers.
- The regular expressions, the Luhn test, NFC, BLAKE3, simd-json and serde_json's printing and parsing are parameters.
- File-system layout: the disk is a map and the ledger a sequence; shard directories, temporary files, bincode, hex and JSON lines are left out. A write can fail, and so can the reading of any fixed set of object files; a ledger file is always readable, and no file is deleted from outside.
- Timeline.LedgerIsChain: for observations whose document and predecessor can be read back; for the others `RecordObservation` states the summary.
- Timeline.LatencyTelescopes: over exact real numbers, where the source subtracts doubles.
- Names and descriptions of fuzz cases: a case carries its kind and its printed target, from which the source formats both.
- The dispatcher's task bodies and the progress bar: a task ends with a result or its join fails, at the environment's choice.
- Fairness of the token lock: the lock is granted in any order, so waiting calls may be overtaken; the form parameters and the error texts of the request are left out.
- The context number of a shadow session and its buffer limit, which the source declares and does not enforce.
