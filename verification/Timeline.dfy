/** The behavioural timeline: an append-only ledger of commits per endpoint, each summarising how
    the stored response changed since the commit before it. */
module Timeline {
  import opened Json
  import opened Differ
  import opened DeltaCounts
  import opened EditScript
  import opened RecordTruth
  import opened Bytes
  import opened MerkleEncoding
  import opened MerkleDisk
  import opened MerkleStore

  datatype Source = ManualRecord | CiPipeline(prId: Option<string>) | ShadowProxy | EbpfCapture

  datatype DeltaSummary = DeltaSummary(fieldsAdded: nat, fieldsRemoved: nat, fieldsTypeChanged: nat, latencyDelta: real)

  datatype Commit = Commit(
    id: NodeHash,
    endpoint: string,
    parent: Option<NodeHash>,
    observedAt: string,
    source: Source,
    root: NodeHash,
    latency: real,
    status: nat,
    delta: DeltaSummary)

  /** What a caller observes; the time stamp is the clock's. */
  datatype Observation = Observation(root: NodeHash, latency: real, status: nat, source: Source, observedAt: string)

  datatype DiffReport = DiffReport(differences: seq<DiffKind>, isMatch: bool, expectedStatus: nat, actualStatus: nat)

  const NO_DELTA := DeltaSummary(0, 0, 0, 0.0)

  function HexDigit(d: nat): byte
    requires d < 16
  {
    if d < 10 then 0x30 + d else 0x57 + d
  }

  function Hex(bytes: seq<byte>): seq<byte> {
    if |bytes| == 0 then [] else [HexDigit(bytes[0] / 16), HexDigit(bytes[0] % 16)] + Hex(bytes[1..])
  }

  function CommitId(endpoint: string, root: NodeHash, observedAt: string, env: Platform): NodeHash {
    env.blake3(Utf8(endpoint) + [0x3A] + Hex(root) + [0x3A] + Utf8(observedAt))
  }

  /** Two lower-case hexadecimal digits a byte, the high one first. */
  lemma {:induction false} HexDigits(bytes: seq<byte>, i: nat)
    requires i < |bytes|
    ensures |Hex(bytes)| == 2 * |bytes|
    ensures Hex(bytes)[2 * i] as int == "0123456789abcdef"[bytes[i] / 16] as int
    ensures Hex(bytes)[2 * i + 1] as int == "0123456789abcdef"[bytes[i] % 16] as int
  {
    if i > 0 {
      HexDigits(bytes[1..], i - 1);
    } else if |bytes| > 1 {
      HexDigits(bytes[1..], 0);
    }
  }

  // ---------------------------------------------------------------- counting differences

  /** The counters are `u32`s: in a release build they wrap. */
  ghost function Summary(rs: seq<DiffKind>, latencyDelta: real): DeltaSummary {
    DeltaSummary(Count(rs, Addition) % U32_LIMIT, Count(rs, Removal) % U32_LIMIT, Count(rs, Mismatch) % U32_LIMIT,
                 latencyDelta)
  }

  /** `+= 1` on a `u32`. */
  function Increment(n: nat): nat {
    if n + 1 == U32_LIMIT then 0 else n + 1
  }

  /** The counting loop: additions, removals and changes of type, each modulo 2^32. */
  method Summarize(rs: seq<DiffKind>, latencyDelta: real) returns (s: DeltaSummary)
    ensures s == Summary(rs, latencyDelta)
    ensures s.fieldsAdded == |set i: nat | i < |rs| && rs[i].Added?| % 0x1_0000_0000
    ensures s.fieldsRemoved == |set i: nat | i < |rs| && rs[i].Removed?| % 0x1_0000_0000
    ensures s.fieldsTypeChanged == |set i: nat | i < |rs| && rs[i].TypeMismatch?| % 0x1_0000_0000
    ensures s.latencyDelta == latencyDelta
  {
    s := DeltaSummary(0, 0, 0, latencyDelta);
    for i := 0 to |rs|
      invariant s == Summary(rs[..i], latencyDelta)
    {
      assert rs[..i + 1][..i] == rs[..i];
      match rs[i] {
        case Added(_, _) => s := s.(fieldsAdded := Increment(s.fieldsAdded));
        case Removed(_, _) => s := s.(fieldsRemoved := Increment(s.fieldsRemoved));
        case TypeMismatch(_, _, _, _, _) => s := s.(fieldsTypeChanged := Increment(s.fieldsTypeChanged));
        case _ =>
      }
    }
    assert rs[..|rs|] == rs;
    CountIsSize(rs, Addition);
    CountIsSize(rs, Removal);
    CountIsSize(rs, Mismatch);
    assert Places(rs, Addition) == set i: nat | i < |rs| && rs[i].Added?;
    assert Places(rs, Removal) == set i: nat | i < |rs| && rs[i].Removed?;
    assert Places(rs, Mismatch) == set i: nat | i < |rs| && rs[i].TypeMismatch?;
  }

  // ---------------------------------------------------------------- commits

  /** The records between two stored documents, as both the ledger and a later look at it compute them. */
  ghost function StoredDiff(disk: Disk, rank: map<NodeHash, nat>, a: NodeHash, b: NodeHash, o: Options): seq<DiffKind>
    requires ClosedAndAcyclic(disk, rank) && a in disk && b in disk
  {
    CompareJson(Rebuild(disk, rank, a), Rebuild(disk, rank, b), o)
  }

  ghost function DeltaFrom(disk: Disk, rank: map<NodeHash, nat>, good: set<NodeHash>, prev: Commit, obs: Observation,
          o: Options): DeltaSummary
    requires ClosedAndAcyclic(disk, rank)
  {
    if Readable(disk, rank, prev.root, good) && Readable(disk, rank, obs.root, good)
    then Summary(StoredDiff(disk, rank, prev.root, obs.root, o), obs.latency - prev.latency)
    else DeltaSummary(0, 0, 0, obs.latency - prev.latency)
  }

  /** The commit an observation appends to a history, given what the store holds and can read. */
  ghost function NextCommit(history: seq<Commit>, endpoint: string, obs: Observation, disk: Disk,
                            rank: map<NodeHash, nat>, good: set<NodeHash>, env: Platform, o: Options): Commit
    requires ClosedAndAcyclic(disk, rank)
  {
    var n := |history|;
    Commit(CommitId(endpoint, obs.root, obs.observedAt, env), endpoint,
           if n == 0 then None else Some(history[n - 1].id),
           obs.observedAt, obs.source, obs.root, obs.latency, obs.status,
           if n == 0 then NO_DELTA else DeltaFrom(disk, rank, good, history[n - 1], obs, o))
  }

  /** The last commits, newest first. Even a limit of 0 lets one commit through. */
  function NewestFirst(history: seq<Commit>, limit: nat): seq<Commit> {
    if |history| == 0 then []
    else if limit <= 1 then [history[|history| - 1]]
    else [history[|history| - 1]] + NewestFirst(history[..|history| - 1], limit - 1)
  }

  /** The commits returned are a reversed suffix, as long as the limit and the history allow; only for
      a limit of 0 on a non-empty history is there one too many. */
  lemma {:induction false} NewestFirstIsSuffix(history: seq<Commit>, limit: nat)
    ensures |NewestFirst(history, limit)| == Min(limit, |history|) <==> limit >= 1 || history == []
    ensures limit == 0 && history != [] ==> |NewestFirst(history, limit)| == 1
    ensures forall i :: 0 <= i < |NewestFirst(history, limit)| ==>
      i < |history| && NewestFirst(history, limit)[i] == history[|history| - 1 - i]
  {
    if |history| != 0 && limit > 1 {
      NewestFirstIsSuffix(history[..|history| - 1], limit - 1);
    }
  }

  lemma {:induction false} NewestStep(commits: seq<Commit>, lines: seq<Commit>, i: nat, left: nat)
    requires 0 < i <= |lines|
    ensures commits + NewestFirst(lines[..i], left) ==
      commits + [lines[i - 1]] + if left <= 1 then [] else NewestFirst(lines[..i - 1], left - 1)
  {
    assert lines[..i][..i - 1] == lines[..i - 1];
  }

  class TimelineStore {
    /** One ledger file per endpoint. */
    var ledger: map<string, seq<Commit>>

    constructor ()
      ensures ledger == map[]
    {
      ledger := map[];
    }

    function History(endpoint: string): seq<Commit>
      reads this
    {
      if endpoint in ledger then ledger[endpoint] else []
    }

    method GetTimeline(endpoint: string, limit: nat) returns (commits: seq<Commit>)
      ensures commits == NewestFirst(History(endpoint), limit)
    {
      commits := [];
      var lines := History(endpoint);
      var i := |lines|;
      ghost var left, all := limit, NewestFirst(lines, limit);
      assert lines[..i] == lines;
      while i > 0
        invariant 0 <= i <= |lines| && |commits| + left == limit && (i < |lines| ==> left > 0)
        invariant commits + NewestFirst(lines[..i], left) == all
      {
        NewestStep(commits, lines, i, left);
        i := i - 1;
        commits := commits + [lines[i]];
        if |commits| >= limit { return; }
        left := left - 1;
      }
      assert lines[..0] == [];
    }

    method RecordObservation(endpoint: string, obs: Observation, cas: MerkleCasStore, o: Options)
      returns (commit: Commit)
      requires cas.Valid() && cas.Coherent()
      modifies this, cas
      ensures cas.Valid() && cas.Coherent()
      ensures cas.SameStore(old(cas.disk), old(cas.rank), old(cas.writesLeft), old(cas.Good()))
      ensures commit == NextCommit(old(History(endpoint)), endpoint, obs, cas.disk, cas.rank, cas.Good(), cas.env, o)
      ensures ledger == old(ledger)[endpoint := old(History(endpoint)) + [commit]]
      ensures commit.endpoint == endpoint && commit.root == obs.root && commit.observedAt == obs.observedAt
      ensures commit.source == obs.source && commit.latency == obs.latency && commit.status == obs.status
      ensures var lines := old(History(endpoint));
        commit.parent == if lines == [] then None else Some(lines[|lines| - 1].id)
      ensures var lines := old(History(endpoint));
        if lines == [] then commit.delta == DeltaSummary(0, 0, 0, 0.0)
        else
          var prev := lines[|lines| - 1];
          && commit.delta.latencyDelta == obs.latency - prev.latency
          && (|| (&& Readable(cas.disk, cas.rank, prev.root, cas.Good())
                  && Readable(cas.disk, cas.rank, obs.root, cas.Good()))
              || commit.delta == DeltaSummary(0, 0, 0, obs.latency - prev.latency))
    {
      var history := GetTimeline(endpoint, 1);
      var delta := NO_DELTA;
      if |history| > 0 {
        var prev := history[0];
        delta := delta.(latencyDelta := obs.latency - prev.latency);
        var before := cas.Reconstruct(prev.root);
        var after := cas.Reconstruct(obs.root);
        if before.Ok? && after.Ok? {
          var diffs := CompareJsonAst(before.value, after.value, o);
          delta := Summarize(diffs, obs.latency - prev.latency);
        }
      }
      commit := Commit(CommitId(endpoint, obs.root, obs.observedAt, cas.env), endpoint,
                       if |history| == 0 then None else Some(history[0].id),
                       obs.observedAt, obs.source, obs.root, obs.latency, obs.status, delta);
      ledger := ledger[endpoint := History(endpoint) + [commit]];
    }

    method DiffHistoricalCommits(cas: MerkleCasStore, a: Commit, b: Commit, o: Options)
      returns (r: IoResult<DiffReport>)
      requires cas.Valid() && cas.Coherent()
      modifies cas
      ensures cas.Valid() && cas.Coherent()
      ensures cas.SameStore(old(cas.disk), old(cas.rank), old(cas.writesLeft), old(cas.Good()))
      ensures r.Ok? <==>
        Readable(cas.disk, cas.rank, a.root, cas.Good()) && Readable(cas.disk, cas.rank, b.root, cas.Good())
      ensures r.Ok? ==> r.value.differences == StoredDiff(cas.disk, cas.rank, a.root, b.root, o)
      ensures r.Ok? ==> r.value.isMatch == (r.value.differences == [])
      ensures r.Ok? ==> r.value.expectedStatus == a.status && r.value.actualStatus == b.status
    {
      var before := cas.Reconstruct(a.root);
      if before.Err? { return Err; }
      var after := cas.Reconstruct(b.root);
      if after.Err? { return Err; }
      var diffs := CompareJsonAst(before.value, after.value, o);
      r := Ok(DiffReport(diffs, diffs == [], a.status, b.status));
    }
  }

  // ---------------------------------------------------------------- what a summary says about the documents

  /** For two stored objects with normal keys whose common values cannot be gone into, the commit counts the keys
      that only the new one has, those that only the previous one had, and the keys whose value changed its kind. */
  lemma {:induction false} CommitCountsKeys(history: seq<Commit>, endpoint: string, obs: Observation, disk: Disk,
          rank: map<NodeHash, nat>, good: set<NodeHash>, env: Platform, o: Options)
    requires Sound(disk, rank, env) && |history| > 0 && o.maxDepth > 0
    requires Readable(disk, rank, history[|history| - 1].root, good) && Readable(disk, rank, obs.root, good)
    requires var e, a := Rebuild(disk, rank, history[|history| - 1].root), Rebuild(disk, rank, obs.root);
      e.Obj? && a.Obj? && Normal(e, o) && Normal(a, o) && ShallowObjects(e, a)
    ensures var e, a := Rebuild(disk, rank, history[|history| - 1].root), Rebuild(disk, rank, obs.root);
      var delta := NextCommit(history, endpoint, obs, disk, rank, good, env, o).delta;
      && delta.fieldsAdded == |Keys(a.fields) - Keys(e.fields)| % 0x1_0000_0000
      && delta.fieldsRemoved == |Keys(e.fields) - Keys(a.fields)| % 0x1_0000_0000
      && delta.fieldsTypeChanged == |Retyped(e, a)| % 0x1_0000_0000
      && delta.latencyDelta == obs.latency - history[|history| - 1].latency
  {
    var prev := history[|history| - 1].root;
    RebuiltWellFormed(disk, rank, prev, env);
    RebuiltWellFormed(disk, rank, obs.root, env);
    ObjectCounts(Rebuild(disk, rank, prev), Rebuild(disk, rank, obs.root), o);
  }

  // ---------------------------------------------------------------- every run

  /** One endpoint's ledger beside the store it refers to. */
  datatype State = State(disk: Disk, ghostRank: map<NodeHash, nat>, history: seq<Commit>)

  /** The observed document and the one before it can be read. */
  ghost predicate CanCompare(s: State, obs: Observation, good: set<NodeHash>)
    requires ClosedAndAcyclic(s.disk, s.ghostRank)
  {
    && Readable(s.disk, s.ghostRank, obs.root, good)
    && (|s.history| > 0 ==> Readable(s.disk, s.ghostRank, s.history[|s.history| - 1].root, good))
  }

  /** A step of a run: the store grows, or a stored root is observed and recorded. */
  ghost predicate Step(s: State, t: State, endpoint: string, env: Platform, o: Options) {
    && Sound(s.disk, s.ghostRank, env) && Sound(t.disk, t.ghostRank, env) && SubDisk(s.disk, t.disk)
    && (t.history == s.history
        || exists obs: Observation, good :: CanCompare(s, obs, good) && t.disk == s.disk && t.ghostRank == s.ghostRank
             && t.history == s.history + [NextCommit(s.history, endpoint, obs, s.disk, s.ghostRank, good, env, o)])
  }

  ghost predicate Run(states: seq<State>, endpoint: string, env: Platform, o: Options) {
    && |states| > 0
    && Sound(states[0].disk, states[0].ghostRank, env) && states[0].history == []
    && forall i :: 0 <= i < |states| - 1 ==> Step(states[i], states[i + 1], endpoint, env, o)
  }

  /** Commit `j` names commit `j - 1` as its parent, and its summary is what comparing the two stored
      documents gives now. */
  ghost predicate LinkedAt(s: State, j: nat, o: Options)
    requires j < |s.history| && ClosedAndAcyclic(s.disk, s.ghostRank)
  {
    var c := s.history[j];
    c.root in s.disk &&
    if j == 0 then c.parent == None && c.delta == NO_DELTA
    else
      var prev := s.history[j - 1];
      && prev.root in s.disk && c.parent == Some(prev.id)
      && c.delta == Summary(StoredDiff(s.disk, s.ghostRank, prev.root, c.root, o), c.latency - prev.latency)
  }

  ghost predicate Chain(s: State, o: Options)
    requires ClosedAndAcyclic(s.disk, s.ghostRank)
  {
    forall j :: 0 <= j < |s.history| ==> LinkedAt(s, j, o)
  }

  lemma StepKeepsChain(s: State, t: State, endpoint: string, env: Platform, o: Options)
    requires Step(s, t, endpoint, env, o) && Chain(s, o)
    ensures Chain(t, o)
  {
    forall j | 0 <= j < |t.history| ensures LinkedAt(t, j, o) {
      if j < |s.history| {
        assert LinkedAt(s, j, o) && t.history[j] == s.history[j];
        RebuildStable(s.disk, s.ghostRank, t.disk, t.ghostRank, s.history[j].root);
        if j > 0 {
          assert t.history[j - 1] == s.history[j - 1];
          RebuildStable(s.disk, s.ghostRank, t.disk, t.ghostRank, s.history[j - 1].root);
        }
      } else if j > 0 {
        assert LinkedAt(s, j - 1, o);
      }
    }
  }

  /** In every run the ledger is a linear chain, and every stored summary equals the one recomputed
      from the store at any later time. */
  lemma LedgerIsChain(states: seq<State>, endpoint: string, env: Platform, o: Options)
    requires Run(states, endpoint, env, o)
    ensures var last := states[|states| - 1];
      Sound(last.disk, last.ghostRank, env) && Chain(last, o)
    decreases |states|
  {
    if |states| > 1 {
      var init := states[..|states| - 1];
      assert Run(init, endpoint, env, o) by {
        forall i | 0 <= i < |init| - 1 ensures Step(init[i], init[i + 1], endpoint, env, o) {
          assert Step(states[i], states[i + 1], endpoint, env, o);
        }
      }
      LedgerIsChain(init, endpoint, env, o);
      assert Step(states[|states| - 2], states[|states| - 1], endpoint, env, o);
      StepKeepsChain(states[|states| - 2], states[|states| - 1], endpoint, env, o);
    }
  }

  function TotalLatencyDelta(history: seq<Commit>): real {
    if |history| == 0 then 0.0
    else TotalLatencyDelta(history[..|history| - 1]) + history[|history| - 1].delta.latencyDelta
  }

  /** Latency deltas telescope: they sum to the difference between the last and the first latency. */
  lemma LatencyTelescopes(s: State, n: nat, o: Options)
    requires ClosedAndAcyclic(s.disk, s.ghostRank) && Chain(s, o) && 0 < n <= |s.history|
    ensures TotalLatencyDelta(s.history[..n]) == s.history[n - 1].latency - s.history[0].latency
  {
    assert LinkedAt(s, n - 1, o);
    assert s.history[..n][..n - 1] == s.history[..n - 1];
    if n > 1 {
      LatencyTelescopes(s, n - 1, o);
    } else {
      assert TotalLatencyDelta(s.history[..0]) == 0.0;
    }
  }
}
