/** The request dispatcher: a queue of endpoints, a set of running tasks and a list of results.
    Which task finishes next, and whether its join fails, is up to the environment. */
module Dispatcher {
  import opened Json

  datatype State<E(==), R> = State(queue: seq<E>, running: multiset<E>, results: seq<(E, R)>, failed: multiset<E>)

  /** After the first batch has been spawned. */
  function Init<E(==), R>(endpoints: seq<E>, concurrency: nat): State<E, R> {
    var batch := Min(concurrency, |endpoints|);
    State(endpoints[batch..], multiset(endpoints[..batch]), [], multiset{})
  }

  /** A task ends. A result is kept and the next endpoint, if any, takes the task's place; a failed
      join is dropped and nothing takes its place. */
  function Join<E(==), R>(s: State<E, R>, e: E, res: Option<R>): State<E, R>
    requires e in s.running
  {
    var running := s.running - multiset{e};
    match res
    case None => s.(running := running, failed := s.failed + multiset{e})
    case Some(r) =>
      var results := s.results + [(e, r)];
      if |s.queue| > 0 then State(s.queue[1..], running + multiset{s.queue[0]}, results, s.failed)
      else s.(running := running, results := results)
  }

  ghost predicate Step<E, R(!new)>(s: State<E, R>, t: State<E, R>) {
    exists e, res :: e in s.running && t == Join(s, e, res)
  }

  ghost predicate Run<E, R(!new)>(states: seq<State<E, R>>) {
    |states| > 0 && forall i :: 0 <= i < |states| - 1 ==> Step(states[i], states[i + 1])
  }

  predicate Finished<E(==), R>(s: State<E, R>) {
    s.running == multiset{}
  }

  // ---------------------------------------------------------------- what every state keeps

  function Answered<E(==), R>(results: seq<(E, R)>): multiset<E> {
    if |results| == 0 then multiset{} else Answered(results[..|results| - 1]) + multiset{results[|results| - 1].0}
  }

  /** How many endpoints have been taken from the queue. */
  function Taken<E(==), R>(s: State<E, R>, n: nat, batch: nat): nat {
    Min(n, batch + |s.results|)
  }

  /** The first `k` endpoints, as a bag. */
  function FirstOf<E(==)>(endpoints: seq<E>, k: nat): multiset<E>
    requires k <= |endpoints|
  {
    if k == 0 then multiset{} else FirstOf(endpoints, k - 1) + multiset{endpoints[k - 1]}
  }

  lemma {:induction false} FirstOfCount<E>(endpoints: seq<E>, k: nat)
    requires k <= |endpoints|
    ensures FirstOf(endpoints, k) == multiset(endpoints[..k]) && |FirstOf(endpoints, k)| == k
  {
    if k > 0 {
      FirstOfCount(endpoints, k - 1);
      assert endpoints[..k] == endpoints[..k - 1] + [endpoints[k - 1]];
    }
  }

  ghost predicate Splits<E>(taken: multiset<E>, running: multiset<E>, answered: multiset<E>, failed: multiset<E>) {
    taken == running + answered + failed
  }

  /** The endpoints taken are a prefix of the input whose length is fixed by the number of results;
      each of them is running, answered or failed. */
  ghost predicate Balanced<E, R>(s: State<E, R>, endpoints: seq<E>, concurrency: nat) {
    && var batch := Min(concurrency, |endpoints|);
    && var k := Taken(s, |endpoints|, batch);
    && s.queue == endpoints[k..]
    && Splits(FirstOf(endpoints, k), s.running, Answered(s.results), s.failed)
    && (batch == 0 ==> s.results == [])
  }

  lemma {:induction false} AnsweredCount<E, R>(results: seq<(E, R)>)
    ensures |Answered(results)| == |results|
  {
    if |results| != 0 { AnsweredCount(results[..|results| - 1]); }
  }

  lemma InitBalanced<E, R>(endpoints: seq<E>, concurrency: nat)
    ensures Balanced(Init<E, R>(endpoints, concurrency), endpoints, concurrency)
  {
    FirstOfCount(endpoints, Min(concurrency, |endpoints|));
  }

  lemma NothingRuns<E, R>(s: State<E, R>, endpoints: seq<E>, concurrency: nat)
    requires Balanced(s, endpoints, concurrency) && Min(concurrency, |endpoints|) == 0
    ensures s.running == multiset{}
  {
    assert s.running <= FirstOf(endpoints, 0);
  }

  lemma {:induction false} AnsweredOneMore<E, R>(results: seq<(E, R)>, e: E, r: R)
    ensures Answered(results + [(e, r)]) == Answered(results) + multiset{e}
  {
    var more := results + [(e, r)];
    assert more[..|results|] == results;
  }

  lemma JoinBalanced<E, R>(s: State<E, R>, e: E, res: Option<R>, endpoints: seq<E>, concurrency: nat)
    requires Balanced(s, endpoints, concurrency) && e in s.running
    ensures Balanced(Join(s, e, res), endpoints, concurrency)
  {
    if Min(concurrency, |endpoints|) == 0 { NothingRuns(s, endpoints, concurrency); }
    match res
    case None => FailedBalanced(s, e, endpoints, concurrency);
    case Some(r) => AnsweredBalanced(s, e, r, endpoints, concurrency);
  }

  lemma FailedBalanced<E, R>(s: State<E, R>, e: E, endpoints: seq<E>, concurrency: nat)
    requires Balanced(s, endpoints, concurrency) && e in s.running
    ensures Balanced(Join(s, e, None), endpoints, concurrency)
  {
    var k := Taken(s, |endpoints|, Min(concurrency, |endpoints|));
    OneFailed(FirstOf(endpoints, k), s.running, Answered(s.results), s.failed, e);
  }

  lemma AnsweredBalanced<E, R>(s: State<E, R>, e: E, r: R, endpoints: seq<E>, concurrency: nat)
    requires Balanced(s, endpoints, concurrency) && e in s.running && Min(concurrency, |endpoints|) > 0
    ensures Balanced(Join(s, e, Some(r)), endpoints, concurrency)
  {
    var k := Taken(s, |endpoints|, Min(concurrency, |endpoints|));
    var running, results := s.running - multiset{e}, s.results + [(e, r)];
    OneAnsweredIn(FirstOf(endpoints, k), s, e, r);
    if |s.queue| > 0 {
      assert s.queue[0] == endpoints[k] && s.queue[1..] == endpoints[k + 1..];
      NextBalanced(endpoints, k, running, results, s.failed, concurrency);
    } else {
      NoneWaiting(endpoints, running, results, s.failed, concurrency);
    }
  }

  lemma OneAnsweredIn<E, R>(taken: multiset<E>, s: State<E, R>, e: E, r: R)
    requires Splits(taken, s.running, Answered(s.results), s.failed) && e in s.running
    ensures Splits(taken, s.running - multiset{e}, Answered(s.results + [(e, r)]), s.failed)
  {
    AnsweredOneMore(s.results, e, r);
    OneAnswered(taken, s.running, Answered(s.results), s.failed, e);
  }

  lemma {:induction false} NextBalanced<E, R>(endpoints: seq<E>, k: nat, running: multiset<E>, results: seq<(E, R)>,
          failed: multiset<E>, concurrency: nat)
    requires k < |endpoints| && k + 1 == Min(concurrency, |endpoints|) + |results| && concurrency > 0
    requires Splits(FirstOf(endpoints, k), running, Answered(results), failed)
    ensures var spawned := State(endpoints[k + 1..], running + multiset{endpoints[k]}, results, failed);
      Balanced(spawned, endpoints, concurrency)
  {
    OneTaken(endpoints, k, running, Answered(results), failed);
  }

  lemma {:induction false} NoneWaiting<E, R>(endpoints: seq<E>, running: multiset<E>, results: seq<(E, R)>,
          failed: multiset<E>, concurrency: nat)
    requires |endpoints| <= Min(concurrency, |endpoints|) + |results| && Min(concurrency, |endpoints|) > 0
    requires Splits(FirstOf(endpoints, |endpoints|), running, Answered(results), failed)
    ensures Balanced(State([], running, results, failed), endpoints, concurrency)
  {
  }

  lemma OneFailed<E>(taken: multiset<E>, running: multiset<E>, answered: multiset<E>,
          failed: multiset<E>, e: E)
    requires Splits(taken, running, answered, failed) && e in running
    ensures Splits(taken, running - multiset{e}, answered, failed + multiset{e})
  {
  }

  lemma OneAnswered<E>(taken: multiset<E>, running: multiset<E>, answered: multiset<E>,
          failed: multiset<E>, e: E)
    requires Splits(taken, running, answered, failed) && e in running
    ensures Splits(taken, running - multiset{e}, answered + multiset{e}, failed)
  {
  }

  lemma OneTaken<E>(endpoints: seq<E>, k: nat, running: multiset<E>, answered: multiset<E>,
          failed: multiset<E>)
    requires k < |endpoints| && Splits(FirstOf(endpoints, k), running, answered, failed)
    ensures Splits(FirstOf(endpoints, k + 1), running + multiset{endpoints[k]}, answered, failed)
  {
  }

  lemma RunBalanced<E, R(!new)>(states: seq<State<E, R>>, endpoints: seq<E>, concurrency: nat,
          i: nat)
    requires Run(states) && states[0] == Init(endpoints, concurrency) && i < |states|
    ensures Balanced(states[i], endpoints, concurrency)
  {
    if i == 0 {
      InitBalanced<E, R>(endpoints, concurrency);
    } else {
      RunBalanced(states, endpoints, concurrency, i - 1);
      assert Step(states[i - 1], states[i - 1 + 1]);
      var e, res :| e in states[i - 1].running && states[i] == Join(states[i - 1], e, res);
      JoinBalanced(states[i - 1], e, res, endpoints, concurrency);
    }
  }

  // ---------------------------------------------------------------- bounds, progress, the end

  lemma Counts<E, R>(s: State<E, R>, endpoints: seq<E>, concurrency: nat)
    requires Balanced(s, endpoints, concurrency)
    ensures |s.running| + |s.results| + |s.failed| == Taken(s, |endpoints|, Min(concurrency, |endpoints|))
    ensures |s.queue| == |endpoints| - Taken(s, |endpoints|, Min(concurrency, |endpoints|))
    ensures multiset(endpoints) == multiset(s.queue) + s.running + Answered(s.results) + s.failed
  {
    var k := Taken(s, |endpoints|, Min(concurrency, |endpoints|));
    AnsweredCount(s.results);
    FirstOfCount(endpoints, k);
    assert endpoints == endpoints[..k] + endpoints[k..];
  }

  /** In every state of every run: no more tasks run than allowed, no endpoint is lost or invented, and
      while endpoints wait, every slot of the first batch is either running or was lost to a failed join. */
  lemma RunSafe<E, R(!new)>(states: seq<State<E, R>>, endpoints: seq<E>, concurrency: nat, i: nat)
    requires Run(states) && states[0] == Init(endpoints, concurrency) && i < |states|
    ensures |states[i].running| <= concurrency
    ensures multiset(endpoints)
         == multiset(states[i].queue) + states[i].running + Answered(states[i].results) + states[i].failed
    ensures |states[i].queue| > 0 ==> |states[i].running| + |states[i].failed| == Min(concurrency, |endpoints|)
  {
    RunBalanced(states, endpoints, concurrency, i);
    Counts(states[i], endpoints, concurrency);
  }

  function Unfinished<E(==), R>(s: State<E, R>): nat {
    |s.queue| + |s.running|
  }

  lemma JoinEnds<E, R>(s: State<E, R>, e: E, res: Option<R>)
    requires e in s.running
    ensures Unfinished(Join(s, e, res)) == Unfinished(s) - 1
    ensures |Join(s, e, res).results| + |Join(s, e, res).failed| == |s.results| + |s.failed| + 1
  {
    assert |s.running - multiset{e}| == |s.running| - 1;
  }

  /** Every step ends a different task: after `i` steps exactly `i` tasks have ended and the other endpoints
      run or wait, so a run has at most one step for each endpoint. */
  lemma RunTerminates<E, R(!new)>(states: seq<State<E, R>>, endpoints: seq<E>, concurrency: nat,
          i: nat)
    requires Run(states) && states[0] == Init(endpoints, concurrency) && i < |states|
    ensures i == |states[i].results| + |states[i].failed|
    ensures i + Unfinished(states[i]) == |endpoints|
  {
    if i > 0 {
      RunTerminates(states, endpoints, concurrency, i - 1);
      assert Step(states[i - 1], states[i - 1 + 1]);
      var e, res :| e in states[i - 1].running && states[i] == Join(states[i - 1], e, res);
      JoinEnds(states[i - 1], e, res);
    }
    RunBalanced(states, endpoints, concurrency, i);
    Counts(states[i], endpoints, concurrency);
  }

  /** When no task is left, the queue has drained exactly if the first batch and the results together
      cover the input; fewer failed joins than the first batch is enough. */
  lemma FinishedDrained<E, R>(s: State<E, R>, endpoints: seq<E>, concurrency: nat)
    requires Balanced(s, endpoints, concurrency) && Finished(s)
    ensures s.queue == [] <==> |endpoints| <= Min(concurrency, |endpoints|) + |s.results|
    ensures |s.failed| < Min(concurrency, |endpoints|) ==> s.queue == []
    ensures s.queue != [] ==> |s.failed| == Min(concurrency, |endpoints|)
    ensures s.failed == multiset{} ==>
      (Answered(s.results) == multiset(endpoints) <==> concurrency > 0 || endpoints == [])
  {
    Counts(s, endpoints, concurrency);
    AnsweredCount(s.results);
    if |s.results| == 0 { assert Answered(s.results) == multiset{}; }
    if s.queue == [] { assert multiset(s.queue) == multiset{}; }
    if s.results == [] && endpoints != [] { assert endpoints[0] in multiset(endpoints); }
  }

  // ---------------------------------------------------------------- each endpoint with its own response

  /** The successful joins in order, each endpoint with the response of its own task. */
  function Answers<E(==), R>(trace: seq<(E, Option<R>)>): seq<(E, R)> {
    if |trace| == 0 then []
    else
      var (e, res) := trace[|trace| - 1];
      Answers(trace[..|trace| - 1]) + match res case Some(r) => [(e, r)] case None => []
  }

  /** The endpoints whose joins failed. */
  function Lost<E(==), R>(trace: seq<(E, Option<R>)>): multiset<E> {
    if |trace| == 0 then multiset{}
    else
      var (e, res) := trace[|trace| - 1];
      Lost(trace[..|trace| - 1]) + if res.None? then multiset{e} else multiset{}
  }

  /** What ended at each step of a run. */
  ghost predicate Traces<E, R(!new)>(states: seq<State<E, R>>, trace: seq<(E, Option<R>)>) {
    |states| == |trace| + 1 && forall i :: 0 <= i < |trace| ==>
      trace[i].0 in states[i].running && states[i + 1] == Join(states[i], trace[i].0, trace[i].1)
  }

  lemma JoinKeeps<E, R>(s: State<E, R>, e: E, res: Option<R>)
    requires e in s.running
    ensures var t := Join(s, e, res);
      if res.Some? then t.results == s.results + [(e, res.value)] && t.failed == s.failed
      else t.results == s.results && t.failed == s.failed + multiset{e}
  {
  }

  lemma {:induction false} OneMoreJoin<E, R>(trace: seq<(E, Option<R>)>, e: E, res: Option<R>)
    ensures var more := trace + [(e, res)];
      && Answers(more) == Answers(trace) + (if res.Some? then [(e, res.value)] else [])
      && Lost(more) == Lost(trace) + (if res.None? then multiset{e} else multiset{})
  {
    var more := trace + [(e, res)];
    assert more[..|more| - 1] == trace;
  }

  lemma JoinedAt<E, R(!new)>(states: seq<State<E, R>>, trace: seq<(E, Option<R>)>, i: nat, end: nat)
    requires Traces(states, trace) && i < |trace| && end == i + 1
    ensures trace[i].0 in states[i].running && states[end] == Join(states[i], trace[i].0, trace[i].1)
  {
  }

  lemma PrefixGrows<E, R>(trace: seq<(E, Option<R>)>, i: nat, end: nat)
    requires i < |trace| && end == i + 1
    ensures trace[..end] == trace[..i] + [(trace[i].0, trace[i].1)]
  {
  }

  lemma {:induction false} JoinAnswers<E, R(!new)>(s: State<E, R>, t: State<E, R>, before: seq<(E, Option<R>)>,
          after: seq<(E, Option<R>)>, e: E, res: Option<R>)
    requires e in s.running && t == Join(s, e, res) && after == before + [(e, res)]
    requires s.results == Answers(before) && s.failed == Lost(before)
    ensures t.results == Answers(after) && t.failed == Lost(after)
  {
    JoinKeeps(s, e, res);
    OneMoreJoin(before, e, res);
  }

  /** Every run returns, for each join that succeeded and in the order of the joins, the endpoint of the task that
      ended with the response of that same task. */
  lemma RunAnswers<E, R(!new)>(states: seq<State<E, R>>, trace: seq<(E, Option<R>)>,
          endpoints: seq<E>, concurrency: nat, i: nat)
    requires Traces(states, trace) && states[0] == Init(endpoints, concurrency) && i <= |trace|
    ensures states[i].results == Answers(trace[..i]) && states[i].failed == Lost(trace[..i])
  {
    if i > 0 {
      RunAnswers(states, trace, endpoints, concurrency, i - 1);
      JoinedAt(states, trace, i - 1, i);
      PrefixGrows(trace, i - 1, i);
      JoinAnswers(states[i - 1], states[i], trace[..i - 1], trace[..i], trace[i - 1].0, trace[i - 1].1);
    }
  }

  // ---------------------------------------------------------------- program

  class Pool<E(==), R> {
    var queue: seq<E>
    var joinSet: multiset<E>
    var results: seq<(E, R)>
    ghost var failed: multiset<E>

    constructor (endpoints: seq<E>)
      ensures queue == endpoints && joinSet == multiset{} && results == [] && failed == multiset{}
    {
      queue, joinSet, results, failed := endpoints, multiset{}, [], multiset{};
    }

    ghost function Now(): State<E, R>
      reads this
    {
      State(queue, joinSet, results, failed)
    }

    /** `queue.pop_front()` and `join_set.spawn`. */
    method SpawnNext()
      modifies this
      ensures results == old(results) && failed == old(failed)
      ensures if old(queue) == [] then queue == [] && joinSet == old(joinSet)
              else queue == old(queue)[1..] && joinSet == old(joinSet) + multiset{old(queue)[0]}
    {
      if |queue| > 0 {
        joinSet := joinSet + multiset{queue[0]};
        queue := queue[1..];
      }
    }

    /** One turn of the join loop: some task ends, somehow. */
    method JoinNext(e: E, res: Option<R>)
      requires e in joinSet
      modifies this
      ensures Now() == Join(old(Now()), e, res)
    {
      joinSet := joinSet - multiset{e};
      match res {
        case Some(r) =>
          results := results + [(e, r)];
          SpawnNext();
        case None =>
          failed := failed + multiset{e};
      }
    }
  }

  /** A choice of the next task to end picks one that runs. */
  ghost predicate Picks<E, R>(joins: State<E, R> -> (E, Option<R>), s: State<E, R>) {
    s.running != multiset{} ==> joins(s).0 in s.running
  }

  method SpawnBatch<E(==), R>(pool: Pool<E, R>, concurrency: nat)
    requires pool.joinSet == multiset{} && pool.results == [] && pool.failed == multiset{}
    modifies pool
    ensures pool.Now() == Init(old(pool.queue), concurrency)
  {
    ghost var endpoints := pool.queue;
    var batch := Min(concurrency, |pool.queue|);
    for i := 0 to batch
      invariant pool.queue == endpoints[i..] && pool.joinSet == multiset(endpoints[..i])
      invariant pool.results == [] && pool.failed == multiset{}
    {
      assert endpoints[..i + 1] == endpoints[..i] + [endpoints[i]];
      pool.SpawnNext();
    }
  }

  lemma TracesExtend<E, R(!new)>(run: seq<State<E, R>>, trace: seq<(E, Option<R>)>, e: E, res: Option<R>)
    requires Traces(run, trace) && e in run[|run| - 1].running
    ensures Traces(run + [Join(run[|run| - 1], e, res)], trace + [(e, res)])
  {
  }

  lemma TracesRun<E, R(!new)>(run: seq<State<E, R>>, trace: seq<(E, Option<R>)>)
    requires Traces(run, trace)
    ensures Run(run)
  {
    forall i | 0 <= i < |run| - 1 ensures Step(run[i], run[i + 1]) { assert trace[i].0 in run[i].running; }
  }

  /** Every join is the environment's choice for the state it is made in. */
  ghost predicate Follows<E, R(!new)>(run: seq<State<E, R>>, trace: seq<(E, Option<R>)>,
          joins: State<E, R> -> (E, Option<R>))
  {
    |run| > |trace| && forall i :: 0 <= i < |trace| ==> trace[i] == joins(run[i].(failed := multiset{}))
  }

  /** `joins` is the environment's choice: which running task ends next, and with what. */
  method DispatchRequests<E(==,!new), R(!new)>(endpoints: seq<E>, concurrency: nat,
          joins: State<E, R> -> (E, Option<R>))
    returns (results: seq<(E, R)>, ghost run: seq<State<E, R>>, ghost trace: seq<(E, Option<R>)>)
    requires forall s: State<E, R> :: Picks(joins, s)
    ensures Run(run) && run[0] == Init(endpoints, concurrency)
    ensures Finished(run[|run| - 1]) && run[|run| - 1].results == results
    ensures Traces(run, trace) && Follows(run, trace, joins)
    ensures results == Answers(trace) && run[|run| - 1].failed == Lost(trace)
    ensures Answered(results) <= multiset(endpoints)
  {
    var pool := new Pool<E, R>(endpoints);
    SpawnBatch(pool, concurrency);
    run, trace := [pool.Now()], [];
    while pool.joinSet != multiset{}
      invariant Traces(run, trace) && Follows(run, trace, joins)
      invariant run[0] == Init(endpoints, concurrency) && run[|run| - 1] == pool.Now()
      decreases Unfinished(pool.Now())
    {
      var seen := State(pool.queue, pool.joinSet, pool.results, multiset{});
      assert Picks(joins, seen);
      var (e, res) := joins(seen);
      JoinEnds(pool.Now(), e, res);
      TracesExtend(run, trace, e, res);
      pool.JoinNext(e, res);
      run, trace := run + [pool.Now()], trace + [(e, res)];
    }
    TracesRun(run, trace);
    assert trace[..|trace|] == trace;
    RunAnswers(run, trace, endpoints, concurrency, |trace|);
    results := pool.results;
    RunSafe(run, endpoints, concurrency, |run| - 1);
  }
}
