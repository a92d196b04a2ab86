/** The self-refreshing OAuth2 token: a cached token behind a read-write lock, checked under the read
    lock and again under the write lock before a new one is fetched. Callers interleave at every wait. */
module TokenCache {
  import opened Json

  /** Clock readings and durations, in nanoseconds. */
  type Instant = nat

  const SECOND: nat := 1_000_000_000
  const MARGIN: nat := 30 * SECOND
  const DEFAULT_EXPIRES_IN: u64 := 3600

  datatype Token = Token(accessToken: string, expiresAt: Instant)

  /** The one check both paths make. */
  predicate Usable(cache: Option<Token>, now: Instant) {
    cache.Some? && now + MARGIN < cache.value.expiresAt
  }

  datatype Outcome = Returned(token: string) | Failed | Cancelled

  /** Where a caller stands in `get_valid_token`. */
  datatype Phase =
    | Idle
    | AwaitRead
    | HoldsRead
    | AwaitWrite
    | HoldsWrite
    | Fetching(hold: nat)
    | Done(outcome: Outcome)

  /** What is observable: a token served from the cache at some check, a fetch sent after a failed check
      under some hold of the write lock, and how that fetch ended: with a token and the lifetime that its
      response declared, or without. */
  datatype Event =
    | Served(caller: nat, at: Instant, token: Token)
    | Fetched(caller: nat, at: Instant, hold: nat, seen: Option<Token>)
    | Stored(caller: nat, at: Instant, hold: nat, token: Token, expiresIn: Option<u64>)
    | GaveUp(caller: nat, hold: nat)

  datatype State = State(
    now: Instant,
    cache: Option<Token>,
    readers: set<nat>,
    writer: Option<nat>,
    holds: nat,
    callers: seq<Phase>,
    log: seq<Event>)

  function Init(n: nat): State {
    State(0, None, {}, None, 0, seq(n, _ => Idle), [])
  }

  datatype Action =
    | Start
    | LockRead
    | CheckRead
    | LockWrite
    | CheckWrite
    | Receive(accessToken: string, expiresIn: Option<u64>)
    | Reject
    | Cancel
    | Finish

  predicate Enabled(s: State, c: nat, a: Action) {
    && c < |s.callers|
    && match (a, s.callers[c])
       case (Start, Idle) => true
       case (LockRead, AwaitRead) => s.writer.None?
       case (CheckRead, HoldsRead) => true
       case (LockWrite, AwaitWrite) => s.writer.None? && s.readers == {}
       case (CheckWrite, HoldsWrite) => true
       case (Receive(_, _), Fetching(_)) => true
       case (Reject, Fetching(_)) => true
       case (Cancel, AwaitRead) => true
       case (Cancel, AwaitWrite) => true
       case (Cancel, Fetching(_)) => true
       case (Finish, Done(_)) => true
       case _ => false
  }

  function Move(s: State, c: nat, p: Phase): State
    requires c < |s.callers|
  {
    s.(callers := s.callers[c := p])
  }

  function Log(s: State, e: Event): State {
    s.(log := s.log + [e])
  }

  /** One caller's next move. A waiting caller can be cancelled: its future is dropped, and with it its guard. */
  function Act(s: State, c: nat, a: Action): State
    requires Enabled(s, c, a)
  {
    match a
    case Start => Move(s, c, AwaitRead)
    case LockRead => Move(s, c, HoldsRead).(readers := s.readers + {c})
    case CheckRead =>
      var released := s.(readers := s.readers - {c});
      if Usable(s.cache, s.now) then Serve(released, c) else Move(released, c, AwaitWrite)
    case LockWrite => Move(s, c, HoldsWrite).(writer := Some(c), holds := s.holds + 1)
    case CheckWrite =>
      if Usable(s.cache, s.now) then Serve(s.(writer := None), c)
      else Log(Move(s, c, Fetching(s.holds)), Fetched(c, s.now, s.holds, s.cache))
    case Receive(text, expiresIn) =>
      var seconds := if expiresIn.Some? then expiresIn.value else DEFAULT_EXPIRES_IN;
      var token := Token(text, s.now + seconds * SECOND);
      Log(Move(s, c, Done(Returned(text))).(cache := Some(token), writer := None),
          Stored(c, s.now, s.callers[c].hold, token, expiresIn))
    case Reject => Log(Move(s, c, Done(Failed)).(writer := None), GaveUp(c, s.callers[c].hold))
    case Cancel =>
      if s.callers[c].Fetching? then Log(Move(s, c, Done(Cancelled)).(writer := None), GaveUp(c, s.callers[c].hold))
      else Move(s, c, Done(Cancelled))
    case Finish => Move(s, c, Idle)
  }

  function Serve(s: State, c: nat): State
    requires c < |s.callers| && s.cache.Some?
  {
    Log(Move(s, c, Done(Returned(s.cache.value.accessToken))), Served(c, s.now, s.cache.value))
  }

  /** Time passes, or some caller moves. */
  ghost predicate Step(s: State, t: State) {
    || (exists later :: later >= s.now && t == s.(now := later))
    || (exists c: nat, a :: Enabled(s, c, a) && t == Act(s, c, a))
  }

  ghost predicate Run(states: seq<State>, n: nat) {
    |states| > 0 && states[0] == Init(n) && forall i :: 0 <= i < |states| - 1 ==> Step(states[i], states[i + 1])
  }

  // ---------------------------------------------------------------- the lock

  ghost predicate LockHeld(s: State) {
    && (forall c :: c in s.readers <==> 0 <= c < |s.callers| && s.callers[c].HoldsRead?)
    && (forall c: nat :: c < |s.callers| ==>
          ((s.callers[c].HoldsWrite? || s.callers[c].Fetching?) <==> s.writer == Some(c)))
    && (s.writer.Some? ==> s.writer.value < |s.callers| && s.readers == {})
  }

  /** The last token stored, if any. */
  function LastStored(log: seq<Event>): Option<Token> {
    if |log| == 0 then None
    else if log[|log| - 1].Stored? then Some(log[|log| - 1].token)
    else LastStored(log[..|log| - 1])
  }

  predicate Ends(e: Event, c: nat, hold: nat) {
    (e.Stored? && e.caller == c && e.hold == hold) || e == GaveUp(c, hold)
  }

  /** How long a token lives, in seconds: as its response says, or an hour. */
  function Lifetime(expiresIn: Option<u64>): nat {
    match expiresIn
    case Some(seconds) => seconds
    case None => 3600
  }

  /** What each entry of the log must satisfy, given the entries before it. */
  predicate EntryOk(log: seq<Event>, i: nat)
    requires i < |log|
  {
    match log[i]
    case Served(_, at, token) => LastStored(log[..i]) == Some(token) && at + MARGIN < token.expiresAt
    case Fetched(c, at, hold, seen) =>
      && seen == LastStored(log[..i]) && !Usable(seen, at)
      && (i + 1 < |log| ==> Ends(log[i + 1], c, hold))
    case Stored(c, at, hold, token, expiresIn) =>
      && i > 0 && log[i - 1].Fetched? && log[i - 1].caller == c && log[i - 1].hold == hold
      && token.expiresAt == at + Lifetime(expiresIn) * 1_000_000_000
    case GaveUp(c, hold) => i > 0 && log[i - 1].Fetched? && log[i - 1].caller == c && log[i - 1].hold == hold
  }

  predicate LastIsFetch(log: seq<Event>, c: nat, hold: nat) {
    |log| > 0 && log[|log| - 1].Fetched? && log[|log| - 1].caller == c && log[|log| - 1].hold == hold
  }

  /** A caller is fetching exactly when the last entry of the log is its fetch. */
  ghost predicate FetcherLogged(s: State) {
    && (forall c: nat :: c < |s.callers| && s.callers[c].Fetching? ==> LastIsFetch(s.log, c, s.callers[c].hold))
    && (|s.log| > 0 && s.log[|s.log| - 1].Fetched? ==>
          s.log[|s.log| - 1].caller < |s.callers| && s.callers[s.log[|s.log| - 1].caller].Fetching?)
  }

  /** What every reachable state satisfies. */
  ghost predicate Inv(s: State) {
    && LockHeld(s)
    && s.cache == LastStored(s.log)
    && (forall i :: 0 <= i < |s.log| ==> EntryOk(s.log, i))
    && FetcherLogged(s)
  }

  lemma {:induction false} AppendOk(log: seq<Event>, e: Event)
    requires forall i :: 0 <= i < |log| ==> EntryOk(log, i)
    requires |log| > 0 && log[|log| - 1].Fetched? ==> Ends(e, log[|log| - 1].caller, log[|log| - 1].hold)
    requires EntryOk(log + [e], |log|)
    ensures forall i :: 0 <= i < |log + [e]| ==> EntryOk(log + [e], i)
    ensures LastStored(log + [e]) == if e.Stored? then Some(e.token) else LastStored(log)
  {
    var more := log + [e];
    assert more[..|log|] == log;
    forall i | 0 <= i < |more| ensures EntryOk(more, i) {
      if i < |log| {
        assert EntryOk(log, i);
        assert more[..i] == log[..i];
      }
    }
  }

  // ---------------------------------------------------------------- every step keeps it

  lemma LockKept(s: State, c: nat, a: Action)
    requires LockHeld(s) && Enabled(s, c, a)
    ensures LockHeld(Act(s, c, a))
  {
    var t := Act(s, c, a);
    assert |t.callers| == |s.callers| && forall d: nat :: d < |s.callers| && d != c ==> t.callers[d] == s.callers[d];
  }

  /** Nobody can check the cache, and so nothing is logged, while a fetch is under way. */
  lemma QuietWhileFetching(s: State, c: nat, a: Action)
    requires Inv(s) && Enabled(s, c, a) && |s.log| > 0 && s.log[|s.log| - 1].Fetched?
    ensures c != s.log[|s.log| - 1].caller ==> Act(s, c, a).log == s.log
    ensures c == s.log[|s.log| - 1].caller ==> s.callers[c] == Fetching(s.log[|s.log| - 1].hold)
  {
    var f := s.log[|s.log| - 1].caller;
    assert s.callers[f].Fetching?;
    assert s.writer == Some(f) && s.readers == {};
    assert s.callers[c].HoldsRead? <==> c in s.readers;
  }

  /** The entry a move logs is in order, ends the fetch under way if there is one, and says what the cache holds. */
  lemma NewEntry(s: State, c: nat, a: Action)
    requires Inv(s) && Enabled(s, c, a) && Act(s, c, a).log != s.log
    ensures |Act(s, c, a).log| == |s.log| + 1 && Act(s, c, a).log == s.log + [Act(s, c, a).log[|s.log|]]
    ensures EntryOk(Act(s, c, a).log, |s.log|)
    ensures var e := Act(s, c, a).log[|s.log|];
      && (|s.log| > 0 && s.log[|s.log| - 1].Fetched? ==> Ends(e, s.log[|s.log| - 1].caller, s.log[|s.log| - 1].hold))
      && Act(s, c, a).cache == if e.Stored? then Some(e.token) else s.cache
  {
    var t := Act(s, c, a);
    if |s.log| > 0 && s.log[|s.log| - 1].Fetched? { QuietWhileFetching(s, c, a); }
    assert t.log == s.log + [t.log[|s.log|]] && t.log[..|s.log|] == s.log;
  }

  lemma EntriesKept(s: State, c: nat, a: Action)
    requires Inv(s) && Enabled(s, c, a)
    ensures var t := Act(s, c, a); (forall i :: 0 <= i < |t.log| ==> EntryOk(t.log, i)) && t.cache == LastStored(t.log)
  {
    var t := Act(s, c, a);
    if t.log != s.log {
      NewEntry(s, c, a);
      AppendOk(s.log, t.log[|s.log|]);
    }
  }

  lemma ActKeepsInv(s: State, c: nat, a: Action)
    requires Inv(s) && Enabled(s, c, a)
    ensures Inv(Act(s, c, a))
  {
    LockKept(s, c, a);
    EntriesKept(s, c, a);
    FetcherKept(s, c, a);
  }

  lemma FetcherKept(s: State, c: nat, a: Action)
    requires Inv(s) && Enabled(s, c, a)
    ensures FetcherLogged(Act(s, c, a))
  {
    var t := Act(s, c, a);
    if |s.log| > 0 && s.log[|s.log| - 1].Fetched? { QuietWhileFetching(s, c, a); }
    forall d: nat | d < |t.callers| && t.callers[d].Fetching?
      ensures LastIsFetch(t.log, d, t.callers[d].hold)
    {
      if d != c {
        assert s.callers[d].Fetching?;
        QuietWhileFetching(s, c, a);
      }
    }
  }

  lemma RunKeepsInv(states: seq<State>, n: nat, i: nat)
    requires Run(states, n) && i < |states|
    ensures Inv(states[i])
  {
    if i > 0 {
      RunKeepsInv(states, n, i - 1);
      var s, t := states[i - 1], states[i];
      assert Step(states[i - 1], states[i - 1 + 1]);
      if c: nat, a :| Enabled(s, c, a) && t == Act(s, c, a) { ActKeepsInv(s, c, a); }
    }
  }

  // ---------------------------------------------------------------- what holds over every run

  lemma {:induction false} LastStoredAt(log: seq<Event>, j: nat)
    requires j < |log| && log[j].Stored? && forall m :: j < m < |log| ==> !log[m].Stored?
    ensures LastStored(log) == Some(log[j].token)
  {
    if j < |log| - 1 { LastStoredAt(log[..|log| - 1], j); }
  }

  /** After a token has been stored, no fetch starts until, at a check made under that fetch's own hold
      of the write lock, the token has at most 30 seconds left. */
  lemma FetchesAreNeeded(states: seq<State>, n: nat, i: nat, j: nat, k: nat)
    requires Run(states, n) && i < |states|
    requires var log := states[i].log;
      j < k < |log| && log[j].Stored? && log[k].Fetched? && forall m :: j < m < k ==> !log[m].Stored?
    ensures var log := states[i].log; log[k].seen == Some(log[j].token) && log[j].token.expiresAt <= log[k].at + MARGIN
    ensures var log := states[i].log;
      var lifetime := if log[j].expiresIn.Some? then log[j].expiresIn.value else 3600;
      log[j].at + lifetime * 1_000_000_000 <= log[k].at + 30_000_000_000
  {
    RunKeepsInv(states, n, i);
    var log := states[i].log;
    assert EntryOk(log, k);
    assert EntryOk(log, j);
    LastStoredAt(log[..k], j);
  }

  /** A token served from the cache is the one stored last, and had more than 30 seconds left at its check. */
  lemma ServedTokensAreFresh(states: seq<State>, n: nat, i: nat, k: nat)
    requires Run(states, n) && i < |states| && k < |states[i].log| && states[i].log[k].Served?
    ensures var log := states[i].log;
      LastStored(log[..k]) == Some(log[k].token) && log[k].at + MARGIN < log[k].token.expiresAt
  {
    RunKeepsInv(states, n, i);
    assert EntryOk(states[i].log, k);
  }

  lemma LastStoredIsAt(log: seq<Event>) returns (j: nat)
    requires LastStored(log).Some?
    ensures j < |log| && log[j].Stored? && LastStored(log) == Some(log[j].token)
    ensures forall m :: j < m < |log| ==> !log[m].Stored?
  {
    if log[|log| - 1].Stored? { j := |log| - 1; } else { j := LastStoredIsAt(log[..|log| - 1]); }
  }

  /** A token is served only while it has more than 30 seconds of the lifetime its own response declared, counted
      from the moment it was stored; a response that declares none gives it an hour. */
  lemma ServedWithinLifetime(states: seq<State>, n: nat, i: nat, k: nat) returns (j: nat)
    requires Run(states, n) && i < |states| && k < |states[i].log| && states[i].log[k].Served?
    ensures var log := states[i].log;
      && j < k && log[j].Stored? && log[j].token == log[k].token
      && (forall m :: j < m < k ==> !log[m].Stored?)
      && var lifetime := if log[j].expiresIn.Some? then log[j].expiresIn.value else 3600;
         log[k].at + 30_000_000_000 < log[j].at + lifetime * 1_000_000_000
  {
    RunKeepsInv(states, n, i);
    var log := states[i].log;
    assert EntryOk(log, k);
    j := LastStoredIsAt(log[..k]);
    assert EntryOk(log, j);
  }

  /** What a response brought: the step that received it, and what it declared. */
  ghost predicate ReceivedAt(states: seq<State>, j: nat, e: Event)
    requires e.Stored?
  {
    && j + 1 < |states| && Enabled(states[j], e.caller, Receive(e.token.accessToken, e.expiresIn))
    && states[j + 1] == Act(states[j], e.caller, Receive(e.token.accessToken, e.expiresIn)) && states[j].now == e.at
  }

  lemma StoringReceives(s: State, c: nat, a: Action)
    requires Enabled(s, c, a) && Act(s, c, a).log != s.log
    requires |Act(s, c, a).log| == |s.log| + 1 && Act(s, c, a).log[|s.log|].Stored?
    ensures var e := Act(s, c, a).log[|s.log|];
      e.caller == c && a == Receive(e.token.accessToken, e.expiresIn) && e.at == s.now
  {
  }

  /** Every stored token came with a response: the entry holds the text and the lifetime that response declared, and
      the time it arrived. */
  lemma StoredWasReceived(states: seq<State>, n: nat, i: nat, k: nat) returns (j: nat)
    requires Run(states, n) && i < |states| && k < |states[i].log| && states[i].log[k].Stored?
    ensures j < i && ReceivedAt(states, j, states[i].log[k])
  {
    if i > 0 {
      var s, t := states[i - 1], states[i];
      assert Step(states[i - 1], states[i - 1 + 1]);
      if k < |s.log| {
        EarlierEntry(s, t, k);
        j := StoredWasReceived(states, n, i - 1, k);
      } else {
        var d: nat, a :| Enabled(s, d, a) && t == Act(s, d, a);
        OwnEntry(s, d, a);
        StoringReceives(s, d, a);
        j := i - 1;
      }
    }
  }

  lemma EarlierEntry(s: State, t: State, k: nat)
    requires Step(s, t) && k < |s.log|
    ensures k < |t.log| && t.log[k] == s.log[k]
  {
    if c: nat, a :| Enabled(s, c, a) && t == Act(s, c, a) {
      OwnEntry(s, c, a);
      assert t.log[..|s.log|][k] == s.log[k];
    }
  }

  /** From the moment a fetch starts, nothing is served and no other fetch starts before it has ended,
      under the same hold of the lock. */
  lemma OneFetchAtATime(states: seq<State>, n: nat, i: nat, k: nat)
    requires Run(states, n) && i < |states| && k + 1 < |states[i].log| && states[i].log[k].Fetched?
    ensures var log := states[i].log; Ends(log[k + 1], log[k].caller, log[k].hold)
  {
    RunKeepsInv(states, n, i);
    assert EntryOk(states[i].log, k);
  }

  /** In every state the cache is what the last successful fetch stored: failed and cancelled fetches,
      readers and the clock leave it alone. */
  lemma CacheIsLastStored(states: seq<State>, n: nat, i: nat)
    requires Run(states, n) && i < |states|
    ensures states[i].cache == LastStored(states[i].log)
    ensures forall k :: 0 <= k < |states[i].log| && states[i].log[k].GaveUp? ==>
      LastStored(states[i].log[..k + 1]) == LastStored(states[i].log[..k])
  {
    RunKeepsInv(states, n, i);
    var log := states[i].log;
    forall k | 0 <= k < |log| && log[k].GaveUp? ensures LastStored(log[..k + 1]) == LastStored(log[..k]) {
      assert log[..k + 1][..k] == log[..k];
    }
  }

  /** The last entry a caller logged is entry `k`, where it got this token. */
  ghost predicate GotTokenAt(log: seq<Event>, c: nat, text: string, k: nat) {
    && k < |log| && log[k].caller == c && (forall m :: k < m < |log| ==> log[m].caller != c)
    && (log[k].Served? || log[k].Stored?) && log[k].token.accessToken == text
  }

  /** Whatever a caller does logs at most one entry, its own. */
  lemma OwnEntry(s: State, c: nat, a: Action)
    requires Enabled(s, c, a)
    ensures var t := Act(s, c, a);
      t.log == s.log || (|t.log| == |s.log| + 1 && t.log[..|s.log|] == s.log && t.log[|s.log|].caller == c)
    ensures forall d :: 0 <= d < |s.callers| && d != c ==> Act(s, c, a).callers[d] == s.callers[d]
  {
    var t := Act(s, c, a);
    if t.log != s.log { assert t.log == s.log + [t.log[|s.log|]]; }
  }

  lemma OthersKeepTheirs(s: State, c: nat, a: Action, d: nat, text: string, k: nat)
    requires Enabled(s, c, a) && d != c && GotTokenAt(s.log, d, text, k)
    ensures GotTokenAt(Act(s, c, a).log, d, text, k)
  {
    var t := Act(s, c, a);
    OwnEntry(s, c, a);
    forall m | 0 <= m < |s.log| ensures t.log[m] == s.log[m] { assert t.log[..|s.log|][m] == s.log[m]; }
  }

  /** The move that makes a caller return a token logs where the token came from. */
  lemma ReturnLogs(s: State, c: nat, a: Action, text: string)
    requires Enabled(s, c, a) && Act(s, c, a).callers[c] == Done(Returned(text))
    ensures GotTokenAt(Act(s, c, a).log, c, text, |s.log|)
  {
  }

  lemma ReturnIsLogged(states: seq<State>, n: nat, i: nat, c: nat, text: string) returns (k: nat)
    requires Run(states, n) && i < |states|
    requires c < |states[i].callers| && states[i].callers[c] == Done(Returned(text))
    ensures GotTokenAt(states[i].log, c, text, k)
  {
    if i > 0 {
      var s, t := states[i - 1], states[i];
      assert Step(states[i - 1], states[i - 1 + 1]);
      if d: nat, a :| Enabled(s, d, a) && t == Act(s, d, a) {
        if d == c {
          ReturnLogs(s, c, a, text);
          k := |s.log|;
        } else {
          OwnEntry(s, d, a);
          k := ReturnIsLogged(states, n, i - 1, c, text);
          OthersKeepTheirs(s, d, a, c, text, k);
        }
      } else {
        k := ReturnIsLogged(states, n, i - 1, c, text);
      }
    }
  }

  /** In every run, a call that stands at the return of a token got it in the last entry it logged, and the
      cache held exactly that token then. */
  lemma ReturnsAreLogged(states: seq<State>, n: nat, i: nat, c: nat, text: string) returns (k: nat)
    requires Run(states, n) && i < |states|
    requires c < |states[i].callers| && states[i].callers[c] == Done(Returned(text))
    ensures var log := states[i].log;
      GotTokenAt(log, c, text, k) && LastStored(log[..k + 1]) == Some(log[k].token)
  {
    k := ReturnIsLogged(states, n, i, c, text);
    RunKeepsInv(states, n, i);
    var log := states[i].log;
    assert EntryOk(log, k);
    assert log[..k + 1][..k] == log[..k];
  }

  /** No reachable state is stuck: while some call is unfinished, some caller can move on. */
  lemma NeverStuck(states: seq<State>, n: nat, i: nat, c: nat) returns (d: nat, a: Action)
    requires Run(states, n) && i < |states| && c < |states[i].callers| && !states[i].callers[c].Idle?
    ensures Enabled(states[i], d, a) && a != Start && a != Cancel
  {
    RunKeepsInv(states, n, i);
    var s := states[i];
    d := c;
    var p := s.callers[c];
    if p.AwaitRead? || p.AwaitWrite? {
      d, a := c, if p.AwaitRead? then LockRead else LockWrite;
      if s.writer.Some? {
        d := s.writer.value;
        a := if s.callers[d].HoldsWrite? then CheckWrite else Reject;
      } else if s.readers != {} && p.AwaitWrite? {
        d :| d in s.readers;
        a := CheckRead;
      }
    } else {
      a := if p.HoldsRead? then CheckRead
           else if p.HoldsWrite? then CheckWrite
           else if p.Fetching? then Reject else Finish;
    }
  }

  // ---------------------------------------------------------------- program

  /** The provider shared by all callers. Each method is the code of `get_valid_token` from one wait
      to the next. */
  class OAuth2ClientCredentialsAuth {
    var now: Instant
    var cache: Option<Token>
    var readers: set<nat>
    var writer: Option<nat>
    /** Program counters, lock acquisitions and events: what an observer sees. */
    ghost var callers: seq<Phase>
    ghost var holds: nat
    ghost var log: seq<Event>

    constructor (ghost n: nat)
      ensures Now() == Init(n)
    {
      now, cache, readers, writer := 0, None, {}, None;
      callers, holds, log := seq(n, _ => Idle), 0, [];
    }

    ghost function Now(): State
      reads this
    {
      State(now, cache, readers, writer, holds, callers, log)
    }

    /** The read guard has been granted: check, drop the guard, and return or go for the write lock. */
    method FastPath(c: nat) returns (token: Option<string>)
      requires Enabled(Now(), c, CheckRead)
      modifies this
      ensures Now() == Act(old(Now()), c, CheckRead)
      ensures callers[c] == if token.Some? then Done(Returned(token.value)) else AwaitWrite
    {
      match cache {
        case Some(held) =>
          if now + MARGIN < held.expiresAt {
            log := log + [Served(c, now, held)];
            callers := callers[c := Done(Returned(held.accessToken))];
            readers := readers - {c};
            return Some(held.accessToken);
          }
        case None =>
      }
      readers := readers - {c};
      callers := callers[c := AwaitWrite];
      token := None;
    }

    /** The write guard has been granted: check again, and return or send the request. */
    method SlowPath(c: nat) returns (token: Option<string>)
      requires Enabled(Now(), c, CheckWrite)
      modifies this
      ensures Now() == Act(old(Now()), c, CheckWrite)
      ensures callers[c] == if token.Some? then Done(Returned(token.value)) else Fetching(holds)
    {
      match cache {
        case Some(held) =>
          if now + MARGIN < held.expiresAt {
            log := log + [Served(c, now, held)];
            callers := callers[c := Done(Returned(held.accessToken))];
            writer := None;
            return Some(held.accessToken);
          }
        case None =>
      }
      log := log + [Fetched(c, now, holds, cache)];
      callers := callers[c := Fetching(holds)];
      token := None;
    }

    /** The response has arrived: store the token and return it, or fail and leave the cache alone. */
    method OnResponse(c: nat, response: Option<(string, Option<u64>)>) returns (outcome: Outcome)
      requires Enabled(Now(), c, Reject)
      modifies this
      ensures response.None? ==> Now() == Act(old(Now()), c, Reject)
      ensures response.Some? ==> Now() == Act(old(Now()), c, Receive(response.value.0, response.value.1))
      ensures callers[c] == Done(outcome)
    {
      ghost var hold := callers[c].hold;
      match response {
        case None =>
          outcome := Failed;
          log := log + [GaveUp(c, hold)];
        case Some((text, expiresIn)) =>
          var seconds: nat := if expiresIn.Some? then expiresIn.value else DEFAULT_EXPIRES_IN;
          var token := Token(text, now + seconds * SECOND);
          cache := Some(token);
          outcome := Returned(text);
          log := log + [Stored(c, now, hold, token, expiresIn)];
      }
      callers := callers[c := Done(outcome)];
      writer := None;
    }
  }
}
