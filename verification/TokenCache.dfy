/** The access token cache: one call on its own, and every interleaving of concurrent calls. */
module TokenCache {
  import opened Wrappers
  import opened Characters

  /** Instants and durations in nanoseconds; an instant holds its seconds in 64 signed bits. */
  const NANOS_PER_SECOND: nat := 1_000_000_000

  const MAX_INSTANT: nat := 0x7FFF_FFFF_FFFF_FFFF * NANOS_PER_SECOND + 999_999_999

  datatype CachedToken = CachedToken(token: string, expiresAt: nat)

  /** What the token endpoint answers, as far as the cache is concerned. */
  datatype Reply = RequestFailed | Refused | Body(token: Option<string>, lifetime: Option<nat>)

  /** `Aborted` is the arithmetic panic on an expiry no instant can hold; the caller's task ends. */
  datatype Fetched = Fresh(entry: CachedToken) | Rejected | Aborted

  predicate NeedsRefresh(entry: CachedToken, margin: nat, now: nat) {
    now + margin > MAX_INSTANT || now + margin >= entry.expiresAt
  }

  /** The token a call that began at `now` takes from the cache. */
  function Lookup(cached: Option<CachedToken>, margin: nat, now: nat): Option<string> {
    if cached.Some? && !NeedsRefresh(cached.value, margin, now) then Some(cached.value.token) else None
  }

  predicate Usable(reply: Reply) {
    reply.Body? && reply.token.Some? && Trim(reply.token.value) != "" && reply.lifetime.Some? && reply.lifetime.value > 0
  }

  /** The outcome of a fetch made for a call that began at `now`. */
  function FetchToken(reply: Reply, now: nat): Fetched {
    if !Usable(reply) then Rejected
    else
      var expiresAt := now + reply.lifetime.value * NANOS_PER_SECOND;
      if expiresAt > MAX_INSTANT then Aborted else Fresh(CachedToken(reply.token.value, expiresAt))
  }

  /** A fetch is rejected exactly for a reply that is not usable, and aborted exactly when no instant holds the expiry. */
  lemma FetchMeaning(reply: Reply, now: nat)
    ensures var usable := && reply.Body? && reply.token.Some? && Trim(reply.token.value) != ""
                          && reply.lifetime.Some? && reply.lifetime.value > 0;
      FetchToken(reply, now)
      == if !usable then Rejected
         else if now + reply.lifetime.value * 1_000_000_000 > 0x7FFF_FFFF_FFFF_FFFF * 1_000_000_000 + 999_999_999 then Aborted
         else Fresh(CachedToken(reply.token.value, now + reply.lifetime.value * 1_000_000_000))
  {
    hide Trim;
  }

  class AccessTokenManager {
    var cached: Option<CachedToken>
    const margin: nat

    constructor (margin: nat)
      ensures cached == None && this.margin == margin
    {
      cached := None;
      this.margin := margin;
    }

    /**
     One call with the lock held throughout: the cached token while it is fresh, otherwise what the
     endpoint gives.
     */
    method Token(now: nat, reply: Reply) returns (r: Option<string>)
      modifies this`cached
      ensures Lookup(old(cached), margin, now).Some? ==> r == Lookup(old(cached), margin, now) && cached == old(cached)
      ensures Lookup(old(cached), margin, now).None? ==>
                match FetchToken(reply, now)
                case Fresh(entry) => r == Some(entry.token) && cached == Some(entry)
                case _ => r == None && cached == old(cached)
    {
      if cached.Some? && !NeedsRefresh(cached.value, margin, now) {
        return Some(cached.value.token);
      }
      var fetched := FetchToken(reply, now);
      if !fetched.Fresh? {
        return None;
      }
      cached := Some(fetched.entry);
      return Some(fetched.entry.token);
    }
  }

  // ----- Concurrent callers -----

  /** Where a caller stands; a call takes its time before it asks for the lock. */
  datatype Caller =
    | Idle
    | Waiting(began: nat)
    | Fetching(began: nat)
    | ServedFromCache(began: nat, at: nat, entry: CachedToken)
    | ServedFresh(token: string)
    | Failed

  /** One successful fetch. */
  datatype Fetch = Fetch(began: nat, respondedAt: nat, lifetime: nat, token: string)

  datatype State = State(clock: nat, holder: Option<nat>, cached: Option<CachedToken>, callers: seq<Caller>, fetches: seq<Fetch>)

  datatype Event =
    | Tick(duration: nat)
    | Begin(i: nat)
    | Acquire(i: nat)
    | Respond(i: nat, reply: Reply)
    | Cancel(i: nat)

  predicate InCall(c: Caller) { c.Waiting? || c.Fetching? }

  function Settle(s: State, i: nat, c: Caller): State
    requires i < |s.callers|
  {
    s.(callers := s.callers[i := c])
  }

  function Acquired(margin: nat, s: State, i: nat): State
    requires i < |s.callers| && s.callers[i].Waiting?
  {
    var began := s.callers[i].began;
    if s.holder.Some? then s
    else if Lookup(s.cached, margin, began).Some? then Settle(s, i, ServedFromCache(began, s.clock, s.cached.value))
    else Settle(s, i, Fetching(began)).(holder := Some(i))
  }

  function Lifetime(reply: Reply): nat {
    if reply.Body? && reply.lifetime.Some? then reply.lifetime.value else 0
  }

  function Responded(s: State, i: nat, reply: Reply): State
    requires i < |s.callers| && s.callers[i].Fetching?
  {
    var began := s.callers[i].began;
    match FetchToken(reply, began)
    case Fresh(entry) =>
      Settle(s, i, ServedFresh(entry.token)).(
        holder := None, cached := Some(entry),
        fetches := s.fetches + [Fetch(began, s.clock, Lifetime(reply), entry.token)])
    case Rejected => Settle(s, i, Failed).(holder := None)
    case Aborted => Settle(s, i, Failed).(holder := None)
  }

  /** One step of the system; an event that does not apply changes nothing. */
  function Next(margin: nat, s: State, e: Event): State {
    match e
    case Tick(d) => s.(clock := s.clock + d)
    case Begin(i) => if i < |s.callers| && !InCall(s.callers[i]) then Settle(s, i, Waiting(s.clock)) else s
    case Acquire(i) => if i < |s.callers| && s.callers[i].Waiting? then Acquired(margin, s, i) else s
    case Respond(i, reply) => if i < |s.callers| && s.callers[i].Fetching? then Responded(s, i, reply) else s
    case Cancel(i) =>
      if i < |s.callers| && InCall(s.callers[i])
      then Settle(s, i, Idle).(holder := if s.callers[i].Fetching? then None else s.holder)
      else s
  }

  function Run(margin: nat, s: State, events: seq<Event>): State {
    if events == [] then s else Next(margin, Run(margin, s, events[..|events| - 1]), events[|events| - 1])
  }

  ghost predicate Initial(s: State) {
    s.holder == None && s.cached == None && s.fetches == [] && forall i :: 0 <= i < |s.callers| ==> s.callers[i] == Idle
  }

  // ----- What every run keeps -----

  /** The lock is held exactly by the caller that is fetching. */
  ghost predicate LockFollowsFetch(s: State) {
    forall i :: 0 <= i < |s.callers| ==> (s.callers[i].Fetching? <==> s.holder == Some(i))
  }

  ghost predicate CallerIsSound(margin: nat, clock: nat, c: Caller) {
    match c
    case Waiting(began) => began <= clock
    case Fetching(began) => began <= clock
    case ServedFromCache(began, at, entry) =>
      began <= at <= clock && began + margin < entry.expiresAt <= MAX_INSTANT
    case _ => true
  }

  ghost predicate CallersAreSound(margin: nat, s: State) {
    forall i :: 0 <= i < |s.callers| ==> CallerIsSound(margin, s.clock, s.callers[i])
  }

  ghost predicate FetchIsSound(clock: nat, f: Fetch) {
    f.began <= f.respondedAt <= clock && f.lifetime > 0 && f.began + f.lifetime * NANOS_PER_SECOND <= MAX_INSTANT
  }

  ghost function EntryOf(f: Fetch): CachedToken {
    CachedToken(f.token, f.began + f.lifetime * NANOS_PER_SECOND)
  }

  /** The cache holds what the last successful fetch brought. */
  ghost predicate CacheIsLastFetch(s: State) {
    && (forall k :: 0 <= k < |s.fetches| ==> FetchIsSound(s.clock, s.fetches[k]))
    && s.cached == if s.fetches == [] then None else Some(EntryOf(s.fetches[|s.fetches| - 1]))
  }

  ghost predicate Inv(margin: nat, s: State) {
    LockFollowsFetch(s) && CallersAreSound(margin, s) && CacheIsLastFetch(s)
  }

  /**
   Taking the free lock: the cached token is served, as it is, exactly when the call began more than
   the margin before its expiry; otherwise the caller fetches and holds the lock.
   */
  lemma AcquireMeaning(margin: nat, s: State, i: nat)
    requires i < |s.callers| && s.callers[i].Waiting? && s.holder == None && CacheIsLastFetch(s)
    ensures var t, began := Next(margin, s, Acquire(i)), s.callers[i].began;
      && t.cached == s.cached && t.fetches == s.fetches && t.clock == s.clock
      && if s.cached.Some? && began + margin < s.cached.value.expiresAt
         then t.holder == None && t.callers == s.callers[i := ServedFromCache(began, s.clock, s.cached.value)]
         else t.holder == Some(i) && t.callers == s.callers[i := Fetching(began)]
  {
    assert s.cached.Some? ==> s.cached.value.expiresAt <= MAX_INSTANT;
  }

  /**
   An answer ends the fetch and frees the lock. Its token is served and cached, unchanged, until the
   lifetime after the call began, exactly when it is not blank, the lifetime is positive and an
   instant can hold the expiry; otherwise the caller fails and the cache stays.
   */
  lemma RespondMeaning(margin: nat, s: State, i: nat, reply: Reply)
    requires i < |s.callers| && s.callers[i].Fetching?
    ensures var t, began := Next(margin, s, Respond(i, reply)), s.callers[i].began;
      && t.holder == None && t.clock == s.clock
      && if && reply.Body? && reply.token.Some? && Trim(reply.token.value) != ""
            && reply.lifetime.Some? && reply.lifetime.value > 0
            && began + reply.lifetime.value * 1_000_000_000 <= 0x7FFF_FFFF_FFFF_FFFF * 1_000_000_000 + 999_999_999
         then
           var expiry := began + reply.lifetime.value * 1_000_000_000;
           && t.callers == s.callers[i := ServedFresh(reply.token.value)]
           && t.cached == Some(CachedToken(reply.token.value, expiry))
           && t.fetches == s.fetches + [Fetch(began, s.clock, reply.lifetime.value, reply.token.value)]
         else t.callers == s.callers[i := Failed] && t.cached == s.cached && t.fetches == s.fetches
  {
    hide Trim;
  }

  /** Time passing, calls beginning and calls given up change nothing but the clock and the one caller. */
  lemma OtherStepsMeaning(margin: nat, s: State, i: nat, d: nat)
    ensures Next(margin, s, Tick(d)) == s.(clock := s.clock + d)
    ensures i < |s.callers| && !s.callers[i].Waiting? && !s.callers[i].Fetching?
        ==> Next(margin, s, Begin(i)) == s.(callers := s.callers[i := Waiting(s.clock)]) && Next(margin, s, Cancel(i)) == s
    ensures i < |s.callers| && (s.callers[i].Waiting? || s.callers[i].Fetching?)
        ==> && Next(margin, s, Begin(i)) == s
            && Next(margin, s, Cancel(i))
               == s.(callers := s.callers[i := Idle], holder := if s.callers[i].Fetching? then None else s.holder)
  {
  }

  lemma NextKeepsLock(margin: nat, s: State, e: Event)
    requires LockFollowsFetch(s)
    ensures LockFollowsFetch(Next(margin, s, e))
  {
    hide Lookup, FetchToken;
  }

  lemma NextKeepsCallers(margin: nat, s: State, e: Event)
    requires CallersAreSound(margin, s) && CacheIsLastFetch(s)
    ensures CallersAreSound(margin, Next(margin, s, e))
  {
    hide FetchToken;
    var t := Next(margin, s, e);
    forall i | 0 <= i < |t.callers|
      ensures CallerIsSound(margin, t.clock, t.callers[i])
    {
      assert CallerIsSound(margin, s.clock, s.callers[i]);
    }
  }

  lemma NextKeepsCache(margin: nat, s: State, e: Event)
    requires CallersAreSound(margin, s) && CacheIsLastFetch(s)
    ensures CacheIsLastFetch(Next(margin, s, e))
  {
    hide Lookup;
    var t := Next(margin, s, e);
    if e.Respond? && e.i < |s.callers| && s.callers[e.i].Fetching? {
      assert CallerIsSound(margin, s.clock, s.callers[e.i]);
    }
  }

  /** Every reachable state satisfies the invariant, whatever the callers, the endpoint and the scheduler do. */
  lemma {:induction false} RunIsSound(margin: nat, s: State, events: seq<Event>)
    requires Inv(margin, s)
    ensures Inv(margin, Run(margin, s, events))
    decreases |events|
  {
    hide Next, LockFollowsFetch, CallersAreSound, CacheIsLastFetch;
    if events != [] {
      var before := Run(margin, s, events[..|events| - 1]);
      RunIsSound(margin, s, events[..|events| - 1]);
      NextKeepsLock(margin, before, events[|events| - 1]);
      NextKeepsCallers(margin, before, events[|events| - 1]);
      NextKeepsCache(margin, before, events[|events| - 1]);
    }
  }

  // ----- Main results -----

  /** In every interleaving: one fetch at most is in flight, every cached answer was more than the margin from its recorded
      expiry when its call began, and the recorded expiry never lies beyond the response time plus the lifetime. */
  lemma EveryRunIsSafe(margin: nat, s: State, events: seq<Event>)
    requires Initial(s)
    ensures var t := Run(margin, s, events);
            && (forall i, j :: 0 <= i < |t.callers| && 0 <= j < |t.callers| ==>
                  t.callers[i].Fetching? && t.callers[j].Fetching? ==> i == j)
            && (forall i :: 0 <= i < |t.callers| && t.callers[i].ServedFromCache? ==>
                  t.callers[i].began + margin < t.callers[i].entry.expiresAt)
            && (t.cached.Some? ==>
                  exists k :: 0 <= k < |t.fetches| && t.cached.value.token == t.fetches[k].token
                              && t.cached.value.expiresAt == t.fetches[k].began + t.fetches[k].lifetime * NANOS_PER_SECOND
                              && t.cached.value.expiresAt <= t.fetches[k].respondedAt + t.fetches[k].lifetime * NANOS_PER_SECOND)
  {
    hide Run;
    RunIsSound(margin, s, events);
    var t := Run(margin, s, events);
    forall i | 0 <= i < |t.callers| && t.callers[i].ServedFromCache?
      ensures t.callers[i].began + margin < t.callers[i].entry.expiresAt
    {
      assert CallerIsSound(margin, t.clock, t.callers[i]);
    }
    if t.cached.Some? {
      assert FetchIsSound(t.clock, t.fetches[|t.fetches| - 1]);
    }
  }

  /** The entry an event brings in this state: a usable answer for the caller that is fetching. */
  function Answer(s: State, e: Event): Option<CachedToken> {
    if e.Respond? && e.i < |s.callers| && s.callers[e.i].Fetching? then
      match FetchToken(e.reply, s.callers[e.i].began)
      case Fresh(entry) => Some(entry)
      case _ => None
    else None
  }

  /** The entry of the last usable answer in a run, if there is one. */
  function LastAnswer(margin: nat, s: State, events: seq<Event>): Option<CachedToken> {
    if events == [] then None
    else
      var rest, last := events[..|events| - 1], events[|events| - 1];
      var answer := Answer(Run(margin, s, rest), last);
      if answer.Some? then answer else LastAnswer(margin, s, rest)
  }

  /**
   After every run the cache holds what the last usable answer brought, however many failures and
   cancellations came after it; without one it is as it was.
   */
  lemma {:induction false} CacheIsLastAnswer(margin: nat, s: State, events: seq<Event>)
    ensures Run(margin, s, events).cached
         == if LastAnswer(margin, s, events).Some? then LastAnswer(margin, s, events) else s.cached
    decreases |events|
  {
    hide Answer, Next;
    if events != [] {
      var rest := events[..|events| - 1];
      CacheIsLastAnswer(margin, s, rest);
      StepCaches(margin, Run(margin, s, rest), events[|events| - 1]);
    }
  }

  lemma StepCaches(margin: nat, s: State, e: Event)
    ensures Next(margin, s, e).cached == if Answer(s, e).Some? then Answer(s, e) else s.cached
  {
    hide FetchToken, Lookup;
  }

  lemma NothingRun(margin: nat, s: State)
    ensures Run(margin, s, []) == s
  {
  }

  // ----- One fetch serves a burst -----

  /** Every call under way began early enough for the entry to answer it. */
  ghost predicate AllCovered(margin: nat, s: State, entry: CachedToken) {
    forall i :: 0 <= i < |s.callers| && s.callers[i].Waiting? ==> !NeedsRefresh(entry, margin, s.callers[i].began)
  }

  /** While a fresh entry covers every call that begins, nobody fetches and the entry stays. */
  lemma {:induction false} OneFetchServesTheBurst(margin: nat, s: State, events: seq<Event>, entry: CachedToken)
    requires LockFollowsFetch(s) && s.holder == None && s.cached == Some(entry) && AllCovered(margin, s, entry)
    requires forall n :: 0 <= n < |events| && events[n].Begin? ==> !NeedsRefresh(entry, margin, Run(margin, s, events[..n]).clock)
    ensures var t := Run(margin, s, events);
            && LockFollowsFetch(t) && t.holder == None && t.cached == Some(entry) && t.fetches == s.fetches
            && AllCovered(margin, t, entry)
    decreases |events|
  {
    hide NeedsRefresh, FetchToken;
    if events != [] {
      var rest := events[..|events| - 1];
      forall n | 0 <= n < |rest| && rest[n].Begin?
        ensures !NeedsRefresh(entry, margin, Run(margin, s, rest[..n]).clock)
      {
        assert rest[..n] == events[..n];
      }
      OneFetchServesTheBurst(margin, s, rest, entry);
    }
  }

  // ----- A call nobody disturbs -----

  /** Taking the lock and, if needed, hearing the endpoint has the effect that `AccessTokenManager.Token` promises. */
  lemma UndisturbedCall(margin: nat, s: State, i: nat, reply: Reply)
    requires s.holder == None && i < |s.callers| && s.callers[i].Waiting?
    ensures var began := s.callers[i].began;
            var t, found := Run(margin, s, [Acquire(i), Respond(i, reply)]), Lookup(s.cached, margin, began);
            && |t.callers| == |s.callers| && t.holder == None
            && (if found.Some? then
                  && t.cached == s.cached && t.callers[i] == ServedFromCache(began, s.clock, s.cached.value)
                  && s.cached.value.token == found.value
                else match FetchToken(reply, began)
                  case Fresh(entry) => t.cached == Some(entry) && t.callers[i] == ServedFresh(entry.token)
                  case _ => t.cached == s.cached && t.callers[i] == Failed)
  {
    hide FetchToken, NeedsRefresh;
    RunAppends(margin, s, [], Acquire(i));
    RunAppends(margin, s, [Acquire(i)], Respond(i, reply));
    assert [] + [Acquire(i)] == [Acquire(i)];
    assert [Acquire(i)] + [Respond(i, reply)] == [Acquire(i), Respond(i, reply)];
  }

  lemma RunAppends(margin: nat, s: State, events: seq<Event>, e: Event)
    ensures Run(margin, s, events + [e]) == Next(margin, Run(margin, s, events), e)
  {
    assert (events + [e])[..|events|] == events;
  }

  // ----- Waiting for the lock -----

  /** In every run, every cached answer to a call that waited at most `wait` is still unexpired when it is given. */
  ghost predicate WaitsGetLiveTokens(margin: nat, wait: nat) {
    forall s, events, i: nat :: Initial(s) && i < |Run(margin, s, events).callers| ==>
      AnsweredAlive(Run(margin, s, events).callers[i], wait)
  }

  ghost predicate AnsweredAlive(c: Caller, wait: nat) {
    c.ServedFromCache? && c.at - c.began <= wait ==> c.at < c.entry.expiresAt
  }

  lemma ShortWaitsGetLiveTokens(margin: nat, wait: nat)
    requires wait <= margin || margin >= MAX_INSTANT
    ensures WaitsGetLiveTokens(margin, wait)
  {
    hide Run, Inv;
    forall s, events, i: nat | Initial(s) && i < |Run(margin, s, events).callers|
      ensures AnsweredAlive(Run(margin, s, events).callers[i], wait)
    {
      InitialIsSound(margin, s);
      RunIsSound(margin, s, events);
      CallerOfRun(margin, Run(margin, s, events), i);
      CachedWithinRange(margin, Run(margin, s, events), i);
    }
  }

  lemma InitialIsSound(margin: nat, s: State)
    requires Initial(s)
    ensures Inv(margin, s)
  {
  }

  lemma CallerOfRun(margin: nat, s: State, i: nat)
    requires Inv(margin, s) && i < |s.callers|
    ensures CallerIsSound(margin, s.clock, s.callers[i])
  {
  }

  /** Nothing is answered from the cache when the margin reaches past every instant. */
  lemma CachedWithinRange(margin: nat, s: State, i: nat)
    requires Inv(margin, s) && i < |s.callers|
    ensures s.callers[i].ServedFromCache? ==> margin < MAX_INSTANT
  {
    CallerOfRun(margin, s, i);
  }

  lemma OneSecondToken(began: nat)
    requires began + NANOS_PER_SECOND <= MAX_INSTANT
    ensures FetchToken(Body(Some("t"), Some(1)), began) == Fresh(CachedToken("t", began + NANOS_PER_SECOND))
  {
    PrintableIsNotWhitespace('t');
    assert TrimStart("t") == "t";
  }

  lemma StepTo(margin: nat, s: State, events: seq<Event>, before: State, e: Event, after: State)
    requires Run(margin, s, events) == before && Next(margin, before, e) == after
    ensures Run(margin, s, events + [e]) == after
  {
    hide Next;
    RunAppends(margin, s, events, e);
  }

  const ASK: Event := Respond(0, Body(Some("t"), Some(1)))

  /** A margin below one second: the call begins after the fetch and takes the lock at the expiry. */
  lemma ExpiredAfterShortMargin(margin: nat)
    requires margin < NANOS_PER_SECOND
    ensures !WaitsGetLiveTokens(margin, margin + 1)
  {
    hide Run, FetchToken, WaitsGetLiveTokens, MAX_INSTANT;
    var expiry, entry, fetch := NANOS_PER_SECOND, CachedToken("t", NANOS_PER_SECOND), Fetch(0, 0, 1, "t");
    var late, s := NANOS_PER_SECOND - margin - 1, State(0, None, None, [Idle, Idle], []);
    OneSecondFits();
    OneSecondToken(0);
    NothingRun(margin, s);
    var s1, s2 := s.(callers := [Waiting(0), Idle]), s.(callers := [Fetching(0), Idle], holder := Some(0));
    StepTo(margin, s, [], s, Begin(0), s1);
    var e1 := [] + [Begin(0)];
    StepTo(margin, s, e1, s1, Acquire(0), s2);
    var e2 := e1 + [Acquire(0)];
    var s3 := State(0, None, Some(entry), [ServedFresh("t"), Idle], [fetch]);
    StepTo(margin, s, e2, s2, ASK, s3);
    var e3 := e2 + [ASK];
    StepTo(margin, s, e3, s3, Tick(late), s3.(clock := late));
    var e4 := e3 + [Tick(late)];
    var s5 := State(late, None, Some(entry), [ServedFresh("t"), Waiting(late)], [fetch]);
    StepTo(margin, s, e4, s3.(clock := late), Begin(1), s5);
    AnsweredAtExpiry(margin, s, e4 + [Begin(1)], s5, late, entry);
  }

  /** A longer margin: the call begins first, and the fetch it finds ends one margin and an instant later. */
  lemma ExpiredAfterLongMargin(margin: nat)
    requires NANOS_PER_SECOND <= margin < MAX_INSTANT
    ensures !WaitsGetLiveTokens(margin, margin + 1)
  {
    hide Run, FetchToken, WaitsGetLiveTokens;
    var start := margin + 1 - NANOS_PER_SECOND;
    var entry, fetch := CachedToken("t", margin + 1), Fetch(start, start, 1, "t");
    var s := State(0, None, None, [Idle, Idle], []);
    OneSecondToken(start);
    NothingRun(margin, s);
    StepTo(margin, s, [], s, Begin(1), s.(callers := [Idle, Waiting(0)]));
    var e1 := [] + [Begin(1)];
    StepTo(margin, s, e1, s.(callers := [Idle, Waiting(0)]), Tick(start), s.(clock := start, callers := [Idle, Waiting(0)]));
    var e2 := e1 + [Tick(start)];
    var s3 := s.(clock := start, callers := [Waiting(start), Waiting(0)]);
    StepTo(margin, s, e2, s.(clock := start, callers := [Idle, Waiting(0)]), Begin(0), s3);
    var e3 := e2 + [Begin(0)];
    var s4 := s.(clock := start, callers := [Fetching(start), Waiting(0)], holder := Some(0));
    StepTo(margin, s, e3, s3, Acquire(0), s4);
    var e4 := e3 + [Acquire(0)];
    var s5 := State(start, None, Some(entry), [ServedFresh("t"), Waiting(0)], [fetch]);
    StepTo(margin, s, e4, s4, ASK, s5);
    AnsweredAtExpiry(margin, s, e4 + [ASK], s5, 0, entry);
  }

  lemma OneSecondFits()
    ensures NANOS_PER_SECOND <= MAX_INSTANT
  {
  }

  /** Caller 1 waits until the entry expires, and is answered with it. */
  lemma AnsweredAtExpiry(margin: nat, s: State, events: seq<Event>, waiting: State, began: nat, entry: CachedToken)
    requires Initial(s) && Run(margin, s, events) == waiting && waiting.holder == None && waiting.cached == Some(entry)
    requires |waiting.callers| == 2 && waiting.callers[1] == Waiting(began)
    requires entry.expiresAt == began + margin + 1 && entry.expiresAt <= MAX_INSTANT && waiting.clock <= entry.expiresAt
    ensures !WaitsGetLiveTokens(margin, margin + 1)
  {
    hide Run, FetchToken;
    var expired := waiting.(clock := entry.expiresAt);
    StepTo(margin, s, events, waiting, Tick(entry.expiresAt - waiting.clock), expired);
    var e1 := events + [Tick(entry.expiresAt - waiting.clock)];
    var answered := expired.(callers := expired.callers[1 := ServedFromCache(began, entry.expiresAt, entry)]);
    StepTo(margin, s, e1, expired, Acquire(1), answered);
    var e2 := e1 + [Acquire(1)];
    assert !AnsweredAlive(Run(margin, s, e2).callers[1], margin + 1);
  }

  lemma LongerWaitsAreHarder(margin: nat, wait: nat, longer: nat)
    requires WaitsGetLiveTokens(margin, longer) && wait <= longer
    ensures WaitsGetLiveTokens(margin, wait)
  {
    hide Run;
    forall s, events, i: nat | Initial(s) && i < |Run(margin, s, events).callers|
      ensures AnsweredAlive(Run(margin, s, events).callers[i], wait)
    {
      assert AnsweredAlive(Run(margin, s, events).callers[i], longer);
    }
  }

  /**
   Freshness is judged by the time a call began, so a call can be answered with an expired token:
   for every margin and every bound on the wait, all answers are unexpired if and only if the bound
   is within the margin (or the margin is so long that the cache never answers).
   */
  lemma WaitsGetLiveTokensIff(margin: nat, wait: nat)
    ensures WaitsGetLiveTokens(margin, wait) <==> wait <= margin || margin >= MAX_INSTANT
  {
    hide WaitsGetLiveTokens;
    if wait <= margin || margin >= MAX_INSTANT {
      ShortWaitsGetLiveTokens(margin, wait);
    } else {
      if margin < NANOS_PER_SECOND {
        ExpiredAfterShortMargin(margin);
      } else {
        ExpiredAfterLongMargin(margin);
      }
      if WaitsGetLiveTokens(margin, wait) {
        LongerWaitsAreHarder(margin, margin + 1, wait);
      }
    }
  }
}
