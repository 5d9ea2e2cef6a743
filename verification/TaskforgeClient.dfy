/**
 The single-flight token cache (client credentials grant, section 4.4 of RFC 6749).

 A run is a sequence of uninterrupted segments: somebody calls getAccessToken; a token
 request completes, storing its token; the `finally` callback of a request runs. Times
 are milliseconds.
 */
module TokenRuns {
  import opened Basics

  const TOKEN_REFRESH_MARGIN_MS := 30_000

  datatype CachedToken = CachedToken(accessToken: string, expiresAt: int)

  /** The authorization server's answer; it issued a token at `issuedAt` for `expiresIn` seconds. */
  datatype Response = Refused | Issued(accessToken: string, issuedAt: int, expiresIn: int)

  /** A token request, from fetchAccessToken's start until its finally callback has run. */
  datatype Flight = Flight(startedAt: int, response: Option<Response>, cleared: bool)

  /** What a caller was given: a token at once, or a request to wait for. */
  datatype Call = FromCache(accessToken: string, at: int) | Awaiting(flight: nat)

  datatype Event = Called(at: int) | Completed(flight: nat, response: Response) | FinallyRan(flight: nat)

  datatype State = State(
    // the client's fields
    cachedToken: Option<CachedToken>,
    pendingToken: Option<nat>,
    // every request made and every call answered
    flights: seq<Flight>,
    calls: seq<Call>
  )

  const START := State(None, None, [], [])

  predicate Fresh(cached: Option<CachedToken>, now: int) {
    cached.Some? && cached.value.expiresAt - now > TOKEN_REFRESH_MARGIN_MS
  }

  function GetAccessToken(s: State, now: int): State {
    if Fresh(s.cachedToken, now) then s.(calls := s.calls + [FromCache(s.cachedToken.value.accessToken, now)])
    else
      var pending := if s.pendingToken.Some? then s
                     else s.(pendingToken := Some(|s.flights|), flights := s.flights + [Flight(now, None, false)]);
      pending.(calls := pending.calls + [Awaiting(pending.pendingToken.value)])
  }

  /** The request may complete once. */
  function Complete(s: State, f: nat, response: Response): State {
    if f >= |s.flights| || s.flights[f].response.Some? then s
    else
      var done := s.(flights := s.flights[f := s.flights[f].(response := Some(response))]);
      match response
      case Refused => done
      case Issued(token, _, expiresIn) =>
        done.(cachedToken := Some(CachedToken(token, s.flights[f].startedAt + expiresIn * 1000)))
  }

  /** The callback runs once, after its request completed, and clears the field whatever it holds. */
  function RunFinally(s: State, f: nat): State {
    if f >= |s.flights| || s.flights[f].response.None? || s.flights[f].cleared then s
    else s.(flights := s.flights[f := s.flights[f].(cleared := true)], pendingToken := None)
  }

  function Step(s: State, e: Event): State {
    match e
    case Called(at) => GetAccessToken(s, at)
    case Completed(f, response) => Complete(s, f, response)
    case FinallyRan(f) => RunFinally(s, f)
  }

  function Run(events: seq<Event>): State {
    if events == [] then START else Step(Run(events[..|events| - 1]), events[|events| - 1])
  }

  // ----- invariants

  /** The field holds the one request that is still running or not yet cleared. */
  ghost predicate SingleFlight(s: State) {
    && (forall f | 0 <= f < |s.flights| :: !s.flights[f].cleared <==> s.pendingToken == Some(f))
    && (forall f | 0 <= f < |s.flights| :: s.flights[f].response.None? ==> !s.flights[f].cleared)
    && (s.pendingToken.Some? ==> s.pendingToken.value == |s.flights| - 1)
  }

  ghost predicate CallsAnswered(s: State) {
    forall k | 0 <= k < |s.calls| && s.calls[k].Awaiting? :: s.calls[k].flight < |s.flights|
  }

  /** A server does not issue the token before it was asked for it. */
  predicate IssuedAfterAsked(s: State, e: Event) {
    e.Completed? && e.response.Issued? && e.flight < |s.flights| ==>
      s.flights[e.flight].startedAt <= e.response.issuedAt
  }

  predicate IssuedInTime(events: seq<Event>) {
    events == [] ||
    var init := events[..|events| - 1];
    IssuedInTime(init) && IssuedAfterAsked(Run(init), events[|events| - 1])
  }

  predicate IsIssued(flight: Flight) {
    flight.response.Some? && flight.response.value.Issued?
  }

  ghost predicate Causal(flights: seq<Flight>) {
    forall f | 0 <= f < |flights| && IsIssued(flights[f]) ::
      flights[f].startedAt <= flights[f].response.value.issuedAt
  }

  predicate Grants(flight: Flight, token: CachedToken) {
    && IsIssued(flight)
    && flight.response.value.accessToken == token.accessToken
    && token.expiresAt == flight.startedAt + flight.response.value.expiresIn * 1000
  }

  /** The newest request that was granted a token. */
  predicate IsNewestIssued(flights: seq<Flight>, f: nat) {
    f < |flights| && IsIssued(flights[f]) && forall g | f < g < |flights| :: !IsIssued(flights[g])
  }

  /** The token is the newest one issued. */
  ghost predicate IsNewest(cached: Option<CachedToken>, flights: seq<Flight>) {
    match cached
    case None => forall f | 0 <= f < |flights| :: !IsIssued(flights[f])
    case Some(token) => exists f: nat :: IsNewestIssued(flights, f) && Grants(flights[f], token)
  }

  ghost predicate CachesNewest(s: State) {
    IsNewest(s.cachedToken, s.flights)
  }

  /** The token a caller was given from the cache had this long to live, by the server's own reckoning. */
  ghost predicate ServedWithMargin(s: State, token: string, at: int) {
    exists f | 0 <= f < |s.flights| && s.flights[f].response.Some? ::
      var r := s.flights[f].response.value;
      r.Issued? && r.accessToken == token && at + TOKEN_REFRESH_MARGIN_MS < r.issuedAt + r.expiresIn * 1000
  }

  ghost predicate CacheCallsHaveMargin(s: State) {
    forall k | 0 <= k < |s.calls| && s.calls[k].FromCache? :: ServedWithMargin(s, s.calls[k].accessToken, s.calls[k].at)
  }

  // ----- every step keeps them

  lemma StepSingleFlight(s: State, e: Event)
    requires SingleFlight(s) && CallsAnswered(s)
    ensures SingleFlight(Step(s, e)) && CallsAnswered(Step(s, e))
  {
  }

  /** Requests without a token do not matter to the cache. */
  lemma SameTokens(cached: Option<CachedToken>, before: seq<Flight>, after: seq<Flight>)
    requires IsNewest(cached, before) && |before| <= |after|
    requires forall f | 0 <= f < |before| && IsIssued(before[f]) ::
               after[f].startedAt == before[f].startedAt && after[f].response == before[f].response
    requires forall f | 0 <= f < |after| && IsIssued(after[f]) :: f < |before| && IsIssued(before[f])
    ensures IsNewest(cached, after)
  {
    if cached.Some? {
      var f: nat :| IsNewestIssued(before, f) && Grants(before[f], cached.value);
      assert IsNewestIssued(after, f) && Grants(after[f], cached.value);
    }
  }

  lemma {:induction false} StepCaches(s: State, e: Event)
    requires SingleFlight(s) && CachesNewest(s)
    ensures CachesNewest(Step(s, e))
  {
    var after := Step(s, e);
    if after.cachedToken == s.cachedToken && !(e.Completed? && e.response.Issued?) {
      SameTokens(s.cachedToken, s.flights, after.flights);
    } else if after != s {
      assert IsNewestIssued(after.flights, e.flight) && Grants(after.flights[e.flight], after.cachedToken.value);
    }
  }

  /** Once a request has its response, it keeps it. */
  lemma ResponsesStay(s: State, e: Event, f: nat)
    requires f < |s.flights|
    ensures f < |Step(s, e).flights| && Step(s, e).flights[f].startedAt == s.flights[f].startedAt
    ensures s.flights[f].response.Some? ==> Step(s, e).flights[f].response == s.flights[f].response
  {
  }

  lemma StepMargin(s: State, e: Event)
    requires CachesNewest(s) && Causal(s.flights) && CacheCallsHaveMargin(s)
    ensures CacheCallsHaveMargin(Step(s, e))
  {
    var after := Step(s, e);
    forall k | 0 <= k < |after.calls| && after.calls[k].FromCache?
      ensures ServedWithMargin(after, after.calls[k].accessToken, after.calls[k].at)
    {
      var call := after.calls[k];
      if k < |s.calls| {
        assert call == s.calls[k];
        var f :| 0 <= f < |s.flights| && s.flights[f].response.Some?
                 && s.flights[f].response.value.Issued? && s.flights[f].response.value.accessToken == call.accessToken
                 && call.at + TOKEN_REFRESH_MARGIN_MS
                    < s.flights[f].response.value.issuedAt + s.flights[f].response.value.expiresIn * 1000;
        ResponsesStay(s, e, f);
        assert after.flights[f].response == s.flights[f].response;
      } else {
        var f: nat :| IsNewestIssued(s.flights, f) && Grants(s.flights[f], s.cachedToken.value);
        assert after.flights[f].response.Some?;
      }
    }
  }

  lemma {:induction false} RunKeeps(events: seq<Event>)
    ensures var s := Run(events); SingleFlight(s) && CallsAnswered(s) && CachesNewest(s)
    decreases |events|
  {
    if events != [] {
      RunKeeps(events[..|events| - 1]);
      StepSingleFlight(Run(events[..|events| - 1]), events[|events| - 1]);
      StepCaches(Run(events[..|events| - 1]), events[|events| - 1]);
    }
  }

  // ----- main results

  /**
   In every interleaving at most one token request is outstanding, it is the newest
   one, and `pendingToken` holds it.
   */
  lemma OneRequestOutstanding(events: seq<Event>, f: nat, g: nat)
    requires f < g < |Run(events).flights|
    ensures var s := Run(events);
            && s.flights[f].response.Some? && s.flights[f].cleared
            && (s.flights[g].response.None? ==> g == |s.flights| - 1 && s.pendingToken == Some(g))
  {
    RunKeeps(events);
  }

  /**
   A call asks the server only when the cache is stale and no request is pending; when
   one is, the call waits for that very request.
   */
  lemma CallersShareTheRequest(events: seq<Event>, now: int)
    ensures var s, after := Run(events), Run(events + [Called(now)]);
            && |after.calls| == |s.calls| + 1
            && var call := after.calls[|s.calls|];
               if Fresh(s.cachedToken, now) then
                 after.flights == s.flights && call == FromCache(s.cachedToken.value.accessToken, now)
               else
                 && call.Awaiting? && Some(call.flight) == after.pendingToken
                 && (forall f | 0 <= f < |s.flights| && !s.flights[f].cleared ::
                       after.flights == s.flights && call.flight == f)
                 && ((forall f | 0 <= f < |s.flights| :: s.flights[f].cleared) ==>
                       after.flights == s.flights + [Flight(now, None, false)] && call.flight == |s.flights|)
  {
    RunKeeps(events);
    var longer := events + [Called(now)];
    assert longer[..|longer| - 1] == events;
  }

  /**
   A call is served from the cache exactly when the newest token issued, counting its
   lifetime from the start of its request, has more than thirty seconds left.
   */
  lemma ServedFromCacheIff(events: seq<Event>, now: int)
    ensures var s := Run(events);
            GetAccessToken(s, now).calls[|s.calls|].FromCache? <==>
              exists f: nat | IsNewestIssued(s.flights, f) ::
                s.flights[f].startedAt + s.flights[f].response.value.expiresIn * 1000 - now > TOKEN_REFRESH_MARGIN_MS
  {
    RunKeeps(events);
    var s := Run(events);
    if s.cachedToken.Some? {
      var f: nat :| IsNewestIssued(s.flights, f) && Grants(s.flights[f], s.cachedToken.value);
      forall h: nat | IsNewestIssued(s.flights, h) ensures h == f {
      }
    }
  }

  // ----- the cache, read off the events

  predicate Completes(s: State, e: Event, f: nat) {
    e.Completed? && e.flight == f && f < |s.flights| && s.flights[f].response.None?
  }

  /** The call starts a request. */
  predicate Requests(s: State, e: Event) {
    e.Called? && !Fresh(s.cachedToken, e.at) && s.pendingToken.None?
  }

  /** When the requests were made, in order. */
  function RequestTimes(events: seq<Event>): seq<int> {
    if events == [] then []
    else
      var init, e := events[..|events| - 1], events[|events| - 1];
      RequestTimes(init) + if Requests(Run(init), e) then [e.at] else []
  }

  /** How request `f` completed, if it has. */
  function ResponseTo(events: seq<Event>, f: nat): Option<Response> {
    if events == [] then None
    else
      var init, e := events[..|events| - 1], events[|events| - 1];
      if Completes(Run(init), e, f) then Some(e.response) else ResponseTo(init, f)
  }

  /** The token that the last granted request brought, good from the time of that request. */
  function LastGranted(events: seq<Event>): Option<CachedToken> {
    if events == [] then None
    else
      var init, e := events[..|events| - 1], events[|events| - 1];
      if e.Completed? && e.response.Issued? && Completes(Run(init), e, e.flight) && e.flight < |RequestTimes(init)|
      then Some(CachedToken(e.response.accessToken, RequestTimes(init)[e.flight] + e.response.expiresIn * 1000))
      else LastGranted(init)
  }

  ghost predicate Follows(s: State, events: seq<Event>) {
    && |s.flights| == |RequestTimes(events)|
    && forall f: nat ::
         if f < |s.flights| then
           s.flights[f].startedAt == RequestTimes(events)[f] && s.flights[f].response == ResponseTo(events, f)
         else ResponseTo(events, f) == None
  }

  lemma FlightStep(s: State, e: Event, f: nat)
    ensures |Step(s, e).flights| == |s.flights| + if Requests(s, e) then 1 else 0
    ensures f < |s.flights| ==>
              && Step(s, e).flights[f].startedAt == s.flights[f].startedAt
              && Step(s, e).flights[f].response
                 == if Completes(s, e, f) then Some(e.response) else s.flights[f].response
    ensures Requests(s, e) && f == |s.flights| ==> Step(s, e).flights[f] == Flight(e.at, None, false)
  {
  }

  /** In every run, each request has the answer it was given, and the cache holds the token of the last one granted. */
  lemma {:induction false} CacheFollowsCompletions(events: seq<Event>)
    ensures Follows(Run(events), events)
    ensures Run(events).cachedToken == LastGranted(events)
    decreases |events|
  {
    if events != [] {
      var init, e := events[..|events| - 1], events[|events| - 1];
      var s, after := Run(init), Run(events);
      CacheFollowsCompletions(init);
      FlightStep(s, e, 0);
      forall f: nat
        ensures if f < |after.flights| then
                  after.flights[f].startedAt == RequestTimes(events)[f]
                  && after.flights[f].response == ResponseTo(events, f)
                else ResponseTo(events, f) == None
      {
        FlightStep(s, e, f);
      }
    }
  }

  /** When the callback of a request clears `pendingToken`, the field holds that request and no newer one. */
  lemma ClearingDiscardsNothingNewer(events: seq<Event>, f: nat)
    requires var s := Run(events); f < |s.flights| && s.flights[f].response.Some? && !s.flights[f].cleared
    ensures Run(events).pendingToken == Some(f) && f == |Run(events).flights| - 1
    ensures Run(events + [FinallyRan(f)]).pendingToken == None
  {
    RunKeeps(events);
    var longer := events + [FinallyRan(f)];
    assert longer[..|longer| - 1] == events;
  }

  // ----- failure

  /** What a call is given while the refused request `f` waits for its callback. */
  predicate GivenMeanwhile(call: Call, cached: Option<CachedToken>, f: nat) {
    match call
    case Awaiting(flight) => flight == f
    case FromCache(token, at) => Fresh(cached, at) && token == cached.value.accessToken
  }

  /** Since `was`, nothing happened but calls that asked for nothing new. */
  ghost predicate OnlyCalls(was: State, s: State, f: nat) {
    && s.cachedToken == was.cachedToken && s.flights == was.flights && s.pendingToken == was.pendingToken
    && was.calls <= s.calls
    && forall call <- s.calls[|was.calls|..] :: GivenMeanwhile(call, was.cachedToken, f)
  }

  /** The request has its response and its callback has not run. */
  ghost predicate AwaitsCallback(s: State, f: nat) {
    SingleFlight(s) && f < |s.flights| && s.pendingToken == Some(f) && s.flights[f].response.Some?
  }

  lemma MeanwhileStep(was: State, s: State, e: Event, f: nat)
    requires AwaitsCallback(s, f) && OnlyCalls(was, s, f) && e != FinallyRan(f)
    ensures AwaitsCallback(Step(s, e), f) && OnlyCalls(was, Step(s, e), f)
  {
    if e.Called? {
      var after := Step(s, e).calls;
      assert after[|was.calls|..] == s.calls[|was.calls|..] + [after[|s.calls|]];
    } else {
      assert Step(s, e) == s;
    }
  }

  lemma RunOneMore(events: seq<Event>, e: Event)
    ensures Run(events + [e]) == Step(Run(events), e)
  {
    assert (events + [e])[..|events|] == events;
  }

  lemma {:induction false} OnlyCallsMeanwhile(before: seq<Event>, between: seq<Event>, f: nat)
    requires AwaitsCallback(Run(before), f) && FinallyRan(f) !in between
    ensures AwaitsCallback(Run(before + between), f) && OnlyCalls(Run(before), Run(before + between), f)
    decreases |between|
  {
    if between == [] {
      assert before + between == before;
    } else {
      var init, e := between[..|between| - 1], between[|between| - 1];
      OnlyCallsMeanwhile(before, init, f);
      MeanwhileStep(Run(before), Run(before + init), e, f);
      RunOneMore(before + init, e);
      assert before + between == before + init + [e];
    }
  }

  /**
   Whatever happens between a request's refusal and its callback, the cache stays as it
   was and callers get the cached token or wait for the refused request; after the callback
   the next caller that needs a token asks again.
   */
  lemma FailureAllowsRetry(before: seq<Event>, f: nat, between: seq<Event>, now: int)
    requires f < |Run(before).flights| && Run(before).flights[f].response.None?
    requires FinallyRan(f) !in between
    ensures var s := Run(before);
            var refused := before + [Completed(f, Refused)];
            var waiting := Run(refused + between);
            var cleared := refused + between + [FinallyRan(f)];
            && OnlyCalls(Run(refused), waiting, f)
            && Run(refused).calls == s.calls
            && Run(cleared).cachedToken == s.cachedToken
            && (!Fresh(s.cachedToken, now) ==>
                  var after := Run(cleared + [Called(now)]);
                  && after.flights == Run(cleared).flights + [Flight(now, None, false)]
                  && after.pendingToken == Some(|s.flights|)
                  && after.calls == waiting.calls + [Awaiting(|s.flights|)])
  {
    var refused := before + [Completed(f, Refused)];
    RunKeeps(before);
    RunOneMore(before, Completed(f, Refused));
    OnlyCallsMeanwhile(refused, between, f);
    RunOneMore(refused + between, FinallyRan(f));
    RunOneMore(refused + between + [FinallyRan(f)], Called(now));
  }

  /** A token served from the cache has more than thirty seconds before its true expiry. */
  lemma {:induction false} CacheServesWithMargin(events: seq<Event>)
    requires IssuedInTime(events)
    ensures CacheCallsHaveMargin(Run(events))
    ensures Causal(Run(events).flights)
    decreases |events|
  {
    if events != [] {
      var init, e := events[..|events| - 1], events[|events| - 1];
      CacheServesWithMargin(init);
      RunKeeps(init);
      StepMargin(Run(init), e);
    }
  }
}

/** The client object. */
module TaskforgeClients {
  import opened Basics
  import R = TokenRuns

  class TaskforgeClient {
    var cachedToken: Option<R.CachedToken>
    var pendingToken: Option<nat>
    var flights: seq<R.Flight>
    ghost var calls: seq<R.Call>

    ghost function State(): R.State
      reads this
    {
      R.State(cachedToken, pendingToken, flights, calls)
    }

    ghost predicate Valid()
      reads this
    {
      R.SingleFlight(State()) && R.CallsAnswered(State()) && R.CachesNewest(State())
    }

    constructor ()
      ensures Valid() && State() == R.START
    {
      cachedToken, pendingToken, flights, calls := None, None, [], [];
    }

    method GetAccessToken(now: int) returns (call: R.Call)
      requires Valid()
      modifies this
      ensures Valid()
      ensures State() == R.Step(old(State()), R.Called(now))
      ensures calls == old(calls) + [call]
    {
      R.StepSingleFlight(State(), R.Called(now));
      R.StepCaches(State(), R.Called(now));
      if cachedToken.Some? && cachedToken.value.expiresAt - now > R.TOKEN_REFRESH_MARGIN_MS {
        call := R.FromCache(cachedToken.value.accessToken, now);
      } else {
        if pendingToken.None? {
          pendingToken := Some(|flights|);
          flights := flights + [R.Flight(now, None, false)];
        }
        call := R.Awaiting(pendingToken.value);
      }
      calls := calls + [call];
    }

    /** fetchAccessToken after its last await. */
    method FetchCompleted(f: nat, response: R.Response)
      requires Valid() && f < |flights| && flights[f].response.None?
      modifies this
      ensures Valid()
      ensures State() == R.Step(old(State()), R.Completed(f, response))
    {
      R.StepSingleFlight(State(), R.Completed(f, response));
      R.StepCaches(State(), R.Completed(f, response));
      flights := flights[f := flights[f].(response := Some(response))];
      if response.Issued? {
        cachedToken := Some(R.CachedToken(response.accessToken, flights[f].startedAt + response.expiresIn * 1000));
      }
    }

    /** The finally callback of a request. */
    method FinallyRan(f: nat)
      requires Valid() && f < |flights| && flights[f].response.Some? && !flights[f].cleared
      modifies this
      ensures Valid()
      ensures State() == R.Step(old(State()), R.FinallyRan(f))
    {
      R.StepSingleFlight(State(), R.FinallyRan(f));
      R.StepCaches(State(), R.FinallyRan(f));
      flights := flights[f := flights[f].(cleared := true)];
      pendingToken := None;
    }
  }
}
