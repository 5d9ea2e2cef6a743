/**
 The restart limiter: a cooldown per container and a budget for all of them, decided on
 a list of past restarts that is pruned from time to time.

 A request's check and its recording run in one uninterrupted segment; they read the
 clock separately. Times are milliseconds of a clock that does not go back.
 */
module RestartLimiter {
  import opened Basics

  const CONTAINER_COOLDOWN_MS := 30_000
  const GLOBAL_LIMIT := 10
  const GLOBAL_WINDOW_MS := 5 * 60_000

  /** What the service does with a request. */
  datatype Verdict =
    | Unknown
    | Protected
    | TooSoon(waitSec: int)
    | BudgetSpent
    | Accepted

  /** `project` is the compose project of the container, if it is a managed one. */
  datatype Request = Request(container: string, project: Option<string>, checkedAt: int, recordedAt: int)

  datatype Restart = Restart(container: string, at: int)

  datatype Limiter = Limiter(
    lastRestartAt: map<string, int>,
    globalRestarts: seq<int>,
    // every restart ever recorded
    history: seq<Restart>
  )

  const FRESH_LIMITER := Limiter(map[], [], [])

  /** The times less than a window before `now`. */
  function Recent(times: seq<int>, now: int): seq<int> {
    if times == [] then []
    else
      var t := times[|times| - 1];
      Recent(times[..|times| - 1], now) + if now - t < GLOBAL_WINDOW_MS then [t] else []
  }

  function NotBefore(times: seq<int>, cutoff: int): seq<int> {
    if times == [] then []
    else
      var t := times[|times| - 1];
      NotBefore(times[..|times| - 1], cutoff) + if t >= cutoff then [t] else []
  }

  function CheckRateLimit(l: Limiter, container: string, now: int): Verdict {
    if container in l.lastRestartAt && now - l.lastRestartAt[container] < CONTAINER_COOLDOWN_MS then
      TooSoon((CONTAINER_COOLDOWN_MS - (now - l.lastRestartAt[container]) + 999) / 1000)
    else if |Recent(l.globalRestarts, now)| >= GLOBAL_LIMIT then BudgetSpent
    else Accepted
  }

  /** The list with one more restart, pruned when it got too long. */
  function Remember(list: seq<int>, now: int): seq<int> {
    var longer := list + [now];
    if |longer| > GLOBAL_LIMIT * 4 then NotBefore(longer, now - GLOBAL_WINDOW_MS) else longer
  }

  function RecordRestart(l: Limiter, container: string, now: int): Limiter {
    Limiter(
      l.lastRestartAt[container := now],
      Remember(l.globalRestarts, now),
      l.history + [Restart(container, now)])
  }

  function Decide(guarded: set<string>, l: Limiter, r: Request): Verdict {
    if r.project.None? then Unknown
    else if r.project.value in guarded then Protected
    else CheckRateLimit(l, r.container, r.checkedAt)
  }

  function Attempt(guarded: set<string>, l: Limiter, r: Request): Limiter {
    if Decide(guarded, l, r).Accepted? then RecordRestart(l, r.container, r.recordedAt) else l
  }

  function Run(guarded: set<string>, requests: seq<Request>): Limiter {
    if requests == [] then FRESH_LIMITER
    else Attempt(guarded, Run(guarded, requests[..|requests| - 1]), requests[|requests| - 1])
  }

  /** What the requests are answered. */
  function Verdicts(guarded: set<string>, requests: seq<Request>): (verdicts: seq<Verdict>)
    ensures |verdicts| == |requests|
  {
    if requests == [] then []
    else
      var init := requests[..|requests| - 1];
      Verdicts(guarded, init) + [Decide(guarded, Run(guarded, init), requests[|requests| - 1])]
  }

  /** The restarts that were granted, read off the answers. */
  function Granted(requests: seq<Request>, verdicts: seq<Verdict>): seq<Restart>
    requires |verdicts| == |requests|
  {
    if requests == [] then []
    else
      var last := |requests| - 1;
      Granted(requests[..last], verdicts[..last])
      + if verdicts[last].Accepted? then [Restart(requests[last].container, requests[last].recordedAt)] else []
  }

  function AllGranted(guarded: set<string>, requests: seq<Request>): seq<Restart> {
    Granted(requests, Verdicts(guarded, requests))
  }

  /** The clock does not go back within a request or from one to the next. */
  predicate Clocked(requests: seq<Request>) {
    && (forall i | 0 <= i < |requests| :: requests[i].checkedAt <= requests[i].recordedAt)
    && (forall i, j | 0 <= i < j < |requests| :: requests[i].recordedAt <= requests[j].checkedAt)
  }

  function Times(history: seq<Restart>): seq<int> {
    seq(|history|, i requires 0 <= i < |history| => history[i].at)
  }

  // ----- the invariant

  ghost predicate Sorted(times: seq<int>) {
    forall i, j | 0 <= i <= j < |times| :: times[i] <= times[j]
  }

  /** No eleven restarts within one window. */
  ghost predicate Spaced(times: seq<int>) {
    forall i, j | 0 <= i && i + GLOBAL_LIMIT <= j < |times| :: times[j] - times[i] >= GLOBAL_WINDOW_MS
  }

  ghost predicate Apart(history: seq<Restart>) {
    forall i, j | 0 <= i < j < |history| && history[i].container == history[j].container ::
      history[j].at - history[i].at >= CONTAINER_COOLDOWN_MS
  }

  /** The list is the end of the history, and what it lacks is out of the window for good. */
  ghost predicate Pruned(list: seq<int>, times: seq<int>, now: int) {
    var cut := |times| - |list|;
    && 0 <= cut
    && list == times[cut..]
    && forall i | 0 <= i < cut :: now - times[i] >= GLOBAL_WINDOW_MS
  }

  ghost predicate LastIsLatest(last: map<string, int>, history: seq<Restart>) {
    && (forall i | 0 <= i < |history| :: history[i].container in last && history[i].at <= last[history[i].container])
    && (forall c <- last :: exists i | 0 <= i < |history| :: history[i] == Restart(c, last[c]))
  }

  /** The history is in order, up to `now`, and within both limits. */
  ghost predicate Limited(history: seq<Restart>, now: int) {
    var times := Times(history);
    && Sorted(times) && Spaced(times) && Apart(history)
    && forall i | 0 <= i < |times| :: times[i] <= now
  }

  ghost predicate Sound(l: Limiter, now: int) {
    && Limited(l.history, now)
    && Pruned(l.globalRestarts, Times(l.history), now)
    && LastIsLatest(l.lastRestartAt, l.history)
    && |l.globalRestarts| <= GLOBAL_LIMIT * 4
  }

  // ----- counting in sorted lists

  lemma {:induction false} RecentAtLeast(times: seq<int>, now: int, k: nat)
    requires Sorted(times) && k <= |times|
    requires k > 0 ==> now - times[|times| - k] < GLOBAL_WINDOW_MS
    ensures |Recent(times, now)| >= k
    decreases |times|
  {
    if k > 0 {
      RecentAtLeast(times[..|times| - 1], now, k - 1);
    }
  }

  lemma {:induction false} RecentOfOld(times: seq<int>, now: int)
    requires forall i | 0 <= i < |times| :: now - times[i] >= GLOBAL_WINDOW_MS
    ensures Recent(times, now) == []
  {
    if times != [] {
      RecentOfOld(times[..|times| - 1], now);
    }
  }

  lemma {:induction false} RecentConcat(a: seq<int>, b: seq<int>, now: int)
    ensures Recent(a + b, now) == Recent(a, now) + Recent(b, now)
    decreases |b|
  {
    if b == [] {
      assert a + b == a;
    } else {
      assert (a + b)[..|a + b| - 1] == a + b[..|b| - 1];
      RecentConcat(a, b[..|b| - 1], now);
    }
  }

  /** What pruning dropped is not recent, now or later. */
  lemma PrunedDecidesAlike(list: seq<int>, times: seq<int>, earlier: int, now: int)
    requires Pruned(list, times, earlier) && earlier <= now
    ensures Recent(list, now) == Recent(times, now)
  {
    var cut := |times| - |list|;
    assert times == times[..cut] + list;
    RecentConcat(times[..cut], list, now);
    RecentOfOld(times[..cut], now);
  }

  /** On a sorted list, dropping what is before the cutoff leaves an end of the list. */
  lemma {:induction false} NotBeforeIsTail(times: seq<int>, cutoff: int) returns (cut: nat)
    requires Sorted(times)
    ensures cut <= |times| && NotBefore(times, cutoff) == times[cut..]
    ensures forall i | 0 <= i < cut :: times[i] < cutoff
    ensures cut < |times| ==> times[cut] >= cutoff
  {
    if times == [] {
      cut := 0;
    } else {
      var init, t := times[..|times| - 1], times[|times| - 1];
      cut := NotBeforeIsTail(init, cutoff);
      if t >= cutoff {
        assert init[cut..] + [t] == times[cut..];
      } else {
        assert forall i | 0 <= i < |init| :: init[i] == times[i] <= t;
        cut := |times|;
      }
    }
  }

  // ----- one recorded restart

  /** There is room in the history for one more restart: the budget and the container's cooldown allow it. */
  ghost predicate HasRoom(history: seq<Restart>, h: Restart) {
    && (|history| >= GLOBAL_LIMIT ==> h.at - history[|history| - GLOBAL_LIMIT].at >= GLOBAL_WINDOW_MS)
    && forall g <- history | g.container == h.container :: h.at - g.at >= CONTAINER_COOLDOWN_MS
  }

  lemma AcceptedHasRoom(l: Limiter, r: Request, now: int)
    requires Sound(l, now) && now <= r.checkedAt <= r.recordedAt
    requires CheckRateLimit(l, r.container, r.checkedAt).Accepted?
    ensures HasRoom(l.history, Restart(r.container, r.recordedAt))
  {
    var times := Times(l.history);
    PrunedDecidesAlike(l.globalRestarts, times, now, r.checkedAt);
    if |times| >= GLOBAL_LIMIT && r.checkedAt - times[|times| - GLOBAL_LIMIT] < GLOBAL_WINDOW_MS {
      RecentAtLeast(times, r.checkedAt, GLOBAL_LIMIT);
    }
  }

  lemma TimesAfter(history: seq<Restart>, h: Restart)
    ensures Times(history + [h]) == Times(history) + [h.at]
  {
  }

  lemma PrunedAfter(list: seq<int>, times: seq<int>, now: int, at: int)
    requires Pruned(list, times, now) && now <= at
    ensures Pruned(list + [at], times + [at], at)
  {
  }

  /** Since the start of the window, there are at most twice the limit. */
  lemma FewSince(times: seq<int>, from: nat, now: int)
    requires Spaced(times) && from <= |times|
    requires forall i | from <= i < |times| :: now - GLOBAL_WINDOW_MS <= times[i] <= now
    ensures |times| - from <= GLOBAL_LIMIT * 2
  {
    assert from + 2 * GLOBAL_LIMIT < |times| ==> times[from + 2 * GLOBAL_LIMIT] - times[from] >= 2 * GLOBAL_WINDOW_MS
    by {
      assert from + GLOBAL_LIMIT < |times| ==> times[from + GLOBAL_LIMIT] - times[from] >= GLOBAL_WINDOW_MS;
    }
  }

  /** A prune leaves at most twice the limit. */
  lemma PruneLeavesFew(list: seq<int>, times: seq<int>, now: int)
    requires Sorted(times) && Spaced(times) && Pruned(list, times, now)
    requires forall i | 0 <= i < |times| :: times[i] <= now
    ensures var kept := NotBefore(list, now - GLOBAL_WINDOW_MS);
            |kept| <= GLOBAL_LIMIT * 2 && Pruned(kept, times, now)
  {
    var offset := |times| - |list|;
    forall i, j | 0 <= i <= j < |list| ensures list[i] <= list[j] {
      assert list[i] == times[offset + i] && list[j] == times[offset + j];
    }
    var cut := NotBeforeIsTail(list, now - GLOBAL_WINDOW_MS);
    assert list[cut..] == times[offset + cut..];
    FewSince(times, offset + cut, now);
    forall i | 0 <= i < offset + cut ensures now - times[i] >= GLOBAL_WINDOW_MS {
      if i >= offset {
        assert times[i] == list[i - offset];
      }
    }
  }

  lemma SpacedAfter(times: seq<int>, at: int)
    requires Sorted(times) && Spaced(times)
    requires |times| >= GLOBAL_LIMIT ==> at - times[|times| - GLOBAL_LIMIT] >= GLOBAL_WINDOW_MS
    ensures Spaced(times + [at])
  {
    forall i | 0 <= i && i + GLOBAL_LIMIT <= |times| ensures at - times[i] >= GLOBAL_WINDOW_MS {
      assert times[i] <= times[|times| - GLOBAL_LIMIT];
    }
  }

  lemma ApartAfter(history: seq<Restart>, h: Restart)
    requires Apart(history)
    requires forall g <- history | g.container == h.container :: h.at - g.at >= CONTAINER_COOLDOWN_MS
    ensures Apart(history + [h])
  {
  }

  lemma LimitedAfter(history: seq<Restart>, h: Restart, now: int)
    requires Limited(history, now) && now <= h.at && HasRoom(history, h)
    ensures Limited(history + [h], h.at)
  {
    TimesAfter(history, h);
    SpacedAfter(Times(history), h.at);
    ApartAfter(history, h);
  }

  lemma ListAfter(list: seq<int>, history: seq<Restart>, container: string, now: int, at: int)
    requires Pruned(list, Times(history), now) && now <= at && |list| <= GLOBAL_LIMIT * 4
    requires Limited(history + [Restart(container, at)], at)
    ensures |Remember(list, at)| <= GLOBAL_LIMIT * 4
    ensures Pruned(Remember(list, at), Times(history + [Restart(container, at)]), at)
  {
    TimesAfter(history, Restart(container, at));
    PrunedAfter(list, Times(history), now, at);
    PruneLeavesFew(list + [at], Times(history) + [at], at);
  }

  lemma RecordSound(l: Limiter, r: Request, now: int)
    requires Sound(l, now) && now <= r.checkedAt <= r.recordedAt
    requires CheckRateLimit(l, r.container, r.checkedAt).Accepted?
    ensures Sound(RecordRestart(l, r.container, r.recordedAt), r.recordedAt)
  {
    AcceptedHasRoom(l, r, now);
    LimitedAfter(l.history, Restart(r.container, r.recordedAt), now);
    ListAfter(l.globalRestarts, l.history, r.container, now, r.recordedAt);
    LatestAfter(l.lastRestartAt, l.history, r.container, r.recordedAt);
  }

  lemma LatestAfter(last: map<string, int>, history: seq<Restart>, container: string, at: int)
    requires LastIsLatest(last, history)
    requires var times := Times(history); forall i | 0 <= i < |times| :: times[i] <= at
    ensures LastIsLatest(last[container := at], history + [Restart(container, at)])
  {
    var longer, after := history + [Restart(container, at)], last[container := at];
    forall i | 0 <= i < |longer| ensures longer[i].container in after && longer[i].at <= after[longer[i].container] {
      assert i < |history| ==> Times(history)[i] == history[i].at;
    }
    forall c | c in after ensures exists i | 0 <= i < |longer| :: longer[i] == Restart(c, after[c]) {
      if c == container {
        assert longer[|history|] == Restart(c, at);
      } else {
        var i :| 0 <= i < |history| && history[i] == Restart(c, last[c]);
        assert longer[i] == history[i];
      }
    }
  }

  lemma SoundLater(l: Limiter, now: int, later: int)
    requires Sound(l, now) && now <= later
    ensures Sound(l, later)
  {
  }

  lemma {:induction false} RunSound(guarded: set<string>, requests: seq<Request>, now: int)
    requires Clocked(requests)
    requires requests != [] ==> requests[|requests| - 1].recordedAt <= now
    ensures Sound(Run(guarded, requests), now)
    decreases |requests|
  {
    if requests != [] {
      var init, r := requests[..|requests| - 1], requests[|requests| - 1];
      RunSound(guarded, init, r.checkedAt);
      if Decide(guarded, Run(guarded, init), r).Accepted? {
        RecordSound(Run(guarded, init), r, r.checkedAt);
        SoundLater(Run(guarded, requests), r.recordedAt, now);
      } else {
        SoundLater(Run(guarded, init), r.checkedAt, now);
      }
    }
  }

  // ----- main results

  /** What is recorded is what is granted, and the answer to a request depends on the requests before it. */
  lemma {:induction false} GrantsAreRecorded(guarded: set<string>, requests: seq<Request>)
    ensures Run(guarded, requests).history == AllGranted(guarded, requests)
    decreases |requests|
  {
    if requests != [] {
      var init := requests[..|requests| - 1];
      GrantsAreRecorded(guarded, init);
      assert Verdicts(guarded, requests)[..|init|] == Verdicts(guarded, init);
    }
  }

  /** How many of the times fall in `[from, to)`. */
  function CountIn(times: seq<int>, from: int, to: int): nat {
    if times == [] then 0
    else
      var t := times[|times| - 1];
      CountIn(times[..|times| - 1], from, to) + if from <= t < to then 1 else 0
  }

  lemma {:induction false} SpacedCount(times: seq<int>, from: int, to: int)
    requires Sorted(times) && Spaced(times) && to <= from + GLOBAL_WINDOW_MS
    ensures CountIn(times, from, to) <= GLOBAL_LIMIT
    decreases |times|
  {
    if times != [] {
      var init, t := times[..|times| - 1], times[|times| - 1];
      if from <= t < to && |times| > GLOBAL_LIMIT {
        CountOfTail(times, |times| - GLOBAL_LIMIT, from, to);
      } else if from <= t < to {
        CountAtMost(times, from, to);
      } else {
        SpacedCount(init, from, to);
      }
    }
  }

  lemma {:induction false} CountAtMost(times: seq<int>, from: int, to: int)
    ensures CountIn(times, from, to) <= |times|
  {
    if times != [] {
      CountAtMost(times[..|times| - 1], from, to);
    }
  }

  lemma {:induction false} CountOfTail(times: seq<int>, cut: nat, from: int, to: int)
    requires cut <= |times|
    requires forall i | 0 <= i < cut :: times[i] < from
    ensures CountIn(times, from, to) <= |times| - cut
    decreases |times|
  {
    if times != [] {
      if cut < |times| {
        CountOfTail(times[..|times| - 1], cut, from, to);
      } else {
        CountOfTail(times[..|times| - 1], cut - 1, from, to);
      }
    }
  }

  /**
   In every run of concurrent requests, any half-open five-minute window holds at most ten
   granted restarts, two of one container are at least thirty seconds apart, and the list
   never outgrows forty entries.
   */
  lemma RestartsAreLimited(guarded: set<string>, requests: seq<Request>, from: int)
    requires Clocked(requests)
    ensures var granted := AllGranted(guarded, requests);
            && CountIn(Times(granted), from, from + GLOBAL_WINDOW_MS) <= GLOBAL_LIMIT
            && Apart(granted)
            && |Run(guarded, requests).globalRestarts| <= 4 * GLOBAL_LIMIT
  {
    GrantsAreRecorded(guarded, requests);
    RunSound(guarded, requests, if requests == [] then 0 else requests[|requests| - 1].recordedAt);
    SpacedCount(Times(Run(guarded, requests).history), from, from + GLOBAL_WINDOW_MS);
  }

  /** Only managed containers outside the guarded projects are ever restarted, each at a request's own time. */
  lemma {:induction false} OnlyEligibleAreRestarted(guarded: set<string>, requests: seq<Request>)
    ensures forall h <- AllGranted(guarded, requests) ::
              exists r <- requests ::
                r.container == h.container && r.recordedAt == h.at && r.project.Some? && r.project.value !in guarded
    decreases |requests|
  {
    if requests != [] {
      var init, last := requests[..|requests| - 1], requests[|requests| - 1];
      OnlyEligibleAreRestarted(guarded, init);
      assert Verdicts(guarded, requests)[..|init|] == Verdicts(guarded, init);
      forall h <- AllGranted(guarded, requests)
        ensures exists r <- requests ::
                  r.container == h.container && r.recordedAt == h.at && r.project.Some? && r.project.value !in guarded
      {
        if h in AllGranted(guarded, init) {
          var r :| r in init && r.container == h.container && r.recordedAt == h.at
                   && r.project.Some? && r.project.value !in guarded;
          assert r in requests;
        } else {
          assert last in requests;
        }
      }
    }
  }

  /** Some restart of the container is less than a cooldown old. */
  ghost predicate CoolingDown(history: seq<Restart>, container: string, now: int) {
    exists h <- history :: h.container == container && now - h.at < CONTAINER_COOLDOWN_MS
  }

  lemma {:induction false} RecentAreInWindow(times: seq<int>, now: int)
    requires forall i | 0 <= i < |times| :: times[i] <= now
    ensures |Recent(times, now)| == CountIn(times, now - GLOBAL_WINDOW_MS + 1, now + 1)
  {
    if times != [] {
      RecentAreInWindow(times[..|times| - 1], now);
    }
  }

  /** Ten restarts or more in the five minutes that end at `now`, one exactly five minutes ago excluded. */
  predicate BudgetUsedUp(history: seq<Restart>, now: int) {
    CountIn(Times(history), now - GLOBAL_WINDOW_MS + 1, now + 1) >= GLOBAL_LIMIT
  }

  /** The pruned list and the map of last restarts decide exactly as all restarts granted so far say. */
  lemma DecidesLikeFullHistory(guarded: set<string>, requests: seq<Request>, container: string, now: int)
    requires Clocked(requests)
    requires requests != [] ==> requests[|requests| - 1].recordedAt <= now
    ensures var granted := AllGranted(guarded, requests);
            var verdict := CheckRateLimit(Run(guarded, requests), container, now);
            && (verdict.TooSoon? <==> CoolingDown(granted, container, now))
            && (verdict.BudgetSpent? <==> !CoolingDown(granted, container, now) && BudgetUsedUp(granted, now))
            && (verdict.Accepted? <==> !CoolingDown(granted, container, now) && !BudgetUsedUp(granted, now))
  {
    RunSound(guarded, requests, now);
    GrantsAreRecorded(guarded, requests);
    var l := Run(guarded, requests);
    PrunedDecidesAlike(l.globalRestarts, Times(l.history), now, now);
    RecentAreInWindow(Times(l.history), now);
    CooldownIsTracked(l, container, now);
  }

  /** Waiting this many seconds ends the cooldown, one second less does not. */
  ghost predicate IsWait(granted: seq<Restart>, container: string, now: int, wait: int) {
    && !CoolingDown(granted, container, now + 1000 * wait)
    && CoolingDown(granted, container, now + 1000 * (wait - 1))
  }

  /** The answer that a request deserves, given the restarts granted before it. */
  ghost predicate IsAnswer(guarded: set<string>, granted: seq<Restart>, r: Request, verdict: Verdict) {
    match verdict
    case Unknown => r.project == None
    case Protected => r.project.Some? && r.project.value in guarded
    case TooSoon(wait) =>
      && r.project.Some? && r.project.value !in guarded
      && CoolingDown(granted, r.container, r.checkedAt) && IsWait(granted, r.container, r.checkedAt, wait)
    case BudgetSpent =>
      && r.project.Some? && r.project.value !in guarded
      && !CoolingDown(granted, r.container, r.checkedAt) && BudgetUsedUp(granted, r.checkedAt)
    case Accepted =>
      && r.project.Some? && r.project.value !in guarded
      && !CoolingDown(granted, r.container, r.checkedAt) && !BudgetUsedUp(granted, r.checkedAt)
  }

  lemma {:induction false} VerdictAt(guarded: set<string>, requests: seq<Request>, i: nat)
    requires i < |requests|
    ensures Verdicts(guarded, requests)[i] == Decide(guarded, Run(guarded, requests[..i]), requests[i])
    ensures Verdicts(guarded, requests)[..i] == Verdicts(guarded, requests[..i])
    decreases |requests|
  {
    var init := requests[..|requests| - 1];
    if i < |init| {
      VerdictAt(guarded, init, i);
      assert init[..i] == requests[..i];
      assert Verdicts(guarded, requests)[..i] == Verdicts(guarded, init)[..i];
    } else {
      assert requests[..i] == init;
    }
  }

  lemma WaitEndsCooldown(l: Limiter, container: string, now: int)
    requires LastIsLatest(l.lastRestartAt, l.history) && forall h <- l.history :: h.at <= now
    requires CheckRateLimit(l, container, now).TooSoon?
    ensures IsWait(l.history, container, now, CheckRateLimit(l, container, now).waitSec)
  {
    var wait := CheckRateLimit(l, container, now).waitSec;
    var i :| 0 <= i < |l.history| && l.history[i] == Restart(container, l.lastRestartAt[container]);
    assert l.history[i] in l.history;
    WaitIsExact(l, container, now);
    CooldownIsTracked(l, container, now + 1000 * wait);
    CooldownIsTracked(l, container, now + 1000 * (wait - 1));
  }

  lemma HistoryIsPast(l: Limiter, now: int)
    requires Sound(l, now)
    ensures forall h <- l.history :: h.at <= now
  {
    forall h | h in l.history ensures h.at <= now {
      var i :| 0 <= i < |l.history| && l.history[i] == h;
      assert Times(l.history)[i] == h.at;
    }
  }

  /**
   Every request is answered as it deserves: a managed container outside the guarded projects
   is restarted iff neither limit holds over the restarts granted before, and the wait
   announced is the least that ends the cooldown.
   */
  lemma AnsweredAsDeserved(guarded: set<string>, requests: seq<Request>, i: nat)
    requires Clocked(requests) && i < |requests|
    ensures var verdicts := Verdicts(guarded, requests);
            IsAnswer(guarded, Granted(requests[..i], verdicts[..i]), requests[i], verdicts[i])
  {
    var before, r := requests[..i], requests[i];
    var l := Run(guarded, before);
    VerdictAt(guarded, requests, i);
    GrantsAreRecorded(guarded, before);
    DecidesLikeFullHistory(guarded, before, r.container, r.checkedAt);
    if Decide(guarded, l, r).TooSoon? {
      RunSound(guarded, before, r.checkedAt);
      HistoryIsPast(l, r.checkedAt);
      WaitEndsCooldown(l, r.container, r.checkedAt);
    }
  }

  lemma CooldownIsTracked(l: Limiter, container: string, now: int)
    requires LastIsLatest(l.lastRestartAt, l.history)
    ensures CheckRateLimit(l, container, now).TooSoon? <==> CoolingDown(l.history, container, now)
  {
    if container in l.lastRestartAt {
      var i :| 0 <= i < |l.history| && l.history[i] == Restart(container, l.lastRestartAt[container]);
      assert l.history[i] in l.history;
    }
  }

  /** Waiting the announced seconds ends the cooldown, waiting one second less does not. */
  lemma WaitIsExact(l: Limiter, container: string, now: int)
    requires CheckRateLimit(l, container, now).TooSoon?
    requires l.lastRestartAt[container] <= now
    ensures var wait := CheckRateLimit(l, container, now).waitSec;
            && 1 <= wait <= 30
            && !CheckRateLimit(l, container, now + 1000 * wait).TooSoon?
            && CheckRateLimit(l, container, now + 1000 * (wait - 1)).TooSoon?
  {
  }
}

/** The service object. */
module ActionsServices {
  import opened RestartLimiter

  class ActionsService {
    const guarded: set<string>

    var lastRestartAt: map<string, int>
    var globalRestarts: seq<int>
    ghost var history: seq<Restart>

    ghost function Limits(): Limiter
      reads this
    {
      Limiter(lastRestartAt, globalRestarts, history)
    }

    constructor (guarded: set<string>)
      ensures this.guarded == guarded && Limits() == FRESH_LIMITER
    {
      this.guarded := guarded;
      lastRestartAt, globalRestarts, history := map[], [], [];
    }

    method CheckRateLimit(container: string, now: int) returns (verdict: Verdict)
      ensures verdict == RestartLimiter.CheckRateLimit(Limits(), container, now)
    {
      if container in lastRestartAt {
        var last := lastRestartAt[container];
        if now - last < CONTAINER_COOLDOWN_MS {
          return TooSoon((CONTAINER_COOLDOWN_MS - (now - last) + 999) / 1000);
        }
      }
      var recent := Recent(globalRestarts, now);
      verdict := if |recent| >= GLOBAL_LIMIT then BudgetSpent else Accepted;
    }

    method RecordRestart(container: string, now: int)
      modifies this
      ensures Limits() == RestartLimiter.RecordRestart(old(Limits()), container, now)
    {
      lastRestartAt := lastRestartAt[container := now];
      globalRestarts := globalRestarts + [now];
      history := history + [Restart(container, now)];
      if |globalRestarts| > GLOBAL_LIMIT * 4 {
        var cutoff := now - GLOBAL_WINDOW_MS;
        globalRestarts := NotBefore(globalRestarts, cutoff);
      }
    }

    /** The segment of a request from the lookup's answer to the call on Docker. */
    method RestartContainer(r: Request, ghost now: int) returns (verdict: Verdict)
      requires Sound(Limits(), now) && now <= r.checkedAt <= r.recordedAt
      modifies this
      ensures verdict == Decide(guarded, old(Limits()), r)
      ensures Limits() == Attempt(guarded, old(Limits()), r)
      ensures Sound(Limits(), r.recordedAt)
    {
      SoundLater(Limits(), now, r.recordedAt);
      if r.project.None? {
        return Unknown;
      }
      if r.project.value in guarded {
        return Protected;
      }
      verdict := CheckRateLimit(r.container, r.checkedAt);
      if verdict.Accepted? {
        RecordSound(Limits(), r, now);
        RecordRestart(r.container, r.recordedAt);
      }
    }
  }
}
