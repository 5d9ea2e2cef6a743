/**
 The poller that turns a paged feed of alerts into a stream of new ones. The feed only
 grows; a page is its newest twenty items, newest first. `feed` is everything the feed
 will ever hold, in order; a response that saw its first `n` items is `Some(n)`, a failed
 poll is `None`.
 */
module PollRuns {
  import opened Basics

  const POLL_LIMIT := 20

  datatype Item = Item(id: string, kind: string)

  datatype Poller = Poller(lastSeenId: Option<string>, initialized: bool, published: seq<Item>)

  const NOT_STARTED := Poller(None, false, [])

  function Reversed(items: seq<Item>): (r: seq<Item>)
    ensures |r| == |items|
    ensures forall k | 0 <= k < |items| :: r[k] == items[|items| - 1 - k]
  {
    seq(|items|, k requires 0 <= k < |items| => items[|items| - 1 - k])
  }

  function Page(feed: seq<Item>, n: nat): seq<Item>
    requires n <= |feed|
  {
    Reversed(Last(feed[..n], POLL_LIMIT))
  }

  /** Position of the item seen last, or the length. */
  function Boundary(items: seq<Item>, lastSeenId: Option<string>): (b: nat)
    ensures b <= |items|
    ensures b < |items| ==> Some(items[b].id) == lastSeenId
    ensures forall k | 0 <= k < b :: Some(items[k].id) != lastSeenId
  {
    if items == [] || Some(items[0].id) == lastSeenId then 0 else 1 + Boundary(items[1..], lastSeenId)
  }

  /** One poll; `items` is the page, if there was one. */
  function Poll(p: Poller, items: Option<seq<Item>>): Poller {
    if items.None? then p
    else if !p.initialized then
      p.(lastSeenId := if items.value == [] then None else Some(items.value[0].id), initialized := true)
    else
      var boundary := Boundary(items.value, p.lastSeenId);
      if boundary == 0 then p
      else
        p.(lastSeenId := Some(items.value[0].id), published := p.published + Reversed(items.value[..boundary]))
  }

  predicate Responses(feed: seq<Item>, polls: seq<Option<nat>>) {
    forall i | 0 <= i < |polls| && polls[i].Some? :: polls[i].value <= |feed|
  }

  predicate DistinctIds(feed: seq<Item>) {
    forall i, j | 0 <= i < j < |feed| :: feed[i].id != feed[j].id
  }

  function Run(feed: seq<Item>, polls: seq<Option<nat>>): Poller
    requires Responses(feed, polls)
    decreases |polls|
  {
    if polls == [] then NOT_STARTED
    else
      var last := polls[|polls| - 1];
      Poll(Run(feed, polls[..|polls| - 1]), if last.None? then None else Some(Page(feed, last.value)))
  }

  // ----- the specification: positions in the feed

  /** Where the poller stands, in items of the feed, after a response that saw `n`; an empty one does not move it. */
  function Moved(stand: Option<nat>, n: nat): Option<nat> {
    if stand.Some? && n == 0 then stand else Some(n)
  }

  function Stand(polls: seq<Option<nat>>): Option<nat> {
    if polls == [] then None
    else
      var init, now := polls[..|polls| - 1], polls[|polls| - 1];
      if now.Some? then Moved(Stand(init), now.value) else Stand(init)
  }

  /** What the first response saw. */
  function Baseline(polls: seq<Option<nat>>): Option<nat> {
    if polls == [] then None
    else
      var init := polls[..|polls| - 1];
      if Baseline(init).Some? then Baseline(init) else polls[|polls| - 1]
  }

  /** How many items a response publishes: the new ones, or a whole page when it is older than the poller's stand. */
  function News(stand: Option<nat>, n: nat): (g: nat)
    ensures g <= n
  {
    if stand.None? then 0
    else if n < stand.value then Min(POLL_LIMIT, n)
    else Min(POLL_LIMIT, n - stand.value)
  }

  function Range(from: nat, to: nat): seq<nat>
    requires from <= to
  {
    seq(to - from, k => from + k)
  }

  /** The positions published after one more response. */
  function NextPositions(stand: Option<nat>, positions: seq<nat>, n: nat): seq<nat> {
    positions + Range(n - News(stand, n), n)
  }

  /** The positions of the items the polls publish: those that end where each response looked. */
  function Positions(polls: seq<Option<nat>>): seq<nat> {
    if polls == [] then []
    else
      var init, now := polls[..|polls| - 1], polls[|polls| - 1];
      if now.Some? then NextPositions(Stand(init), Positions(init), now.value) else Positions(init)
  }

  predicate Below(positions: seq<nat>, n: nat) {
    forall k | 0 <= k < |positions| :: positions[k] < n
  }

  function At(feed: seq<Item>, positions: seq<nat>): seq<Item>
    requires Below(positions, |feed|)
  {
    seq(|positions|, k requires 0 <= k < |positions| => feed[positions[k]])
  }

  ghost predicate StandsAt(feed: seq<Item>, p: Poller, stand: Option<nat>) {
    match stand
    case None => p == NOT_STARTED
    case Some(m) =>
      && p.initialized
      && m <= |feed|
      && p.lastSeenId == (if m == 0 then None else Some(feed[m - 1].id))
  }

  /** In a page, the item seen last is as many places down as there are new items; it is missing in an older page. */
  lemma BoundaryInPage(feed: seq<Item>, m: nat, n: nat)
    requires DistinctIds(feed) && m <= |feed| && n <= |feed|
    ensures Boundary(Page(feed, n), if m == 0 then None else Some(feed[m - 1].id)) == News(Some(m), n)
  {
    var page := Page(feed, n);
    var lastSeenId := if m == 0 then None else Some(feed[m - 1].id);
    var b := Boundary(page, lastSeenId);
    assert forall k | 0 <= k < |page| :: page[k] == feed[n - 1 - k];
    assert 0 < m <= n && n - m < |page| ==> Some(page[n - m].id) == lastSeenId;
    if b < |page| {
      assert feed[n - 1 - b].id == feed[m - 1].id;
    }
  }

  lemma FreshInOrder(feed: seq<Item>, n: nat, g: nat)
    requires n <= |feed| && g <= Min(POLL_LIMIT, n)
    ensures Reversed(Page(feed, n)[..g]) == feed[n - g..n]
  {
  }

  lemma PageHead(feed: seq<Item>, n: nat)
    requires n <= |feed|
    ensures Page(feed, n) == [] <==> n == 0
    ensures 0 < n ==> Page(feed, n)[0] == feed[n - 1]
  {
  }

  lemma PollFromBoundary(feed: seq<Item>, p: Poller, m: nat, n: nat, g: nat)
    requires n <= |feed| && StandsAt(feed, p, Some(m))
    requires g == News(Some(m), n) == Boundary(Page(feed, n), p.lastSeenId)
    ensures var after := Poll(p, Some(Page(feed, n)));
            && StandsAt(feed, after, Moved(Some(m), n))
            && after.published == p.published + feed[n - g..n]
  {
    FreshInOrder(feed, n, g);
    PageHead(feed, n);
    assert g == 0 ==> feed[n - g..n] == [];
  }

  /**
   A response publishes the last items of what it saw, oldest first: min(20, g) of them
   when it saw g new ones, and min(20, n) when it is older than where the poller stands,
   to which the poller then goes back.
   */
  lemma PollPublishesNews(feed: seq<Item>, p: Poller, m: nat, n: nat)
    requires DistinctIds(feed) && n <= |feed|
    requires StandsAt(feed, p, Some(m))
    ensures var after := Poll(p, Some(Page(feed, n)));
            && StandsAt(feed, after, Moved(Some(m), n))
            && after.published == p.published + feed[n - News(Some(m), n)..n]
  {
    BoundaryInPage(feed, m, n);
    PollFromBoundary(feed, p, m, n, News(Some(m), n));
  }

  lemma AtConcat(feed: seq<Item>, a: seq<nat>, from: nat, to: nat)
    requires from <= to <= |feed| && Below(a, |feed|)
    ensures Below(a + Range(from, to), |feed|)
    ensures At(feed, a + Range(from, to)) == At(feed, a) + feed[from..to]
  {
  }

  /** What was published are the feed's items at these positions. */
  ghost predicate PublishedAt(feed: seq<Item>, p: Poller, positions: seq<nat>) {
    Below(positions, |feed|) && p.published == At(feed, positions)
  }

  lemma {:induction false} FirstResponse(feed: seq<Item>, n: nat)
    requires n <= |feed|
    ensures var after := Poll(NOT_STARTED, Some(Page(feed, n)));
            StandsAt(feed, after, Some(n)) && after.published == []
  {
    PageHead(feed, n);
  }

  /** A poller that stands somewhere with these positions published, after one more response. */
  lemma {:induction false} PollFollows(feed: seq<Item>, p: Poller, stand: Option<nat>, positions: seq<nat>, n: nat)
    requires DistinctIds(feed) && n <= |feed|
    requires StandsAt(feed, p, stand) && PublishedAt(feed, p, positions)
    ensures var after := Poll(p, Some(Page(feed, n)));
            StandsAt(feed, after, Moved(stand, n)) && PublishedAt(feed, after, NextPositions(stand, positions, n))
  {
    AtConcat(feed, positions, n - News(stand, n), n);
    if stand.Some? {
      PollPublishesNews(feed, p, stand.value, n);
    } else {
      FirstResponse(feed, n);
      assert feed[n..n] == [];
    }
  }

  /**
   Over any sequence of failed and successful polls of a growing feed, whatever the order
   in which responses are handled, the items published are those at these positions.
   */
  lemma {:induction false} PublishesPositions(feed: seq<Item>, polls: seq<Option<nat>>)
    requires DistinctIds(feed) && Responses(feed, polls)
    ensures StandsAt(feed, Run(feed, polls), Stand(polls))
    ensures PublishedAt(feed, Run(feed, polls), Positions(polls))
    decreases |polls|
  {
    if polls != [] {
      var init, now := polls[..|polls| - 1], polls[|polls| - 1];
      PublishesPositions(feed, init);
      if now.Some? {
        PollFollows(feed, Run(feed, init), Stand(init), Positions(init), now.value);
      }
    }
  }

  // ----- once and in order

  /** No non-empty response is older than where the poller stands. */
  predicate NeverStale(polls: seq<Option<nat>>) {
    polls == [] ||
    var init, now := polls[..|polls| - 1], polls[|polls| - 1];
    NeverStale(init) && (now.Some? && Stand(init).Some? ==> now.value == 0 || Stand(init).value <= now.value)
  }

  /** Responses are handled in the order in which they looked at the feed. */
  predicate InOrder(polls: seq<Option<nat>>) {
    forall i, j | 0 <= i < j < |polls| && polls[i].Some? && polls[j].Some? :: polls[i].value <= polls[j].value
  }

  ghost predicate Increasing(positions: seq<nat>) {
    forall i, j | 0 <= i < j < |positions| :: positions[i] < positions[j]
  }

  /** Every item at most once, in the feed's order, and none from before the first response. */
  ghost predicate OnceInOrder(positions: seq<nat>, baseline: Option<nat>) {
    && Increasing(positions)
    && forall k | 0 <= k < |positions| :: baseline.Some? && baseline.value <= positions[k]
  }

  /** The latest position published is right before the stand, or nothing was published since the baseline. */
  ghost predicate UpToStand(positions: seq<nat>, baseline: Option<nat>, stand: Option<nat>) {
    match stand
    case None => positions == [] && baseline == None
    case Some(m) =>
      && baseline.Some? && baseline.value <= m
      && (if positions == [] then m == baseline.value else positions[|positions| - 1] == m - 1)
  }

  lemma FreshResponse(positions: seq<nat>, baseline: Option<nat>, m: nat, n: nat)
    requires OnceInOrder(positions, baseline) && UpToStand(positions, baseline, Some(m))
    requires n == 0 || m <= n
    ensures OnceInOrder(NextPositions(Some(m), positions, n), baseline)
    ensures UpToStand(NextPositions(Some(m), positions, n), baseline, Moved(Some(m), n))
  {
    var more := NextPositions(Some(m), positions, n);
    forall i | 0 <= i < |positions| ensures positions[i] < m {
      assert positions[i] <= positions[|positions| - 1];
    }
    assert more[..|positions|] == positions;
  }

  lemma StaleResponse(positions: seq<nat>, baseline: Option<nat>, m: nat, n: nat)
    requires UpToStand(positions, baseline, Some(m))
    requires 0 < n < m
    ensures !OnceInOrder(NextPositions(Some(m), positions, n), baseline)
  {
    var more := NextPositions(Some(m), positions, n);
    assert more[|more| - 1] == n - 1;
    if positions != [] {
      assert more[|positions| - 1] == m - 1;
    }
  }

  lemma PrefixOnce(positions: seq<nat>, more: seq<nat>, baseline: Option<nat>)
    requires OnceInOrder(positions + more, baseline)
    ensures OnceInOrder(positions, baseline)
  {
    var all := positions + more;
    assert forall k | 0 <= k < |positions| :: all[k] == positions[k];
  }

  /**
   Every item is published at most once, in the feed's order and none from before the
   first response, exactly when no non-empty response is older than the poller's stand.
   */
  lemma {:induction false} OnceInOrderIff(polls: seq<Option<nat>>)
    ensures OnceInOrder(Positions(polls), Baseline(polls)) <==> NeverStale(polls)
    ensures NeverStale(polls) ==> UpToStand(Positions(polls), Baseline(polls), Stand(polls))
    ensures Baseline(polls) == None <==> Stand(polls) == None
    ensures Baseline(polls) == None ==> Positions(polls) == []
    decreases |polls|
  {
    if polls != [] {
      var init, now := polls[..|polls| - 1], polls[|polls| - 1];
      OnceInOrderIff(init);
      if now.Some? {
        OnceAfter(Positions(init), Baseline(init), Stand(init), NeverStale(init), now.value);
      }
    }
  }

  lemma OnceAfter(positions: seq<nat>, baseline: Option<nat>, stand: Option<nat>, once: bool, n: nat)
    requires OnceInOrder(positions, baseline) <==> once
    requires once ==> UpToStand(positions, baseline, stand)
    requires baseline == None ==> positions == [] && stand == None
    requires stand == None ==> baseline == None
    ensures var first := if baseline.Some? then baseline else Some(n);
            var still := once && (stand.Some? ==> n == 0 || stand.value <= n);
            && (OnceInOrder(NextPositions(stand, positions, n), first) <==> still)
            && (still ==> UpToStand(NextPositions(stand, positions, n), first, Moved(stand, n)))
  {
    var next := NextPositions(stand, positions, n);
    if stand.None? {
      assert next == [];
    } else if !once {
      if OnceInOrder(next, baseline) {
        PrefixOnce(positions, Range(n - News(stand, n), n), baseline);
      }
    } else if n == 0 || stand.value <= n {
      FreshResponse(positions, baseline, stand.value, n);
    } else {
      StaleResponse(positions, baseline, stand.value, n);
    }
  }

  /** So two published items are two items of the feed, the earlier one first. */
  lemma NoItemTwice(feed: seq<Item>, polls: seq<Option<nat>>, i: nat, j: nat)
    requires DistinctIds(feed) && Responses(feed, polls) && NeverStale(polls)
    requires i < j < |Run(feed, polls).published|
    ensures var published := Run(feed, polls).published;
            && published[i].id != published[j].id
            && exists p, q | 0 <= p < q < |feed| :: published[i] == feed[p] && published[j] == feed[q]
  {
    PublishesPositions(feed, polls);
    OnceInOrderIff(polls);
    var positions := Positions(polls);
    assert Run(feed, polls).published[i] == feed[positions[i]];
    assert Run(feed, polls).published[j] == feed[positions[j]];
  }

  lemma {:induction false} StandBounded(polls: seq<Option<nat>>, n: nat)
    requires forall i | 0 <= i < |polls| && polls[i].Some? :: polls[i].value <= n
    ensures Stand(polls).Some? ==> Stand(polls).value <= n
    decreases |polls|
  {
    if polls != [] {
      StandBounded(polls[..|polls| - 1], n);
    }
  }

  /** Responses handled in request order are never stale. */
  lemma {:induction false} InOrderIsNeverStale(polls: seq<Option<nat>>)
    requires InOrder(polls)
    ensures NeverStale(polls)
    decreases |polls|
  {
    if polls != [] {
      var init, now := polls[..|polls| - 1], polls[|polls| - 1];
      InOrderIsNeverStale(init);
      if now.Some? {
        StandBounded(init, now.value);
      }
    }
  }

  // ----- nothing missed

  /** No response is more than a page ahead of the poller's stand. */
  predicate GapsFit(polls: seq<Option<nat>>) {
    polls == [] ||
    var init, now := polls[..|polls| - 1], polls[|polls| - 1];
    GapsFit(init) && (now.Some? && Stand(init).Some? ==> now.value - Stand(init).value <= POLL_LIMIT)
  }

  /** Without stale responses, the positions fill the feed from the baseline to the stand iff every gap fits. */
  lemma {:induction false} PositionsFill(polls: seq<Option<nat>>)
    requires NeverStale(polls) && Stand(polls).Some?
    ensures Baseline(polls).Some? && Baseline(polls).value <= Stand(polls).value
    ensures var all := Stand(polls).value - Baseline(polls).value;
            && |Positions(polls)| <= all
            && (GapsFit(polls) <==> |Positions(polls)| == all)
            && (GapsFit(polls) ==> Positions(polls) == Range(Baseline(polls).value, Stand(polls).value))
    decreases |polls|
  {
    var init, now := polls[..|polls| - 1], polls[|polls| - 1];
    OnceInOrderIff(init);
    if Stand(init).Some? {
      PositionsFill(init);
    } else {
      NoStandYet(init);
    }
  }

  lemma {:induction false} NoStandYet(polls: seq<Option<nat>>)
    requires Stand(polls).None?
    ensures GapsFit(polls)
    decreases |polls|
  {
    if polls != [] {
      NoStandYet(polls[..|polls| - 1]);
    }
  }

  /** Items of a feed with distinct identifiers tell their positions. */
  lemma PositionsAreKnown(feed: seq<Item>, positions: seq<nat>, from: nat, to: nat)
    requires DistinctIds(feed) && from <= to <= |feed| && Below(positions, |feed|)
    requires At(feed, positions) == feed[from..to]
    ensures positions == Range(from, to)
  {
    assert |positions| == to - from;
    forall k | 0 <= k < |positions| ensures positions[k] == from + k {
      assert At(feed, positions)[k] == feed[positions[k]] == feed[from + k];
    }
  }

  lemma RangeIsOnceInOrder(from: nat, to: nat)
    requires from <= to
    ensures OnceInOrder(Range(from, to), Some(from))
  {
  }

  /** The published items are the whole feed from the first response to where the poller stands. */
  ghost predicate MissesNothing(feed: seq<Item>, polls: seq<Option<nat>>)
    requires Responses(feed, polls)
  {
    && Baseline(polls).Some? && Stand(polls).Some?
    && Baseline(polls).value <= Stand(polls).value <= |feed|
    && Run(feed, polls).published == feed[Baseline(polls).value..Stand(polls).value]
  }

  /** That is so exactly when no response is stale and every gap fits in a page. */
  lemma {:induction false} NothingMissedIff(feed: seq<Item>, polls: seq<Option<nat>>)
    requires DistinctIds(feed) && Responses(feed, polls) && Stand(polls).Some?
    ensures MissesNothing(feed, polls) <==> NeverStale(polls) && GapsFit(polls)
  {
    PublishesPositions(feed, polls);
    OnceInOrderIff(polls);
    StandBounded(polls, |feed|);
    if MissesNothing(feed, polls) {
      PositionsAreKnown(feed, Positions(polls), Baseline(polls).value, Stand(polls).value);
      RangeIsOnceInOrder(Baseline(polls).value, Stand(polls).value);
    }
    if NeverStale(polls) {
      PositionsFill(polls);
      FilledAt(feed, Positions(polls), Baseline(polls).value, Stand(polls).value);
    }
  }

  lemma FilledAt(feed: seq<Item>, positions: seq<nat>, from: nat, to: nat)
    requires from <= to <= |feed| && Below(positions, |feed|)
    ensures positions == Range(from, to) ==> At(feed, positions) == feed[from..to]
    ensures |Range(from, to)| == to - from
  {
  }

  // ----- an old response

  lemma RunOneMore(feed: seq<Item>, polls: seq<Option<nat>>, n: nat)
    requires Responses(feed, polls) && n <= |feed|
    ensures Responses(feed, polls + [Some(n)])
    ensures Run(feed, polls + [Some(n)]) == Poll(Run(feed, polls), Some(Page(feed, n)))
  {
    assert (polls + [Some(n)])[..|polls|] == polls;
  }

  /** Such a response publishes again what was already seen, and makes the next one do so too. */
  lemma OutOfOrderRepeats(a: Item, b: Item)
    requires a.id != b.id
    ensures Run([a, b], [] + [Some(1)] + [Some(2)] + [Some(1)] + [Some(2)]).published == [b, a, b]
  {
    var feed := [a, b];
    RunOneMore(feed, [], 1);
    RunOneMore(feed, [] + [Some(1)], 2);
    RunOneMore(feed, [] + [Some(1)] + [Some(2)], 1);
    RunOneMore(feed, [] + [Some(1)] + [Some(2)] + [Some(1)], 2);
    assert Page(feed, 1) == [a] && Page(feed, 2) == [b, a];
    PollOfTwo(Poller(Some(a.id), true, []), a, b);
    assert Boundary([a], Some(b.id)) == 1;
    assert Poll(Poller(Some(b.id), true, [b]), Some([a])) == Poller(Some(a.id), true, [b, a]);
    PollOfTwo(Poller(Some(a.id), true, [b, a]), a, b);
  }

  lemma PollOfTwo(p: Poller, a: Item, b: Item)
    requires a.id != b.id && p.initialized && p.lastSeenId == Some(a.id)
    ensures Poll(p, Some([b, a])) == Poller(Some(b.id), true, p.published + [b])
  {
    assert Boundary([b, a], Some(a.id)) == 1;
  }
}

/** The service object. */
module AlertsPollers {
  import opened Basics
  import R = PollRuns

  class AlertsPollerService {
    var lastSeenId: Option<string>
    var initialized: bool
    // what went to the gateway
    var published: seq<R.Item>

    ghost function State(): R.Poller
      reads this
    {
      R.Poller(lastSeenId, initialized, published)
    }

    constructor ()
      ensures State() == R.NOT_STARTED
    {
      lastSeenId, initialized, published := None, false, [];
    }

    /** poll from the feed's answer on; `response` is None when the request failed. */
    method Poll(response: Option<seq<R.Item>>)
      modifies this
      ensures State() == R.Poll(old(State()), response)
    {
      if response.None? {
        return;
      }
      var items := response.value;
      if !initialized {
        lastSeenId := if |items| > 0 then Some(items[0].id) else None;
        initialized := true;
        return;
      }
      if |items| == 0 {
        return;
      }
      var boundary := FindIndex(items, lastSeenId);
      var news := items[..boundary];
      if |news| == 0 {
        return;
      }
      lastSeenId := Some(items[0].id);
      var chronological := R.Reversed(news);
      for i := 0 to |chronological|
        invariant published == old(published) + chronological[..i]
        invariant lastSeenId == Some(items[0].id) && initialized
      {
        published := published + [chronological[i]];
      }
      assert chronological[..|chronological|] == chronological;
    }

    method FindIndex(items: seq<R.Item>, id: Option<string>) returns (boundary: nat)
      ensures boundary == R.Boundary(items, id)
    {
      boundary := 0;
      while boundary < |items| && Some(items[boundary].id) != id
        invariant boundary <= |items|
        invariant R.Boundary(items, id) == boundary + R.Boundary(items[boundary..], id)
      {
        boundary := boundary + 1;
      }
    }
  }
}
