/**
 Alerts about containers that die or restart: a die waits three seconds for the restart
 or redeploy that explains it, and each kind of alert about a container is sent at most
 once a minute, decided when the settings lookup answers.

 A run is a sequence of uninterrupted segments: an update from Docker, a timer firing, a
 lookup answering, the module's shutdown. Each carries the clock's reading, in
 milliseconds; an answer is checked at one reading and recorded at another, `took` later.
 */
module AlertRuns {
  const COOLDOWN_MS := 60_000
  const DIE_RESTART_COALESCE_MS := 3_000

  datatype Lifecycle = Start | Die | Stop | Kill | Restart | Pause | Unpause | HealthStatus

  datatype Alert = Down | Restarted

  /** The answer of the settings lookup; a failed one alerts nobody. */
  datatype Answer = Enabled | Disabled | Failed

  datatype Event =
    | Update(action: Lifecycle, name: string, at: int)
    | TimerFires(name: string, at: int)
    | Answered(lookup: nat, answer: Answer, at: int, took: nat)
    | Destroyed(at: int)

  /** A timer set by the die at position `die` of the run. */
  datatype Timer = Timer(die: nat, at: int)

  /** A call of maybeAlert waiting for its setting, made by the event at position `origin`. */
  datatype Lookup = Lookup(alert: Alert, name: string, origin: nat)

  datatype Notice = Notice(alert: Alert, name: string, origin: nat, at: int)

  /** The timer of the die at position `die` fired at position `fire`. */
  datatype Firing = Firing(die: nat, fire: nat)

  datatype State = State(
    // the service's fields
    lastAlertAt: map<string, int>,
    pendingDieAlerts: map<string, Timer>,
    seenContainers: set<string>,
    // what is under way and what has happened
    lookups: seq<Lookup>,
    firings: seq<Firing>,
    sent: seq<Notice>
  )

  const NOTHING_YET := State(map[], map[], {}, [], [], [])

  function CooldownKey(alert: Alert, name: string): string {
    match alert
    case Down => "die:" + name
    case Restarted => "restart:" + name
  }

  // ----- the code's segments; `n` is the position of the event in the run

  function CancelPendingDieAlert(s: State, name: string): State {
    s.(pendingDieAlerts := s.pendingDieAlerts - {name})
  }

  function MaybeAlert(s: State, alert: Alert, name: string, n: nat): State {
    s.(lookups := s.lookups + [Lookup(alert, name, n)])
  }

  function IsRedeployStart(s: State, e: Event): bool
    requires e.Update?
  {
    e.action.Start? && e.name in s.seenContainers
  }

  function NoteStart(s: State, e: Event): State
    requires e.Update?
  {
    if e.action.Start? then s.(seenContainers := s.seenContainers + {e.name}) else s
  }

  function HandleUpdate(s: State, e: Event, n: nat): State
    requires e.Update?
  {
    if e.action.Die? then
      s.(pendingDieAlerts := s.pendingDieAlerts[e.name := Timer(n, e.at)])
    else
      var noted := NoteStart(s, e);
      if e.action.Restart? || IsRedeployStart(s, e) then
        MaybeAlert(CancelPendingDieAlert(noted, e.name), Restarted, e.name, n)
      else noted
  }

  /** A timer fires when it is due; one that was cleared never does. */
  function FireTimer(s: State, e: Event, n: nat): State
    requires e.TimerFires?
  {
    if e.name in s.pendingDieAlerts && e.at >= s.pendingDieAlerts[e.name].at + DIE_RESTART_COALESCE_MS then
      var firing := Firing(s.pendingDieAlerts[e.name].die, n);
      MaybeAlert(CancelPendingDieAlert(s, e.name), Down, e.name, n).(firings := s.firings + [firing])
    else s
  }

  function IsOnCooldown(s: State, alert: Alert, name: string, now: int): bool {
    var key := CooldownKey(alert, name);
    key in s.lastAlertAt && now - s.lastAlertAt[key] < COOLDOWN_MS
  }

  function Without(lookups: seq<Lookup>, k: nat): seq<Lookup>
    requires k < |lookups|
  {
    lookups[..k] + lookups[k + 1..]
  }

  function NoticeOf(l: Lookup, at: int): Notice {
    Notice(l.alert, l.name, l.origin, at)
  }

  function Send(s: State, q: Notice): State {
    s.(lastAlertAt := s.lastAlertAt[CooldownKey(q.alert, q.name) := q.at], sent := s.sent + [q])
  }

  /** The rest of maybeAlert, after its await. */
  function Resume(s: State, e: Event): State
    requires e.Answered?
  {
    if e.lookup >= |s.lookups| then s
    else
      var l := s.lookups[e.lookup];
      var rest := s.(lookups := Without(s.lookups, e.lookup));
      if !e.answer.Enabled? || IsOnCooldown(s, l.alert, l.name, e.at) then rest
      else Send(rest, NoticeOf(l, e.at + e.took))
  }

  function Step(s: State, e: Event, n: nat): State {
    match e
    case Update(_, _, _) => HandleUpdate(s, e, n)
    case TimerFires(_, _) => FireTimer(s, e, n)
    case Answered(_, _, _, _) => Resume(s, e)
    case Destroyed(_) => s.(pendingDieAlerts := map[])
  }

  /** The state after the first `n` events. */
  function Run(events: seq<Event>, n: nat): State
    requires n <= |events|
  {
    if n == 0 then NOTHING_YET else Step(Run(events, n - 1), events[n - 1], n - 1)
  }

  // ----- what a run says about a die, read off the events alone

  predicate IsDie(events: seq<Event>, i: nat) {
    i < |events| && events[i].Update? && events[i].action.Die?
  }

  ghost predicate StartedBefore(events: seq<Event>, n: nat, name: string)
    requires n <= |events|
  {
    exists j | 0 <= j < n :: events[j].Update? && events[j].action.Start? && events[j].name == name
  }

  /** Event `k` makes a pending alert about `name` pointless: a newer die, a restart, a redeploy, the shutdown. */
  ghost predicate Supersedes(events: seq<Event>, k: nat, name: string)
    requires k < |events|
  {
    var e := events[k];
    || e.Destroyed?
    || (e.Update? && e.name == name
        && (e.action.Die? || e.action.Restart? || (e.action.Start? && StartedBefore(events, k, name))))
  }

  predicate DueAt(events: seq<Event>, i: nat, k: nat)
    requires IsDie(events, i) && k < |events|
  {
    events[k].TimerFires? && events[k].name == events[i].name
    && events[k].at >= events[i].at + DIE_RESTART_COALESCE_MS
  }

  /** The die at `i` has neither been superseded nor fired before event `n`. */
  ghost predicate Live(events: seq<Event>, i: nat, n: nat)
    requires n <= |events|
  {
    && i < n
    && IsDie(events, i)
    && forall k | i < k < n :: !Supersedes(events, k, events[i].name) && !DueAt(events, i, k)
  }

  lemma LiveStep(events: seq<Event>, i: nat, n: nat)
    requires n < |events|
    ensures Live(events, i, n + 1) <==>
              || (i == n && IsDie(events, n))
              || (Live(events, i, n) && !Supersedes(events, n, events[i].name) && !DueAt(events, i, n))
  {
  }

  // ----- the pending map holds exactly the live dies

  ghost predicate PendingAreLive(events: seq<Event>, n: nat, pending: map<string, Timer>)
    requires n <= |events|
  {
    forall name <- pending ::
      var i := pending[name].die;
      Live(events, i, n) && events[i].name == name && events[i].at == pending[name].at
  }

  ghost predicate LiveArePending(events: seq<Event>, n: nat, pending: map<string, Timer>)
    requires n <= |events|
  {
    forall i: nat | Live(events, i, n) :: events[i].name in pending && pending[events[i].name].die == i
  }

  ghost predicate SeenAreStarted(events: seq<Event>, n: nat, seen: set<string>)
    requires n <= |events|
  {
    forall name :: name in seen <==> StartedBefore(events, n, name)
  }

  lemma {:induction false} SeenTracks(events: seq<Event>, n: nat)
    requires n <= |events|
    ensures SeenAreStarted(events, n, Run(events, n).seenContainers)
    decreases n
  {
    if n > 0 {
      SeenTracks(events, n - 1);
      var before, after := Run(events, n - 1).seenContainers, Run(events, n).seenContainers;
      forall name ensures name in after <==> StartedBefore(events, n, name) {
        assert StartedBefore(events, n, name) <==>
               StartedBefore(events, n - 1, name)
               || (events[n - 1].Update? && events[n - 1].action.Start? && events[n - 1].name == name);
        assert name in before <==> StartedBefore(events, n - 1, name);
      }
    }
  }

  /** How one event changes the pending map. */
  lemma PendingStep(s: State, events: seq<Event>, n: nat, name: string)
    requires n < |events|
    requires SeenAreStarted(events, n, s.seenContainers)
    ensures var e := events[n];
            var after := Step(s, e, n).pendingDieAlerts;
            if IsDie(events, n) && e.name == name then name in after && after[name] == Timer(n, e.at)
            else if Supersedes(events, n, name) then name !in after
            else if e.TimerFires? && e.name == name && name in s.pendingDieAlerts
                    && e.at >= s.pendingDieAlerts[name].at + DIE_RESTART_COALESCE_MS then name !in after
            else if name in s.pendingDieAlerts then name in after && after[name] == s.pendingDieAlerts[name]
            else name !in after
  {
  }

  lemma {:induction false} PendingTracks(events: seq<Event>, n: nat)
    requires n <= |events|
    ensures PendingAreLive(events, n, Run(events, n).pendingDieAlerts)
    ensures LiveArePending(events, n, Run(events, n).pendingDieAlerts)
    decreases n
  {
    if n > 0 {
      PendingTracks(events, n - 1);
      SeenTracks(events, n - 1);
      var s, after := Run(events, n - 1), Run(events, n).pendingDieAlerts;
      forall name | name in after
        ensures var i := after[name].die;
                Live(events, i, n) && events[i].name == name && events[i].at == after[name].at
      {
        PendingStep(s, events, n - 1, name);
        LiveStep(events, after[name].die, n - 1);
      }
      forall i: nat | Live(events, i, n)
        ensures events[i].name in after && after[events[i].name].die == i
      {
        LiveStep(events, i, n - 1);
        PendingStep(s, events, n - 1, events[i].name);
      }
    }
  }

  // ----- every die has exactly one fate

  ghost predicate FiredAt(events: seq<Event>, i: nat, k: nat)
    requires k < |events|
  {
    Live(events, i, k) && DueAt(events, i, k)
  }

  ghost predicate SupersededAt(events: seq<Event>, i: nat, k: nat)
    requires k < |events|
  {
    Live(events, i, k) && Supersedes(events, k, events[i].name)
  }

  ghost predicate Fired(events: seq<Event>, i: nat, n: nat)
    requires n <= |events|
  {
    exists k: nat | k < n :: FiredAt(events, i, k)
  }

  ghost predicate Superseded(events: seq<Event>, i: nat, n: nat)
    requires n <= |events|
  {
    exists k: nat | k < n :: SupersededAt(events, i, k)
  }

  /** The event that ends a die's wait is unique. */
  lemma OneEnd(events: seq<Event>, i: nat, j: nat, k: nat)
    requires j < |events| && k < |events|
    requires FiredAt(events, i, j) || SupersededAt(events, i, j)
    requires FiredAt(events, i, k) || SupersededAt(events, i, k)
    ensures j == k && !(FiredAt(events, i, j) && SupersededAt(events, i, j))
  {
  }

  lemma {:induction false} SomeFate(events: seq<Event>, i: nat, n: nat)
    requires i < n <= |events| && IsDie(events, i)
    ensures Live(events, i, n) || Fired(events, i, n) || Superseded(events, i, n)
    decreases n
  {
    if i + 1 < n {
      SomeFate(events, i, n - 1);
      LiveStep(events, i, n - 1);
      if Live(events, i, n - 1) && !Live(events, i, n) {
        assert FiredAt(events, i, n - 1) || SupersededAt(events, i, n - 1);
      }
    }
  }

  /**
   In every run, at every moment, each die is exactly one of: still pending, the one
   pending die of its container; superseded by a later die, restart or redeploy of that
   container or by the shutdown; fired, at least three seconds later with nothing of the
   kind in between.
   */
  lemma DiesArePartitioned(events: seq<Event>, i: nat, n: nat)
    requires i < n <= |events| && IsDie(events, i)
    ensures var pending := Run(events, n).pendingDieAlerts;
            var isPending := events[i].name in pending && pending[events[i].name].die == i;
            && (isPending <==> Live(events, i, n))
            && (isPending || Fired(events, i, n) || Superseded(events, i, n))
            && !(isPending && Fired(events, i, n))
            && !(isPending && Superseded(events, i, n))
            && !(Fired(events, i, n) && Superseded(events, i, n))
  {
    PendingTracks(events, n);
    SomeFate(events, i, n);
    if Fired(events, i, n) && Superseded(events, i, n) {
      var j: nat :| j < n && FiredAt(events, i, j);
      var k: nat :| k < n && SupersededAt(events, i, k);
      OneEnd(events, i, j, k);
    }
  }

  // ----- firings and notices

  ghost predicate FiringsAreExact(events: seq<Event>, n: nat, firings: seq<Firing>)
    requires n <= |events|
  {
    && (forall f <- firings :: f.fire < n && FiredAt(events, f.die, f.fire))
    && (forall i: nat, k: nat | k < n && FiredAt(events, i, k) :: Firing(i, k) in firings)
  }

  ghost predicate NoneTwice(firings: seq<Firing>) {
    forall a, b | 0 <= a < b < |firings| :: firings[a].fire < firings[b].fire && firings[a].die != firings[b].die
  }

  lemma FiringStep(events: seq<Event>, n: nat)
    requires n < |events|
    ensures var before, after := Run(events, n).firings, Run(events, n + 1).firings;
            || (after == before && forall i: nat :: !FiredAt(events, i, n))
            || (exists i: nat :: FiredAt(events, i, n) && after == before + [Firing(i, n)])
  {
    PendingTracks(events, n);
    var s, e := Run(events, n), events[n];
    if e.TimerFires? && e.name in s.pendingDieAlerts {
      var i := s.pendingDieAlerts[e.name].die;
      assert Live(events, i, n);
    }
  }

  /** A timer fires for exactly the dies that waited it out, and for none of them twice. */
  lemma {:induction false} FiringsTrack(events: seq<Event>, n: nat)
    requires n <= |events|
    ensures FiringsAreExact(events, n, Run(events, n).firings)
    ensures NoneTwice(Run(events, n).firings)
    decreases n
  {
    if n > 0 {
      FiringsTrack(events, n - 1);
      FiringStep(events, n - 1);
      var before, after := Run(events, n - 1).firings, Run(events, n).firings;
      if after != before {
        var i: nat :| FiredAt(events, i, n - 1) && after == before + [Firing(i, n - 1)];
        assert after[|before|] == Firing(i, n - 1);
        forall j: nat, k: nat | k < n && FiredAt(events, j, k) ensures Firing(j, k) in after {
          if k == n - 1 {
            OneTimerAtATime(events, i, j, k);
          } else {
            assert Firing(j, k) in before;
          }
        }
        forall f | f in before ensures f.die != i {
          if f.die == i {
            OneEnd(events, i, f.fire, n - 1);
          }
        }
      }
    }
  }

  lemma OneTimerAtATime(events: seq<Event>, i: nat, j: nat, k: nat)
    requires k < |events| && FiredAt(events, i, k) && FiredAt(events, j, k)
    ensures i == j
  {
    PendingTracks(events, k);
  }
}
