/** From timers and restarts to notices: where every notice comes from, and how far apart they are. */
module AlertNotices {
  import opened AlertRuns

  lemma KeysTellApart(a: Alert, n: string, b: Alert, m: string)
    requires CooldownKey(a, n) == CooldownKey(b, m)
    ensures a == b && n == m
  {
    var x, y := CooldownKey(a, n), CooldownKey(b, m);
    assert x[0] == y[0];
    assert a == b;
    var prefix := if a.Down? then 4 else 8;
    assert n == x[prefix..] && m == y[prefix..];
  }

  // ----- cooldown

  ghost predicate Quiet(sent: seq<Notice>) {
    forall i, j | 0 <= i < j < |sent| && sent[i].alert == sent[j].alert && sent[i].name == sent[j].name ::
      sent[j].at - sent[i].at >= COOLDOWN_MS
  }

  /** The map holds the time of the latest notice of each kind about each container. */
  ghost predicate Latest(last: map<string, int>, sent: seq<Notice>) {
    && (forall q <- sent :: var key := CooldownKey(q.alert, q.name); key in last && q.at <= last[key])
    && (forall alert, name | CooldownKey(alert, name) in last ::
          exists q <- sent :: q.alert == alert && q.name == name && q.at == last[CooldownKey(alert, name)])
  }

  lemma NoticeStep(last: map<string, int>, sent: seq<Notice>, q: Notice)
    requires Quiet(sent) && Latest(last, sent)
    requires var key := CooldownKey(q.alert, q.name); key in last ==> q.at - last[key] >= COOLDOWN_MS
    ensures Quiet(sent + [q])
    ensures Latest(last[CooldownKey(q.alert, q.name) := q.at], sent + [q])
  {
    var key := CooldownKey(q.alert, q.name);
    var after := last[key := q.at];
    assert (sent + [q])[|sent|] == q;
    forall i | 0 <= i < |sent| && sent[i].alert == q.alert && sent[i].name == q.name
      ensures q.at - sent[i].at >= COOLDOWN_MS
    {
      assert sent[i] in sent;
    }
    forall alert, name | CooldownKey(alert, name) in after
      ensures exists p <- sent + [q] :: p.alert == alert && p.name == name && p.at == after[CooldownKey(alert, name)]
    {
      if CooldownKey(alert, name) == key {
        KeysTellApart(alert, name, q.alert, q.name);
        assert q in sent + [q];
      } else {
        var p :| p in sent && p.alert == alert && p.name == name && p.at == last[CooldownKey(alert, name)];
        assert p in sent + [q];
      }
    }
  }

  ghost predicate NoticesKept(s: State) {
    Quiet(s.sent) && Latest(s.lastAlertAt, s.sent)
  }

  /** An answer sends one notice or none. */
  lemma ResumeSends(s: State, e: Event)
    requires e.Answered? && e.lookup < |s.lookups|
    ensures var after, l := Resume(s, e), s.lookups[e.lookup];
            var q := NoticeOf(l, e.at + e.took);
            && after.lookups == Without(s.lookups, e.lookup)
            && if e.answer.Enabled? && !IsOnCooldown(s, l.alert, l.name, e.at) then
                 after.sent == s.sent + [q] && after.lastAlertAt == s.lastAlertAt[CooldownKey(q.alert, q.name) := q.at]
               else
                 after.sent == s.sent && after.lastAlertAt == s.lastAlertAt
  {
  }

  lemma ResumeKeepsNotices(s: State, e: Event)
    requires e.Answered? && NoticesKept(s)
    ensures NoticesKept(Resume(s, e))
  {
    if e.lookup < |s.lookups| {
      var l := s.lookups[e.lookup];
      ResumeSends(s, e);
      if !IsOnCooldown(s, l.alert, l.name, e.at) {
        NoticeStep(s.lastAlertAt, s.sent, NoticeOf(l, e.at + e.took));
      }
    }
  }

  lemma {:induction false} NoticesTrack(events: seq<Event>, n: nat)
    requires n <= |events|
    ensures NoticesKept(Run(events, n))
    decreases n
  {
    if n > 0 {
      NoticesTrack(events, n - 1);
      if events[n - 1].Answered? {
        ResumeKeepsNotices(Run(events, n - 1), events[n - 1]);
      }
    }
  }

  /**
   In every run, whatever the order in which concurrent lookups answer, two notices of
   one kind about one container are at least a minute apart.
   */
  lemma NoticesAreSpaced(events: seq<Event>, n: nat, i: nat, j: nat)
    requires n <= |events| && i < j < |Run(events, n).sent|
    ensures var sent := Run(events, n).sent;
            sent[i].alert == sent[j].alert && sent[i].name == sent[j].name ==>
              sent[j].at - sent[i].at >= COOLDOWN_MS
  {
    NoticesTrack(events, n);
  }

  /** A notice of this kind about this container is less than a minute old. */
  ghost predicate RecentlySent(sent: seq<Notice>, alert: Alert, name: string, now: int) {
    exists q <- sent :: q.alert == alert && q.name == name && now - q.at < COOLDOWN_MS
  }

  /**
   An answered lookup sends its notice exactly when the setting is on and no such notice is
   recent; it is the only lookup that the answer takes.
   */
  lemma AnswerDecides(events: seq<Event>, n: nat)
    requires n < |events|
    requires events[n].Answered? && events[n].lookup < |Run(events, n).lookups|
    ensures var before, after, e := Run(events, n), Run(events, n + 1), events[n];
            var l := before.lookups[e.lookup];
            after.sent ==
              if e.answer.Enabled? && !RecentlySent(before.sent, l.alert, l.name, e.at)
              then before.sent + [Notice(l.alert, l.name, l.origin, e.at + e.took)]
              else before.sent
    ensures var before, after, k := Run(events, n).lookups, Run(events, n + 1).lookups, events[n].lookup;
            && |after| == |before| - 1
            && (forall i | 0 <= i < k :: after[i] == before[i])
            && (forall i | k < i < |before| :: after[i - 1] == before[i])
  {
    NoticesTrack(events, n);
  }

  // ----- origins

  /** The event at `origin` is one that calls for this alert. */
  ghost predicate CalledFor(events: seq<Event>, alert: Alert, name: string, origin: nat)
    requires origin < |events|
  {
    match alert
    case Down => exists i: nat :: FiredAt(events, i, origin) && events[i].name == name
    case Restarted =>
      var e := events[origin];
      e.Update? && e.name == name
      && (e.action.Restart? || (e.action.Start? && StartedBefore(events, origin, name)))
  }

  ghost predicate LookupsCalledFor(events: seq<Event>, n: nat, lookups: seq<Lookup>)
    requires n <= |events|
  {
    forall l <- lookups :: l.origin < n && CalledFor(events, l.alert, l.name, l.origin)
  }

  ghost predicate NoticesCalledFor(events: seq<Event>, n: nat, sent: seq<Notice>)
    requires n <= |events|
  {
    forall q <- sent :: q.origin < n && CalledFor(events, q.alert, q.name, q.origin)
  }

  /** Each event is the origin of one lookup or notice at most. */
  ghost predicate OriginsDiffer(lookups: seq<Lookup>, sent: seq<Notice>) {
    && (forall a, b | 0 <= a < b < |lookups| :: lookups[a].origin < lookups[b].origin)
    && (forall a, b | 0 <= a < b < |sent| :: sent[a].origin != sent[b].origin)
    && (forall a, b | 0 <= a < |sent| && 0 <= b < |lookups| :: sent[a].origin != lookups[b].origin)
  }

  lemma OriginsAfterAnswer(lookups: seq<Lookup>, sent: seq<Notice>, k: nat, q: Notice)
    requires k < |lookups| && OriginsDiffer(lookups, sent) && q.origin == lookups[k].origin
    ensures OriginsDiffer(Without(lookups, k), sent)
    ensures OriginsDiffer(Without(lookups, k), sent + [q])
  {
  }

  lemma OriginsAfterCall(lookups: seq<Lookup>, sent: seq<Notice>, l: Lookup)
    requires OriginsDiffer(lookups, sent)
    requires forall p <- lookups :: p.origin < l.origin
    requires forall q <- sent :: q.origin < l.origin
    ensures OriginsDiffer(lookups + [l], sent)
  {
  }

  /** The event makes a call of maybeAlert that it calls for. */
  ghost predicate MakesCall(events: seq<Event>, n: nat, l: Lookup)
    requires n < |events|
  {
    l.origin == n && CalledFor(events, l.alert, l.name, n)
  }

  /** An event other than an answer leaves lookups and notices alone, or makes one call. */
  lemma CallStep(events: seq<Event>, n: nat)
    requires n < |events| && !events[n].Answered?
    ensures var s, after := Run(events, n), Run(events, n + 1);
            && after.sent == s.sent
            && (after.lookups == s.lookups
                || exists l | MakesCall(events, n, l) :: after.lookups == s.lookups + [l])
  {
    var s, e, after := Run(events, n), events[n], Run(events, n + 1);
    SeenTracks(events, n);
    if after.lookups != s.lookups {
      var l := Lookup(if e.TimerFires? then Down else Restarted, e.name, n);
      assert after.lookups == s.lookups + [l];
      if e.TimerFires? {
        PendingTracks(events, n);
        assert FiredAt(events, s.pendingDieAlerts[e.name].die, n);
      }
      assert MakesCall(events, n, l);
    }
  }

  /** Every restart, every redeploy and every timer that runs out asks for its alert, once. */
  lemma EveryCauseMakesOneCall(events: seq<Event>, n: nat, alert: Alert, name: string)
    requires n < |events| && CalledFor(events, alert, name, n)
    ensures Run(events, n + 1).lookups == Run(events, n).lookups + [Lookup(alert, name, n)]
  {
    SeenTracks(events, n);
    PendingTracks(events, n);
    if alert.Down? {
      var i: nat :| FiredAt(events, i, n) && events[i].name == name;
      assert Live(events, i, n);
    }
  }

  ghost predicate Origins(events: seq<Event>, n: nat, s: State)
    requires n <= |events|
  {
    && LookupsCalledFor(events, n, s.lookups)
    && NoticesCalledFor(events, n, s.sent)
    && OriginsDiffer(s.lookups, s.sent)
  }

  lemma OriginsGrow(events: seq<Event>, n: nat, lookups: seq<Lookup>, sent: seq<Notice>, fewer: seq<Lookup>)
    requires n < |events| && LookupsCalledFor(events, n, lookups) && NoticesCalledFor(events, n, sent)
    requires forall l <- fewer :: l in lookups
    ensures LookupsCalledFor(events, n + 1, fewer) && NoticesCalledFor(events, n + 1, sent)
  {
  }

  lemma OriginsOneMore(events: seq<Event>, n: nat, sent: seq<Notice>, q: Notice)
    requires n <= |events| && NoticesCalledFor(events, n, sent)
    requires q.origin < n && CalledFor(events, q.alert, q.name, q.origin)
    ensures NoticesCalledFor(events, n, sent + [q])
  {
  }

  lemma {:induction false} OriginsAnswerStep(events: seq<Event>, n: nat, s: State)
    requires n < |events| && events[n].Answered? && Origins(events, n, s)
    ensures Origins(events, n + 1, Resume(s, events[n]))
  {
    var e := events[n];
    OriginsGrow(events, n, s.lookups, s.sent, s.lookups);
    if e.lookup < |s.lookups| {
      var l := s.lookups[e.lookup];
      var q := NoticeOf(l, e.at + e.took);
      assert l in s.lookups;
      ResumeSends(s, e);
      OriginsGrow(events, n, s.lookups, s.sent, Without(s.lookups, e.lookup));
      OriginsAfterAnswer(s.lookups, s.sent, e.lookup, q);
      OriginsOneMore(events, n + 1, s.sent, q);
    }
  }

  lemma OriginsCallStep(events: seq<Event>, n: nat)
    requires n < |events| && !events[n].Answered?
    requires Origins(events, n, Run(events, n))
    ensures Origins(events, n + 1, Run(events, n + 1))
  {
    var s, after := Run(events, n), Run(events, n + 1);
    CallStep(events, n);
    if after.lookups != s.lookups {
      var l :| MakesCall(events, n, l) && after.lookups == s.lookups + [l];
      OriginsAfterCall(s.lookups, s.sent, l);
    }
  }

  lemma {:induction false} OriginsTrack(events: seq<Event>, n: nat)
    requires n <= |events|
    ensures Origins(events, n, Run(events, n))
    decreases n
  {
    if n > 0 {
      OriginsTrack(events, n - 1);
      if events[n - 1].Answered? {
        OriginsAnswerStep(events, n - 1, Run(events, n - 1));
      } else {
        OriginsCallStep(events, n - 1);
      }
    }
  }

  /**
   Every "down" notice comes from a die whose timer ran out, at least three seconds
   later, with no die, restart or redeploy of that container and no shutdown in between;
   and no two notices come from the same event.
   */
  lemma DownNoticesAreUnexplainedDies(events: seq<Event>, n: nat, q: nat)
    requires n <= |events| && q < |Run(events, n).sent|
    requires Run(events, n).sent[q].alert == Down
    ensures var notice := Run(events, n).sent[q];
            && notice.origin < n
            && exists i: nat ::
                 && FiredAt(events, i, notice.origin)
                 && events[i].name == notice.name
                 && events[notice.origin].at >= events[i].at + DIE_RESTART_COALESCE_MS
                 && !Superseded(events, i, n)
    ensures forall p: nat | p < |Run(events, n).sent| && p != q ::
              Run(events, n).sent[p].origin != Run(events, n).sent[q].origin
  {
    OriginsTrack(events, n);
    var sent := Run(events, n).sent;
    var notice := sent[q];
    assert notice in sent;
    var i: nat :| FiredAt(events, i, notice.origin) && events[i].name == notice.name;
    assert Fired(events, i, n);
    DiesArePartitioned(events, i, n);
  }

  // ----- every call is answered once

  /** The answer at `k` is the one of this call. */
  ghost predicate TakenAt(events: seq<Event>, l: Lookup, k: nat)
    requires k < |events|
  {
    var lookups := Run(events, k).lookups;
    events[k].Answered? && events[k].lookup < |lookups| && lookups[events[k].lookup] == l
  }

  ghost predicate Taken(events: seq<Event>, l: Lookup, n: nat)
    requires n <= |events|
  {
    exists k: nat | k < n :: TakenAt(events, l, k)
  }

  /** No call made at `n` is pending. */
  ghost predicate Gone(lookups: seq<Lookup>, n: nat) {
    forall l <- lookups :: l.origin != n
  }

  lemma GoneAfterAnswer(lookups: seq<Lookup>, k: nat)
    requires k < |lookups|
    requires forall a, b | 0 <= a < b < |lookups| :: lookups[a].origin < lookups[b].origin
    ensures Gone(Without(lookups, k), lookups[k].origin)
    ensures forall l <- lookups | l != lookups[k] :: l in Without(lookups, k)
  {
    forall l | l in lookups && l != lookups[k] ensures l in Without(lookups, k) {
      var i :| 0 <= i < |lookups| && lookups[i] == l;
      assert l == Without(lookups, k)[if i < k then i else i - 1];
    }
  }

  lemma LookupsAfterAnswer(events: seq<Event>, k: nat)
    requires k < |events| && events[k].Answered? && events[k].lookup < |Run(events, k).lookups|
    ensures Run(events, k + 1).lookups == Without(Run(events, k).lookups, events[k].lookup)
  {
  }

  lemma LookupsAfterNothing(events: seq<Event>, k: nat)
    requires k < |events| && events[k].Answered? && events[k].lookup >= |Run(events, k).lookups|
    ensures Run(events, k + 1) == Run(events, k)
  {
  }

  /** What is gone stays gone, and no notice of it is sent any more. */
  lemma StaysGone(events: seq<Event>, k: nat, n: nat)
    requires n < k < |events| && Gone(Run(events, k).lookups, n)
    ensures Gone(Run(events, k + 1).lookups, n)
    ensures forall q: Notice | q.origin == n :: q in Run(events, k + 1).sent <==> q in Run(events, k).sent
  {
    var before := Run(events, k);
    if !events[k].Answered? {
      CallStep(events, k);
    } else if events[k].lookup < |before.lookups| {
      LookupsAfterAnswer(events, k);
      AnswerDecides(events, k);
      assert before.lookups[events[k].lookup] in before.lookups;
    } else {
      LookupsAfterNothing(events, k);
    }
  }

  /** A call pending at `k` is taken by the event there, or still pending behind it. */
  lemma PendingOrTaken(events: seq<Event>, k: nat, l: Lookup)
    requires k < |events| && l in Run(events, k).lookups
    ensures if TakenAt(events, l, k) then Gone(Run(events, k + 1).lookups, l.origin)
            else l in Run(events, k + 1).lookups
  {
    var lookups := Run(events, k).lookups;
    OriginsTrack(events, k);
    if !events[k].Answered? {
      CallStep(events, k);
    } else if events[k].lookup < |lookups| {
      LookupsAfterAnswer(events, k);
      GoneAfterAnswer(lookups, events[k].lookup);
    }
  }

  lemma {:induction false} CallTracks(events: seq<Event>, l: Lookup, m: nat)
    requires l.origin < m <= |events| && CalledFor(events, l.alert, l.name, l.origin)
    ensures if Taken(events, l, m) then Gone(Run(events, m).lookups, l.origin) else l in Run(events, m).lookups
    decreases m
  {
    if m == l.origin + 1 {
      EveryCauseMakesOneCall(events, l.origin, l.alert, l.name);
      NotTakenYet(events, l, m);
    } else {
      CallTracks(events, l, m - 1);
      if Taken(events, l, m - 1) {
        StaysGone(events, m - 1, l.origin);
      } else {
        PendingOrTaken(events, m - 1, l);
      }
    }
  }

  /** A call is not pending before it is made. */
  lemma NotTakenYet(events: seq<Event>, l: Lookup, m: nat)
    requires m <= |events| && m <= l.origin + 1
    ensures !Taken(events, l, m)
  {
    forall k: nat | k < m ensures !TakenAt(events, l, k) {
      OriginsTrack(events, k);
      assert forall p <- Run(events, k).lookups :: p.origin < k;
    }
  }

  /**
   In every run, at every later moment, each call that a restart, a redeploy or a due timer
   made is either pending or has been taken by exactly one answer.
   */
  lemma CallsArePartitioned(events: seq<Event>, l: Lookup, m: nat)
    requires l.origin < m <= |events| && CalledFor(events, l.alert, l.name, l.origin)
    ensures l in Run(events, m).lookups <==> !Taken(events, l, m)
    ensures forall j: nat, k: nat | j < k < |events| :: !(TakenAt(events, l, j) && TakenAt(events, l, k))
  {
    CallTracks(events, l, m);
    forall j: nat, k: nat | j < k < |events| && TakenAt(events, l, j) ensures !TakenAt(events, l, k) {
      if TakenAt(events, l, k) {
        NotTakenYet(events, l, l.origin + 1);
        assert l in Run(events, k).lookups;
        CallTracks(events, l, k);
      }
    }
  }

  lemma {:induction false} NoticesOfGone(events: seq<Event>, k: nat, n: nat, m: nat)
    requires n < k <= m <= |events| && Gone(Run(events, k).lookups, n)
    ensures Gone(Run(events, m).lookups, n)
    ensures forall q: Notice | q.origin == n :: q in Run(events, m).sent <==> q in Run(events, k).sent
    decreases m
  {
    if k < m {
      NoticesOfGone(events, k, n, m - 1);
      StaysGone(events, m - 1, n);
    }
  }

  /** A pending call has no notice. */
  lemma NoNoticeYet(events: seq<Event>, l: Lookup, k: nat)
    requires k <= |events| && l in Run(events, k).lookups
    ensures forall q <- Run(events, k).sent :: q.origin != l.origin
  {
    OriginsTrack(events, k);
    var sent, lookups := Run(events, k).sent, Run(events, k).lookups;
    var b :| 0 <= b < |lookups| && lookups[b] == l;
    forall q | q in sent ensures q.origin != l.origin {
      var a :| 0 <= a < |sent| && sent[a] == q;
    }
  }

  ghost predicate Reported(events: seq<Event>, l: Lookup, k: nat)
    requires k < |events| && events[k].Answered?
  {
    events[k].answer.Enabled? && !RecentlySent(Run(events, k).sent, l.alert, l.name, events[k].at)
  }

  lemma ReportedAtOnce(events: seq<Event>, l: Lookup, k: nat)
    requires k < |events| && TakenAt(events, l, k)
    ensures forall q: Notice | q.origin == l.origin ::
              q in Run(events, k + 1).sent <==>
                Reported(events, l, k) && q == NoticeOf(l, events[k].at + events[k].took)
  {
    NoNoticeYet(events, l, k);
    AnswerDecides(events, k);
  }

  /**
   So every cause is reported, for good, iff its answer finds the setting on and no notice of
   its kind about its container that is less than a minute old.
   */
  lemma CauseIsReportedIff(events: seq<Event>, l: Lookup, k: nat, m: nat, q: Notice)
    requires l.origin < k < m <= |events| && TakenAt(events, l, k)
    requires q.origin == l.origin
    ensures q in Run(events, m).sent <==>
              Reported(events, l, k) && q == Notice(l.alert, l.name, l.origin, events[k].at + events[k].took)
  {
    ReportedAtOnce(events, l, k);
    PendingOrTaken(events, k, l);
    NoticesOfGone(events, k + 1, l.origin, m);
  }

  // ----- the first start of a container

  /** The event is a start of the container. */
  predicate IsStartOf(events: seq<Event>, k: nat, name: string) {
    k < |events| && events[k].Update? && events[k].action.Start? && events[k].name == name
  }

  /** A start takes the container's pending die from the map exactly when it is not the first one seen. */
  lemma StartSupersedesIff(events: seq<Event>, k: nat, name: string)
    requires IsStartOf(events, k, name) && name in Run(events, k).pendingDieAlerts
    ensures var before, after := Run(events, k).pendingDieAlerts, Run(events, k + 1).pendingDieAlerts;
            && (name in after <==> !StartedBefore(events, k, name))
            && (name in after ==> after[name] == before[name])
  {
    SeenTracks(events, k);
  }

  /** Between `i` and `t`, only the start at `k` could explain the die at `i`, and its timer is not yet due. */
  ghost predicate OnlyStartBetween(events: seq<Event>, i: nat, k: nat, t: nat)
    requires i < k < t < |events| && IsDie(events, i)
  {
    forall j | i < j < t :: !DueAt(events, i, j) && (j == k || !Supersedes(events, j, events[i].name))
  }

  /**
   A container that dies, starts and has nothing else to explain it is reported as down
   when the timer is due exactly if it had not been seen starting before.
   */
  lemma RedeployIsReportedDownIff(events: seq<Event>, i: nat, k: nat, t: nat)
    requires i < k < t < |events| && IsDie(events, i) && IsStartOf(events, k, events[i].name)
    requires OnlyStartBetween(events, i, k, t) && DueAt(events, i, t)
    ensures var name := events[i].name;
            var before, after := Run(events, t), Run(events, t + 1);
            if StartedBefore(events, k, name) then after == before
            else after.lookups == before.lookups + [Lookup(Down, name, t)]
  {
    var name := events[i].name;
    PendingTracks(events, t);
    if StartedBefore(events, k, name) {
      assert Supersedes(events, i, name) && Supersedes(events, k, name);
      if name in Run(events, t).pendingDieAlerts {
        var other := Run(events, t).pendingDieAlerts[name].die;
        assert Live(events, other, t) && other != i;
        assert Supersedes(events, other, name);
        assert false;
      }
    } else {
      assert Live(events, i, t);
    }
  }

  /** So a redeploy whose container had not been seen starting is reported as a container that is down. */
  lemma FirstRedeployIsReportedDown(name: string)
    ensures var events := [Update(Die, name, 0), Update(Start, name, 1_000), TimerFires(name, 3_000),
                           Answered(0, Enabled, 3_000, 2)];
            Run(events, 4).sent == [Notice(Down, name, 2, 3_002)]
  {
    var events := [Update(Die, name, 0), Update(Start, name, 1_000), TimerFires(name, 3_000),
                   Answered(0, Enabled, 3_000, 2)];
    assert Run(events, 1).pendingDieAlerts == map[name := Timer(0, 0)];
    assert Run(events, 2) == Run(events, 1).(seenContainers := {name});
    assert Run(events, 3).lookups == [Lookup(Down, name, 2)];
  }
}

/** The service object; each method is one uninterrupted segment. */
module AlertsServices {
  import R = AlertRuns

  class AlertsService {
    var lastAlertAt: map<string, int>
    var pendingDieAlerts: map<string, R.Timer>
    var seenContainers: set<string>
    // calls of maybeAlert suspended at their settings lookup
    var lookups: seq<R.Lookup>
    // segments so far
    var segment: nat
    ghost var firings: seq<R.Firing>
    ghost var sent: seq<R.Notice>

    ghost function State(): R.State
      reads this
    {
      R.State(lastAlertAt, pendingDieAlerts, seenContainers, lookups, firings, sent)
    }

    constructor ()
      ensures State() == R.NOTHING_YET && segment == 0
    {
      lastAlertAt, pendingDieAlerts, seenContainers, lookups, segment := map[], map[], {}, [], 0;
      firings, sent := [], [];
    }

    method HandleUpdate(action: R.Lifecycle, name: string, now: int)
      modifies this
      ensures segment == old(segment) + 1
      ensures State() == R.Step(old(State()), R.Update(action, name, now), old(segment))
    {
      if action.Die? {
        ScheduleDieAlert(name, now);
      } else {
        var redeploy := false;
        if !action.Restart? {
          redeploy := IsRedeployStart(action, name);
        }
        if action.Restart? || redeploy {
          CancelPendingDieAlert(name);
          MaybeAlert(R.Restarted, name);
        }
      }
      segment := segment + 1;
    }

    method IsRedeployStart(action: R.Lifecycle, name: string) returns (alreadySeen: bool)
      modifies this`seenContainers
      ensures alreadySeen == (action.Start? && name in old(seenContainers))
      ensures seenContainers == old(seenContainers) + if action.Start? then {name} else {}
    {
      if !action.Start? {
        return false;
      }
      alreadySeen := name in seenContainers;
      seenContainers := seenContainers + {name};
    }

    method ScheduleDieAlert(name: string, now: int)
      modifies this`pendingDieAlerts
      ensures pendingDieAlerts == old(pendingDieAlerts)[name := R.Timer(segment, now)]
    {
      CancelPendingDieAlert(name);
      pendingDieAlerts := pendingDieAlerts[name := R.Timer(segment, now)];
    }

    method CancelPendingDieAlert(name: string)
      modifies this`pendingDieAlerts
      ensures pendingDieAlerts == old(pendingDieAlerts) - {name}
    {
      if name in pendingDieAlerts {
        pendingDieAlerts := pendingDieAlerts - {name};
      }
    }

    /** maybeAlert up to its await. */
    method MaybeAlert(alert: R.Alert, name: string)
      modifies this`lookups
      ensures lookups == old(lookups) + [R.Lookup(alert, name, segment)]
    {
      lookups := lookups + [R.Lookup(alert, name, segment)];
    }

    /** The callback of a die's timer, when it is due. */
    method TimerFired(name: string, now: int)
      requires name in pendingDieAlerts && now >= pendingDieAlerts[name].at + R.DIE_RESTART_COALESCE_MS
      modifies this
      ensures segment == old(segment) + 1
      ensures State() == R.Step(old(State()), R.TimerFires(name, now), old(segment))
    {
      firings := firings + [R.Firing(pendingDieAlerts[name].die, segment)];
      pendingDieAlerts := pendingDieAlerts - {name};
      MaybeAlert(R.Down, name);
      segment := segment + 1;
    }

    /** maybeAlert after its await. */
    method SettingAnswered(k: nat, answer: R.Answer, checkedAt: int, recordedAt: int) returns (notify: bool)
      requires k < |lookups| && checkedAt <= recordedAt
      modifies this
      ensures segment == old(segment) + 1
      ensures State() == R.Step(old(State()), R.Answered(k, answer, checkedAt, recordedAt - checkedAt), old(segment))
      ensures notify <==> sent != old(sent)
    {
      var l := lookups[k];
      lookups := R.Without(lookups, k);
      segment := segment + 1;
      if !answer.Enabled? {
        return false;
      }
      var key := R.CooldownKey(l.alert, l.name);
      if key in lastAlertAt && checkedAt - lastAlertAt[key] < R.COOLDOWN_MS {
        return false;
      }
      lastAlertAt := lastAlertAt[key := recordedAt];
      sent := sent + [R.Notice(l.alert, l.name, l.origin, recordedAt)];
      notify := true;
    }

    method OnModuleDestroy(now: int)
      modifies this
      ensures segment == old(segment) + 1
      ensures State() == R.Step(old(State()), R.Destroyed(now), old(segment))
    {
      pendingDieAlerts := map[];
      segment := segment + 1;
    }
  }
}
