/** The flow guard's verdicts on the plain log: counts of requests, thresholds, alerts and penalties. */
module FlowMeaning {
  import opened Wrappers
  import opened History
  import opened FlowGuard
  import opened FlowAlerts

  /** The request is one of the actor's in the twelve five-second buckets that end with that of `now`. */
  predicate InMinute(q: Request, actor: string, now: nat) {
    q.actor == actor && now / 5_000_000_000 - 12 < q.now / 5_000_000_000 <= now / 5_000_000_000
  }

  /** How many of them there are, how many were answered with one of some statuses, and what they uploaded. */
  function Requests(rs: seq<Request>, actor: string, now: nat): nat {
    if rs == [] then 0
    else Requests(rs[..|rs| - 1], actor, now) + if InMinute(rs[|rs| - 1], actor, now) then 1 else 0
  }

  function Answered(rs: seq<Request>, actor: string, now: nat, statuses: set<int>): nat {
    if rs == [] then 0
    else
      var q := rs[|rs| - 1];
      Answered(rs[..|rs| - 1], actor, now, statuses) +
        if InMinute(q, actor, now) && q.status in statuses then 1 else 0
  }

  function Uploaded(rs: seq<Request>, actor: string, now: nat): nat {
    if rs == [] then 0
    else
      var q := rs[|rs| - 1];
      Uploaded(rs[..|rs| - 1], actor, now) + if InMinute(q, actor, now) then q.bytesIn else 0
  }

  lemma BucketIs(now: nat)
    ensures BucketOf(now) == now / 5_000_000_000
  {
  }

  lemma PartCounts(q: Request, actor: string, now: nat)
    ensures var p := Part(q, actor, BucketOf(now) - BUCKETS, BucketOf(now)); var counted := InMinute(q, actor, now);
            && p.req == (if counted then 1 else 0)
            && p.e401 == (if counted && q.status == 401 then 1 else 0)
            && p.e403 == (if counted && q.status == 403 then 1 else 0)
            && p.e404 == (if counted && q.status == 404 then 1 else 0)
            && p.e429 == (if counted && q.status == 429 then 1 else 0)
            && p.bytesIn == (if counted then q.bytesIn else 0)
  {
    hide BucketOf;
    BucketIs(now);
    BucketIs(q.now);
  }

  /** The columns of the window are these counts. */
  lemma {:induction false} RecentCounts(rs: seq<Request>, actor: string, now: nat)
    ensures var s := Recent(rs, actor, BucketOf(now) - BUCKETS, BucketOf(now));
            && s.req == Requests(rs, actor, now) && s.bytesIn == Uploaded(rs, actor, now)
            && s.e401 == Answered(rs, actor, now, {401}) && s.e429 == Answered(rs, actor, now, {429})
            && s.e403 + s.e404 == Answered(rs, actor, now, {403, 404})
  {
    hide BucketOf, Part, InMinute;
    if rs != [] {
      RecentCounts(rs[..|rs| - 1], actor, now);
      PartCounts(rs[|rs| - 1], actor, now);
    }
  }

  /** An alert is less than five minutes old. */
  ghost predicate Penalised(log: seq<Alert>, now: int) {
    exists i :: 0 <= i < |log| && now < log[i].ts + 300_000_000_000
  }

  lemma PenaltyIs(a: ActorState, log: seq<Alert>, now: nat)
    requires Remembers(a, log, now) && Spaced(log, now) && AlertsOk(a)
    ensures a.penaltyUntil > now <==> Penalised(log, now)
  {
    if a.lastKind.Some? {
      assert a.penaltyUntil > now ==> now < log[|log| - 1].ts + 300_000_000_000;
    }
    if i :| 0 <= i < |log| && now < log[i].ts + 300_000_000_000 {
      assert log[i].ts <= log[|log| - 1].ts;
    }
  }

  /** Before a request its actor's penalty is that of its alerts, whatever was pruned. */
  lemma PenaltyRun(rs: seq<Request>, r: Request)
    requires ClockForward(rs + [r])
    ensures Found(KeptActors(RunTable(rs), r.now), r.actor).penaltyUntil > r.now <==>
              Penalised(AlertLog(rs, r.actor), r.now)
  {
    hide Spaced, Remembers, AlertLog, AlertsOk, KeptActors, RunTable, Penalised;
    ClockBefore(rs, r);
    RunLogsOk(rs);
    RunAlertsOk(rs);
    var was := if rs == [] then 0 else rs[|rs| - 1].now;
    var actors, log := RunTable(rs), AlertLog(rs, r.actor);
    assert Spaced(log, was);
    LastNotLater(rs, r);
    KeptRemembers(actors, r.actor, log, was, r.now);
    KeptAlertsOk(actors, r.actor, r.now);
    PenaltyIs(Found(KeptActors(actors, r.now), r.actor), log, r.now);
  }

  lemma KeptAlertsOk(actors: Actors, actor: string, now: int)
    requires actor in actors ==> AlertsOk(actors[actor])
    ensures AlertsOk(Found(KeptActors(actors, now), actor))
  {
  }

  /** A request, in any traffic in time order, is suspect if and only if its path climbs, or within the minute its
      actor met 8 refused logins, 15 denials, 20 rate limits, 240 requests at more than eight times its baseline, or,
      unless an admin, uploaded more than 512 MiB, or an alert of its actor is less than five minutes old. */
  lemma VerdictByLog(rs: seq<Request>, r: Request)
    requires ClockForward(rs + [r])
    ensures var all, actor, now := rs + [r], r.actor, r.now; var baseline := Facing(rs, r).baseline;
            RecordedIn(RunTable(rs), r).1.suspect <==>
              || r.dotDot
              || Answered(all, actor, now, {401}) >= 8
              || Answered(all, actor, now, {403, 404}) >= 15
              || Answered(all, actor, now, {429}) >= 20
              || (baseline >= 1.0 && Requests(all, actor, now) >= 240
                  && Requests(all, actor, now) as real > 8.0 * baseline)
              || (!r.isAdmin && Uploaded(all, actor, now) > 536870912)
              || Penalised(AlertLog(rs, actor), now)
  {
    hide KeptActors, Rotated, BucketOf, Recent, RunTable, RecordedIn, AlertLog, Penalised;
    var before := Rotated(Found(KeptActors(RunTable(rs), r.now), r.actor), BucketOf(r.now));
    VerdictExact(rs, r);
    PenaltyRun(rs, r);
    RecentCounts(rs + [r], r.actor, r.now);
    RotatedKeepsAlerts(Found(KeptActors(RunTable(rs), r.now), r.actor), BucketOf(r.now));
    FacingBaseline(rs, r);
    RulesByNumbers(before, Recent(rs + [r], r.actor, BucketOf(r.now) - BUCKETS, BucketOf(r.now)), r);
  }

  lemma RulesByNumbers(a: ActorState, s: Counts, r: Request)
    ensures Suspicious(a, s, r) <==>
              || r.dotDot || s.e401 >= 8 || s.e403 + s.e404 >= 15 || s.e429 >= 20
              || (a.baseline >= 1.0 && s.req >= 240 && s.req as real > 8.0 * a.baseline)
              || (!r.isAdmin && s.bytesIn > 536870912)
              || a.penaltyUntil > r.now
  {
    assert Breaks(PathTraversal, s, a.baseline, r) <==> r.dotDot;
    assert Breaks(AuthBruteforce, s, a.baseline, r) <==> s.e401 >= 8;
    assert Breaks(Probe, s, a.baseline, r) <==> s.e403 + s.e404 >= 15;
    assert Breaks(LimitHammering, s, a.baseline, r) <==> s.e429 >= 20;
    assert Breaks(RateAnomaly, s, a.baseline, r) <==>
           a.baseline >= 1.0 && s.req >= 240 && s.req as real > 8.0 * a.baseline;
    assert Breaks(UploadFlood, s, a.baseline, r) <==> !r.isAdmin && s.bytesIn > 536870912;
  }

  lemma FacingBaseline(rs: seq<Request>, r: Request)
    ensures Facing(rs, r).baseline ==
            Rotated(Found(KeptActors(RunTable(rs), r.now), r.actor), BucketOf(r.now)).baseline
  {
    hide KeptActors, BucketOf, RunTable, SumOf;
    RotatedIgnoresSeen(Found(KeptActors(RunTable(rs), r.now), r.actor), r.now, BucketOf(r.now));
  }

  /** The baseline a request is judged against: within one bucket it stands; a first full look takes the minute's count;
      later ones a fifth of it, or, after a minute or more of silence, six hundredths. */
  lemma BaselineStep(rs: seq<Request>, r: Request)
    requires ClockForward(rs + [r])
    ensures var a := Found(KeptActors(RunTable(rs), r.now), r.actor); var b := r.now / 5_000_000_000;
            var rpm := Recent(rs, r.actor, a.winStart - 12, a.winStart).req as real;
            Facing(rs, r).baseline ==
            if a.winStart < 0 || b <= a.winStart then a.baseline
            else if a.baseline < 0.0 then rpm
            else if b - a.winStart >= 12 then 0.7 * a.baseline + 0.06 * rpm
            else 0.8 * a.baseline + 0.2 * rpm
  {
    hide BucketOf, SumOf, Recent, KeptActors, RunTable, EntryOk, Silent;
    var a := Found(KeptActors(RunTable(rs), r.now), r.actor);
    FacingBaseline(rs, r);
    BucketIs(r.now);
    ClockBefore(rs, r);
    RunOk(rs);
    var was := if rs == [] then 0 else rs[|rs| - 1].now;
    LastNotLater(rs, r);
    PruneKeeps(RunTable(rs), rs, was, r.now);
    if a.winStart >= 0 {
      WindowCounts(a, rs, r.actor, r.now);
    }
  }

  lemma WindowCounts(a: ActorState, rs: seq<Request>, actor: string, now: int)
    requires EntryOk(a, rs, actor, now) && a.winStart >= 0
    ensures SumOf(a.win) == Recent(rs, actor, a.winStart - 12, a.winStart)
  {
    hide Recent, SumOf, BucketOf;
    SumIsRecent(a.win, a.winStart, rs, actor, BUCKETS);
    assert a.win[..BUCKETS] == a.win;
  }

  // ---- which alerts a request raises ----

  /** Alerts of some kinds, all at one moment. */
  function Alerts(kinds: seq<Kind>, now: int): seq<Alert> {
    seq(|kinds|, i requires 0 <= i < |kinds| => Alert(kinds[i], now))
  }

  /** The actor's last alert is of this kind and less than two minutes old. */
  predicate CoolsDown(log: seq<Alert>, kind: Kind, now: int) {
    log != [] && log[|log| - 1].kind == kind && now - log[|log| - 1].ts < 120_000_000_000
  }

  lemma SuppressedIs(a: ActorState, log: seq<Alert>, kind: Kind, now: int)
    requires Remembers(a, log, now)
    ensures Suppressed(a, kind, now) <==> CoolsDown(log, kind, now)
  {
  }

  /** The first rule broken may be cooling down; those after it find another kind remembered. */
  ghost predicate Raises(a: ActorState, j: Judgement, broken: seq<Kind>, now: int) {
    && j.alerts == Alerts(if broken != [] && Suppressed(a, broken[0], now) then broken[1..] else broken, now)
    && j.actor.lastKind == (if broken == [] then a.lastKind else Some(broken[|broken| - 1]))
    && (broken == [] ==> j.actor.lastAlert == a.lastAlert)
  }

  lemma RuleRaises(a: ActorState, j: Judgement, broken: seq<Kind>, kind: Kind, now: int)
    requires Raises(a, j, broken, now) && kind !in broken
    ensures Raises(a, Rule(j, true, kind, now), broken + [kind], now)
  {
    assert Alerts(broken + [kind], now) == Alerts(broken, now) + [Alert(kind, now)];
    assert (broken + [kind])[1..] == if broken == [] then [] else broken[1..] + [kind];
    if broken != [] {
      assert Alerts(broken[1..] + [kind], now) == Alerts(broken[1..], now) + [Alert(kind, now)];
    }
  }

  lemma {:induction false} RulesRaise(a: ActorState, kinds: seq<Kind>, s: Counts, r: Request)
    requires forall i, j :: 0 <= i < j < |kinds| ==> kinds[i] != kinds[j]
    ensures Raises(a, JudgedBy(Judgement(a, false, []), kinds, s, r), Broken(kinds, s, a.baseline, r), r.now)
    ensures forall k :: k in Broken(kinds, s, a.baseline, r) ==> k in kinds
    decreases |kinds|
  {
    hide Breaks, Rule, Raises;
    if kinds == [] {
      NothingRaises(a, r.now);
    } else {
      var n := |kinds| - 1;
      RulesRaise(a, kinds[..n], s, r);
      var j, broken := JudgedBy(Judgement(a, false, []), kinds[..n], s, r), Broken(kinds[..n], s, a.baseline, r);
      JudgingKeepsWindow(Judgement(a, false, []), kinds[..n], s, r);
      if Breaks(kinds[n], s, a.baseline, r) {
        RuleRaises(a, j, broken, kinds[n], r.now);
      } else {
        NoRule(j, kinds[n], r.now);
        assert broken + [] == broken;
      }
    }
  }

  lemma NothingRaises(a: ActorState, now: int)
    ensures Raises(a, Judgement(a, false, []), [], now)
  {
  }

  /** In any traffic in time order a request alerts once for every rule it breaks, in their order, except for the first
      one it breaks if that is the kind of the actor's last alert, less than two minutes ago. */
  lemma AlertsByLog(rs: seq<Request>, r: Request)
    requires ClockForward(rs + [r])
    ensures var log, broken := AlertLog(rs, r.actor), BrokenBy(rs, r);
            AlertLog(rs + [r], r.actor) ==
            log + Alerts(if broken != [] && CoolsDown(log, broken[0], r.now) then broken[1..] else broken, r.now)
  {
    hide Spaced, Remembers, AlertsOk, KeptActors, RunTable, SumOf, JudgedBy, Broken, Rotated, BucketOf;
    ClockBefore(rs, r);
    RunLogsOk(rs);
    RunAlertsOk(rs);
    var was := if rs == [] then 0 else rs[|rs| - 1].now;
    var actors, log := RunTable(rs), AlertLog(rs, r.actor);
    assert Spaced(log, was);
    LastNotLater(rs, r);
    KeptRemembers(actors, r.actor, log, was, r.now);
    var found := Found(KeptActors(actors, r.now), r.actor);
    CountingKeeps(found, r);
    var a := Facing(rs, r);
    RulesRaise(a, KINDS, SumOf(a.win), r);
    SameRemembers(found, a, log, r.now);
    var broken := BrokenBy(rs, r);
    if broken != [] {
      SuppressedIs(a, log, broken[0], r.now);
    }
    assert (rs + [r])[..|rs|] == rs;
  }

  function When(broken: bool, kind: Kind): seq<Kind> {
    if broken then [kind] else []
  }

  lemma BrokenInOrder(s: Counts, baseline: real, r: Request)
    ensures Broken(KINDS, s, baseline, r) ==
            When(r.dotDot, PathTraversal) + When(s.e401 >= 8, AuthBruteforce) + When(s.e403 + s.e404 >= 15, Probe) +
            When(s.e429 >= 20, LimitHammering) +
            When(baseline >= 1.0 && s.req >= 240 && s.req as real > 8.0 * baseline, RateAnomaly) +
            When(!r.isAdmin && s.bytesIn > 536870912, UploadFlood)
  {
    hide Broken, When;
    BrokenChain(s, baseline, r);
    assert Breaks(PathTraversal, s, baseline, r) == r.dotDot;
    assert Breaks(AuthBruteforce, s, baseline, r) == (s.e401 >= 8);
    assert Breaks(Probe, s, baseline, r) == (s.e403 + s.e404 >= 15);
    assert Breaks(LimitHammering, s, baseline, r) == (s.e429 >= 20);
    assert Breaks(RateAnomaly, s, baseline, r) ==
           (baseline >= 1.0 && s.req >= 240 && s.req as real > 8.0 * baseline);
    assert Breaks(UploadFlood, s, baseline, r) == (!r.isAdmin && s.bytesIn > 536870912);
  }

  lemma BrokenChain(s: Counts, baseline: real, r: Request)
    ensures Broken(KINDS, s, baseline, r) ==
            When(Breaks(PathTraversal, s, baseline, r), PathTraversal) +
            When(Breaks(AuthBruteforce, s, baseline, r), AuthBruteforce) +
            When(Breaks(Probe, s, baseline, r), Probe) +
            When(Breaks(LimitHammering, s, baseline, r), LimitHammering) +
            When(Breaks(RateAnomaly, s, baseline, r), RateAnomaly) +
            When(Breaks(UploadFlood, s, baseline, r), UploadFlood)
  {
    hide Breaks, When, Broken;
    assert KINDS[..6] == KINDS;
    NoneBroken(s, baseline, r);
    BrokenSnoc(0, s, baseline, r);
    BrokenSnoc(1, s, baseline, r);
    BrokenSnoc(2, s, baseline, r);
    BrokenSnoc(3, s, baseline, r);
    BrokenSnoc(4, s, baseline, r);
    BrokenSnoc(5, s, baseline, r);
  }

  lemma NoneBroken(s: Counts, baseline: real, r: Request)
    ensures Broken(KINDS[..0], s, baseline, r) == []
  {
  }

  lemma BrokenSnoc(i: nat, s: Counts, baseline: real, r: Request)
    requires i < 6
    ensures Broken(KINDS[..i + 1], s, baseline, r) ==
            Broken(KINDS[..i], s, baseline, r) + When(Breaks(KINDS[i], s, baseline, r), KINDS[i])
  {
    assert KINDS[..i + 1][..i] == KINDS[..i];
  }

  /** The kinds of alerts a request is due, in their order, by the counts of the log. */
  lemma KindsByLog(rs: seq<Request>, r: Request)
    requires ClockForward(rs + [r])
    ensures var all, actor, now := rs + [r], r.actor, r.now; var baseline := Facing(rs, r).baseline;
            BrokenBy(rs, r) ==
            When(r.dotDot, PathTraversal) +
            When(Answered(all, actor, now, {401}) >= 8, AuthBruteforce) +
            When(Answered(all, actor, now, {403, 404}) >= 15, Probe) +
            When(Answered(all, actor, now, {429}) >= 20, LimitHammering) +
            When(baseline >= 1.0 && Requests(all, actor, now) >= 240 &&
                 Requests(all, actor, now) as real > 8.0 * baseline, RateAnomaly) +
            When(!r.isAdmin && Uploaded(all, actor, now) > 536870912, UploadFlood)
  {
    hide Broken, SumOf, Recent, KeptActors, RunTable, Answered, Requests, Uploaded, BucketOf, When;
    FacingSums(rs, r);
    RecentCounts(rs + [r], r.actor, r.now);
    BrokenInOrder(SumOf(Facing(rs, r).win), Facing(rs, r).baseline, r);
  }

  lemma FacingSums(rs: seq<Request>, r: Request)
    requires ClockForward(rs + [r])
    ensures SumOf(Facing(rs, r).win) == Recent(rs + [r], r.actor, BucketOf(r.now) - BUCKETS, BucketOf(r.now))
  {
    hide Recent, SumOf, EntryOk, BucketOf, KeptActors, Rotated, Judged, RunTable;
    RunOk(rs + [r]);
    var found := Found(KeptActors(RunTable(rs), r.now), r.actor);
    CountingKeeps(found, r);
    JudgedKeepsWindow(Counting(found, r), r);
    RotatedIgnoresSeen(found, r.now, BucketOf(r.now));
    LastEntry(rs, r);
    EntrySums(RunTable(rs + [r])[r.actor], rs + [r], r.actor, r.now);
  }

  lemma LastEntry(rs: seq<Request>, r: Request)
    ensures r.actor in RunTable(rs + [r])
    ensures RunTable(rs + [r])[r.actor] == Recorded(Found(KeptActors(RunTable(rs), r.now), r.actor), r).actor
    ensures RunTable(rs + [r])[r.actor].lastSeen == r.now
  {
    hide Rotated, SumOf, KeptActors, JudgedBy, BucketOf;
    assert (rs + [r])[..|rs|] == rs && (rs + [r])[|rs|] == r;
    RecordedExact(Found(KeptActors(RunTable(rs), r.now), r.actor), r);
  }

  /** A request drops no other actor's record unless there are more than 4096 and that one idled for over ten
      minutes, and changes none. */
  lemma OthersKept(actors: Actors, r: Request, other: string)
    requires other != r.actor
    ensures var after := RecordedIn(actors, r).0;
            && (other in after <==>
                  other in actors && !(|actors| > 4096 && r.now - actors[other].lastSeen > 600_000_000_000))
            && (other in after ==> after[other] == actors[other])
  {
    hide Recorded;
  }
}
