/** The alerts an actor receives, and how far the two-minute cooldown per kind reaches. */
module FlowAlerts {
  import opened Wrappers
  import opened History
  import opened FlowGuard

  /** Every alert of one actor in a run, pruning included. */
  function AlertLog(rs: seq<Request>, actor: string): seq<Alert> {
    if rs == [] then []
    else
      var r := rs[|rs| - 1];
      AlertLog(rs[..|rs| - 1], actor) +
        if r.actor == actor then RecordedIn(RunTable(rs[..|rs| - 1]), r).1.alerts else []
  }

  /** What the source's header promises: one kind at most every two minutes. */
  ghost predicate Promise(log: seq<Alert>) {
    forall i, j :: 0 <= i < j < |log| ==> !Close(log[i], log[j])
  }

  /** One kind twice within the cooldown. */
  predicate Close(earlier: Alert, later: Alert) {
    earlier.kind == later.kind && later.ts - earlier.ts < COOLDOWN
  }

  ghost predicate OtherKindBetween(log: seq<Alert>, i: nat, j: nat)
    requires i < j < |log|
  {
    exists l :: i < l < j && log[l].kind != log[i].kind
  }

  /** Two close alerts with another kind between them. */
  ghost predicate Interrupted(log: seq<Alert>) {
    exists i, j :: 0 <= i < j < |log| && Close(log[i], log[j]) && OtherKindBetween(log, i, j)
  }

  /** In time order, with alerts of one kind in a row far enough apart. */
  ghost predicate Spaced(log: seq<Alert>, now: int) {
    && (forall i, j :: 0 <= i < j < |log| ==> log[i].ts <= log[j].ts)
    && (forall i :: 0 <= i < |log| ==> log[i].ts <= now)
    && forall i :: 0 <= i < |log| - 1 && log[i].kind == log[i + 1].kind ==> log[i + 1].ts - log[i].ts >= COOLDOWN
  }

  /** The record holds the last alert, or has none and the last alert is past its penalty. */
  ghost predicate Remembers(a: ActorState, log: seq<Alert>, now: int) {
    || (log != [] && a.lastKind == Some(log[|log| - 1].kind) && a.lastAlert == log[|log| - 1].ts)
    || (a.lastKind.None? && (log == [] || now - log[|log| - 1].ts >= 5 * MINUTE))
  }

  /** One rule extends the log by what it lets through. */
  lemma RuleLogs(j: Judgement, broken: bool, kind: Kind, now: int, log: seq<Alert>)
    requires Remembers(j.actor, log + j.alerts, now) && Spaced(log + j.alerts, now)
    ensures var k := Rule(j, broken, kind, now);
            Remembers(k.actor, log + k.alerts, now) && Spaced(log + k.alerts, now)
  {
    hide Spaced;
    assert log + (j.alerts + [Alert(kind, now)]) == log + j.alerts + [Alert(kind, now)];
    if !Suppressed(j.actor, kind, now) {
      SpacedSnoc(log + j.alerts, kind, now);
    }
  }

  lemma SpacedSnoc(log: seq<Alert>, kind: Kind, now: int)
    requires Spaced(log, now)
    requires log != [] && log[|log| - 1].kind == kind ==> now - log[|log| - 1].ts >= COOLDOWN
    ensures Spaced(log + [Alert(kind, now)], now)
  {
  }

  lemma {:induction false} JudgingLogs(j: Judgement, kinds: seq<Kind>, s: Counts, r: Request, log: seq<Alert>)
    requires Remembers(j.actor, log + j.alerts, r.now) && Spaced(log + j.alerts, r.now)
    ensures var k := JudgedBy(j, kinds, s, r);
            Remembers(k.actor, log + k.alerts, r.now) && Spaced(log + k.alerts, r.now)
  {
    hide Breaks, Remembers, Spaced, Rule;
    if kinds != [] {
      var before := JudgedBy(j, kinds[..|kinds| - 1], s, r);
      JudgingLogs(j, kinds[..|kinds| - 1], s, r, log);
      RuleLogs(before, Breaks(kinds[|kinds| - 1], s, before.actor.baseline, r), kinds[|kinds| - 1], r.now, log);
    }
  }

  /** The counted record on which a request is judged. */
  function Counting(a: ActorState, r: Request): ActorState {
    Counted(Rotated(a.(lastSeen := r.now), BucketOf(r.now)), One(r.status, r.bytesIn))
  }

  lemma CountingKeeps(a: ActorState, r: Request)
    ensures Counting(a, r).lastKind == a.lastKind && Counting(a, r).lastAlert == a.lastAlert
    ensures Recorded(a, r) == Judged(Counting(a, r), r)
  {
    hide SumOf, JudgedBy, BucketOf;
  }

  lemma RecordedLogs(a: ActorState, r: Request, log: seq<Alert>)
    requires Remembers(a, log, r.now) && Spaced(log, r.now)
    ensures var j := Recorded(a, r); Remembers(j.actor, log + j.alerts, r.now) && Spaced(log + j.alerts, r.now)
  {
    hide Spaced, Recorded, Counting, SumOf, JudgedBy;
    CountingKeeps(a, r);
    var c := Counting(a, r);
    assert log + [] == log;
    JudgingLogs(Judgement(c, false, []), KINDS, SumOf(c.win), r, log);
  }

  /** As of `now`, the table remembers every actor's alerts. */
  ghost predicate LogsOk(rs: seq<Request>, now: int) {
    forall actor: string ::
      Spaced(AlertLog(rs, actor), now) && Remembers(Found(RunTable(rs), actor), AlertLog(rs, actor), now)
  }

  /** Pruning forgets an alert only when its cooldown is long over. */
  lemma KeptRemembers(actors: Actors, actor: string, log: seq<Alert>, was: int, now: int)
    requires was <= now && Spaced(log, was) && Remembers(Found(actors, actor), log, was)
    requires actor in actors ==> AlertsOk(actors[actor])
    ensures Spaced(log, now) && Remembers(Found(KeptActors(actors, now), actor), log, now)
  {
    assert actor in actors && actor !in KeptActors(actors, now) ==> now - actors[actor].lastSeen > 10 * MINUTE;
  }

  lemma {:induction false} RunLogsOk(rs: seq<Request>)
    requires ClockForward(rs)
    ensures LogsOk(rs, if rs == [] then 0 else rs[|rs| - 1].now)
  {
    if rs != [] {
      RunLogsOk(rs[..|rs| - 1]);
      forall actor: string
        ensures Spaced(AlertLog(rs, actor), rs[|rs| - 1].now)
        ensures Remembers(Found(RunTable(rs), actor), AlertLog(rs, actor), rs[|rs| - 1].now)
      {
        RequestLogs(rs, actor);
      }
    }
  }

  lemma RequestLogs(rs: seq<Request>, actor: string)
    requires rs != [] && ClockForward(rs)
    requires LogsOk(rs[..|rs| - 1], if |rs| == 1 then 0 else rs[|rs| - 2].now)
    ensures Spaced(AlertLog(rs, actor), rs[|rs| - 1].now)
    ensures Remembers(Found(RunTable(rs), actor), AlertLog(rs, actor), rs[|rs| - 1].now)
  {
    hide Spaced, Remembers, KeptActors, Recorded, AlertsOk;
    var before, r := rs[..|rs| - 1], rs[|rs| - 1];
    var actors, log := RunTable(before), AlertLog(before, actor);
    assert Spaced(log, if |rs| == 1 then 0 else rs[|rs| - 2].now);
    RunAlertsOk(before);
    KeptRemembers(actors, actor, log, if |rs| == 1 then 0 else rs[|rs| - 2].now, r.now);
    if r.actor == actor {
      RecordedLogs(Found(KeptActors(actors, r.now), actor), r, log);
    } else {
      assert log + [] == log;
    }
  }

  // ---- what the cooldown guarantees, and when it keeps its promise ----

  /** Alerts of one kind in a row are two minutes apart, whatever the traffic. */
  lemma AlertSpacing(rs: seq<Request>, actor: string, i: nat)
    requires ClockForward(rs) && i + 1 < |AlertLog(rs, actor)|
    requires AlertLog(rs, actor)[i].kind == AlertLog(rs, actor)[i + 1].kind
    ensures AlertLog(rs, actor)[i + 1].ts - AlertLog(rs, actor)[i].ts >= COOLDOWN
  {
    hide AlertLog, RunTable;
    RunLogsOk(rs);
    assert Spaced(AlertLog(rs, actor), if rs == [] then 0 else rs[|rs| - 1].now);
  }

  /** Any two alerts of one kind are two minutes apart if and only if no other kind lies between two that are closer. */
  lemma CooldownExact(rs: seq<Request>, actor: string)
    requires ClockForward(rs)
    ensures Promise(AlertLog(rs, actor)) <==> !Interrupted(AlertLog(rs, actor))
  {
    hide AlertLog, RunTable, Promise, Interrupted;
    RunLogsOk(rs);
    SpacedPromise(AlertLog(rs, actor), if rs == [] then 0 else rs[|rs| - 1].now);
  }

  lemma SpacedPromise(log: seq<Alert>, now: int)
    requires Spaced(log, now)
    ensures Promise(log) <==> !Interrupted(log)
  {
    forall i, j | 0 <= i < j < |log| && Close(log[i], log[j])
      ensures OtherKindBetween(log, i, j)
    {
      CloseInterrupted(log, now, i, j);
    }
  }

  lemma SpacedAt(log: seq<Alert>, now: int, k: nat)
    requires Spaced(log, now) && k + 1 < |log|
    ensures log[k].kind == log[k + 1].kind ==> log[k + 1].ts - log[k].ts >= COOLDOWN
  {
  }

  lemma CloseInterrupted(log: seq<Alert>, now: int, i: nat, j: nat)
    requires Spaced(log, now) && i < j < |log| && Close(log[i], log[j])
    ensures OtherKindBetween(log, i, j)
  {
    SpacedAt(log, now, j - 1);
    assert log[i].ts <= log[j - 1].ts;
  }

  /** An alert of this kind younger than the cooldown. */
  ghost predicate Young(log: seq<Alert>, kind: Kind, now: int) {
    exists i :: 0 <= i < |log| && Close(log[i], Alert(kind, now))
  }

  /** The kinds a request breaks, in the order of the rules. */
  ghost function Broken(kinds: seq<Kind>, s: Counts, baseline: real, r: Request): seq<Kind> {
    if kinds == [] then []
    else
      var k := kinds[|kinds| - 1];
      Broken(kinds[..|kinds| - 1], s, baseline, r) + if Breaks(k, s, baseline, r) then [k] else []
  }

  /** Every broken kind that is still cooling down is the first one broken and the last one remembered. */
  ghost predicate Respects(a: ActorState, log: seq<Alert>, broken: seq<Kind>, now: int) {
    forall i :: 0 <= i < |broken| && Young(log, broken[i], now) ==> i == 0 && a.lastKind == Some(broken[i])
  }

  /** Before a raise: it keeps the promise unless its own last alert is young and another kind is remembered. */
  lemma RaiseKeepsPromise(a: ActorState, log: seq<Alert>, kind: Kind, now: int)
    requires Remembers(a, log, now) && Spaced(log, now) && Promise(log)
    ensures Promise(if Suppressed(a, kind, now) then log else log + [Alert(kind, now)])
            <==> !(a.lastKind != Some(kind) && Young(log, kind, now))
  {
    var grown := log + [Alert(kind, now)];
    assert grown[|log|] == Alert(kind, now) && forall i :: 0 <= i < |log| ==> grown[i] == log[i];
    if !Suppressed(a, kind, now) && Young(log, kind, now) {
      var i :| 0 <= i < |log| && Close(log[i], Alert(kind, now));
      assert Close(grown[i], grown[|log|]);
      assert log[i].ts <= log[|log| - 1].ts;
    }
  }

  /** Where judging stands once the rules in `broken` have raised. */
  ghost predicate Standing(a: ActorState, log: seq<Alert>, j: Judgement, broken: seq<Kind>, now: int) {
    && Remembers(j.actor, log + j.alerts, now) && Spaced(log + j.alerts, now)
    && (Promise(log + j.alerts) <==> Respects(a, log, broken, now))
    && j.actor.lastKind == (if broken == [] then a.lastKind else Some(broken[|broken| - 1]))
    && forall k :: k !in broken ==> (Young(log + j.alerts, k, now) <==> Young(log, k, now))
  }

  lemma RespectsOneMore(a: ActorState, log: seq<Alert>, broken: seq<Kind>, kind: Kind, now: int)
    ensures Respects(a, log, broken + [kind], now) <==>
              Respects(a, log, broken, now) && (Young(log, kind, now) ==> broken == [] && a.lastKind == Some(kind))
  {
    hide Young;
    var more := broken + [kind];
    assert more[|broken|] == kind && forall i :: 0 <= i < |broken| ==> more[i] == broken[i];
  }

  lemma PromisePrefix(log: seq<Alert>, last: Alert)
    requires Promise(log + [last])
    ensures Promise(log)
  {
    forall i, j | 0 <= i < j < |log|
      ensures !Close(log[i], log[j])
    {
      assert (log + [last])[i] == log[i] && (log + [last])[j] == log[j];
    }
  }

  lemma YoungOneMore(log: seq<Alert>, kind: Kind, now: int, k: Kind)
    ensures k != kind ==> (Young(log + [Alert(kind, now)], k, now) <==> Young(log, k, now))
  {
    var grown := log + [Alert(kind, now)];
    assert forall i :: 0 <= i < |log| ==> grown[i] == log[i];
    if i :| 0 <= i < |log| && Close(log[i], Alert(k, now)) {
      assert Close(grown[i], Alert(k, now));
    }
  }

  /** One more broken rule, of a kind not raised before in this request. */
  lemma RuleStands(a: ActorState, log: seq<Alert>, j: Judgement, broken: seq<Kind>, kind: Kind, now: int)
    requires Standing(a, log, j, broken, now) && kind !in broken
    ensures Standing(a, log, Rule(j, true, kind, now), broken + [kind], now)
  {
    hide Spaced, Promise, Respects, Young, Remembers;
    var k, last := Rule(j, true, kind, now), Alert(kind, now);
    RuleLogs(j, true, kind, now, log);
    RespectsOneMore(a, log, broken, kind, now);
    if Promise(log + j.alerts) {
      RaiseKeepsPromise(j.actor, log + j.alerts, kind, now);
    } else if Promise(log + j.alerts + [last]) {
      PromisePrefix(log + j.alerts, last);
    }
    assert log + (j.alerts + [last]) == log + j.alerts + [last];
    forall other | other !in broken + [kind]
      ensures Young(log + k.alerts, other, now) <==> Young(log, other, now)
    {
      YoungOneMore(log + j.alerts, kind, now, other);
    }
  }

  lemma {:induction false} RulesStand(a: ActorState, kinds: seq<Kind>, s: Counts, r: Request, log: seq<Alert>)
    requires Remembers(a, log, r.now) && Spaced(log, r.now) && Promise(log)
    requires forall i, j :: 0 <= i < j < |kinds| ==> kinds[i] != kinds[j]
    ensures Standing(a, log, JudgedBy(Judgement(a, false, []), kinds, s, r), Broken(kinds, s, a.baseline, r), r.now)
    ensures forall k :: k in Broken(kinds, s, a.baseline, r) ==> k in kinds
    decreases |kinds|
  {
    hide Breaks, Standing, Rule, Spaced, Promise;
    if kinds == [] {
      NothingRaised(a, log, r.now);
    } else {
      var n := |kinds| - 1;
      RulesStand(a, kinds[..n], s, r, log);
      var j, broken := JudgedBy(Judgement(a, false, []), kinds[..n], s, r), Broken(kinds[..n], s, a.baseline, r);
      JudgingKeepsWindow(Judgement(a, false, []), kinds[..n], s, r);
      if Breaks(kinds[n], s, a.baseline, r) {
        RuleStands(a, log, j, broken, kinds[n], r.now);
      } else {
        NoRule(j, kinds[n], r.now);
        assert broken + [] == broken;
      }
    }
  }

  lemma NoRule(j: Judgement, kind: Kind, now: int)
    ensures Rule(j, false, kind, now) == j
  {
  }

  lemma NothingRaised(a: ActorState, log: seq<Alert>, now: int)
    requires Remembers(a, log, now) && Spaced(log, now) && Promise(log)
    ensures Standing(a, log, Judgement(a, false, []), [], now)
  {
    assert log + [] == log;
  }

  /** What the table holds of an actor when its next request is judged: counted, with the alerts remembered so far. */
  ghost function Facing(rs: seq<Request>, r: Request): ActorState {
    Counting(Found(KeptActors(RunTable(rs), r.now), r.actor), r)
  }

  ghost function BrokenBy(rs: seq<Request>, r: Request): seq<Kind> {
    var a := Facing(rs, r);
    Broken(KINDS, SumOf(a.win), a.baseline, r)
  }

  /** Before a request: it keeps the promise if and only if every rule it breaks whose own last alert is still young
      is the first rule it breaks and the kind remembered. */
  lemma RequestKeepsPromise(rs: seq<Request>, r: Request)
    requires ClockForward(rs + [r]) && Promise(AlertLog(rs, r.actor))
    ensures Promise(AlertLog(rs + [r], r.actor))
            <==> Respects(Facing(rs, r), AlertLog(rs, r.actor), BrokenBy(rs, r), r.now)
  {
    hide Spaced, Promise, Respects, SumOf, JudgedBy, Broken, Counting, KeptActors, Remembers, AlertsOk;
    ClockBefore(rs, r);
    RunLogsOk(rs);
    RunAlertsOk(rs);
    var log, was := AlertLog(rs, r.actor), if rs == [] then 0 else rs[|rs| - 1].now;
    LastNotLater(rs, r);
    assert Spaced(log, was);
    KeptRemembers(RunTable(rs), r.actor, log, was, r.now);
    var found := Found(KeptActors(RunTable(rs), r.now), r.actor);
    CountingKeeps(found, r);
    var a := Counting(found, r);
    SameRemembers(found, a, log, r.now);
    RulesStand(a, KINDS, SumOf(a.win), r, log);
  }

  lemma LastNotLater(rs: seq<Request>, r: Request)
    requires ClockForward(rs + [r])
    ensures rs != [] ==> rs[|rs| - 1].now <= r.now
  {
    assert (rs + [r])[|rs|] == r && (rs != [] ==> (rs + [r])[|rs| - 1] == rs[|rs| - 1]);
  }

  lemma SameRemembers(a: ActorState, b: ActorState, log: seq<Alert>, now: int)
    requires Remembers(a, log, now) && b.lastKind == a.lastKind && b.lastAlert == a.lastAlert
    ensures Remembers(b, log, now)
  {
  }

  // ---- a pair of requests that breaks it ----

  /** One rule of the table. */
  lemma JudgeStep(j: Judgement, n: nat, s: Counts, r: Request)
    requires n < |KINDS|
    ensures var k := JudgedBy(j, KINDS[..n], s, r);
            JudgedBy(j, KINDS[..n + 1], s, r) == Rule(k, Breaks(KINDS[n], s, k.actor.baseline, r), KINDS[n], r.now)
  {
    assert KINDS[..n + 1][..n] == KINDS[..n];
  }

  /** A climbing path with a large upload and little else, judged on a record that remembers another kind. */
  lemma Climbs(c: ActorState, s: Counts, r: Request)
    requires r.dotDot && !r.isAdmin && s.bytesIn > 512 * 1024 * 1024
    requires s.e401 == 0 && s.e403 == 0 && s.e404 == 0 && s.e429 == 0 && s.req < 240
    requires c.lastKind != Some(PathTraversal)
    ensures var j := JudgedBy(Judgement(c, false, []), KINDS, s, r);
            && j.alerts == [Alert(PathTraversal, r.now), Alert(UploadFlood, r.now)]
            && j.actor.lastKind == Some(UploadFlood)
  {
    hide Rule, Breaks;
    var j := Judgement(c, false, []);
    BreaksTwo(s, c.baseline, r);
    JudgingKeepsWindow(j, KINDS[..5], s, r);
    JudgeStep(j, 0, s, r);
    RuleFires(j, PathTraversal, r.now);
    var k := Rule(j, true, PathTraversal, r.now);
    JudgeStep(j, 1, s, r);
    JudgeStep(j, 2, s, r);
    JudgeStep(j, 3, s, r);
    JudgeStep(j, 4, s, r);
    NoRule(k, AuthBruteforce, r.now);
    NoRule(k, Probe, r.now);
    NoRule(k, LimitHammering, r.now);
    NoRule(k, RateAnomaly, r.now);
    JudgeStep(j, 5, s, r);
    RuleFires(k, UploadFlood, r.now);
    assert KINDS[..6] == KINDS;
  }

  lemma BreaksTwo(s: Counts, baseline: real, r: Request)
    requires r.dotDot && !r.isAdmin && s.bytesIn > 512 * 1024 * 1024
    requires s.e401 == 0 && s.e403 == 0 && s.e404 == 0 && s.e429 == 0 && s.req < 240
    ensures forall k :: Breaks(k, s, baseline, r) <==> k == PathTraversal || k == UploadFlood
  {
  }

  /** A rule fires when another kind is remembered. */
  lemma RuleFires(j: Judgement, kind: Kind, now: int)
    requires j.actor.lastKind != Some(kind)
    ensures var k := Rule(j, true, kind, now);
            && k.alerts == j.alerts + [Alert(kind, now)] && k.actor.lastKind == Some(kind)
            && k.actor.baseline == j.actor.baseline
  {
  }

  /** What the large climbing request leaves of an actor, the first time and the second. */
  lemma ClimbsTwice(r: Request)
    requires r.dotDot && !r.isAdmin && r.bytesIn > 512 * 1024 * 1024 && r.status == 200
    ensures var first := Recorded(NEW_ACTOR, r); var second := Recorded(first.actor, r);
            && first.alerts == [Alert(PathTraversal, r.now), Alert(UploadFlood, r.now)]
            && second.alerts == [Alert(PathTraversal, r.now), Alert(UploadFlood, r.now)]
  {
    hide JudgedBy, SumOf, BucketOf;
    var one := One(r.status, r.bytesIn);
    var c := Counting(NEW_ACTOR, r);
    OneRequest(c.win, one);
    Climbs(c, one, r);
    var first := Recorded(NEW_ACTOR, r);
    JudgedKeepsWindow(c, r);
    var d := Counting(first.actor, r);
    assert d.win == EMPTY[BUCKETS - 1 := Add(ZERO, Add(one, one))];
    OneRequest(d.win, Add(one, one));
    Climbs(d, Add(one, one), r);
  }

  /** A large upload whose path climbs, sent twice at one moment: the two rules alternate, each alerts both times. */
  lemma CooldownDefeated(r: Request)
    requires r.dotDot && !r.isAdmin && r.bytesIn > 512 * 1024 * 1024 && r.status == 200
    ensures AlertLog([r, r], r.actor) ==
            [Alert(PathTraversal, r.now), Alert(UploadFlood, r.now),
             Alert(PathTraversal, r.now), Alert(UploadFlood, r.now)]
    ensures !Promise(AlertLog([r, r], r.actor)) && ClockForward([r, r])
  {
    hide Recorded, Promise;
    ClimbsTwice(r);
    assert [r, r][..1] == [r] && [r][..0] == [];
    assert |RunTable([r])| == 1 by {
      assert RunTable([r]).Keys == {r.actor};
    }
    var log := AlertLog([r, r], r.actor);
    assert log == AlertLog([r], r.actor) + Recorded(Recorded(NEW_ACTOR, r).actor, r).alerts;
    assert Close(log[0], log[2]);
    NotPromised(log, 0, 2);
  }

  lemma NotPromised(log: seq<Alert>, i: nat, j: nat)
    requires i < j < |log| && Close(log[i], log[j])
    ensures !Promise(log)
  {
  }
}
