/** Per-actor request counters over a sliding minute, and the rules judged on them. The steady clock is a parameter. */
module FlowGuard {
  import opened Wrappers
  import opened History

  const BUCKETS := 12
  const BUCKET_SECONDS := 5
  const MINUTE := 60 * SECOND
  const MAX_ACTORS := 4096
  const COOLDOWN := 120 * SECOND

  /** The five-second bucket of a moment. */
  function BucketOf(now: nat): nat {
    now / SECOND / BUCKET_SECONDS
  }

  datatype Counts = Counts(req: nat, e401: nat, e403: nat, e404: nat, e429: nat, bytesIn: nat)

  const ZERO := Counts(0, 0, 0, 0, 0, 0)

  function Add(a: Counts, b: Counts): Counts {
    Counts(a.req + b.req, a.e401 + b.e401, a.e403 + b.e403, a.e404 + b.e404, a.e429 + b.e429, a.bytesIn + b.bytesIn)
  }

  /** What one request adds. */
  function One(status: int, bytesIn: nat): Counts {
    Counts(1, if status == 401 then 1 else 0, if status == 403 then 1 else 0, if status == 404 then 1 else 0,
           if status == 429 then 1 else 0, bytesIn)
  }

  function SumOf(win: seq<Counts>): Counts {
    if win == [] then ZERO else Add(SumOf(win[..|win| - 1]), win[|win| - 1])
  }

  datatype Kind = PathTraversal | AuthBruteforce | Probe | LimitHammering | RateAnomaly | UploadFlood

  const EMPTY: seq<Counts> := [ZERO, ZERO, ZERO, ZERO, ZERO, ZERO, ZERO, ZERO, ZERO, ZERO, ZERO, ZERO]

  type Window = w: seq<Counts> | |w| == BUCKETS witness EMPTY

  /** An actor as a value. The last slot of the window is bucket `winStart`; if negative, nothing was counted. */
  datatype ActorState = ActorState(
    win: Window, winStart: int, baseline: real, lastSeen: int, penaltyUntil: int, lastAlert: int,
    lastKind: Option<Kind>)

  // ---- the window ----

  function Slid(win: Window, shift: nat): Window {
    seq(BUCKETS, i requires 0 <= i < BUCKETS => if i + shift < BUCKETS then win[i + shift] else ZERO)
  }

  function NewBaseline(a: ActorState, shift: int): real {
    var rpm := SumOf(a.win).req as real;
    if a.baseline < 0.0 then rpm
    else if shift >= BUCKETS then 0.7 * a.baseline + 0.3 * rpm * 0.2
    else 0.8 * a.baseline + 0.2 * rpm
  }

  function Rotated(a: ActorState, bucket: int): ActorState {
    if a.winStart < 0 then a.(winStart := bucket)
    else
      var shift := bucket - a.winStart;
      if shift <= 0 then a else a.(win := Slid(a.win, shift), winStart := bucket, baseline := NewBaseline(a, shift))
  }

  function Counted(a: ActorState, c: Counts): ActorState {
    a.(win := a.win[BUCKETS - 1 := Add(a.win[BUCKETS - 1], c)])
  }

  // ---- the rules ----

  datatype Alert = Alert(kind: Kind, ts: int)

  /** The cooldown as the source checks it: only the last kind is remembered. */
  predicate Suppressed(a: ActorState, kind: Kind, now: int) {
    a.lastKind == Some(kind) && now - a.lastAlert < COOLDOWN
  }

  function Raised(a: ActorState, kind: Kind, now: int): ActorState {
    if Suppressed(a, kind, now) then a
    else a.(lastAlert := now, lastKind := Some(kind), penaltyUntil := now + 5 * MINUTE)
  }

  /** The actor after the rules, whether the request is suspect, and the alerts it caused. */
  datatype Judgement = Judgement(actor: ActorState, suspect: bool, alerts: seq<Alert>)

  function Rule(j: Judgement, broken: bool, kind: Kind, now: int): Judgement {
    if !broken then j
    else
      Judgement(Raised(j.actor, kind, now), true,
                if Suppressed(j.actor, kind, now) then j.alerts else j.alerts + [Alert(kind, now)])
  }

  datatype Request = Request(actor: string, isAdmin: bool, dotDot: bool, status: int, bytesIn: nat, now: nat)

  predicate Breaks(kind: Kind, s: Counts, baseline: real, r: Request) {
    match kind
    case PathTraversal => r.dotDot
    case AuthBruteforce => s.e401 >= 8
    case Probe => s.e403 + s.e404 >= 15
    case LimitHammering => s.e429 >= 20
    case RateAnomaly => baseline >= 1.0 && s.req as real > 8.0 * baseline && s.req >= 240
    case UploadFlood => !r.isAdmin && s.bytesIn > 512 * 1024 * 1024
  }

  const KINDS := [PathTraversal, AuthBruteforce, Probe, LimitHammering, RateAnomaly, UploadFlood]

  function JudgedBy(j: Judgement, kinds: seq<Kind>, s: Counts, r: Request): Judgement {
    if kinds == [] then j
    else
      var before := JudgedBy(j, kinds[..|kinds| - 1], s, r);
      Rule(before, Breaks(kinds[|kinds| - 1], s, before.actor.baseline, r), kinds[|kinds| - 1], r.now)
  }

  function Judged(a: ActorState, r: Request): Judgement {
    var j := JudgedBy(Judgement(a, false, []), KINDS, SumOf(a.win), r);
    if j.actor.penaltyUntil > r.now then j.(suspect := true) else j
  }

  const NEW_ACTOR := ActorState(EMPTY, -1, -1.0, 0, 0, 0, None)

  type Actors = map<string, ActorState>

  function KeptActors(actors: Actors, now: int): Actors {
    if |actors| > MAX_ACTORS then map k | k in actors && now - actors[k].lastSeen <= 10 * MINUTE :: actors[k]
    else actors
  }

  function Recorded(a: ActorState, r: Request): Judgement {
    Judged(Counted(Rotated(a.(lastSeen := r.now), BucketOf(r.now)), One(r.status, r.bytesIn)), r)
  }

  function Found(actors: Actors, k: string): ActorState {
    if k in actors then actors[k] else NEW_ACTOR
  }

  function RecordedIn(actors: Actors, r: Request): (Actors, Judgement) {
    var kept := KeptActors(actors, r.now);
    var j := Recorded(Found(kept, r.actor), r);
    (kept[r.actor := j.actor], j)
  }

  // ---- the module ----

  class Actor {
    const win: array<Counts>
    var winStart: int
    var baseline: real
    var lastSeen: int
    var penaltyUntil: int
    var lastAlert: int
    var lastKind: Option<Kind>

    constructor ()
      ensures fresh(win) && win.Length == BUCKETS && Value() == NEW_ACTOR
    {
      win := new Counts[BUCKETS](_ => ZERO);
      winStart, baseline, lastSeen, penaltyUntil, lastAlert, lastKind := -1, -1.0, 0, 0, 0, None;
    }

    function Value(): ActorState
      requires win.Length == BUCKETS
      reads this, win
    {
      ActorState(win[..], winStart, baseline, lastSeen, penaltyUntil, lastAlert, lastKind)
    }

    method Sum() returns (s: Counts)
      requires win.Length == BUCKETS
      ensures s == SumOf(win[..])
    {
      s := ZERO;
      for i := 0 to BUCKETS
        invariant s == SumOf(win[..i])
      {
        assert win[..i + 1][..i] == win[..i];
        s := Add(s, win[i]);
      }
      assert win[..BUCKETS] == win[..];
    }

    /** Slide the window in place, oldest bucket out first. */
    method Rotate(bucket: int)
      requires win.Length == BUCKETS
      modifies this, win
      ensures Value() == Rotated(old(Value()), bucket)
    {
      hide SumOf;
      if winStart < 0 {
        winStart := bucket;
        return;
      }
      var shift := bucket - winStart;
      if shift <= 0 {
        return;
      }
      var s := Sum();
      var rpm := s.req as real;
      if shift >= BUCKETS {
        baseline := if baseline < 0.0 then rpm else 0.7 * baseline + 0.3 * rpm * 0.2;
        Shift(BUCKETS);
        assert Slid(old(win[..]), shift) == Slid(old(win[..]), BUCKETS);
      } else {
        baseline := if baseline < 0.0 then rpm else 0.8 * baseline + 0.2 * rpm;
        Shift(shift);
      }
      winStart := bucket;
    }

    method Shift(shift: nat)
      requires win.Length == BUCKETS && 0 < shift <= BUCKETS
      modifies win
      ensures win[..] == Slid(old(win[..]), shift)
    {
      for i := 0 to BUCKETS - shift
        invariant forall k :: 0 <= k < i ==> win[k] == old(win[k + shift])
        invariant forall k :: i <= k < BUCKETS ==> win[k] == old(win[k])
      {
        win[i] := win[i + shift];
      }
      for i := BUCKETS - shift to BUCKETS
        invariant forall k :: 0 <= k < BUCKETS - shift ==> win[k] == old(win[k + shift])
        invariant forall k :: BUCKETS - shift <= k < i ==> win[k] == ZERO
      {
        win[i] := ZERO;
      }
    }

    method Raise(kind: Kind, now: int) returns (alerts: seq<Alert>)
      requires win.Length == BUCKETS
      modifies this
      ensures Value() == Raised(old(Value()), kind, now)
      ensures alerts == if Suppressed(old(Value()), kind, now) then [] else [Alert(kind, now)]
    {
      if lastKind == Some(kind) && now - lastAlert < COOLDOWN {
        return [];
      }
      alerts := [Alert(kind, now)];
      lastAlert := now;
      lastKind := Some(kind);
      penaltyUntil := now + 5 * MINUTE;
    }

    /** Rotate, count, and judge one request. */
    method Record(r: Request) returns (suspect: bool, alerts: seq<Alert>)
      requires win.Length == BUCKETS
      modifies this, win
      ensures Judgement(Value(), suspect, alerts) == Recorded(old(Value()), r)
    {
      hide Rotated, SumOf, Raised, Suppressed, BucketOf;
      lastSeen := r.now;
      Rotate(BucketOf(r.now));
      win[BUCKETS - 1] := Add(win[BUCKETS - 1], One(r.status, r.bytesIn));
      ghost var a := Counted(Rotated(old(Value()).(lastSeen := r.now), BucketOf(r.now)), One(r.status, r.bytesIn));
      assert Value() == a;
      var s := Sum();
      suspect, alerts := false, [];
      for i := 0 to |KINDS|
        invariant Judgement(Value(), suspect, alerts) == JudgedBy(Judgement(a, false, []), KINDS[..i], s, r)
      {
        assert KINDS[..i + 1][..i] == KINDS[..i];
        if Breaks(KINDS[i], s, baseline, r) {
          var raised := Raise(KINDS[i], r.now);
          alerts := alerts + raised;
          suspect := true;
        }
      }
      assert KINDS[..|KINDS|] == KINDS;
      if penaltyUntil > r.now {
        suspect := true;
      }
    }
  }

  class FlowGuard {
    var actors: map<string, Actor>

    /** Actors do not share their windows. */
    ghost predicate Valid()
      reads this, actors.Values, set k | k in actors :: actors[k].win
    {
      && (forall k :: k in actors ==> actors[k].win.Length == BUCKETS)
      && forall j, k :: j in actors && k in actors && j != k ==>
           actors[j] != actors[k] && actors[j].win != actors[k].win
    }

    function Table(): Actors
      requires Valid()
      reads this, actors.Values, set k | k in actors :: actors[k].win
    {
      map k | k in actors :: actors[k].Value()
    }

    constructor ()
      ensures Valid() && Table() == map[]
    {
      actors := map[];
    }

    method Record(r: Request) returns (suspect: bool, alerts: seq<Alert>)
      requires Valid()
      modifies this, actors.Values, set k | k in actors :: actors[k].win
      ensures Valid()
      ensures var (table, j) := RecordedIn(old(Table()), r);
              Table() == table && suspect == j.suspect && alerts == j.alerts
    {
      hide Recorded, KeptActors, Found, Table, Valid, Actor.Value;
      Prune(r.now);
      ghost var kept := Table();
      var a := Get(r.actor);
      assert fresh(a) || (r.actor in old(actors) && a == old(actors)[r.actor]);
      suspect, alerts := RecordFor(r);
      assert Table() == kept[r.actor := Recorded(Found(kept, r.actor), r).actor];
    }

    method RecordFor(r: Request) returns (suspect: bool, alerts: seq<Alert>)
      requires Valid() && r.actor in actors
      modifies actors[r.actor], actors[r.actor].win
      ensures Valid()
      ensures var j := Recorded(old(Table())[r.actor], r);
              suspect == j.suspect && alerts == j.alerts && Table() == old(Table())[r.actor := j.actor]
    {
      hide Recorded, Actor.Value;
      var a := actors[r.actor];
      ghost var before := Table();
      suspect, alerts := a.Record(r);
      forall k | k in actors && k != r.actor
        ensures actors[k].Value() == before[k]
      {
      }
      assert before[r.actor] == old(a.Value());
    }

    method Get(k: string) returns (a: Actor)
      requires Valid()
      modifies this
      ensures Valid() && k in actors && a == actors[k] && a.Value() == Found(old(Table()), k)
      ensures actors == old(actors)[k := a] && ((k in old(actors) && a == old(actors)[k]) || (fresh(a) && fresh(a.win)))
      ensures Table() == old(Table())[k := a.Value()]
    {
      if k !in actors {
        a := new Actor();
        actors := actors[k := a];
      } else {
        a := actors[k];
      }
    }

    /** Forget actors idle for more than ten minutes once there are too many. */
    method Prune(now: int)
      requires Valid()
      modifies this
      ensures Valid() && Table() == KeptActors(old(Table()), now)
      ensures actors.Keys <= old(actors).Keys && forall k :: k in actors ==> actors[k] == old(actors)[k]
    {
      assert Table().Keys == actors.Keys && |Table().Keys| == |Table()| && |actors.Keys| == |actors|;
      if |actors| > MAX_ACTORS {
        ForgetIdle(now);
      }
    }

    method ForgetIdle(now: int)
      requires Valid()
      modifies this
      ensures Valid() && actors.Keys <= old(actors).Keys && forall k :: k in actors ==> actors[k] == old(actors)[k]
      ensures forall k :: k in old(actors) ==> (k in actors <==> now - old(actors)[k].lastSeen <= 10 * MINUTE)
    {
      var todo := actors.Keys;
      while todo != {}
        invariant todo <= actors.Keys <= old(actors).Keys
        invariant forall k :: k in actors ==> actors[k] == old(actors)[k]
        invariant forall k :: k in old(actors) ==>
                    (k in actors <==> k in todo || now - old(actors)[k].lastSeen <= 10 * MINUTE)
      {
        var k :| k in todo;
        if now - actors[k].lastSeen > 10 * MINUTE {
          actors := actors - {k};
        }
        todo := todo - {k};
      }
    }
  }

  // ---- the naive log ----

  ghost predicate ClockForward(rs: seq<Request>) {
    forall i, j :: 0 <= i < j < |rs| ==> rs[i].now <= rs[j].now
  }

  function RunTable(rs: seq<Request>): Actors {
    if rs == [] then map[] else RecordedIn(RunTable(rs[..|rs| - 1]), rs[|rs| - 1]).0
  }

  function Part(r: Request, actor: string, after: int, upTo: int): Counts {
    if r.actor == actor && after < BucketOf(r.now) <= upTo then One(r.status, r.bytesIn) else ZERO
  }

  /** Everything `actor` did in buckets `(after, upTo]`, added up request by request. */
  function Recent(rs: seq<Request>, actor: string, after: int, upTo: int): Counts {
    if rs == [] then ZERO
    else Add(Recent(rs[..|rs| - 1], actor, after, upTo), Part(rs[|rs| - 1], actor, after, upTo))
  }

  lemma AddSwaps(a: Counts, b: Counts, c: Counts, d: Counts)
    ensures Add(Add(a, b), Add(c, d)) == Add(Add(a, c), Add(b, d))
  {
  }

  lemma PartSplit(r: Request, actor: string, after: int, mid: int, upTo: int)
    requires after <= mid <= upTo
    ensures Part(r, actor, after, upTo) == Add(Part(r, actor, after, mid), Part(r, actor, mid, upTo))
  {
    hide BucketOf, One, Add;
    AddZero(ZERO);
    AddZero(One(r.status, r.bytesIn));
  }

  lemma {:induction false} RecentSplit(rs: seq<Request>, actor: string, after: int, mid: int, upTo: int)
    requires after <= mid <= upTo
    ensures Recent(rs, actor, after, upTo) == Add(Recent(rs, actor, after, mid), Recent(rs, actor, mid, upTo))
  {
    hide Add, Part;
    AddZero(ZERO);
    if rs != [] {
      var before, r := rs[..|rs| - 1], rs[|rs| - 1];
      RecentSplit(before, actor, after, mid, upTo);
      PartSplit(r, actor, after, mid, upTo);
      AddSwaps(Recent(before, actor, after, mid), Recent(before, actor, mid, upTo),
               Part(r, actor, after, mid), Part(r, actor, mid, upTo));
    }
  }

  lemma AddZero(a: Counts)
    ensures Add(a, ZERO) == a == Add(ZERO, a)
  {
  }

  lemma {:induction false} RecentNone(rs: seq<Request>, actor: string, after: int, upTo: int)
    requires forall k :: 0 <= k < |rs| && rs[k].actor == actor ==> !(after < BucketOf(rs[k].now) <= upTo)
    ensures Recent(rs, actor, after, upTo) == ZERO
  {
    hide BucketOf, Add;
    AddZero(ZERO);
    if rs != [] {
      RecentNone(rs[..|rs| - 1], actor, after, upTo);
    }
  }

  /** Slot by slot the window is the log's last twelve buckets. */
  ghost predicate Shows(win: Window, last: int, rs: seq<Request>, actor: string) {
    forall i :: 0 <= i < BUCKETS ==> win[i] == Recent(rs, actor, last - BUCKETS + i, last - BUCKETS + i + 1)
  }

  lemma {:induction false} SumIsRecent(win: Window, last: int, rs: seq<Request>, actor: string, n: nat)
    requires Shows(win, last, rs, actor) && n <= BUCKETS
    ensures SumOf(win[..n]) == Recent(rs, actor, last - BUCKETS, last - BUCKETS + n)
  {
    hide Recent;
    if n == 0 {
      RecentEmpty(rs, actor, last - BUCKETS);
    } else {
      SumIsRecent(win, last, rs, actor, n - 1);
      RecentSplit(rs, actor, last - BUCKETS, last - BUCKETS + n - 1, last - BUCKETS + n);
      assert win[..n][..n - 1] == win[..n - 1];
    }
  }

  lemma RecentEmpty(rs: seq<Request>, actor: string, at: int)
    ensures Recent(rs, actor, at, at) == ZERO
  {
    hide BucketOf;
    RecentNone(rs, actor, at, at);
  }

  lemma BucketsFollowTime(t: nat, u: nat)
    requires t <= u
    ensures BucketOf(t) <= BucketOf(u)
    ensures u - t > 10 * MINUTE ==> BucketOf(t) + BUCKETS <= BucketOf(u)
  {
  }

  /** What a table entry says about the log, as of `now`. */
  ghost predicate EntryOk(a: ActorState, rs: seq<Request>, actor: string, now: int) {
    && 0 <= a.lastSeen <= now && a.winStart == BucketOf(a.lastSeen)
    && Shows(a.win, a.winStart, rs, actor)
    && forall k :: 0 <= k < |rs| && rs[k].actor == actor ==> rs[k].now <= a.lastSeen
  }

  /** An actor not in the table has been silent for more than ten minutes, if it was ever seen. */
  ghost predicate Silent(rs: seq<Request>, actor: string, now: int) {
    forall k :: 0 <= k < |rs| && rs[k].actor == actor ==> now - rs[k].now > 10 * MINUTE
  }

  ghost predicate TableOk(actors: Actors, rs: seq<Request>, now: int) {
    forall actor: string :: if actor in actors then EntryOk(actors[actor], rs, actor, now) else Silent(rs, actor, now)
  }

  /** Pruning throws away no one who was heard of in the last ten minutes. */
  lemma PruneKeeps(actors: Actors, rs: seq<Request>, was: int, now: int)
    requires TableOk(actors, rs, was) && was <= now
    ensures TableOk(KeptActors(actors, now), rs, now)
  {
    hide Shows, BucketOf;
    forall actor: string
      ensures var kept := KeptActors(actors, now);
              if actor in kept then EntryOk(kept[actor], rs, actor, now) else Silent(rs, actor, now)
    {
    }
  }

  /** Sliding an entry forward keeps showing the log. */
  lemma SlideShows(a: ActorState, rs: seq<Request>, actor: string, was: int, now: nat)
    requires EntryOk(a, rs, actor, was) && was <= now
    ensures var b := Rotated(a, BucketOf(now)); b.winStart == BucketOf(now) && Shows(b.win, b.winStart, rs, actor)
  {
    hide Recent, BucketOf;
    var bucket := BucketOf(now);
    BucketsFollowTime(a.lastSeen, now);
    var shift := bucket - a.winStart;
    forall i | 0 <= i < BUCKETS
      ensures Rotated(a, bucket).win[i] == Recent(rs, actor, bucket - BUCKETS + i, bucket - BUCKETS + i + 1)
    {
      if i + shift >= BUCKETS {
        forall k | 0 <= k < |rs| && rs[k].actor == actor
          ensures BucketOf(rs[k].now) <= a.winStart
        {
          BucketsFollowTime(rs[k].now, a.lastSeen);
        }
        RecentNone(rs, actor, bucket - BUCKETS + i, bucket - BUCKETS + i + 1);
      } else {
        assert Shows(a.win, a.winStart, rs, actor);
        assert shift == 0 ==> Rotated(a, bucket) == a;
      }
    }
  }

  /** An actor that is new, or was forgotten, starts from a window that shows the log too. */
  lemma ForgottenShows(rs: seq<Request>, actor: string, now: nat)
    requires Silent(rs, actor, now)
    ensures Shows(NEW_ACTOR.win, BucketOf(now), rs, actor)
  {
    hide Recent, BucketOf;
    forall k | 0 <= k < |rs| && rs[k].actor == actor
      ensures BucketOf(rs[k].now) + BUCKETS <= BucketOf(now)
    {
      BucketsFollowTime(rs[k].now, now);
    }
    forall i | 0 <= i < BUCKETS
      ensures NEW_ACTOR.win[i] == Recent(rs, actor, BucketOf(now) - BUCKETS + i, BucketOf(now) - BUCKETS + i + 1)
    {
      RecentNone(rs, actor, BucketOf(now) - BUCKETS + i, BucketOf(now) - BUCKETS + i + 1);
    }
  }

  lemma CountShows(a: ActorState, rs: seq<Request>, r: Request)
    requires Shows(a.win, BucketOf(r.now), rs, r.actor)
    ensures Shows(Counted(a, One(r.status, r.bytesIn)).win, BucketOf(r.now), rs + [r], r.actor)
  {
    hide BucketOf;
    assert (rs + [r])[..|rs|] == rs;
  }

  /** Judging changes neither the window nor when the actor was seen. */
  lemma {:induction false} JudgingKeepsWindow(j: Judgement, kinds: seq<Kind>, s: Counts, r: Request)
    ensures var k := JudgedBy(j, kinds, s, r);
            && k.actor.win == j.actor.win && k.actor.winStart == j.actor.winStart
            && k.actor.lastSeen == j.actor.lastSeen
            && k.actor.baseline == j.actor.baseline
  {
    hide Breaks;
    if kinds != [] {
      JudgingKeepsWindow(j, kinds[..|kinds| - 1], s, r);
    }
  }

  lemma RecordShows(a: ActorState, rs: seq<Request>, r: Request, was: int)
    requires was <= r.now
    requires EntryOk(a, rs, r.actor, was) || (a == NEW_ACTOR && Silent(rs, r.actor, r.now))
    ensures EntryOk(Recorded(a, r).actor, rs + [r], r.actor, r.now)
  {
    hide Recent, BucketOf, JudgedBy, SumOf, Shows;
    var seen := a.(lastSeen := r.now);
    var turned := Rotated(seen, BucketOf(r.now));
    if EntryOk(a, rs, r.actor, was) {
      SlideShows(a, rs, r.actor, was, r.now);
      assert turned == Rotated(a, BucketOf(r.now)).(lastSeen := r.now);
    } else {
      ForgottenShows(rs, r.actor, r.now);
    }
    CountShows(turned, rs, r);
    var counted := Counted(turned, One(r.status, r.bytesIn));
    JudgingKeepsWindow(Judgement(counted, false, []), KINDS, SumOf(counted.win), r);
  }

  lemma OthersUntouched(a: ActorState, rs: seq<Request>, r: Request, actor: string, now: int)
    requires actor != r.actor
    ensures EntryOk(a, rs, actor, now) && now <= r.now ==> EntryOk(a, rs + [r], actor, r.now)
    ensures Silent(rs, actor, now) && now <= r.now ==> Silent(rs + [r], actor, r.now)
  {
    hide BucketOf;
    assert (rs + [r])[..|rs|] == rs;
  }

  lemma StepKeeps(actors: Actors, rs: seq<Request>, r: Request, was: int)
    requires TableOk(actors, rs, was) && was <= r.now
    ensures TableOk(RecordedIn(actors, r).0, rs + [r], r.now)
  {
    hide EntryOk, Silent, KeptActors, Recorded;
    PruneKeeps(actors, rs, was, r.now);
    var kept := KeptActors(actors, r.now);
    var a := Found(kept, r.actor);
    RecordShows(a, rs, r, r.now);
    forall actor: string | actor != r.actor
      ensures if actor in kept then EntryOk(kept[actor], rs + [r], actor, r.now) else Silent(rs + [r], actor, r.now)
    {
      OthersUntouched(Found(kept, actor), rs, r, actor, r.now);
    }
  }

  lemma {:induction false} RunOk(rs: seq<Request>)
    requires ClockForward(rs)
    ensures TableOk(RunTable(rs), rs, if rs == [] then 0 else rs[|rs| - 1].now)
  {
    hide EntryOk, RecordedIn;
    if rs != [] {
      var before := rs[..|rs| - 1];
      RunOk(before);
      StepKeeps(RunTable(before), before, rs[|rs| - 1], if before == [] then 0 else before[|before| - 1].now);
      assert rs == before + [rs[|rs| - 1]];
    }
  }

  // ---- the results ----

  /** What the window of an actor holds once turned to `now`. */
  function WindowAt(actors: Actors, actor: string, now: nat): Counts {
    if actor in actors then SumOf(Rotated(actors[actor], BucketOf(now)).win) else ZERO
  }

  /** For any traffic in time order, however many actors come and go and get pruned, every actor's window at any later
      moment is exactly what the full log has for its last twelve buckets. */
  lemma WindowExact(rs: seq<Request>, actor: string, now: nat)
    requires ClockForward(rs) && (rs != [] ==> rs[|rs| - 1].now <= now)
    ensures WindowAt(RunTable(rs), actor, now) == Recent(rs, actor, BucketOf(now) - BUCKETS, BucketOf(now))
  {
    hide Recent, BucketOf, SumOf, EntryOk, Silent, Rotated;
    RunOk(rs);
    var actors, was := RunTable(rs), if rs == [] then 0 else rs[|rs| - 1].now;
    if actor in actors {
      SlideShows(actors[actor], rs, actor, was, now);
      var b := Rotated(actors[actor], BucketOf(now));
      SumIsRecent(b.win, b.winStart, rs, actor, BUCKETS);
      assert b.win[..BUCKETS] == b.win;
    } else {
      SilentCountsNothing(rs, actor, was, now);
    }
  }

  lemma SilentCountsNothing(rs: seq<Request>, actor: string, was: int, now: nat)
    requires Silent(rs, actor, was) && was <= now
    ensures Recent(rs, actor, BucketOf(now) - BUCKETS, BucketOf(now)) == ZERO
  {
    hide BucketOf;
    forall k | 0 <= k < |rs| && rs[k].actor == actor
      ensures BucketOf(rs[k].now) + BUCKETS <= BucketOf(now)
    {
      BucketsFollowTime(rs[k].now, now);
    }
    RecentNone(rs, actor, BucketOf(now) - BUCKETS, BucketOf(now));
  }

  // ---- verdicts ----

  /** A request is suspect exactly when it breaks a rule on the window or its actor is under penalty. */
  ghost predicate Suspicious(a: ActorState, counts: Counts, r: Request) {
    a.penaltyUntil > r.now || exists k :: Breaks(k, counts, a.baseline, r)
  }

  lemma {:induction false} JudgedByExact(j: Judgement, kinds: seq<Kind>, s: Counts, r: Request)
    ensures var k := JudgedBy(j, kinds, s, r);
            && (k.suspect <==> j.suspect || exists i :: 0 <= i < |kinds| && Breaks(kinds[i], s, j.actor.baseline, r))
            && (!k.suspect ==> k == j)
  {
    hide Breaks, Raised;
    if kinds != [] {
      JudgedByExact(j, kinds[..|kinds| - 1], s, r);
      JudgingKeepsWindow(j, kinds[..|kinds| - 1], s, r);
    }
  }

  lemma JudgedExact(a: ActorState, r: Request)
    ensures Judged(a, r).suspect <==> Suspicious(a, SumOf(a.win), r)
  {
    hide Breaks, SumOf, JudgedBy;
    JudgedByExact(Judgement(a, false, []), KINDS, SumOf(a.win), r);
    if k :| Breaks(k, SumOf(a.win), a.baseline, r) {
      var i := Listed(k);
    }
  }

  lemma Listed(k: Kind) returns (i: nat)
    ensures i < |KINDS| && KINDS[i] == k
  {
    match k
    case PathTraversal => i := 0;
    case AuthBruteforce => i := 1;
    case Probe => i := 2;
    case LimitHammering => i := 3;
    case RateAnomaly => i := 4;
    case UploadFlood => i := 5;
  }

  /** The verdict on a request in any traffic in time order is that of the rules on the naive log: pruning, sliding and
      the in-place counters make no difference. */
  lemma VerdictExact(rs: seq<Request>, r: Request)
    requires ClockForward(rs + [r])
    ensures var before := Rotated(Found(KeptActors(RunTable(rs), r.now), r.actor), BucketOf(r.now));
            RecordedIn(RunTable(rs), r).1.suspect <==>
              Suspicious(before, Recent(rs + [r], r.actor, BucketOf(r.now) - BUCKETS, BucketOf(r.now)), r)
  {
    hide Recent, SumOf, Suspicious, EntryOk, BucketOf, KeptActors, Recorded, Rotated;
    ClockBefore(rs, r);
    RunOk(rs + [r]);
    var a := Found(KeptActors(RunTable(rs), r.now), r.actor);
    RecordedExact(a, r);
    EntrySums(RunTable(rs + [r])[r.actor], rs + [r], r.actor, r.now);
  }

  lemma RecordedExact(a: ActorState, r: Request)
    ensures var j := Recorded(a, r);
            && (j.suspect <==> Suspicious(Rotated(a, BucketOf(r.now)), SumOf(j.actor.win), r))
            && j.actor.lastSeen == r.now
  {
    hide Breaks, SumOf, BucketOf, Judged, Rotated;
    RotatedIgnoresSeen(a, r.now, BucketOf(r.now));
    var counted := Counted(Rotated(a, BucketOf(r.now)).(lastSeen := r.now), One(r.status, r.bytesIn));
    JudgedExact(counted, r);
    JudgedKeepsWindow(counted, r);
  }

  lemma ClockBefore(rs: seq<Request>, r: Request)
    requires ClockForward(rs + [r])
    ensures ClockForward(rs) && (rs + [r])[..|rs|] == rs
  {
    var all := rs + [r];
    forall i, j | 0 <= i < j < |rs|
      ensures rs[i].now <= rs[j].now
    {
      assert all[i] == rs[i] && all[j] == rs[j];
    }
  }

  lemma JudgedKeepsWindow(a: ActorState, r: Request)
    ensures var b := Judged(a, r).actor; b.win == a.win && b.winStart == a.winStart && b.lastSeen == a.lastSeen
  {
    hide SumOf, JudgedBy;
    JudgingKeepsWindow(Judgement(a, false, []), KINDS, SumOf(a.win), r);
  }

  lemma EntrySums(a: ActorState, rs: seq<Request>, actor: string, now: int)
    requires EntryOk(a, rs, actor, now)
    ensures SumOf(a.win) == Recent(rs, actor, BucketOf(a.lastSeen) - BUCKETS, BucketOf(a.lastSeen))
  {
    hide Recent, SumOf, BucketOf;
    SumIsRecent(a.win, a.winStart, rs, actor, BUCKETS);
    assert a.win[..BUCKETS] == a.win;
  }

  lemma RotatedIgnoresSeen(a: ActorState, seen: int, bucket: int)
    ensures Rotated(a.(lastSeen := seen), bucket) == Rotated(a, bucket).(lastSeen := seen)
  {
    hide SumOf;
  }

  // ---- what pruning forgets ----

  /** The alert fields belong together and are no later than the last request. */
  ghost predicate AlertsOk(a: ActorState) {
    && 0 <= a.lastAlert <= a.lastSeen
    && (a.lastKind.None? ==> a.penaltyUntil == 0)
    && (a.lastKind.Some? ==> a.penaltyUntil == a.lastAlert + 5 * MINUTE)
  }

  lemma {:induction false} JudgingKeepsAlerts(j: Judgement, kinds: seq<Kind>, s: Counts, r: Request)
    requires AlertsOk(j.actor) && j.actor.lastSeen == r.now
    ensures AlertsOk(JudgedBy(j, kinds, s, r).actor)
  {
    hide Breaks;
    if kinds != [] {
      JudgingKeepsAlerts(j, kinds[..|kinds| - 1], s, r);
      JudgingKeepsWindow(j, kinds[..|kinds| - 1], s, r);
    }
  }

  lemma {:induction false} RunAlertsOk(rs: seq<Request>)
    requires ClockForward(rs)
    ensures forall k :: k in RunTable(rs) ==> AlertsOk(RunTable(rs)[k])
  {
    hide JudgedBy, SumOf, Rotated, BucketOf;
    if rs != [] {
      var before, r := rs[..|rs| - 1], rs[|rs| - 1];
      RunAlertsOk(before);
      RunOk(before);
      var a := Found(KeptActors(RunTable(before), r.now), r.actor);
      EntryTimes(RunTable(before), before, r.actor, r.now);
      RotatedKeepsAlerts(a.(lastSeen := r.now), BucketOf(r.now));
      var c := Counted(Rotated(a.(lastSeen := r.now), BucketOf(r.now)), One(r.status, r.bytesIn));
      JudgingKeepsAlerts(Judgement(c, false, []), KINDS, SumOf(c.win), r);
    }
  }

  lemma EntryTimes(actors: Actors, rs: seq<Request>, actor: string, now: int)
    requires TableOk(actors, rs, if rs == [] then 0 else rs[|rs| - 1].now)
    requires rs != [] ==> rs[|rs| - 1].now <= now
    ensures actor in actors && rs != [] ==> actors[actor].lastSeen <= now
  {
  }

  lemma RotatedKeepsAlerts(a: ActorState, bucket: int)
    ensures var b := Rotated(a, bucket);
            && b.lastSeen == a.lastSeen && b.lastAlert == a.lastAlert && b.lastKind == a.lastKind
            && b.penaltyUntil == a.penaltyUntil
  {
  }

  /** An actor idle for more than ten minutes has no penalty and no cooldown left, and its next request is judged as a
      newcomer's would be: forgetting it loses nothing but the learned baseline. */
  lemma PruneUnnoticed(a: ActorState, r: Request)
    requires AlertsOk(a) && 0 <= a.winStart <= BucketOf(a.lastSeen) && r.now - a.lastSeen > 10 * MINUTE
    ensures Recorded(a, r).suspect == Recorded(NEW_ACTOR, r).suspect
    ensures Recorded(a, r).actor.win == Recorded(NEW_ACTOR, r).actor.win
    ensures a.penaltyUntil <= r.now && forall k :: Raised(a, k, r.now).lastAlert == r.now
  {
    hide JudgedBy, SumOf, BucketOf;
    BucketsFollowTime(a.lastSeen, r.now);
    var c := One(r.status, r.bytesIn);
    var old' := Counted(Rotated(a.(lastSeen := r.now), BucketOf(r.now)), c);
    var new' := Counted(Rotated(NEW_ACTOR.(lastSeen := r.now), BucketOf(r.now)), c);
    assert old'.win == new'.win;
    JudgedExact(old', r);
    JudgedExact(new', r);
    JudgedKeepsWindow(old', r);
    JudgedKeepsWindow(new', r);
    OneRequest(new'.win, c);
    NoAnomaly(SumOf(new'.win), old'.baseline, new'.baseline, r);
  }

  /** The rate rule needs 240 requests; the others do not look at the baseline. */
  lemma NoAnomaly(s: Counts, b: real, c: real, r: Request)
    requires s.req < 240
    ensures forall k :: Breaks(k, s, b, r) == Breaks(k, s, c, r)
  {
  }

  lemma OneRequest(win: Window, c: Counts)
    requires win == EMPTY[BUCKETS - 1 := Add(ZERO, c)]
    ensures SumOf(win) == c
  {
    assert win[..11] == EMPTY[..11];
    ZerosSum(EMPTY[..11]);
    assert SumOf(win) == Add(SumOf(win[..11]), win[11]);
  }

  lemma {:induction false} ZerosSum(win: seq<Counts>)
    requires forall i :: 0 <= i < |win| ==> win[i] == ZERO
    ensures SumOf(win) == ZERO
  {
    hide Add;
    AddZero(ZERO);
    if win != [] {
      ZerosSum(win[..|win| - 1]);
    }
  }
}
