/** The observer-side best master clock comparison (section 10.3 of IEEE 802.1AS-2020), per gPTP domain. */
module Bmca {
  import opened Wrappers
  import opened History
  import opened Bytes

  const ANNOUNCE_TIMEOUTS := 3
  const AGEING_SLACK := 500 * MILLISECOND
  const DEFAULT_ANNOUNCE_INTERVAL := SECOND
  const MAX_STEPS := 255

  type ClockIdentity = c: nat | c < 0x1_0000_0000_0000_0000
  type PortNumber = p: nat | p < 0x1_0000

  /** The clock identity shifted up by sixteen bits in a 64-bit word, with the port number below it. */
  function PortKey(clock: ClockIdentity, port: PortNumber): nat {
    clock * 0x1_0000 % 0x1_0000_0000_0000_0000 + port
  }

  /** A port key holds the port number and the low 48 bits of the clock identity, no more. */
  lemma PortKeyCollides(c: ClockIdentity, p: PortNumber, d: ClockIdentity, q: PortNumber)
    ensures PortKey(c, p) == PortKey(d, q) <==> p == q && c % 0x1_0000_0000_0000 == d % 0x1_0000_0000_0000
  {
    ShiftedKeepsLow(c);
    ShiftedKeepsLow(d);
  }

  lemma ShiftedKeepsLow(c: nat)
    ensures c * 0x1_0000 % 0x1_0000_0000_0000_0000 == c % 0x1_0000_0000_0000 * 0x1_0000
  {
    var q, r := c / 0x1_0000_0000_0000, c % 0x1_0000_0000_0000;
    DivModUnique(c * 0x1_0000, 0x1_0000_0000_0000_0000, q, r * 0x1_0000);
  }

  /** Two to the power of a signed byte, in nanoseconds; implausible bytes mean the default. */
  function IntervalFromLog(raw: nat, default: int): int
    requires raw < 256
  {
    var v := if raw < 128 then raw else raw - 256;
    if raw == 0x7F || v < -7 || v > 5 then default
    else if v >= 0 then SECOND * Pow2(v) else SECOND / Pow2(-v)
  }

  /** What one announcer last said. */
  datatype AnnVec = AnnVec(
    p1: nat, clockClass: nat, accuracy: nat, variance: nat, p2: nat, gmId: nat, stepsRemoved: nat,
    srcClock: ClockIdentity, srcPort: PortNumber, lastTs: int, interval: int)

  function Quality(v: AnnVec): (q: seq<nat>)
    ensures |q| == 5
  {
    [v.p1, v.clockClass, v.accuracy, v.variance, v.p2]
  }

  function Rank(v: AnnVec): seq<nat> {
    Quality(v) + [v.gmId, v.stepsRemoved, v.srcClock, v.srcPort]
  }

  predicate LexLess(a: seq<nat>, b: seq<nat>)
    requires |a| == |b|
  {
    a != [] && (a[0] < b[0] || (a[0] == b[0] && LexLess(a[1..], b[1..])))
  }

  predicate BetterThan(v: AnnVec, w: AnnVec) {
    LexLess(Rank(v), Rank(w))
  }

  type Announcers = map<nat, AnnVec>

  datatype Domain = Domain(
    announcers: Announcers, syncSender: nat, syncSenderGm: nat, expected: Option<AnnVec>, syncVec: Option<AnnVec>)

  const NEW_DOMAIN := Domain(map[], 0, 0, None, None)

  function ExpectedGm(d: Domain): nat {
    if d.expected.Some? then d.expected.value.gmId else 0
  }

  predicate Aged(v: AnnVec, ts: int) {
    ts - v.lastTs > ANNOUNCE_TIMEOUTS * v.interval + AGEING_SLACK
  }

  function Live(m: Announcers, ts: int): Announcers {
    map k | k in m && !Aged(m[k], ts) :: m[k]
  }

  ghost predicate IsBest(m: Announcers, k: nat) {
    k in m && forall j :: j in m && j != k ==> BetterThan(m[k], m[j])
  }

  ghost function BestOf(m: Announcers): Option<AnnVec> {
    if k :| IsBest(m, k) then Some(m[k]) else None
  }

  function Lookup(m: Announcers, k: nat): Option<AnnVec> {
    if k in m then Some(m[k]) else None
  }

  /** Re-evaluation: age announcers out, then read off the best one and the Sync sender's. */
  ghost function Eval(d: Domain, ts: int): Domain {
    var live := Live(d.announcers, ts);
    d.(announcers := live, expected := BestOf(live), syncVec := Lookup(live, d.syncSender))
  }

  datatype Announce = Announce(
    clock: ClockIdentity, port: PortNumber, p1: nat, clockClass: nat, accuracy: nat, variance: nat, p2: nat, gm: nat,
    stepsRemoved: nat, logInterval: byte)

  function VecOf(a: Announce, ts: int): AnnVec {
    AnnVec(a.p1, a.clockClass, a.accuracy, a.variance, a.p2, a.gm, a.stepsRemoved, a.clock, a.port, ts,
           IntervalFromLog(a.logInterval as nat, DEFAULT_ANNOUNCE_INTERVAL))
  }

  function Announced(d: Domain, a: Announce, ts: int): Domain {
    var key := PortKey(a.clock, a.port);
    if a.stepsRemoved < MAX_STEPS then
      d.(announcers := d.announcers[key := VecOf(a, ts)],
         syncSenderGm := if key == d.syncSender then a.gm else d.syncSenderGm)
    else
      d.(announcers := d.announcers - {key}, syncSenderGm := if key == d.syncSender then 0 else d.syncSenderGm)
  }

  function Synced(d: Domain, key: nat): Domain {
    d.(syncSender := key, syncSenderGm := if key in d.announcers then d.announcers[key].gmId else 0)
  }

  // ---- the verdict ----

  datatype Verdict = UnknownVerdict | Converged | Tiebreak | PriorityInversion

  function BmcaState(d: Domain): Verdict {
    if ExpectedGm(d) == 0 || d.syncSenderGm == 0 then UnknownVerdict
    else if ExpectedGm(d) == d.syncSenderGm then Converged
    else if d.expected.None? || d.syncVec.None? then UnknownVerdict
    else if Quality(d.expected.value) == Quality(d.syncVec.value) then Tiebreak
    else PriorityInversion
  }

  // ---- the module ----

  class BmcaLogic {
    var domains: map<nat, Domain>

    ghost predicate Valid()
      reads this
    {
      forall num :: num in domains ==> DomainOk(domains[num])
    }

    constructor ()
      ensures Valid() && domains == map[]
    {
      domains := map[];
    }

    method EvalBmca(d: Domain, ts: int) returns (r: Domain)
      requires KeysMatch(d.announcers)
      ensures r == Eval(d, ts)
    {
      hide Rank, PortKey;
      var live := d.announcers;
      var todo := live.Keys;
      while todo != {}
        invariant todo <= d.announcers.Keys
        invariant live == map k | k in d.announcers && (k in todo || !Aged(d.announcers[k], ts)) :: d.announcers[k]
      {
        var k :| k in todo;
        if ts - live[k].lastTs > ANNOUNCE_TIMEOUTS * live[k].interval + AGEING_SLACK {
          live := live - {k};
        }
        todo := todo - {k};
      }
      assert live == Live(d.announcers, ts);
      var best := FindBest(live);
      r := d.(announcers := live, expected := best,
              syncVec := if d.syncSender in live then Some(live[d.syncSender]) else None);
    }

    /** Scan in any order for a vector better than the best so far. */
    method FindBest(m: Announcers) returns (best: Option<AnnVec>)
      requires KeysMatch(m)
      ensures best == BestOf(m)
    {
      hide LexLess, Rank;
      best := None;
      ghost var at := 0;
      var todo := m.Keys;
      while todo != {}
        invariant todo <= m.Keys
        invariant best.None? ==> todo == m.Keys
        invariant best.Some? ==> at in m && at !in todo && best.value == m[at]
        invariant best.Some? ==> forall j :: j in m && j !in todo && j != at ==> BetterThan(m[at], m[j])
      {
        var k :| k in todo;
        if best.Some? {
          OrderedPair(m, at, k);
          forall j | j in m && j !in todo && j != at
            ensures BetterThan(m[k], m[at]) ==> BetterThan(m[k], m[j])
          {
            BetterTransitive(m[k], m[at], m[j]);
          }
        }
        if best.None? || BetterThan(m[k], best.value) {
          best, at := Some(m[k]), k;
        }
        todo := todo - {k};
      }
      if best.Some? {
        BestUnique(m, at);
      }
    }

    method OnSync(num: nat, clock: ClockIdentity, port: PortNumber, ts: int)
      requires Valid()
      modifies this
      ensures Valid() && domains == Step(old(domains), SyncHeard(num, clock, port, ts))
    {
      hide PortKey, Eval, DomainOk, KeysMatch;
      StepKeeps(domains, SyncHeard(num, clock, port, ts));
      var d := if num in domains then domains[num] else NEW_DOMAIN;
      var senderKey := PortKey(clock, port);
      if d.syncSender != senderKey {
        d := d.(syncSender := senderKey);
      }
      d := d.(syncSenderGm := if senderKey in d.announcers then d.announcers[senderKey].gmId else 0);
      OkKeysMatch(domains, num);
      d := EvalBmca(d, ts);
      domains := domains[num := d];
      assert domains == Step(old(domains), SyncHeard(num, clock, port, ts));
    }

    method OnAnnounce(num: nat, a: Announce, ts: int)
      requires Valid()
      modifies this
      ensures Valid() && domains == Step(old(domains), AnnounceHeard(num, a, ts))
    {
      hide PortKey, Eval, DomainOk, KeysMatch, IntervalFromLog;
      StepKeeps(domains, AnnounceHeard(num, a, ts));
      var d := if num in domains then domains[num] else NEW_DOMAIN;
      OkKeysMatch(domains, num);
      AnnouncedKeysMatch(d, a, ts);
      var senderKey := PortKey(a.clock, a.port);
      if a.stepsRemoved < MAX_STEPS {
        d := d.(announcers := d.announcers[senderKey := VecOf(a, ts)]);
      } else {
        d := d.(announcers := d.announcers - {senderKey});
        if senderKey == d.syncSender {
          d := d.(syncSenderGm := 0);
        }
      }
      if senderKey == d.syncSender && a.stepsRemoved < MAX_STEPS {
        d := d.(syncSenderGm := a.gm);
      }
      d := EvalBmca(d, ts);
      domains := domains[num := d];
      assert domains == Step(old(domains), AnnounceHeard(num, a, ts));
    }

    method OnTimeTick(ts: int)
      requires Valid()
      modifies this
      ensures Valid() && domains == Step(old(domains), Tick(ts))
    {
      hide Eval, DomainOk, KeysMatch;
      StepKeeps(domains, Tick(ts));
      var todo := domains.Keys;
      while todo != {}
        invariant todo <= domains.Keys == old(domains).Keys
        invariant forall num :: num in domains ==>
                    domains[num] == if num in todo then old(domains)[num] else Eval(old(domains)[num], ts)
      {
        var num :| num in todo;
        OkKeysMatch(old(domains), num);
        var d := EvalBmca(domains[num], ts);
        domains := domains[num := d];
        todo := todo - {num};
      }
      assert domains == Step(old(domains), Tick(ts));
    }
  }

  // ---- the comparison is a strict total order on announcers ----

  lemma {:induction false} LexTransitive(a: seq<nat>, b: seq<nat>, c: seq<nat>)
    requires |a| == |b| == |c| && LexLess(a, b) && LexLess(b, c)
    ensures LexLess(a, c)
  {
    if a[0] == b[0] == c[0] {
      LexTransitive(a[1..], b[1..], c[1..]);
    }
  }

  /** Exactly one of: equal, less, greater. */
  lemma {:induction false} LexTotal(a: seq<nat>, b: seq<nat>)
    requires |a| == |b|
    ensures a == b <==> !LexLess(a, b) && !LexLess(b, a)
    ensures !(LexLess(a, b) && LexLess(b, a))
  {
    if a != [] {
      LexTotal(a[1..], b[1..]);
      assert a == [a[0]] + a[1..] && b == [b[0]] + b[1..];
    }
  }

  /** A lexicographic comparison is decided by the first `k` entries, or else by the rest. */
  lemma {:induction false} LexSplit(a: seq<nat>, b: seq<nat>, k: nat)
    requires k <= |a| == |b|
    ensures LexLess(a, b) <==> LexLess(a[..k], b[..k]) || (a[..k] == b[..k] && LexLess(a[k..], b[k..]))
    decreases k
  {
    if k == 0 {
      assert a[0..] == a && b[0..] == b;
    } else {
      LexSplit(a[1..], b[1..], k - 1);
      assert a[1..][..k - 1] == a[..k][1..] && b[1..][..k - 1] == b[..k][1..];
      assert a[1..][k - 1..] == a[k..] && b[1..][k - 1..] == b[k..];
      assert a[..k] == [a[0]] + a[..k][1..] && b[..k] == [b[0]] + b[..k][1..];
    }
  }

  /** Every vector sits under the key of its sender. */
  ghost predicate KeysMatch(m: Announcers) {
    forall k :: k in m ==> k == PortKey(m[k].srcClock, m[k].srcPort)
  }

  lemma BetterTransitive(u: AnnVec, v: AnnVec, w: AnnVec)
    ensures BetterThan(u, v) && BetterThan(v, w) ==> BetterThan(u, w)
  {
    if BetterThan(u, v) && BetterThan(v, w) {
      LexTransitive(Rank(u), Rank(v), Rank(w));
    }
  }

  /** Of two announcers exactly one is better. */
  lemma OrderedPair(m: Announcers, j: nat, k: nat)
    requires KeysMatch(m) && j in m && k in m && j != k
    ensures BetterThan(m[j], m[k]) <==> !BetterThan(m[k], m[j])
  {
    hide LexLess;
    LexTotal(Rank(m[j]), Rank(m[k]));
    assert Rank(m[j])[7] == m[j].srcClock && Rank(m[j])[8] == m[j].srcPort;
    assert Rank(m[k])[7] == m[k].srcClock && Rank(m[k])[8] == m[k].srcPort;
  }

  lemma BestUnique(m: Announcers, k: nat)
    requires KeysMatch(m) && IsBest(m, k)
    ensures BestOf(m) == Some(m[k])
    ensures forall j :: IsBest(m, j) <==> j == k
  {
    hide BetterThan;
    forall j | IsBest(m, j)
      ensures j == k
    {
      if j != k {
        OrderedPair(m, j, k);
      }
    }
  }

  /** A domain with announcers has exactly one best among them. */
  lemma {:induction false} BestExists(m: Announcers) returns (k: nat)
    requires KeysMatch(m) && m != map[]
    ensures IsBest(m, k) && BestOf(m) == Some(m[k])
    decreases |m|
  {
    hide BetterThan;
    k :| k in m;
    var rest := m - {k};
    if rest != map[] {
      assert rest.Keys == m.Keys - {k};
      var b := BestExists(rest);
      OrderedPair(m, b, k);
      if BetterThan(m[k], m[b]) {
        forall j | j in m && j != k
          ensures BetterThan(m[k], m[j])
        {
          BetterTransitive(m[k], m[b], m[j]);
          assert j == b || BetterThan(rest[b], rest[j]);
        }
      } else {
        forall j | j in m && j != b
          ensures BetterThan(m[b], m[j])
        {
          assert j == k || BetterThan(rest[b], rest[j]);
        }
        k := b;
      }
    } else {
      assert forall j :: j in m ==> j == k || j in rest;
    }
    BestUnique(m, k);
  }

  // ---- the comparison by named fields ----

  /** Priority 1 decides, then clock class, accuracy, variance and priority 2; less is better. */
  predicate BetterQuality(v: AnnVec, w: AnnVec) {
    || v.p1 < w.p1
    || (v.p1 == w.p1 && v.clockClass < w.clockClass)
    || (v.p1 == w.p1 && v.clockClass == w.clockClass && v.accuracy < w.accuracy)
    || (v.p1 == w.p1 && v.clockClass == w.clockClass && v.accuracy == w.accuracy && v.variance < w.variance)
    || (v.p1 == w.p1 && v.clockClass == w.clockClass && v.accuracy == w.accuracy && v.variance == w.variance
        && v.p2 < w.p2)
  }

  predicate SameQuality(v: AnnVec, w: AnnVec) {
    v.p1 == w.p1 && v.clockClass == w.clockClass && v.accuracy == w.accuracy && v.variance == w.variance && v.p2 == w.p2
  }

  /** At equal quality the grandmaster's identity decides, then the distance, then the sender's clock and port. */
  predicate Outranks(v: AnnVec, w: AnnVec) {
    || BetterQuality(v, w)
    || (SameQuality(v, w) && v.gmId < w.gmId)
    || (SameQuality(v, w) && v.gmId == w.gmId && v.stepsRemoved < w.stepsRemoved)
    || (SameQuality(v, w) && v.gmId == w.gmId && v.stepsRemoved == w.stepsRemoved && v.srcClock < w.srcClock)
    || (SameQuality(v, w) && v.gmId == w.gmId && v.stepsRemoved == w.stepsRemoved && v.srcClock == w.srcClock
        && v.srcPort < w.srcPort)
  }

  lemma {:induction false} LexFields(a: seq<nat>, b: seq<nat>, i: nat)
    requires i <= |a| == |b|
    ensures LexLess(a[i..], b[i..]) <==> i < |a| && (a[i] < b[i] || (a[i] == b[i] && LexLess(a[i + 1..], b[i + 1..])))
  {
    if i < |a| {
      assert a[i..][1..] == a[i + 1..] && b[i..][1..] == b[i + 1..];
    }
  }

  lemma QualityByFields(v: AnnVec, w: AnnVec)
    ensures LexLess(Quality(v), Quality(w)) <==> BetterQuality(v, w)
    ensures Quality(v) == Quality(w) <==> SameQuality(v, w)
  {
    hide LexLess;
    var a, b := Quality(v), Quality(w);
    assert a[0..] == a && b[0..] == b;
    assert a == [v.p1, v.clockClass, v.accuracy, v.variance, v.p2];
    LexFields(a, b, 0);
    LexFields(a, b, 1);
    LexFields(a, b, 2);
    LexFields(a, b, 3);
    LexFields(a, b, 4);
    LexFields(a, b, 5);
    assert SameQuality(v, w) ==> a == b;
    assert a[0] == v.p1 && a[1] == v.clockClass && a[2] == v.accuracy && a[3] == v.variance && a[4] == v.p2;
  }

  /** The comparison of vectors is that of the named fields in their order. */
  lemma OrderByFields(v: AnnVec, w: AnnVec)
    ensures BetterThan(v, w) <==> Outranks(v, w)
  {
    hide LexLess, Quality, BetterQuality, SameQuality;
    var a, b := Rank(v), Rank(w);
    QualityByFields(v, w);
    LexSplit(a, b, 5);
    assert a[..5] == Quality(v) && b[..5] == Quality(w);
    assert a[5] == v.gmId && a[6] == v.stepsRemoved && a[7] == v.srcClock && a[8] == v.srcPort;
    assert b[5] == w.gmId && b[6] == w.stepsRemoved && b[7] == w.srcClock && b[8] == w.srcPort;
    LexFields(a, b, 5);
    LexFields(a, b, 6);
    LexFields(a, b, 7);
    LexFields(a, b, 8);
    LexFields(a, b, 9);
  }

  /** What re-evaluation expects: none exactly if every announcer has aged; otherwise one that has not, and among those
      none has a smaller priority 1, none of that priority a smaller clock class, and so on through the fields. */
  lemma ExpectedExact(d: Domain, ts: int)
    requires KeysMatch(d.announcers)
    ensures var expected, live := Eval(d, ts).expected, Live(d.announcers, ts);
            && (expected.None? <==> live == map[])
            && (expected.Some? ==>
                  exists k :: k in live && expected.value == live[k] &&
                              forall j :: j in live && j != k ==> Outranks(live[k], live[j]))
  {
    hide BetterThan, Outranks, PortKey, Aged;
    var live := Live(d.announcers, ts);
    if live == map[] {
      NoneBest();
    } else {
      var k := BestExists(live);
      forall j | j in live && j != k
        ensures Outranks(live[k], live[j])
      {
        OrderByFields(live[k], live[j]);
      }
    }
  }

  // ---- what every run keeps ----

  /** A live vector of the Sync sender carries the grandmaster Sync is attributed to, and the readout is that of the
      announcers still held. */
  ghost predicate DomainOk(d: Domain) {
    && KeysMatch(d.announcers)
    && (d.syncSender in d.announcers ==> d.announcers[d.syncSender].gmId == d.syncSenderGm)
    && d.expected == BestOf(d.announcers)
    && d.syncVec == Lookup(d.announcers, d.syncSender)
  }

  datatype Event =
    | SyncHeard(num: nat, clock: ClockIdentity, port: PortNumber, ts: int)
    | AnnounceHeard(num: nat, a: Announce, ts: int)
    | Tick(ts: int)

  ghost function DomainStep(d: Domain, e: Event): Domain {
    match e
    case SyncHeard(_, clock, port, ts) => Eval(Synced(d, PortKey(clock, port)), ts)
    case AnnounceHeard(_, a, ts) => Eval(Announced(d, a, ts), ts)
    case Tick(ts) => Eval(d, ts)
  }

  ghost function Step(domains: map<nat, Domain>, e: Event): map<nat, Domain> {
    if e.Tick? then map num | num in domains :: DomainStep(domains[num], e)
    else domains[e.num := DomainStep(if e.num in domains then domains[e.num] else NEW_DOMAIN, e)]
  }

  lemma EvalOk(d: Domain, ts: int)
    requires KeysMatch(d.announcers)
    requires d.syncSender in d.announcers ==> d.announcers[d.syncSender].gmId == d.syncSenderGm
    ensures DomainOk(Eval(d, ts))
  {
    hide PortKey, Aged, IsBest;
  }

  lemma AnnouncedKeysMatch(d: Domain, a: Announce, ts: int)
    requires KeysMatch(d.announcers)
    ensures KeysMatch(Announced(d, a, ts).announcers)
  {
    hide PortKey;
  }

  lemma DomainStepKeeps(d: Domain, e: Event)
    requires DomainOk(d)
    ensures DomainOk(DomainStep(d, e))
  {
    hide PortKey, Eval, IntervalFromLog;
    match e
    case SyncHeard(_, clock, port, ts) => EvalOk(Synced(d, PortKey(clock, port)), ts);
    case AnnounceHeard(_, a, ts) =>
      AnnouncedKeysMatch(d, a, ts);
      EvalOk(Announced(d, a, ts), ts);
    case Tick(ts) => EvalOk(d, ts);
  }

  lemma StepKeeps(domains: map<nat, Domain>, e: Event)
    requires forall num :: num in domains ==> DomainOk(domains[num])
    ensures forall num :: num in Step(domains, e) ==> DomainOk(Step(domains, e)[num])
  {
    hide DomainOk, DomainStep;
    NewDomainOk();
    forall num | num in domains || (!e.Tick? && num == e.num)
      ensures DomainOk(DomainStep(if num in domains then domains[num] else NEW_DOMAIN, e))
    {
      DomainStepKeeps(if num in domains then domains[num] else NEW_DOMAIN, e);
    }
  }

  lemma NewDomainOk()
    ensures DomainOk(NEW_DOMAIN)
  {
  }

  lemma OkKeysMatch(domains: map<nat, Domain>, num: nat)
    requires forall num :: num in domains ==> DomainOk(domains[num])
    ensures KeysMatch((if num in domains then domains[num] else NEW_DOMAIN).announcers)
  {
  }

  ghost function RunAll(events: seq<Event>): map<nat, Domain> {
    if events == [] then map[] else Step(RunAll(events[..|events| - 1]), events[|events| - 1])
  }

  lemma {:induction false} EveryRunOk(events: seq<Event>)
    ensures forall num :: num in RunAll(events) ==> DomainOk(RunAll(events)[num])
  {
    hide DomainOk, Step;
    if events != [] {
      EveryRunOk(events[..|events| - 1]);
      StepKeeps(RunAll(events[..|events| - 1]), events[|events| - 1]);
    }
  }

  // ---- the verdicts are sound ----

  /** What each verdict says about the announcers held, when the Sync sender is among them. */
  lemma VerdictExact(d: Domain)
    requires DomainOk(d) && d.syncSender in d.announcers && d.syncSenderGm != 0
    ensures exists k ::
              && IsBest(d.announcers, k)
              && var best, sync := d.announcers[k], d.announcers[d.syncSender];
                 && (best.gmId != 0 ==>
                       && (BmcaState(d) == Converged <==> best.gmId == sync.gmId)
                       && (BmcaState(d) == PriorityInversion <==>
                             best.gmId != sync.gmId && BetterQuality(best, sync))
                       && (BmcaState(d) == Tiebreak <==> SameQuality(best, sync) && best.gmId < sync.gmId))
                 && (best.gmId == 0 ==> BmcaState(d) == UnknownVerdict)
  {
    hide LexLess, Rank, Quality, PortKey, BetterQuality, SameQuality;
    var k := BestExists(d.announcers);
    BestOrSelf(d.announcers, k, d.syncSender);
    QualityByFields(d.announcers[k], d.announcers[d.syncSender]);
  }

  /** Against the best vector any other is worse in quality, or equal in quality with a grandmaster no smaller. */
  lemma BestOrSelf(m: Announcers, k: nat, j: nat)
    requires IsBest(m, k) && j in m
    ensures LexLess(Quality(m[k]), Quality(m[j])) || (Quality(m[k]) == Quality(m[j]) && m[k].gmId <= m[j].gmId)
    ensures LexLess(Quality(m[k]), Quality(m[j])) ==> Quality(m[k]) != Quality(m[j])
  {
    LexTotal(Quality(m[k]), Quality(m[j]));
    if k != j {
      var a, b := Rank(m[k]), Rank(m[j]);
      LexSplit(a, b, 5);
      assert a[..5] == Quality(m[k]) && b[..5] == Quality(m[j]);
      assert a[5..][0] == m[k].gmId && b[5..][0] == m[j].gmId;
    }
  }

  /** A priority inversion or a tiebreak is only ever reported against a Sync sender whose vector is held. */
  lemma DisagreementNeedsVector(d: Domain)
    requires DomainOk(d)
    ensures BmcaState(d) == PriorityInversion || BmcaState(d) == Tiebreak ==>
              d.syncSender in d.announcers && d.syncSenderGm != 0 && ExpectedGm(d) != 0
  {
  }

  /** Ageing does not clear the grandmaster Sync is attributed to. Once the Sync sender's vector has aged out,
      Converged is reported exactly if the best announcer that has not aged names that grandmaster, and nothing is
      known otherwise. */
  lemma ConvergedOutlivesVector(d: Domain, ts: int)
    requires KeysMatch(d.announcers) && d.syncSenderGm != 0 && d.syncSender !in Live(d.announcers, ts)
    ensures BmcaState(Eval(d, ts)) ==
            if exists k :: IsBest(Live(d.announcers, ts), k) && Live(d.announcers, ts)[k].gmId == d.syncSenderGm
            then Converged else UnknownVerdict
  {
    hide IsBest, PortKey, BetterThan;
    var live := Live(d.announcers, ts);
    if live == map[] {
      NoneBest();
    } else {
      var b := BestExists(live);
      BestUnique(live, b);
    }
  }

  lemma NoneBest()
    ensures BestOf(map[]) == None && forall k :: !IsBest(map[], k)
  {
  }

  /** A Sync from a new sender never inherits the previous sender's grandmaster. */
  lemma NewSenderOwnGm(d: Domain, clock: ClockIdentity, port: PortNumber, ts: int)
    requires DomainOk(d) && PortKey(clock, port) !in d.announcers
    ensures BmcaState(DomainStep(d, SyncHeard(0, clock, port, ts))) == UnknownVerdict
  {
  }

  // ---- who is held as an announcer, read off the messages alone ----

  ghost function Run(events: seq<Event>): Domain {
    if events == [] then NEW_DOMAIN else DomainStep(Run(events[..|events| - 1]), events[|events| - 1])
  }

  /** The last thing the port `key` announced, if it was qualified, as the vector it becomes. */
  function LastSaid(events: seq<Event>, key: nat): Option<AnnVec> {
    if events == [] then None
    else
      var e := events[|events| - 1];
      if e.AnnounceHeard? && PortKey(e.a.clock, e.a.port) == key then
        if e.a.stepsRemoved < MAX_STEPS then Some(VecOf(e.a, e.ts)) else None
      else LastSaid(events[..|events| - 1], key)
  }

  /** With time going forward, a port is held exactly when its last announcement was qualified and has not aged. */
  lemma {:induction false} AnnouncersMeaning(events: seq<Event>, key: nat)
    requires events != [] && forall i, j :: 0 <= i < j < |events| ==> events[i].ts <= events[j].ts
    ensures var said, now := LastSaid(events, key), events[|events| - 1].ts;
            Lookup(Run(events).announcers, key) == if said.Some? && !Aged(said.value, now) then said else None
  {
    hide PortKey, BestOf, IntervalFromLog;
    if |events| > 1 {
      AnnouncersMeaning(events[..|events| - 1], key);
    } else {
      assert Run(events[..0]) == NEW_DOMAIN && LastSaid(events[..0], key) == None;
    }
  }

  /** The events one domain sees: its own messages and every tick. */
  function Concerning(events: seq<Event>, num: nat): seq<Event> {
    if events == [] then []
    else
      var e := events[|events| - 1];
      Concerning(events[..|events| - 1], num) + if e.Tick? || e.num == num then [e] else []
  }

  /** Domains do not influence each other. */
  lemma {:induction false} DomainsIndependent(events: seq<Event>, num: nat)
    ensures (if num in RunAll(events) then RunAll(events)[num] else NEW_DOMAIN) == Run(Concerning(events, num))
  {
    hide DomainStep;
    if events != [] {
      var before, e := events[..|events| - 1], events[|events| - 1];
      DomainsIndependent(before, num);
      var seen := Concerning(before, num);
      if e.Tick? || e.num == num {
        assert (seen + [e])[..|seen|] == seen;
        NothingToAge(e);
      } else {
        assert Concerning(events, num) == seen;
      }
    }
  }

  lemma NothingToAge(e: Event)
    ensures e.Tick? ==> DomainStep(NEW_DOMAIN, e) == NEW_DOMAIN
  {
    assert Live(map[], e.ts) == map[];
  }

  // ---- a run in which the verdict outlives the vector ----

  /** The same quality and grandmaster from two ports. */
  function SameGm(clock: ClockIdentity): Announce {
    Announce(clock, 1, 246, 248, 254, 17258, 248, 42, 1, 0)
  }

  /** Port 1 announces and drives Sync, then falls silent; four seconds later port 2 announces the same grandmaster. */
  const HANDOVER := [
    AnnounceHeard(0, SameGm(1), 0), SyncHeard(0, 1, 1, 0), AnnounceHeard(0, SameGm(2), 4 * SECOND)]

  /** The vector of such an announcement lives for three and a half seconds. */
  lemma SameGmLives(clock: ClockIdentity, ts: int, now: int)
    ensures var v := VecOf(SameGm(clock), ts);
            v.gmId == 42 && (Aged(v, now) <==> now - ts > 3 * SECOND + 500 * MILLISECOND)
    ensures PortKey(1, 1) != PortKey(2, 1)
  {
    assert IntervalFromLog(0, DEFAULT_ANNOUNCE_INTERVAL) == SECOND;
  }

  /** Port 1 announces and sends Sync. */
  lemma FirstSpeaks()
    ensures var d := DomainStep(DomainStep(NEW_DOMAIN, HANDOVER[0]), HANDOVER[1]);
            && d.announcers == map[PortKey(1, 1) := VecOf(SameGm(1), 0)]
            && d.syncSender == PortKey(1, 1) && d.syncSenderGm == 42
  {
    hide BestOf, Aged, PortKey, VecOf;
    SameGmLives(1, 0, 0);
  }

  /** Port 2 announces, four seconds on. */
  lemma SecondSpeaks(d: Domain)
    requires d.announcers == map[PortKey(1, 1) := VecOf(SameGm(1), 0)]
    requires d.syncSender == PortKey(1, 1) && d.syncSenderGm == 42
    ensures var e := DomainStep(d, HANDOVER[2]); BmcaState(e) == Converged && e.syncSender !in e.announcers
  {
    hide BestOf, Aged, PortKey, VecOf, BetterThan, BmcaState, KeysMatch;
    SameGmLives(1, 0, 4 * SECOND);
    SameGmLives(2, 4 * SECOND, 4 * SECOND);
    var heard := Announced(d, SameGm(2), 4 * SECOND);
    var live := Live(heard.announcers, 4 * SECOND);
    assert live == map[PortKey(2, 1) := VecOf(SameGm(2), 4 * SECOND)];
    OwnKeys(heard.announcers);
    assert IsBest(live, PortKey(2, 1));
    ConvergedOutlivesVector(heard, 4 * SECOND);
  }

  lemma OwnKeys(m: Announcers)
    requires m == map[PortKey(1, 1) := VecOf(SameGm(1), 0), PortKey(2, 1) := VecOf(SameGm(2), 4 * SECOND)]
    ensures KeysMatch(m)
  {
    hide PortKey, IntervalFromLog;
  }

  /** The domain then reads CONVERGED although no vector of the Sync sender is held. */
  lemma ConvergedRun()
    ensures var domains := RunAll(HANDOVER);
            0 in domains && BmcaState(domains[0]) == Converged && domains[0].syncSender !in domains[0].announcers
  {
    hide DomainStep, BmcaState;
    var a, b := HANDOVER[..1], HANDOVER[..2];
    assert HANDOVER[..3] == HANDOVER && b[..1] == a && a[..0] == [];
    FirstSpeaks();
    SecondSpeaks(DomainStep(DomainStep(NEW_DOMAIN, HANDOVER[0]), HANDOVER[1]));
    assert RunAll(a)[0] == DomainStep(NEW_DOMAIN, HANDOVER[0]);
    assert RunAll(b)[0] == DomainStep(RunAll(a)[0], HANDOVER[1]);
    assert RunAll(HANDOVER) == Step(RunAll(b), HANDOVER[2]);
  }
}
