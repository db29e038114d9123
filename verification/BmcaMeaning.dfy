/** What a gPTP domain shows, read off the Announce and Sync messages alone. */
module BmcaMeaning {
  import opened Wrappers
  import opened History
  import opened Bytes
  import opened Bmca

  /** One port as far as the observer can tell: 48 bits of the clock identity and the port number. */
  predicate SamePort(a: Announce, clock: ClockIdentity, port: PortNumber) {
    a.port == port && a.clock % 0x1_0000_0000_0000 == clock % 0x1_0000_0000_0000
  }

  /** The announced interval: powers of two from 1/128 of a second to 32 seconds, otherwise one second. */
  function AnnouncedInterval(logInterval: byte): int {
    match logInterval as int
    case 249 => 7_812_500 // 1/128 s
    case 250 => 15_625_000
    case 251 => 31_250_000
    case 252 => 62_500_000
    case 253 => 125_000_000
    case 254 => 250_000_000
    case 255 => 500_000_000
    case 1 => 2_000_000_000
    case 2 => 4_000_000_000
    case 3 => 8_000_000_000
    case 4 => 16_000_000_000
    case 5 => 32_000_000_000
    case _ => 1_000_000_000
  }

  lemma IntervalExact(logInterval: byte)
    ensures IntervalFromLog(logInterval as nat, SECOND) == AnnouncedInterval(logInterval)
  {
    assert Pow2(1) == 2 && Pow2(2) == 4 && Pow2(3) == 8 && Pow2(4) == 16 && Pow2(5) == 32;
    assert Pow2(6) == 64 && Pow2(7) == 128;
  }

  /** Event `k` is the last announcement of its port. */
  ghost predicate LastWord(events: seq<Event>, k: int): (b: bool)
    ensures b ==> 0 <= k < |events| && events[k].AnnounceHeard?
  {
    && 0 <= k < |events| && events[k].AnnounceHeard?
    && forall j :: k < j < |events| && events[j].AnnounceHeard? ==>
         !SamePort(events[j].a, events[k].a.clock, events[k].a.port)
  }

  /** It was qualified, less than 255 steps away, and is no older than three of its own intervals and half a second. */
  ghost predicate Stands(events: seq<Event>, k: int): (b: bool)
    ensures b ==> 0 <= k < |events| && events[k].AnnounceHeard?
  {
    && LastWord(events, k) && events[k].a.stepsRemoved < 255
    && events[|events| - 1].ts - events[k].ts <= 3 * AnnouncedInterval(events[k].a.logInterval) + 500_000_000
  }

  /** The vector carries what the announcement said. */
  predicate Carries(v: AnnVec, e: Event)
    requires e.AnnounceHeard?
  {
    && v.p1 == e.a.p1 && v.clockClass == e.a.clockClass && v.accuracy == e.a.accuracy && v.variance == e.a.variance
    && v.p2 == e.a.p2 && v.gmId == e.a.gm && v.stepsRemoved == e.a.stepsRemoved && v.srcClock == e.a.clock
    && v.srcPort == e.a.port && v.lastTs == e.ts && v.interval == AnnouncedInterval(e.a.logInterval)
  }

  lemma VecCarries(e: Event)
    requires e.AnnounceHeard?
    ensures Carries(VecOf(e.a, e.ts), e)
    ensures forall v :: Carries(v, e) ==> v == VecOf(e.a, e.ts)
  {
    IntervalExact(e.a.logInterval);
  }

  lemma SamePortSameKey(a: Announce, clock: ClockIdentity, port: PortNumber)
    ensures SamePort(a, clock, port) <==> PortKey(a.clock, a.port) == PortKey(clock, port)
  {
    PortKeyCollides(a.clock, a.port, clock, port);
  }

  lemma {:induction false} LastWordSaid(events: seq<Event>, k: int)
    requires LastWord(events, k)
    ensures LastSaid(events, PortKey(events[k].a.clock, events[k].a.port)) ==
            if events[k].a.stepsRemoved < 255 then Some(VecOf(events[k].a, events[k].ts)) else None
    decreases |events|
  {
    hide VecOf, PortKey, SamePort;
    var n := |events| - 1;
    if k < n {
      if events[n].AnnounceHeard? {
        SamePortSameKey(events[n].a, events[k].a.clock, events[k].a.port);
      }
      LastWordSaid(events[..n], k);
    }
  }

  lemma {:induction false} SaidLastWord(events: seq<Event>, key: nat) returns (k: int)
    requires LastSaid(events, key).Some?
    ensures LastWord(events, k) && PortKey(events[k].a.clock, events[k].a.port) == key
    decreases |events|
  {
    hide VecOf, PortKey, SamePort;
    k := |events| - 1;
    if !events[k].AnnounceHeard? || PortKey(events[k].a.clock, events[k].a.port) != key {
      var n := k;
      k := SaidLastWord(events[..n], key);
      if events[n].AnnounceHeard? {
        SamePortSameKey(events[n].a, events[k].a.clock, events[k].a.port);
      }
    }
  }

  ghost predicate InOrder(events: seq<Event>) {
    forall i, j :: 0 <= i < j < |events| ==> events[i].ts <= events[j].ts
  }

  /** The announcers held are exactly the announcements that stand, under their ports' keys. */
  lemma HeldStands(events: seq<Event>, k: int)
    requires events != [] && InOrder(events) && LastWord(events, k)
    ensures Lookup(Run(events).announcers, PortKey(events[k].a.clock, events[k].a.port)) ==
            if Stands(events, k) then Some(VecOf(events[k].a, events[k].ts)) else None
  {
    hide PortKey, LastSaid, LastWord, Run, AnnouncedInterval;
    LastWordSaid(events, k);
    AnnouncersMeaning(events, PortKey(events[k].a.clock, events[k].a.port));
    VecCarries(events[k]);
  }

  lemma HeldIs(events: seq<Event>, key: nat) returns (k: int)
    requires events != [] && InOrder(events) && key in Run(events).announcers
    ensures Stands(events, k) && PortKey(events[k].a.clock, events[k].a.port) == key
    ensures Carries(Run(events).announcers[key], events[k])
  {
    hide PortKey, LastSaid, LastWord, Run, VecOf, Carries;
    AnnouncersMeaning(events, key);
    k := SaidLastWord(events, key);
    HeldStands(events, k);
    VecCarries(events[k]);
  }

  lemma {:induction false} RunOk(events: seq<Event>)
    ensures DomainOk(Run(events))
  {
    hide DomainOk, DomainStep;
    if events == [] {
      NewDomainOk();
    } else {
      RunOk(events[..|events| - 1]);
      DomainStepKeeps(Run(events[..|events| - 1]), events[|events| - 1]);
    }
  }

  /** With time going forward, what a domain expects is the announcement that outranks all others that stand. */
  lemma ExpectedMeaning(events: seq<Event>)
    requires events != [] && InOrder(events)
    ensures var expected := Run(events).expected;
            && (expected.None? <==> forall k :: !Stands(events, k))
            && (expected.Some? ==>
                  exists k :: Stands(events, k) && Carries(expected.value, events[k]) &&
                              forall j, w :: Stands(events, j) && j != k && Carries(w, events[j]) ==>
                                Outranks(expected.value, w))
  {
    hide PortKey, Run, Stands, Carries, BetterThan, Outranks, VecOf;
    var d := Run(events);
    RunOk(events);
    if d.announcers == map[] {
      NoneBest();
      forall k
        ensures !Stands(events, k)
      {
        StandingHeld(events, k);
      }
    } else {
      var b := BestExists(d.announcers);
      var k := HeldIs(events, b);
      forall j, w | Stands(events, j) && j != k && Carries(w, events[j])
        ensures Outranks(d.announcers[b], w)
      {
        StandingHeld(events, j);
        OnePort(events, j, k);
        var key := PortKey(events[j].a.clock, events[j].a.port);
        VecCarries(events[j]);
        OrderByFields(d.announcers[b], d.announcers[key]);
      }
    }
  }

  lemma StandingHeld(events: seq<Event>, k: int)
    requires events != [] && InOrder(events)
    ensures Stands(events, k) ==>
              LastWord(events, k) &&
              Lookup(Run(events).announcers, PortKey(events[k].a.clock, events[k].a.port)) ==
                Some(VecOf(events[k].a, events[k].ts))
  {
    hide Run, VecOf, PortKey;
    if Stands(events, k) {
      HeldStands(events, k);
    }
  }

  lemma OnePort(events: seq<Event>, j: int, k: int)
    requires Stands(events, j) && Stands(events, k) && j != k
    ensures PortKey(events[j].a.clock, events[j].a.port) != PortKey(events[k].a.clock, events[k].a.port)
  {
    hide PortKey;
    SamePortSameKey(events[j].a, events[k].a.clock, events[k].a.port);
    SamePortSameKey(events[k].a, events[j].a.clock, events[j].a.port);
  }

  // ---- the grandmaster that drives Sync ----

  /** The port of the last Sync; before any, the one with number 0 and identity 0. */
  function Syncer(events: seq<Event>): (ClockIdentity, PortNumber) {
    if events == [] then (0, 0)
    else
      var e := events[|events| - 1];
      if e.SyncHeard? then (e.clock, e.port) else Syncer(events[..|events| - 1])
  }

  /** What the port's announcement says, if one stands. */
  ghost function GmSaid(events: seq<Event>, clock: ClockIdentity, port: PortNumber): nat {
    if k :| Stands(events, k) && SamePort(events[k].a, clock, port) then events[k].a.gm else 0
  }

  /** A Sync brings the grandmaster its sender announced, as it stood at the event before; an Announce of that sender
      brings its own, or none if it is not qualified. */
  ghost function Driving(events: seq<Event>): nat
    decreases |events|
  {
    if events == [] then 0
    else
      var before, e := events[..|events| - 1], events[|events| - 1];
      if e.SyncHeard? then GmSaid(before, e.clock, e.port)
      else if e.AnnounceHeard? && SamePort(e.a, Syncer(before).0, Syncer(before).1) then
        if e.a.stepsRemoved < 255 then e.a.gm else 0
      else Driving(before)
  }

  lemma GmSaidHeld(events: seq<Event>, clock: ClockIdentity, port: PortNumber)
    requires InOrder(events)
    ensures var held := Run(events).announcers; var key := PortKey(clock, port);
            GmSaid(events, clock, port) == if key in held then held[key].gmId else 0
  {
    hide PortKey, Run, Stands, VecOf, SamePort;
    var key := PortKey(clock, port);
    if events == [] {
      NothingStands();
    } else {
      if key in Run(events).announcers {
        var k := HeldIs(events, key);
        SamePortSameKey(events[k].a, clock, port);
      }
      if k :| Stands(events, k) && SamePort(events[k].a, clock, port) {
        GmOfStanding(events, k, clock, port);
      }
    }
  }

  lemma NothingStands()
    ensures Run([]).announcers == map[] && forall k :: !Stands([], k)
  {
  }

  lemma GmOfStanding(events: seq<Event>, k: int, clock: ClockIdentity, port: PortNumber)
    requires events != [] && InOrder(events) && Stands(events, k) && SamePort(events[k].a, clock, port)
    ensures GmSaid(events, clock, port) == events[k].a.gm
    ensures PortKey(clock, port) in Run(events).announcers
    ensures Run(events).announcers[PortKey(clock, port)].gmId == events[k].a.gm
  {
    hide PortKey, Run;
    SamePortSameKey(events[k].a, clock, port);
    StandingHeld(events, k);
    VecCarries(events[k]);
    var j :| && 0 <= j < |events| && events[j].AnnounceHeard? && Stands(events, j)
             && SamePort(events[j].a, clock, port) && GmSaid(events, clock, port) == events[j].a.gm;
    SamePortSameKey(events[j].a, clock, port);
    if j != k {
      OnePort(events, j, k);
    }
  }

  /** With time going forward, the grandmaster Sync is attributed to is the one the messages tell. */
  lemma {:induction false} DrivingMeaning(events: seq<Event>)
    requires InOrder(events)
    ensures Run(events).syncSenderGm == Driving(events)
    ensures Run(events).syncSender == PortKey(Syncer(events).0, Syncer(events).1)
    decreases |events|
  {
    hide PortKey, GmSaid, SamePort, VecOf, BestOf;
    if events == [] {
      NoSyncer();
    } else {
      var n := |events| - 1;
      DrivingMeaning(events[..n]);
      match events[n]
      case SyncHeard(_, clock, port, _) => GmSaidHeld(events[..n], clock, port);
      case AnnounceHeard(_, a, _) => SamePortSameKey(a, Syncer(events[..n]).0, Syncer(events[..n]).1);
      case Tick(_) =>
    }
  }

  lemma NoSyncer()
    ensures PortKey(0, 0) == 0
  {
  }
}
