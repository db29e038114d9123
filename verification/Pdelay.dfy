/** Peer delay exchanges as observed per requester port (section 11.2 of IEEE 802.1AS-2020). Ports are known by key. */
module Pdelay {
  import opened Wrappers
  import opened History
  import opened Bytes
  import Bmca

  const ALLOWED_LOST := 3
  const DEFAULT_PDELAY_INTERVAL := SECOND

  /** MDPdelayReq, with its transient states folded into the wait they lead to. */
  datatype ReqState = ReqNotEnabled | WaitingForResp | WaitingForRespFollowUp | WaitingForIntervalTimer | Reset

  datatype RespState = RespNotEnabled | SentRespWaitingForTimestamp | WaitingForReq

  datatype AsCapable = UnknownCapable | Capable | NotCapable

  datatype Port = Port(
    initiated: nat, complete: nat, lost: nat, consecutiveLost: nat, resets: nat, reqInterval: int,
    reqState: ReqState, respState: RespState, asCapable: AsCapable)

  const NEW_PORT := Port(0, 0, 0, 0, 0, DEFAULT_PDELAY_INTERVAL, ReqNotEnabled, RespNotEnabled, UnknownCapable)

  /** The one outstanding exchange of a requester. */
  datatype Exchange = Exchange(seqId: nat, reqTs: int, haveResp: bool)

  type Ports = map<nat, Port>
  type Exchanges = map<nat, Exchange>

  datatype Pdelays = Pdelays(ports: Ports, exchanges: Exchanges)

  function Lost(p: Port): Port {
    p.(lost := p.lost + 1, consecutiveLost := p.consecutiveLost + 1, reqState := Reset, resets := p.resets + 1,
       asCapable := if p.consecutiveLost + 1 >= ALLOWED_LOST then NotCapable else p.asCapable)
  }

  function Completed(p: Port): Port {
    p.(complete := p.complete + 1, consecutiveLost := 0, reqState := WaitingForIntervalTimer, asCapable := Capable)
  }

  /** Any message makes its sender known. */
  function Touched(ports: Ports, key: nat): Ports {
    if key in ports then ports else ports[key := NEW_PORT]
  }

  function Requested(s: Pdelays, key: nat, seqId: nat, interval: int, ts: int): Pdelays
    requires key in s.ports
  {
    var asked := s.ports[key].(initiated := s.ports[key].initiated + 1, reqInterval := interval);
    var settled := if key in s.exchanges then Lost(asked) else asked;
    Pdelays(s.ports[key := settled.(reqState := WaitingForResp)], s.exchanges[key := Exchange(seqId, ts, false)])
  }

  predicate Matches(s: Pdelays, requester: nat, seqId: nat) {
    requester in s.exchanges && s.exchanges[requester].seqId == seqId
  }

  function Responded(s: Pdelays, key: nat, requester: nat, seqId: nat): Pdelays
    requires key in s.ports
  {
    var answered := s.(ports := s.ports[key := s.ports[key].(respState := SentRespWaitingForTimestamp)]);
    if !Matches(s, requester, seqId) then answered
    else
      Pdelays(if requester in answered.ports
              then answered.ports[requester := answered.ports[requester].(reqState := WaitingForRespFollowUp)]
              else answered.ports,
              s.exchanges[requester := s.exchanges[requester].(haveResp := true)])
  }

  function FollowedUp(s: Pdelays, key: nat, requester: nat, seqId: nat): Pdelays
    requires key in s.ports
  {
    var answered := s.(ports := s.ports[key := s.ports[key].(respState := WaitingForReq)]);
    if !Matches(s, requester, seqId) || !s.exchanges[requester].haveResp then answered
    else
      Pdelays(if requester in answered.ports then answered.ports[requester := Completed(answered.ports[requester])]
              else answered.ports,
              s.exchanges - {requester})
  }

  function Limit(ports: Ports, key: nat): int {
    if key in ports && ports[key].reqInterval > SECOND then ports[key].reqInterval else SECOND
  }

  predicate Overdue(s: Pdelays, key: nat, ts: int): (b: bool)
    ensures b ==> key in s.exchanges
  {
    key in s.exchanges && ts > s.exchanges[key].reqTs + Limit(s.ports, key)
  }

  /** The exchange of one port is dropped, and counted as lost, if it is overdue. */
  function Expired(s: Pdelays, k: nat, ts: int): Pdelays {
    if !Overdue(s, k, ts) then s
    else Pdelays(if k in s.ports then s.ports[k := Lost(s.ports[k])] else s.ports, s.exchanges - {k})
  }

  function Ticked(s: Pdelays, ts: int): Pdelays {
    Pdelays(map k | k in s.ports :: if Overdue(s, k, ts) then Lost(s.ports[k]) else s.ports[k],
            map k | k in s.exchanges && !Overdue(s, k, ts) :: s.exchanges[k])
  }

  datatype Event =
    | Request(key: nat, seqId: nat, logInterval: byte, ts: int)
    | Response(key: nat, requester: nat, seqId: nat, ts: int)
    | FollowUp(key: nat, requester: nat, seqId: nat, ts: int)
    | Other(key: nat, ts: int)
    | Tick(ts: int)

  function Step(s: Pdelays, e: Event): Pdelays {
    if e.Tick? then Ticked(s, e.ts)
    else
      var t := s.(ports := Touched(s.ports, e.key));
      match e
      case Request(key, seqId, log, ts) =>
        Requested(t, key, seqId, Bmca.IntervalFromLog(log as nat, DEFAULT_PDELAY_INTERVAL), ts)
      case Response(key, requester, seqId, _) => Responded(t, key, requester, seqId)
      case FollowUp(key, requester, seqId, _) => FollowedUp(t, key, requester, seqId)
      case Other(_, _) => t
  }

  class PdelayLogic {
    var ports: Ports
    var exchanges: Exchanges

    function State(): Pdelays
      reads this
    {
      Pdelays(ports, exchanges)
    }

    ghost predicate Valid()
      reads this
    {
      PdelaysOk(State())
    }

    constructor ()
      ensures Valid() && State() == Pdelays(map[], map[])
    {
      ports, exchanges := map[], map[];
    }

    method GetPort(key: nat)
      modifies `ports
      ensures ports == Touched(old(ports), key)
    {
      if key !in ports {
        ports := ports[key := NEW_PORT];
      }
    }

    method PdelayLost(port: Port) returns (p: Port)
      ensures p == Lost(port)
    {
      p := port.(lost := port.lost + 1, consecutiveLost := port.consecutiveLost + 1);
      p := p.(reqState := Reset, resets := p.resets + 1);
      if p.consecutiveLost >= ALLOWED_LOST {
        p := p.(asCapable := NotCapable);
      }
    }

    method OnPdelayReq(key: nat, seqId: nat, logInterval: byte, ts: int)
      requires Valid()
      modifies this
      ensures Valid() && State() == Step(old(State()), Request(key, seqId, logInterval, ts))
    {
      hide PdelaysOk, Bmca.IntervalFromLog, Lost;
      StepKeeps(State(), Request(key, seqId, logInterval, ts));
      GetPort(key);
      var port := ports[key].(initiated := ports[key].initiated + 1,
                              reqInterval := Bmca.IntervalFromLog(logInterval as nat, DEFAULT_PDELAY_INTERVAL));
      if key in exchanges {
        port := PdelayLost(port);
        exchanges := exchanges - {key};
      }
      ports := ports[key := port.(reqState := WaitingForResp)];
      exchanges := exchanges[key := Exchange(seqId, ts, false)];
      assert State() == Step(old(State()), Request(key, seqId, logInterval, ts));
    }

    method OnPdelayResp(key: nat, requester: nat, seqId: nat, ts: int)
      requires Valid()
      modifies this
      ensures Valid() && State() == Step(old(State()), Response(key, requester, seqId, ts))
    {
      hide PdelaysOk;
      StepKeeps(State(), Response(key, requester, seqId, ts));
      GetPort(key);
      ports := ports[key := ports[key].(respState := SentRespWaitingForTimestamp)];
      if requester !in exchanges || exchanges[requester].seqId != seqId {
        return;
      }
      if requester in ports {
        ports := ports[requester := ports[requester].(reqState := WaitingForRespFollowUp)];
      }
      exchanges := exchanges[requester := exchanges[requester].(haveResp := true)];
    }

    method OnPdelayRespFu(key: nat, requester: nat, seqId: nat, ts: int)
      requires Valid()
      modifies this
      ensures Valid() && State() == Step(old(State()), FollowUp(key, requester, seqId, ts))
    {
      hide PdelaysOk;
      StepKeeps(State(), FollowUp(key, requester, seqId, ts));
      GetPort(key);
      ports := ports[key := ports[key].(respState := WaitingForReq)];
      if requester !in exchanges || !exchanges[requester].haveResp || exchanges[requester].seqId != seqId {
        return;
      }
      if requester !in ports {
        exchanges := exchanges - {requester};
        return;
      }
      var p := ports[requester].(reqState := WaitingForIntervalTimer);
      p := p.(complete := p.complete + 1, consecutiveLost := 0);
      p := p.(asCapable := Capable);
      ports := ports[requester := p];
      exchanges := exchanges - {requester};
    }

    /** The body of the expiry loop. */
    method Expire(k: nat, ts: int)
      requires k in exchanges
      modifies this
      ensures State() == Expired(old(State()), k, ts)
    {
      hide Lost;
      var limit := if k in ports && ports[k].reqInterval > SECOND then ports[k].reqInterval else SECOND;
      if ts > exchanges[k].reqTs + limit {
        if k in ports {
          var p := PdelayLost(ports[k]);
          ports := ports[k := p];
        }
        exchanges := exchanges - {k};
      }
    }

    /** Expire exchanges the responder never completed. */
    method OnTimeTick(ts: int)
      requires Valid()
      modifies this
      ensures Valid() && State() == Step(old(State()), Tick(ts))
    {
      hide PdelaysOk, Lost, Overdue;
      StepKeeps(State(), Tick(ts));
      var todo := exchanges.Keys;
      NothingTicked(State(), ts);
      while todo != {}
        invariant todo <= old(exchanges).Keys && State() == TickedBut(old(State()), todo, ts)
      {
        var k :| k in todo;
        ExpireNext(old(State()), todo, k, ts);
        Expire(k, ts);
        todo := todo - {k};
      }
      assert State() == Ticked(old(State()), ts);
    }
  }

  /** The outcome of the expiry loop with `todo` still to be visited. */
  function TickedBut(s: Pdelays, todo: set<nat>, ts: int): Pdelays {
    Pdelays(map k | k in s.ports :: if k !in todo && Overdue(s, k, ts) then Lost(s.ports[k]) else s.ports[k],
            map k | k in s.exchanges && (k in todo || !Overdue(s, k, ts)) :: s.exchanges[k])
  }

  lemma NothingTicked(s: Pdelays, ts: int)
    ensures TickedBut(s, s.exchanges.Keys, ts) == s
  {
    hide Lost;
  }

  lemma ExpireNext(s: Pdelays, todo: set<nat>, k: nat, ts: int)
    requires k in todo && todo <= s.exchanges.Keys
    ensures var t := TickedBut(s, todo, ts);
            k in t.exchanges && TickedBut(s, todo - {k}, ts) == Expired(t, k, ts)
  {
    hide Lost;
  }

  // ---- conservation ----

  function Outstanding(s: Pdelays, key: nat): Option<Exchange> {
    if key in s.exchanges then Some(s.exchanges[key]) else None
  }

  /** The wait a port is in is determined by what is outstanding and how the last exchange ended. */
  function WaitFor(p: Port, out: Option<Exchange>): ReqState {
    if out.Some? then if out.value.haveResp then WaitingForRespFollowUp else WaitingForResp
    else if p.consecutiveLost > 0 then Reset
    else if p.complete > 0 then WaitingForIntervalTimer
    else ReqNotEnabled
  }

  function CapableFor(p: Port): AsCapable {
    if p.consecutiveLost >= ALLOWED_LOST then NotCapable else if p.complete > 0 then Capable else UnknownCapable
  }

  /** Every request is complete, lost or outstanding; every loss was one reset; the displayed states follow. */
  ghost predicate PortOk(p: Port, out: Option<Exchange>) {
    && p.initiated == p.complete + p.lost + (if out.Some? then 1 else 0)
    && p.resets == p.lost
    && p.consecutiveLost <= p.lost
    && p.reqState == WaitFor(p, out)
    && p.asCapable == CapableFor(p)
  }

  ghost predicate PdelaysOk(s: Pdelays) {
    && s.exchanges.Keys <= s.ports.Keys
    && forall k :: k in s.ports ==> PortOk(s.ports[k], Outstanding(s, k))
  }

  lemma LostOk(p: Port, x: Exchange)
    requires PortOk(p, Some(x))
    ensures PortOk(Lost(p), None)
  {
  }

  lemma CompletedOk(p: Port, x: Exchange)
    requires PortOk(p, Some(x))
    ensures PortOk(Completed(p), None)
  {
  }

  lemma AskedOk(p: Port, out: Option<Exchange>, interval: int, x: Exchange)
    requires PortOk(p, out) && !x.haveResp
    ensures var asked := p.(initiated := p.initiated + 1, reqInterval := interval);
            PortOk((if out.Some? then Lost(asked) else asked).(reqState := WaitingForResp), Some(x))
  {
  }

  lemma AnsweredOk(p: Port, out: Option<Exchange>, to: RespState)
    requires PortOk(p, out)
    ensures PortOk(p.(respState := to), out)
  {
  }

  lemma HeardOk(p: Port, x: Exchange)
    requires PortOk(p, Some(x))
    ensures PortOk(p.(reqState := WaitingForRespFollowUp), Some(x.(haveResp := true)))
  {
  }

  lemma TouchedKeeps(s: Pdelays, key: nat)
    requires PdelaysOk(s)
    ensures PdelaysOk(s.(ports := Touched(s.ports, key)))
  {
    assert PortOk(NEW_PORT, None);
  }

  lemma RequestedKeeps(s: Pdelays, key: nat, seqId: nat, interval: int, ts: int)
    requires PdelaysOk(s) && key in s.ports
    ensures PdelaysOk(Requested(s, key, seqId, interval, ts))
  {
    hide PortOk, Lost;
    AskedOk(s.ports[key], Outstanding(s, key), interval, Exchange(seqId, ts, false));
  }

  lemma AnsweredKeeps(s: Pdelays, key: nat, to: RespState)
    requires PdelaysOk(s) && key in s.ports
    ensures PdelaysOk(s.(ports := s.ports[key := s.ports[key].(respState := to)]))
  {
    hide PortOk;
    AnsweredOk(s.ports[key], Outstanding(s, key), to);
  }

  lemma RespondedKeeps(s: Pdelays, key: nat, requester: nat, seqId: nat)
    requires PdelaysOk(s) && key in s.ports
    ensures PdelaysOk(Responded(s, key, requester, seqId))
  {
    hide PortOk;
    AnsweredKeeps(s, key, SentRespWaitingForTimestamp);
    if Matches(s, requester, seqId) {
      var answered := s.(ports := s.ports[key := s.ports[key].(respState := SentRespWaitingForTimestamp)]);
      HeardOk(answered.ports[requester], s.exchanges[requester]);
    }
  }

  lemma FollowedUpKeeps(s: Pdelays, key: nat, requester: nat, seqId: nat)
    requires PdelaysOk(s) && key in s.ports
    ensures PdelaysOk(FollowedUp(s, key, requester, seqId))
  {
    hide PortOk, Completed;
    AnsweredKeeps(s, key, WaitingForReq);
    if requester in s.exchanges {
      var answered := s.(ports := s.ports[key := s.ports[key].(respState := WaitingForReq)]);
      CompletedOk(answered.ports[requester], s.exchanges[requester]);
    }
  }

  lemma TickedKeeps(s: Pdelays, ts: int)
    requires PdelaysOk(s)
    ensures PdelaysOk(Ticked(s, ts))
  {
    hide PortOk, Lost;
    forall k | k in s.ports && Overdue(s, k, ts)
      ensures PortOk(Lost(s.ports[k]), None)
    {
      LostOk(s.ports[k], s.exchanges[k]);
    }
  }

  lemma StepKeeps(s: Pdelays, e: Event)
    requires PdelaysOk(s)
    ensures PdelaysOk(Step(s, e))
  {
    hide Bmca.IntervalFromLog, PdelaysOk, Requested, Responded, FollowedUp, Ticked;
    if e.Tick? {
      TickedKeeps(s, e.ts);
    } else {
      TouchedKeeps(s, e.key);
      var t := s.(ports := Touched(s.ports, e.key));
      match e
      case Request(key, seqId, log, ts) =>
        RequestedKeeps(t, key, seqId, Bmca.IntervalFromLog(log as nat, DEFAULT_PDELAY_INTERVAL), ts);
      case Response(key, requester, seqId, _) => RespondedKeeps(t, key, requester, seqId);
      case FollowUp(key, requester, seqId, _) => FollowedUpKeeps(t, key, requester, seqId);
      case Other(_, _) =>
    }
  }

  function Run(events: seq<Event>): Pdelays {
    if events == [] then Pdelays(map[], map[]) else Step(Run(events[..|events| - 1]), events[|events| - 1])
  }

  /** Conservation holds for every port after any run whatever. */
  lemma {:induction false} EveryRunConserves(events: seq<Event>)
    ensures PdelaysOk(Run(events))
  {
    hide Step, PdelaysOk;
    if events == [] {
      NothingYet();
    } else {
      EveryRunConserves(events[..|events| - 1]);
      StepKeeps(Run(events[..|events| - 1]), events[|events| - 1]);
    }
  }

  lemma NothingYet()
    ensures PdelaysOk(Pdelays(map[], map[]))
  {
  }

  /** A tick expires exactly the exchanges past their limit, each as one loss, and leaves none behind. */
  lemma NothingOverdue(s: Pdelays, ts: int, key: nat)
    requires PdelaysOk(s)
    ensures !Overdue(Ticked(s, ts), key, ts)
    ensures key in s.ports ==>
              Ticked(s, ts).ports[key].lost == s.ports[key].lost + (if Overdue(s, key, ts) then 1 else 0)
  {
  }

  // ---- capability, read off the messages and ticks alone ----

  datatype Outcome = WasCompleted | WasLost

  function PortOf(s: Pdelays, key: nat): Port {
    if key in s.ports then s.ports[key] else NEW_PORT
  }

  function RequestedInterval(e: Event): int
    requires e.Request?
  {
    Bmca.IntervalFromLog(e.logInterval as nat, DEFAULT_PDELAY_INTERVAL)
  }

  /** The interval a port last announced with a request. */
  function LastInterval(events: seq<Event>, key: nat): int {
    if events == [] then 1_000_000_000
    else
      var e := events[|events| - 1];
      if e.Request? && e.key == key then RequestedInterval(e) else LastInterval(events[..|events| - 1], key)
  }

  /** Past the longer of one second and the requester's interval. */
  predicate RunsOut(x: Exchange, interval: int, ts: int) {
    ts > x.reqTs + if interval > 1_000_000_000 then interval else 1_000_000_000
  }

  /** A response or follow-up addressed to this exchange. */
  predicate Answers(e: Event, key: nat, x: Exchange) {
    (e.Response? || (e.FollowUp? && x.haveResp)) && e.requester == key && e.seqId == x.seqId
  }

  /** The exchange a port's last request opened, unless its follow-up was heard or a tick saw its time run out. */
  function Pending(events: seq<Event>, key: nat): Option<Exchange> {
    if events == [] then None
    else
      var e, before := events[|events| - 1], Pending(events[..|events| - 1], key);
      if e.Request? && e.key == key then Some(Exchange(e.seqId, e.ts, false))
      else if before.None? then None
      else if Answers(e, key, before.value) then if e.FollowUp? then None else Some(before.value.(haveResp := true))
      else if e.Tick? && RunsOut(before.value, LastInterval(events[..|events| - 1], key), e.ts) then None
      else before
  }

  /** How the last event ended the exchange that was pending before it, if it did. */
  function Ending(events: seq<Event>, key: nat): seq<Outcome>
    requires events != []
  {
    var e, before := events[|events| - 1], Pending(events[..|events| - 1], key);
    if before.None? then []
    else if e.Request? && e.key == key then [WasLost]
    else if e.FollowUp? && Answers(e, key, before.value) then [WasCompleted]
    else if e.Tick? && RunsOut(before.value, LastInterval(events[..|events| - 1], key), e.ts) then [WasLost]
    else []
  }

  /** How one port's exchanges ended, oldest first. */
  function Outcomes(events: seq<Event>, key: nat): seq<Outcome> {
    if events == [] then [] else Outcomes(events[..|events| - 1], key) + Ending(events, key)
  }

  function TrailingLost(os: seq<Outcome>): (k: nat)
    ensures k <= |os|
  {
    if os == [] || os[|os| - 1] == WasCompleted then 0 else 1 + TrailingLost(os[..|os| - 1])
  }

  lemma {:induction false} TrailingExact(os: seq<Outcome>)
    ensures var k := TrailingLost(os);
            && (forall i :: |os| - k <= i < |os| ==> os[i] == WasLost)
            && (k < |os| ==> os[|os| - 1 - k] == WasCompleted)
  {
    if os != [] && os[|os| - 1] == WasLost {
      TrailingExact(os[..|os| - 1]);
    }
  }

  /** What the ends of exchanges do to a port's counters. */
  ghost predicate Counts(p: Port, q: Port, ended: seq<Outcome>) {
    if ended == [WasLost] then
      q.lost == p.lost + 1 && q.complete == p.complete && q.consecutiveLost == p.consecutiveLost + 1
    else if ended == [WasCompleted] then
      q.lost == p.lost && q.complete == p.complete + 1 && q.consecutiveLost == 0
    else
      ended == [] && q.lost == p.lost && q.complete == p.complete && q.consecutiveLost == p.consecutiveLost
  }

  /** The observer's record of a port is what the events say. */
  ghost predicate Mirrors(s: Pdelays, events: seq<Event>, key: nat) {
    && Outstanding(s, key) == Pending(events, key)
    && PortOf(s, key).reqInterval == LastInterval(events, key)
    && (key in s.exchanges ==> key in s.ports)
  }

  lemma MirrorStep(s: Pdelays, events: seq<Event>, key: nat)
    requires events != [] && Mirrors(s, events[..|events| - 1], key)
    ensures var t := Step(s, events[|events| - 1]);
            Mirrors(t, events, key) && Counts(PortOf(s, key), PortOf(t, key), Ending(events, key))
  {
    hide Bmca.IntervalFromLog;
    match events[|events| - 1]
    case Request(k, seqId, log, ts) => MirrorRequest(s, events, key);
    case Response(k, requester, seqId, _) => MirrorResponse(s, events, key);
    case FollowUp(k, requester, seqId, _) => MirrorFollowUp(s, events, key);
    case Other(_, _) =>
    case Tick(ts) =>
  }

  lemma MirrorRequest(s: Pdelays, events: seq<Event>, key: nat)
    requires events != [] && events[|events| - 1].Request? && Mirrors(s, events[..|events| - 1], key)
    ensures var t := Step(s, events[|events| - 1]);
            Mirrors(t, events, key) && Counts(PortOf(s, key), PortOf(t, key), Ending(events, key))
  {
    hide Bmca.IntervalFromLog;
  }

  lemma MirrorResponse(s: Pdelays, events: seq<Event>, key: nat)
    requires events != [] && events[|events| - 1].Response? && Mirrors(s, events[..|events| - 1], key)
    ensures var t := Step(s, events[|events| - 1]);
            Mirrors(t, events, key) && Counts(PortOf(s, key), PortOf(t, key), Ending(events, key))
  {
    hide Bmca.IntervalFromLog;
  }

  lemma MirrorFollowUp(s: Pdelays, events: seq<Event>, key: nat)
    requires events != [] && events[|events| - 1].FollowUp? && Mirrors(s, events[..|events| - 1], key)
    ensures var t := Step(s, events[|events| - 1]);
            Mirrors(t, events, key) && Counts(PortOf(s, key), PortOf(t, key), Ending(events, key))
  {
    hide Bmca.IntervalFromLog;
  }

  lemma {:induction false} RunMirrors(events: seq<Event>, key: nat)
    ensures Mirrors(Run(events), events, key)
  {
    hide Step, Mirrors;
    if events == [] {
      NothingMirrored(key);
    } else {
      RunMirrors(events[..|events| - 1], key);
      MirrorStep(Run(events[..|events| - 1]), events, key);
    }
  }

  lemma NothingMirrored(key: nat)
    ensures Mirrors(Pdelays(map[], map[]), [], key)
  {
  }

  lemma {:induction false} ConsecutiveIsTrailing(events: seq<Event>, key: nat)
    ensures PortOf(Run(events), key).consecutiveLost == TrailingLost(Outcomes(events, key))
    ensures PortOf(Run(events), key).lost + PortOf(Run(events), key).complete == |Outcomes(events, key)|
  {
    hide Step, Ending, Mirrors, Counts, PortOf, TrailingLost;
    if events == [] {
      NothingCounted(key);
    } else {
      var before := events[..|events| - 1];
      ConsecutiveIsTrailing(before, key);
      RunMirrors(before, key);
      MirrorStep(Run(before), events, key);
      CountsTrail(PortOf(Run(before), key), PortOf(Run(events), key), Outcomes(before, key), Ending(events, key));
    }
  }

  lemma NothingCounted(key: nat)
    ensures PortOf(Run([]), key) == NEW_PORT && TrailingLost([]) == 0
  {
  }

  lemma CountsTrail(p: Port, q: Port, os: seq<Outcome>, ended: seq<Outcome>)
    requires Counts(p, q, ended) && p.consecutiveLost == TrailingLost(os) && p.lost + p.complete == |os|
    ensures q.consecutiveLost == TrailingLost(os + ended) && q.lost + q.complete == |os + ended|
  {
    assert (os + [WasLost])[..|os|] == os && os + [] == os;
    assert TrailingLost(os + [WasCompleted]) == 0;
  }

  /** A port is reported not capable exactly when its last three exchanges to end, as the messages and ticks have it,
      were all lost. */
  lemma NotCapableMeaning(events: seq<Event>, key: nat)
    requires key in Run(events).ports
    ensures var os := Outcomes(events, key);
            Run(events).ports[key].asCapable == NotCapable <==>
              |os| >= 3 && forall i :: |os| - 3 <= i < |os| ==> os[i] == WasLost
  {
    hide Run, Outcomes;
    EveryRunConserves(events);
    ConsecutiveIsTrailing(events, key);
    TrailingExact(Outcomes(events, key));
    var k, os := TrailingLost(Outcomes(events, key)), Outcomes(events, key);
    if k < ALLOWED_LOST <= |os| {
      assert os[|os| - 1 - k] == WasCompleted;
    }
  }
}
