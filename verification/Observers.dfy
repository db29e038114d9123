/** The protocol observers over one shared model, in any interleaving of messages and ticks. */
module Observers {
  import opened History
  import opened Shared
  import Msrp
  import Mvrp
  import Adp
  import MilanSink

  datatype World = World(msrp: Msrp.MsrpState, vlans: Mvrp.Vlans, adp: Adp.AdpState, sinks: MilanSink.Sinks)

  const INITIAL := World(Msrp.MsrpState(map[], {}, map[], map[]), map[], Adp.AdpState({}, map[]), map[])

  /** One message to a module, or one module's tick; the engine ticks its modules in no specified order. */
  datatype Event =
    | Reservation(d: Msrp.Declaration, ts: int, n: nat)
    | VidDeclared(vid: nat, member: nat, ev: nat, ts: int, n: nat)
    | EntityHeard(a: Adp.AdpMessage, observed: map<nat, nat>, ts: int, n: nat)
    | SinkHeard(m: MilanSink.Message, ts: int, n: nat)
    | RegistrarTick(ts: int)
    | EntityTick(ts: int)
    | SinkTick(ts: int)

  function MvrpPart(w: World): Mvrp.MvrpState {
    Mvrp.MvrpState(w.msrp.attrs, w.vlans)
  }

  /** What a sink asks the shared model. */
  function Seen(w: World): MilanSink.View {
    MilanSink.View(w.adp.available, w.msrp.decls.Keys)
  }

  ghost function Step(w: World, e: Event): World {
    match e
    case Reservation(d, ts, n) => w.(msrp := Msrp.OnDeclaration(w.msrp, d, ts, n))
    case VidDeclared(vid, member, ev, ts, n) =>
      var v := Mvrp.OnVidEvent(MvrpPart(w), vid, member, ev, ts, n);
      w.(msrp := w.msrp.(attrs := v.attrs), vlans := v.vlans)
    case EntityHeard(a, observed, ts, n) => w.(adp := Adp.OnAdp(w.adp, a, observed, ts, n))
    case SinkHeard(m, ts, n) => w.(sinks := MilanSink.SinksOnMessage(w.sinks, m, Seen(w), ts, n))
    case RegistrarTick(ts) => w.(msrp := w.msrp.(attrs := TickAttrs(w.msrp.attrs, ts)))
    case EntityTick(ts) => w.(adp := Adp.OnAdpTime(w.adp, ts))
    case SinkTick(ts) => w.(sinks := MilanSink.SinksOnTime(w.sinks, Seen(w), ts))
  }

  ghost function Run(events: seq<Event>): World {
    if events == [] then INITIAL else Step(Run(events[..|events| - 1]), events[|events| - 1])
  }

  class Observers {
    const shared: SharedModel
    const msrp: Msrp.MsrpLogic
    const mvrp: Mvrp.MvrpLogic
    const adp: Adp.AdpLogic
    const milan: MilanSink.SinkLogic

    function State(): World
      reads shared, msrp, mvrp, adp, milan
    {
      World(Msrp.MsrpState(shared.attrs, shared.establishedStreams, shared.talkerDecl, msrp.res), mvrp.vlans,
            Adp.AdpState(shared.adpAvailable, adp.entities), milan.sinks)
    }

    /** All modules share one model, and everything they believe about each other is true. */
    ghost predicate Valid()
      reads shared, msrp, mvrp, adp, milan
    {
      && msrp.shared == shared && mvrp.shared == shared && adp.shared == shared && milan.shared == shared
      && shared.Valid() && WorldOk(State())
    }

    constructor ()
      ensures Valid() && State() == INITIAL
    {
      var s := new SharedModel();
      shared := s;
      msrp := new Msrp.MsrpLogic(s);
      mvrp := new Mvrp.MvrpLogic(s);
      adp := new Adp.AdpLogic(s);
      milan := new MilanSink.SinkLogic(s);
    }

    method Observe(e: Event)
      requires Valid() && e.ts >= 0
      modifies shared, msrp, mvrp, adp, milan
      ensures Valid() && State() == Step(old(State()), e)
    {
      hide WorldOk, Msrp.OnDeclaration, Mvrp.OnVidEvent, Adp.OnAdp, Adp.OnAdpTime, MilanSink.SinksOnMessage,
        MilanSink.SinksOnTime, TickAttrs, AttrsOk, Leaving;
      StepKeeps(State(), e);
      match e {
        case Reservation(d, ts, n) => msrp.OnDecode(d, ts, n);
        case VidDeclared(vid, member, ev, ts, n) => mvrp.OnDecode(vid, member, ev, ts, n);
        case EntityHeard(a, observed, ts, n) => adp.OnDecode(a, observed, ts, n);
        case SinkHeard(m, ts, n) => milan.MilanOnMessage(m, ts, n);
        case RegistrarTick(ts) => mvrp.OnTimeTick(ts);
        case EntityTick(ts) => adp.OnTimeTick(ts);
        case SinkTick(ts) => milan.MilanTick(ts);
      }
    }
  }

  // ---- what every interleaving keeps ----

  ghost predicate WorldOk(w: World) {
    && AttrsOk(w.msrp.attrs)
    && Msrp.TruthOk(w.msrp) && Msrp.ListenersAgree(w.msrp)
    && Mvrp.VlansOk(MvrpPart(w)) && Mvrp.MembersAgree(MvrpPart(w))
    && Adp.EntitiesOk(w.adp)
    && MilanSink.SinksOk(w.sinks)
  }

  /** No registrar of a VID is touched by MSRP. */
  lemma ReservationFrame(m: Msrp.MsrpState, d: Msrp.Declaration, ts: int, n: nat, id: AttrId)
    requires id.0.Vid?
    ensures var m' := Msrp.OnDeclaration(m, d, ts, n);
            (id in m'.attrs <==> id in m.attrs) && (id in m.attrs ==> m'.attrs[id] == m.attrs[id])
  {
    hide OnEvent, OnLeaveAll, Msrp.Recomputed;
  }

  lemma ReservationKeepsAttrs(m: Msrp.MsrpState, d: Msrp.Declaration, ts: int, n: nat)
    requires AttrsOk(m.attrs) && ts >= 0
    ensures AttrsOk(Msrp.OnDeclaration(m, d, ts, n).attrs)
  {
    hide AttrsOk, EventAttrs, LeaveAllAttrs, Msrp.Recomputed;
    if Msrp.KnownAttr(d) {
      EventKeepsAll(m.attrs, (Msrp.KeyOf(d), d.src), Msrp.RegistrarEvent(d), ts, n);
      LeaveAllKeepsAll(m.attrs, KindOf(Msrp.KeyOf(d)), ts, n);
    }
  }

  lemma ReservationKeepsWorld(w: World, d: Msrp.Declaration, ts: int, n: nat)
    requires WorldOk(w) && ts >= 0
    ensures WorldOk(Step(w, Reservation(d, ts, n)))
  {
    hide Msrp.OnDeclaration, Msrp.TruthOk, Msrp.ListenersAgree, AttrsOk, Mvrp.VlanOk, MilanSink.SinksOk, Adp.EntitiesOk;
    ReservationKeepsAttrs(w.msrp, d, ts, n);
    Msrp.DeclarationKeepsTruth(w.msrp, d, ts, n);
    Msrp.DeclarationKeepsListeners(w.msrp, d, ts, n);
    forall id: AttrId | id.0.Vid?
      ensures var m' := Msrp.OnDeclaration(w.msrp, d, ts, n);
              (id in m'.attrs <==> id in w.msrp.attrs) && (id in w.msrp.attrs ==> m'.attrs[id] == w.msrp.attrs[id])
    {
      ReservationFrame(w.msrp, d, ts, n, id);
    }
    var m' := Msrp.OnDeclaration(w.msrp, d, ts, n);
    forall vid, src | (Vid(vid), src) in m'.attrs && m'.attrs[(Vid(vid), src)].registrar.IN?
      ensures vid in w.vlans && src in w.vlans[vid].members
    {
      assert (Vid(vid), src).0.Vid?;
    }
  }

  lemma TruthIgnoresAttrs(m: Msrp.MsrpState, attrs: Attrs)
    requires Msrp.TruthOk(m)
    ensures Msrp.TruthOk(m.(attrs := attrs))
  {
    hide Msrp.ResOk;
  }

  lemma VidKeepsWorld(w: World, vid: nat, member: nat, ev: nat, ts: int, n: nat)
    requires WorldOk(w) && ts >= 0
    ensures WorldOk(Step(w, VidDeclared(vid, member, ev, ts, n)))
  {
    hide Msrp.TruthOk, Msrp.ListenersAgree, Mvrp.VlansOk, Mvrp.MembersAgree, AttrsOk, OnEvent, OnLeaveAll,
      MilanSink.SinksOk, Adp.EntitiesOk, Mvrp.OnVlanEvent;
    Mvrp.VidEventKeeps(MvrpPart(w), vid, member, ev, ts, n);
    Mvrp.VidEventKeepsMembers(MvrpPart(w), vid, member, ev, ts, n);
    var v := Mvrp.OnVidEvent(MvrpPart(w), vid, member, ev, ts, n);
    EventKeepsAll(w.msrp.attrs, (Vid(vid), member), ev, ts, n);
    LeaveAllKeepsAll(w.msrp.attrs, KVid, ts, n);
    TruthIgnoresAttrs(w.msrp, v.attrs);
    Msrp.TickKeepsListeners(w.msrp, v.attrs);
  }

  lemma TickNeverJoins(a: MrpAttr, ts: int)
    ensures OnTick(a, ts).registrar.IN? ==> a.registrar.IN?
  {
    hide Push;
  }

  lemma RegistrarTickKeepsWorld(w: World, ts: int)
    requires WorldOk(w)
    ensures WorldOk(Step(w, RegistrarTick(ts)))
  {
    hide Msrp.TruthOk, Msrp.ListenersAgree, AttrsOk, OnTick, MilanSink.SinksOk, Adp.EntitiesOk, Mvrp.VlanOk;
    var attrs := TickAttrs(w.msrp.attrs, ts);
    TickKeepsAll(w.msrp.attrs, ts);
    TruthIgnoresAttrs(w.msrp, attrs);
    forall id | id in attrs
      ensures attrs[id].registrar.IN? ==> w.msrp.attrs[id].registrar.IN?
    {
      TickNeverJoins(w.msrp.attrs[id], ts);
    }
    Msrp.TickKeepsListeners(w.msrp, attrs);
  }

  lemma StepKeeps(w: World, e: Event)
    requires WorldOk(w) && e.ts >= 0
    ensures WorldOk(Step(w, e))
  {
    hide Msrp.TruthOk, Msrp.ListenersAgree, AttrsOk, MilanSink.SinksOk, Adp.EntitiesOk, Mvrp.VlansOk, Mvrp.MembersAgree,
      Msrp.OnDeclaration, Mvrp.OnVidEvent, Adp.OnAdp, Adp.OnAdpTime, MilanSink.SinksOnMessage, MilanSink.SinksOnTime,
      TickAttrs;
    match e
    case Reservation(d, ts, n) => ReservationKeepsWorld(w, d, ts, n);
    case VidDeclared(vid, member, ev, ts, n) => VidKeepsWorld(w, vid, member, ev, ts, n);
    case EntityHeard(a, observed, ts, n) => Adp.MessageKeeps(w.adp, a, observed, ts, n);
    case SinkHeard(m, ts, n) => MilanSink.SinksMessageKeeps(w.sinks, m, Seen(w), ts, n);
    case RegistrarTick(ts) => RegistrarTickKeepsWorld(w, ts);
    case EntityTick(ts) => Adp.TimeKeeps(w.adp, ts);
    case SinkTick(ts) => MilanSink.SinksTimeKeeps(w.sinks, Seen(w), ts);
  }

  /** Every invariant of every observer holds after any run whatever. */
  lemma {:induction false} EveryRunOk(events: seq<Event>)
    requires forall e :: e in events ==> e.ts >= 0
    ensures WorldOk(Run(events))
  {
    hide Step, WorldOk;
    if events == [] {
      InitialOk();
    } else {
      EveryRunOk(events[..|events| - 1]);
      StepKeeps(Run(events[..|events| - 1]), events[|events| - 1]);
    }
  }

  lemma InitialOk()
    ensures WorldOk(INITIAL)
  {
  }

  // ---- a sink and the truth of the other protocols ----

  /** ADP's own record of an entity. */
  predicate IsAvailable(w: World, entity: nat) {
    entity in w.adp.entities && w.adp.entities[entity].state == Adp.Available
  }

  /** MSRP's own record of a stream. */
  predicate IsDeclared(w: World, stream: nat) {
    stream in w.msrp.res && w.msrp.res[stream].decl != Msrp.DECL_NONE
  }

  /** A bound sink knows its talker's availability, and settles as MSRP's record of its stream says. */
  ghost predicate KnowsTalker(w: World, s: MilanSink.Sink) {
    s.state != MilanSink.Unbound ==>
      && (s.talkerAvail <==> IsAvailable(w, s.boundTalker))
      && (s.state == MilanSink.PrbWAvail ==> !IsAvailable(w, s.boundTalker))
  }

  ghost predicate KnowsStream(w: World, s: MilanSink.Sink) {
    s.streamId != 0 ==>
      && (s.state == MilanSink.SettledRsvOk ==> IsDeclared(w, s.streamId))
      && (s.state == MilanSink.SettledNoRsv ==> !IsDeclared(w, s.streamId))
  }

  lemma SeenIsTruth(w: World, s: MilanSink.Sink)
    requires WorldOk(w)
    ensures MilanSink.AgreesWithAdp(s, Seen(w)) <==> KnowsTalker(w, s)
    ensures s.streamId != 0 && MilanSink.AgreesWithMsrp(s, Seen(w)) ==> KnowsStream(w, s)
  {
    hide Spans, Msrp.ResOk;
  }

  /** After any run that ends in a sink tick every sink agrees with ADP's and MSRP's own records, none is overdue. */
  lemma SinkTickShowsTruth(events: seq<Event>, ts: int, k: MilanSink.SinkKey)
    requires ts >= 0 && forall e :: e in events ==> e.ts >= 0
    requires k in Run(events).sinks
    ensures var w := Step(Run(events), SinkTick(ts));
            && k in w.sinks && KnowsTalker(w, w.sinks[k]) && KnowsStream(w, w.sinks[k])
            && MilanSink.NotOverdue(w.sinks[k], ts)
  {
    hide WorldOk, MilanSink.OnTime, KnowsTalker, KnowsStream, MilanSink.SinkOk, MilanSink.NotOverdue, Run;
    var w := Run(events);
    EveryRunOk(events);
    SinkOkIn(w, k);
    MilanSink.TickAgrees(w.sinks[k], Seen(w), ts);
    var w' := Step(w, SinkTick(ts));
    StepKeeps(w, SinkTick(ts));
    SeenIsTruth(w', w'.sinks[k]);
    if w'.sinks[k].streamId == 0 {
      NoStream(w', w'.sinks[k]);
    }
  }

  lemma NoStream(w: World, s: MilanSink.Sink)
    requires s.streamId == 0
    ensures KnowsStream(w, s)
  {
  }

  lemma SinkOkIn(w: World, k: MilanSink.SinkKey)
    requires WorldOk(w) && k in w.sinks
    ensures MilanSink.SinkOk(w.sinks[k])
  {
  }

  /** After any run that ends in a BIND command the sink waits for its talker exactly when ADP's own record lacks it;
      after one that ends in a successful PROBE response a known sink is settled as MSRP's own record of the stream
      says. */
  lemma MessageShowsTruth(events: seq<Event>, m: MilanSink.Message, ts: int, n: nat)
    requires ts >= 0 && forall e :: e in events ==> e.ts >= 0
    ensures var w, w' := Run(events), Step(Run(events), SinkHeard(m, ts, n));
            && (m.msg == MilanSink.BIND_RX_COMMAND ==>
                  && m.sink in w'.sinks && KnowsTalker(w', w'.sinks[m.sink]) && w'.sinks[m.sink].boundTalker == m.talker
                  && w'.sinks[m.sink].state ==
                     if IsAvailable(w, m.talker) then MilanSink.PrbWDelay else MilanSink.PrbWAvail)
            && (m.msg == MilanSink.PROBE_TX_RESPONSE && m.status == 0 && m.sink in w.sinks ==>
                  && w'.sinks[m.sink].streamId == m.streamId
                  && w'.sinks[m.sink].state ==
                       if IsDeclared(w, m.streamId) then MilanSink.SettledRsvOk else MilanSink.SettledNoRsv)
  {
    hide WorldOk, Run, MilanSink.Recorded;
    EveryRunOk(events);
    SeenTruth(Run(events));
  }

  lemma SeenTruth(w: World)
    requires WorldOk(w)
    ensures forall id :: id in Seen(w).available <==> IsAvailable(w, id)
    ensures forall s :: s in Seen(w).registered <==> IsDeclared(w, s)
  {
    hide Spans, Msrp.ResOk;
  }

  // ---- the stream that is never checked ----

  const PROBED := MilanSink.SinkKey(7, 0)

  function ProbeMessage(msg: nat): MilanSink.Message {
    MilanSink.Message(msg, 0, PROBED, 9, 0, 0, 0, 0, 0)
  }

  /** A talker's word on stream 0. */
  function StreamZero(ev: nat): Msrp.Declaration {
    Msrp.Declaration(1, ev, 9, 0, Msrp.Offer(0, 0, 0, 0, 0, 0, 0), (0, 0), 0, 0, 0, 0)
  }

  /** Probed and answered with stream 0 before, or after, its talker declares it; in the second run the talker then
      leaves. */
  const DECLARED_LATE := [
    SinkHeard(ProbeMessage(MilanSink.PROBE_TX_COMMAND), 0, 1),
    SinkHeard(ProbeMessage(MilanSink.PROBE_TX_RESPONSE), 0, 2),
    Reservation(StreamZero(EV_JOIN_IN), 0, 3), SinkTick(0)]

  const LEFT_UNSEEN := [
    Reservation(StreamZero(EV_JOIN_IN), 0, 1), SinkHeard(ProbeMessage(MilanSink.PROBE_TX_COMMAND), 0, 2),
    SinkHeard(ProbeMessage(MilanSink.PROBE_TX_RESPONSE), 0, 3), Reservation(StreamZero(EV_LV), 0, 4), SinkTick(0)]

  /** A sink nobody knew is probed and answered with stream 0 at time 0. */
  lemma Probed(w: World, n: nat)
    requires PROBED !in w.sinks && w.adp.available == {}
    ensures var u := Step(Step(w, SinkHeard(ProbeMessage(MilanSink.PROBE_TX_COMMAND), 0, n)),
                          SinkHeard(ProbeMessage(MilanSink.PROBE_TX_RESPONSE), 0, n + 1));
            && u.msrp == w.msrp && u.adp == w.adp && SettledOnZero(u)
            && (u.sinks[PROBED].state == MilanSink.SettledRsvOk <==> 0 in w.msrp.decls)
  {
    hide MilanSink.Recorded;
  }

  predicate SettledOnZero(w: World) {
    && w.adp.available == {} && PROBED in w.sinks
    && var s := w.sinks[PROBED];
       && s.streamId == 0 && s.settledNoRsvTs == 0 && !s.talkerAvail
       && (s.state == MilanSink.SettledRsvOk || s.state == MilanSink.SettledNoRsv)
  }

  lemma Spoken(w: World, ev: nat, n: nat)
    requires ev != EV_LEAVE_ALL
    ensures var u := Step(w, Reservation(StreamZero(ev), 0, n));
            && u.sinks == w.sinks && u.adp == w.adp
            && (0 in u.msrp.decls <==> ev != EV_LV) && (IsDeclared(u, 0) <==> ev != EV_LV)
  {
    hide EventAttrs, Push, Msrp.StateFor;
  }

  lemma TickedOnZero(w: World)
    requires SettledOnZero(w)
    ensures var u := Step(w, SinkTick(0));
            && u.msrp == w.msrp && SettledOnZero(u) && u.sinks[PROBED].state == w.sinks[PROBED].state
  {
    hide MilanSink.Moved;
    MilanSink.ZeroStreamUnchecked(w.sinks[PROBED], Seen(w), 0);
  }

  /** Both disagreements are reached: right after a tick a sink on stream 0 is SETTLED_NO_RSV while the stream is
      declared, or SETTLED_RSV_OK while it is not. */
  lemma ZeroStreamRuns()
    ensures var w := Run(DECLARED_LATE);
            PROBED in w.sinks && w.sinks[PROBED].state == MilanSink.SettledNoRsv && w.sinks[PROBED].streamId == 0
            && IsDeclared(w, 0)
    ensures var w := Run(LEFT_UNSEEN);
            PROBED in w.sinks && w.sinks[PROBED].state == MilanSink.SettledRsvOk && w.sinks[PROBED].streamId == 0
            && !IsDeclared(w, 0)
  {
    hide Step, IsDeclared;
    var late, left := DECLARED_LATE, LEFT_UNSEEN;
    FirstSteps(late);
    Probed(INITIAL, 1);
    var a := Run(late[..2]);
    Spoken(a, EV_JOIN_IN, 3);
    TickedOnZero(Run(late[..3]));
    SameRecords(Run(late[..3]), Run(late[..4]));
    assert late[..4] == late;
    FirstSteps(left);
    Spoken(INITIAL, EV_JOIN_IN, 1);
    Probed(Run(left[..1]), 2);
    Spoken(Run(left[..3]), EV_LV, 4);
    TickedOnZero(Run(left[..4]));
    assert left[..5][..4] == left[..4] && left[..5] == left;
    SameRecords(Run(left[..4]), Run(left));
  }

  lemma SameRecords(w: World, u: World)
    requires u.msrp == w.msrp
    ensures IsDeclared(u, 0) == IsDeclared(w, 0)
  {
  }

  lemma FirstSteps(events: seq<Event>)
    requires |events| >= 4
    ensures Run(events[..1]) == Step(INITIAL, events[0]) && Run(events[..2]) == Step(Run(events[..1]), events[1])
    ensures Run(events[..3]) == Step(Run(events[..2]), events[2])
    ensures Run(events[..4]) == Step(Run(events[..3]), events[3])
  {
    hide Step;
    assert events[..1][..0] == [] && events[..2][..1] == events[..1];
    assert events[..3][..2] == events[..2] && events[..4][..3] == events[..3];
  }

  // ---- the ticks of one packet ----

  /** All modules tick once per packet; whether ADP's tick comes before the sinks' is up to an unordered table. */
  ghost function Round(w: World, ts: int, entitiesFirst: bool): World {
    if entitiesFirst then Step(Step(w, EntityTick(ts)), SinkTick(ts)) else Step(Step(w, SinkTick(ts)), EntityTick(ts))
  }

  /** ADP's tick at `ts` will time this entity out. */
  predicate Expires(w: World, entity: nat, ts: int) {
    && IsAvailable(w, entity)
    && w.adp.entities[entity].validTime > 0
    && ts > w.adp.entities[entity].lastSeen + w.adp.entities[entity].validTime * SECOND
  }

  /** At the end of a packet a bound sink knows its talker exactly unless the sinks ticked first and the validity its
      talker announced has run out by this packet; the next packet puts that right. */
  lemma RoundKnowsTalker(events: seq<Event>, ts: int, entitiesFirst: bool, k: MilanSink.SinkKey)
    requires ts >= 0 && forall e :: e in events ==> e.ts >= 0
    requires k in Run(events).sinks
    ensures var w, w' := Run(events), Round(Run(events), ts, entitiesFirst); var s := w'.sinks[k];
            s.state != MilanSink.Unbound ==> (KnowsTalker(w', s) <==> entitiesFirst || !Expires(w, s.boundTalker, ts))
  {
    hide WorldOk, MilanSink.OnTime, Run, KnowsStream, MilanSink.NotOverdue;
    var w := Run(events);
    if entitiesFirst {
      RunSnoc(events, EntityTick(ts));
      SinkTickShowsTruth(events + [EntityTick(ts)], ts, k);
    } else {
      SinkTickShowsTruth(events, ts, k);
      OnlyTimesOut(Step(w, SinkTick(ts)), ts);
    }
  }

  lemma RunSnoc(events: seq<Event>, e: Event)
    ensures Run(events + [e]) == Step(Run(events), e)
  {
    assert (events + [e])[..|events|] == events;
  }

  lemma OnlyTimesOut(w: World, ts: int)
    ensures forall id :: IsAvailable(Step(w, EntityTick(ts)), id) <==> IsAvailable(w, id) && !Expires(w, id, ts)
  {
  }
}
