/** Milan listener sinks (section 5.5.3 of Milan v1.2), driven by ACMP messages and by what ADP and MSRP currently
    show. */
module MilanSink {
  import opened History
  import opened Shared

  const NO_RESP := 200 * MILLISECOND
  const RETRY := 4 * SECOND
  const NO_TK := 10 * SECOND
  const SECOND_PROBE_WINDOW := NO_RESP + 300 * MILLISECOND
  const RESP2_LIMIT := NO_RESP + 50 * MILLISECOND
  const RESP_LIMIT := NO_RESP + SECOND
  const RETRY_LIMIT := RETRY + SECOND
  const SINK_HIST_CAP := 200
  const NEVER := -SECOND

  /** An empty state string counts as UNBOUND everywhere in the source. */
  datatype SinkState =
    | Unbound | PrbWAvail | PrbWDelay | PrbWResp | PrbWResp2 | PrbWRetry | SettledNoRsv | SettledRsvOk

  datatype Sink = Sink(
    state: SinkState, boundTalker: nat, boundTalkerUid: nat, controller: nat,
    streamId: nat, destMac: nat, vlan: nat, probes: nat,
    lastProbeTs: int, retryStartTs: int, settledNoRsvTs: int,
    talkerAvail: bool, retryWarned: bool, hist: seq<Entry<SinkState>>)

  const NO_SINK := Sink(Unbound, 0, 0, 0, 0, 0, 0, 0, NEVER, NEVER, NEVER, false, false, [])

  datatype SinkKey = SinkKey(listener: nat, uid: nat)
  type Sinks = map<SinkKey, Sink>

  datatype Message = Message(
    msg: nat, status: nat, sink: SinkKey, talker: nat, talkerUid: nat, controller: nat,
    streamId: nat, destMac: nat, vlan: nat)

  const PROBE_TX_COMMAND := 0
  const PROBE_TX_RESPONSE := 1
  const BIND_RX_COMMAND := 6
  const BIND_RX_RESPONSE := 7
  const UNBIND_RX_COMMAND := 8

  /** What the shared model answers at one moment. */
  datatype View = View(available: set<nat>, registered: set<nat>)

  /** The source caps every sink history; the uncapped one is what the capped one is compared with. */
  function Recorded(h: seq<Entry<SinkState>>, e: Entry<SinkState>, capped: bool := true): seq<Entry<SinkState>> {
    if capped then Push(h, e, SINK_HIST_CAP) else h + [e]
  }

  function Moved(s: Sink, to: SinkState, ts: int, n: nat, capped: bool := true): (r: Sink)
    ensures r == s.(state := to, hist := r.hist)
  {
    if s.state == to then s else s.(state := to, hist := Recorded(s.hist, Entry(ts, n, s.state, to), capped))
  }

  function Warned(s: Sink, ts: int, n: nat, capped: bool := true): (r: Sink)
    ensures r == s.(hist := r.hist)
  {
    s.(hist := Recorded(s.hist, Entry(ts, n, s.state, s.state), capped))
  }

  // ---- messages ----

  function OnBind(s: Sink, m: Message, v: View, ts: int, n: nat, capped: bool := true): Sink
  {
    var avail := m.talker in v.available;
    Moved(s.(boundTalker := m.talker, boundTalkerUid := m.talkerUid, controller := m.controller, talkerAvail := avail),
          if avail then PrbWDelay else PrbWAvail, ts, n, capped)
  }

  function OnProbe(s: Sink, m: Message, ts: int, n: nat, capped: bool := true): Sink
  {
    var p := s.(probes := s.probes + 1);
    var moved :=
      if s.state == PrbWResp && ts - s.lastProbeTs < SECOND_PROBE_WINDOW then Moved(p, PrbWResp2, ts, n, capped)
      else if s.state == PrbWRetry then Moved(p.(retryWarned := false), PrbWResp, ts, n, capped)
      else if s.state == Unbound then
        Moved(p.(boundTalker := m.talker, boundTalkerUid := m.talkerUid), PrbWResp, ts, n, capped)
      else Moved(p, PrbWResp, ts, n, capped);
    moved.(lastProbeTs := ts)
  }

  function OnProbeResponse(s: Sink, m: Message, v: View, ts: int, n: nat, capped: bool := true): Sink
  {
    if m.status != 0 then Warned(s, ts, n, capped)
    else
      var settled := Moved(s.(streamId := m.streamId, destMac := m.destMac, vlan := m.vlan, settledNoRsvTs := ts),
                           SettledNoRsv, ts, n, capped);
      if m.streamId in v.registered then Moved(settled, SettledRsvOk, ts, n, capped) else settled
  }

  function Lookup(sinks: Sinks, k: SinkKey): Sink {
    if k in sinks then sinks[k] else NO_SINK
  }

  /** The sink a message names, after that message. */
  function OnMessage(s: Sink, m: Message, v: View, ts: int, n: nat, capped: bool := true): Sink
  {
    if m.msg == BIND_RX_COMMAND then OnBind(s, m, v, ts, n, capped)
    else if m.msg == BIND_RX_RESPONSE then if m.status != 0 then Moved(s, Unbound, ts, n, capped) else s
    else if m.msg == UNBIND_RX_COMMAND then Moved(s, Unbound, ts, n, capped)
    else if m.msg == PROBE_TX_COMMAND then OnProbe(s, m, ts, n, capped)
    else if m.msg == PROBE_TX_RESPONSE then OnProbeResponse(s, m, v, ts, n, capped)
    else s
  }

  predicate Creates(m: Message) {
    m.msg == BIND_RX_COMMAND || m.msg == UNBIND_RX_COMMAND || m.msg == PROBE_TX_COMMAND
  }

  function SinksOnMessage(sinks: Sinks, m: Message, v: View, ts: int, n: nat, capped: bool := true): Sinks {
    if m.sink in sinks || Creates(m)
    then sinks[m.sink := OnMessage(Lookup(sinks, m.sink), m, v, ts, n, capped)] else sinks
  }

  // ---- time ----

  /** The bound talker has gone: the tick records that and looks at nothing else. */
  predicate Departs(s: Sink, v: View) {
    s.talkerAvail && s.boundTalker !in v.available && s.state != PrbWAvail
  }

  function Discovered(s: Sink, v: View, ts: int, capped: bool := true): Sink
  {
    if !s.talkerAvail && s.boundTalker in v.available then
      var seen := s.(talkerAvail := true);
      if s.state == PrbWAvail then Moved(seen, PrbWDelay, ts, 0, capped) else seen
    else s
  }

  function Reserved(s: Sink, v: View, ts: int, capped: bool := true): Sink
  {
    if s.streamId == 0 then s
    else if s.state == SettledNoRsv && s.streamId in v.registered then Moved(s, SettledRsvOk, ts, 0, capped)
    else if s.state == SettledRsvOk && s.streamId !in v.registered then
      Moved(s.(settledNoRsvTs := ts), SettledNoRsv, ts, 0, capped)
    else s
  }

  function Timers(s: Sink, ts: int, capped: bool := true): Sink
  {
    if s.state == PrbWResp2 && ts > s.lastProbeTs + RESP2_LIMIT then
      Moved(s.(retryStartTs := ts), PrbWRetry, ts, 0, capped)
    else if s.state == PrbWResp && ts > s.lastProbeTs + RESP_LIMIT then
      Moved(s.(retryStartTs := ts), PrbWRetry, ts, 0, capped)
    else if s.state == PrbWRetry && !s.retryWarned && ts > s.retryStartTs + RETRY_LIMIT then
      Warned(s.(retryWarned := true), ts, 0, capped)
    else if s.state == SettledNoRsv && ts > s.settledNoRsvTs + NO_TK then Moved(s, PrbWDelay, ts, 0, capped)
    else s
  }

  function OnTime(s: Sink, v: View, ts: int, capped: bool := true): Sink
  {
    if s.state == Unbound then s
    else if Departs(s, v) then Moved(s.(talkerAvail := false), PrbWAvail, ts, 0, capped)
    else Timers(Reserved(Discovered(s, v, ts, capped), v, ts, capped), ts, capped)
  }

  function SinksOnTime(sinks: Sinks, v: View, ts: int, capped: bool := true): Sinks {
    map k | k in sinks :: OnTime(sinks[k], v, ts, capped)
  }

  // ---- the module ----

  class SinkLogic {
    const shared: SharedModel
    var sinks: Sinks

    constructor (shared: SharedModel)
      ensures this.shared == shared && sinks == map[]
    {
      this.shared := shared;
      sinks := map[];
    }

    function Seen(): View
      reads shared
    {
      View(shared.adpAvailable, shared.talkerDecl.Keys)
    }

    predicate TalkerAvailable(talker: nat)
      reads shared
    {
      talker in shared.adpAvailable
    }

    predicate TalkerAttrRegistered(streamId: nat)
      reads shared
    {
      streamId in shared.talkerDecl
    }

    method MilanOnMessage(m: Message, ts: int, n: nat)
      modifies `sinks
      ensures sinks == SinksOnMessage(old(sinks), m, Seen(), ts, n)
    {
      hide Recorded, OnProbe;
      var k := m.sink;
      var s := Lookup(sinks, k);
      if m.msg == BIND_RX_COMMAND {
        s := s.(boundTalker := m.talker, boundTalkerUid := m.talkerUid, controller := m.controller,
                talkerAvail := TalkerAvailable(m.talker));
        s := Moved(s, if s.talkerAvail then PrbWDelay else PrbWAvail, ts, n);
        sinks := sinks[k := s];
      } else if m.msg == BIND_RX_RESPONSE {
        if k in sinks {
          if m.status != 0 {
            s := Moved(s, Unbound, ts, n);
          }
          sinks := sinks[k := s];
        }
      } else if m.msg == UNBIND_RX_COMMAND {
        sinks := sinks[k := Moved(s, Unbound, ts, n)];
      } else if m.msg == PROBE_TX_COMMAND {
        s := Probe(s, m, ts, n);
        sinks := sinks[k := s];
      } else if m.msg == PROBE_TX_RESPONSE {
        if k in sinks {
          if m.status == 0 {
            s := s.(streamId := m.streamId, destMac := m.destMac, vlan := m.vlan, settledNoRsvTs := ts);
            s := Moved(s, SettledNoRsv, ts, n);
            if TalkerAttrRegistered(s.streamId) {
              s := Moved(s, SettledRsvOk, ts, n);
            }
          } else {
            s := Warned(s, ts, n);
          }
          sinks := sinks[k := s];
        }
      } else {
        assert k in sinks ==> sinks == sinks[k := s];
      }
    }

    method Probe(sink: Sink, m: Message, ts: int, n: nat) returns (s: Sink)
      ensures s == OnProbe(sink, m, ts, n)
    {
      s := sink.(probes := sink.probes + 1);
      var prev := s.state;
      if prev == PrbWResp && ts - s.lastProbeTs < SECOND_PROBE_WINDOW {
        s := Moved(s, PrbWResp2, ts, n);
      } else if prev == PrbWRetry {
        s := s.(retryWarned := false);
        s := Moved(s, PrbWResp, ts, n);
      } else {
        if prev == Unbound {
          s := s.(boundTalker := m.talker, boundTalkerUid := m.talkerUid);
        }
        s := Moved(s, PrbWResp, ts, n);
      }
      s := s.(lastProbeTs := ts);
    }

    method MilanTick(ts: int)
      modifies `sinks
      ensures sinks == SinksOnTime(old(sinks), Seen(), ts)
    {
      hide OnTime;
      var todo := sinks.Keys;
      while todo != {}
        invariant todo <= sinks.Keys == old(sinks).Keys
        invariant forall k :: k in sinks ==>
                    sinks[k] == if k in todo then old(sinks)[k] else OnTime(old(sinks)[k], Seen(), ts)
      {
        var k :| k in todo;
        var s := TickSink(sinks[k], ts);
        sinks := sinks[k := s];
        todo := todo - {k};
      }
    }

    /** The body of the tick's loop. */
    method TickSink(sink: Sink, ts: int) returns (s: Sink)
      ensures s == OnTime(sink, Seen(), ts)
    {
      hide Recorded;
      s := sink;
      if s.state == Unbound {
        return;
      }
      var avail := TalkerAvailable(s.boundTalker);
      if s.talkerAvail && !avail && s.state != PrbWAvail {
        s := s.(talkerAvail := false);
        s := Moved(s, PrbWAvail, ts, 0);
        return;
      }
      if !s.talkerAvail && avail {
        s := s.(talkerAvail := true);
        if s.state == PrbWAvail {
          s := Moved(s, PrbWDelay, ts, 0);
        }
      }
      assert s == Discovered(sink, Seen(), ts);
      if s.streamId != 0 {
        var reg := TalkerAttrRegistered(s.streamId);
        if s.state == SettledNoRsv && reg {
          s := Moved(s, SettledRsvOk, ts, 0);
        } else if s.state == SettledRsvOk && !reg {
          s := s.(settledNoRsvTs := ts);
          s := Moved(s, SettledNoRsv, ts, 0);
        }
      }
      if s.state == PrbWResp2 && ts > s.lastProbeTs + RESP2_LIMIT {
        s := s.(retryStartTs := ts);
        s := Moved(s, PrbWRetry, ts, 0);
      } else if s.state == PrbWResp && ts > s.lastProbeTs + RESP_LIMIT {
        s := s.(retryStartTs := ts);
        s := Moved(s, PrbWRetry, ts, 0);
      } else if s.state == PrbWRetry && !s.retryWarned && ts > s.retryStartTs + RETRY_LIMIT {
        s := s.(retryWarned := true);
        s := Warned(s, ts, 0);
      } else if s.state == SettledNoRsv && ts > s.settledNoRsvTs + NO_TK {
        s := Moved(s, PrbWDelay, ts, 0);
      }
    }
  }

  // ---- what every step keeps ----

  /** The history leads to the current state; waiting for a talker means it is not thought to be there; and a
      sink in a timed state has the moment its timer counts from. */
  ghost predicate SinkOk(s: Sink) {
    && Traced(s)
    && (s.state == PrbWAvail ==> !s.talkerAvail)
    && (s.state == PrbWResp || s.state == PrbWResp2 ==> s.probes > 0 && s.lastProbeTs >= 0)
    && (s.state == PrbWRetry ==> s.retryStartTs >= 0)
    && (s.state == SettledNoRsv || s.state == SettledRsvOk ==> s.settledNoRsvTs >= 0)
  }

  ghost predicate SinksOk(sinks: Sinks) {
    forall k :: k in sinks ==> SinkOk(sinks[k])
  }

  /** The state changes that occur. A second response wait follows a first one, a retry follows a response wait, and a
      reservation follows a settled stream; everything else the wire may bring about from any state, beyond the figure
      of the standard. An entry from a state to itself is a warning. */
  predicate Edge(from: SinkState, to: SinkState) {
    || from == to
    || (match to
        case PrbWResp2 => from == PrbWResp
        case PrbWRetry => from == PrbWResp || from == PrbWResp2
        case SettledRsvOk => from == SettledNoRsv
        case _ => true)
  }

  /** A history of such changes that leads to the current state, within the cap. */
  ghost predicate Traced(s: Sink) {
    && LeadsTo(s.hist, s.state) && |s.hist| <= SINK_HIST_CAP
    && forall k :: 0 <= k < |s.hist| ==> Edge(s.hist[k].from, s.hist[k].to)
  }

  lemma MovedTraced(s: Sink, to: SinkState, ts: int, n: nat)
    requires Traced(s)
    ensures Edge(s.state, to) ==> Traced(Moved(s, to, ts, n))
    ensures Traced(Warned(s, ts, n))
  {
    PushLeadsTo(s.hist, Entry(ts, n, s.state, to), SINK_HIST_CAP);
    PushLeadsTo(s.hist, Entry(ts, n, s.state, s.state), SINK_HIST_CAP);
  }

  lemma BindKeeps(s: Sink, m: Message, v: View, ts: int, n: nat)
    requires SinkOk(s)
    ensures SinkOk(OnBind(s, m, v, ts, n))
  {
    hide Moved, Traced;
    var avail := m.talker in v.available;
    var b := s.(boundTalker := m.talker, boundTalkerUid := m.talkerUid, controller := m.controller,
                talkerAvail := avail);
    assert Traced(b) by { SameTrace(s, b); }
    MovedTraced(b, if avail then PrbWDelay else PrbWAvail, ts, n);
  }

  lemma SameTrace(s: Sink, t: Sink)
    requires Traced(s) && t.hist == s.hist && t.state == s.state
    ensures Traced(t)
  {
  }

  lemma ProbeKeeps(s: Sink, m: Message, ts: int, n: nat)
    requires SinkOk(s) && ts >= 0
    ensures SinkOk(OnProbe(s, m, ts, n))
  {
    hide Moved, Traced;
    var p := s.(probes := s.probes + 1);
    var q := p.(retryWarned := false);
    var u := p.(boundTalker := m.talker, boundTalkerUid := m.talkerUid);
    SameTrace(s, p);
    SameTrace(s, q);
    SameTrace(s, u);
    MovedTraced(p, PrbWResp2, ts, n);
    MovedTraced(p, PrbWResp, ts, n);
    MovedTraced(q, PrbWResp, ts, n);
    MovedTraced(u, PrbWResp, ts, n);
    var t := OnProbe(s, m, ts, n);
    SameTrace(t.(lastProbeTs := s.lastProbeTs), t);
  }

  lemma ResponseKeeps(s: Sink, m: Message, v: View, ts: int, n: nat)
    requires SinkOk(s) && ts >= 0
    ensures SinkOk(OnProbeResponse(s, m, v, ts, n))
  {
    hide Moved, Warned, Traced;
    var p := s.(streamId := m.streamId, destMac := m.destMac, vlan := m.vlan, settledNoRsvTs := ts);
    SameTrace(s, p);
    MovedTraced(s, s.state, ts, n);
    MovedTraced(p, SettledNoRsv, ts, n);
    MovedTraced(Moved(p, SettledNoRsv, ts, n), SettledRsvOk, ts, n);
  }

  lemma MessageKeeps(s: Sink, m: Message, v: View, ts: int, n: nat)
    requires SinkOk(s) && ts >= 0
    ensures SinkOk(OnMessage(s, m, v, ts, n))
  {
    hide OnBind, OnProbe, OnProbeResponse, Moved, Traced;
    BindKeeps(s, m, v, ts, n);
    ProbeKeeps(s, m, ts, n);
    ResponseKeeps(s, m, v, ts, n);
    MovedTraced(s, Unbound, ts, n);
  }

  lemma DepartureKeeps(s: Sink, v: View, ts: int)
    requires SinkOk(s)
    ensures SinkOk(Moved(s.(talkerAvail := false), PrbWAvail, ts, 0))
  {
    hide Moved, Traced;
    SameTrace(s, s.(talkerAvail := false));
    MovedTraced(s.(talkerAvail := false), PrbWAvail, ts, 0);
  }

  lemma DiscoveredKeeps(s: Sink, v: View, ts: int)
    requires SinkOk(s)
    ensures SinkOk(Discovered(s, v, ts))
    ensures s.state != Unbound && !Departs(s, v) ==> AgreesWithAdp(Discovered(s, v, ts), v)
    ensures Discovered(s, v, ts).streamId == s.streamId
  {
    hide Moved, Traced;
    SameTrace(s, s.(talkerAvail := true));
    MovedTraced(s.(talkerAvail := true), PrbWDelay, ts, 0);
  }

  lemma ReservedKeeps(s: Sink, v: View, ts: int)
    requires SinkOk(s) && ts >= 0
    ensures SinkOk(Reserved(s, v, ts)) && Reserved(s, v, ts).streamId == s.streamId
    ensures AgreesWithAdp(s, v) ==> AgreesWithAdp(Reserved(s, v, ts), v)
    ensures s.streamId != 0 ==> AgreesWithMsrp(Reserved(s, v, ts), v)
  {
    hide Moved, Traced;
    SameTrace(s, s.(settledNoRsvTs := ts));
    MovedTraced(s, SettledRsvOk, ts, 0);
    MovedTraced(s.(settledNoRsvTs := ts), SettledNoRsv, ts, 0);
  }

  lemma TimersKeep(s: Sink, v: View, ts: int)
    requires SinkOk(s) && ts >= 0
    ensures SinkOk(Timers(s, ts)) && NotOverdue(Timers(s, ts), ts)
    ensures AgreesWithAdp(s, v) ==> AgreesWithAdp(Timers(s, ts), v)
    ensures AgreesWithMsrp(s, v) ==> AgreesWithMsrp(Timers(s, ts), v)
    ensures Timers(s, ts).streamId == s.streamId
  {
    hide Moved, Warned, Traced;
    SameTrace(s, s.(retryStartTs := ts));
    SameTrace(s, s.(retryWarned := true));
    MovedTraced(s.(retryStartTs := ts), PrbWRetry, ts, 0);
    MovedTraced(s.(retryWarned := true), s.state, ts, 0);
    MovedTraced(s, PrbWDelay, ts, 0);
  }

  lemma TimeKeeps(s: Sink, v: View, ts: int)
    requires SinkOk(s) && ts >= 0
    ensures SinkOk(OnTime(s, v, ts))
  {
    hide Moved, SinkOk, Discovered, Reserved, Timers;
    DepartureKeeps(s, v, ts);
    DiscoveredKeeps(s, v, ts);
    var d := Discovered(s, v, ts);
    ReservedKeeps(d, v, ts);
    TimersKeep(Reserved(d, v, ts), v, ts);
  }

  lemma SinksMessageKeeps(sinks: Sinks, m: Message, v: View, ts: int, n: nat)
    requires SinksOk(sinks) && ts >= 0
    ensures SinksOk(SinksOnMessage(sinks, m, v, ts, n))
  {
    hide OnMessage, SinkOk;
    assert SinkOk(NO_SINK) by {
      NoSinkOk();
    }
    MessageKeeps(Lookup(sinks, m.sink), m, v, ts, n);
  }

  lemma SinksTimeKeeps(sinks: Sinks, v: View, ts: int)
    requires SinksOk(sinks) && ts >= 0
    ensures SinksOk(SinksOnTime(sinks, v, ts))
  {
    hide OnTime, SinkOk;
    forall k | k in sinks
      ensures SinkOk(OnTime(sinks[k], v, ts))
    {
      TimeKeeps(sinks[k], v, ts);
    }
  }

  lemma NoSinkOk()
    ensures SinkOk(NO_SINK)
  {
  }

  // ---- right after a tick ----

  /** A bound sink's cached availability is ADP's, and waiting for a talker means ADP does not have it. */
  ghost predicate AgreesWithAdp(s: Sink, v: View) {
    s.state != Unbound ==>
      && (s.talkerAvail <==> s.boundTalker in v.available)
      && (s.state == PrbWAvail ==> s.boundTalker !in v.available)
  }

  /** Settled with or without reservation is MSRP's word on the stream. */
  ghost predicate AgreesWithMsrp(s: Sink, v: View) {
    && (s.state == SettledRsvOk ==> s.streamId in v.registered)
    && (s.state == SettledNoRsv ==> s.streamId !in v.registered)
  }

  /** No timer of the sink has run out unnoticed. */
  ghost predicate NotOverdue(s: Sink, ts: int) {
    && (s.state == PrbWResp2 ==> ts <= s.lastProbeTs + RESP2_LIMIT)
    && (s.state == PrbWResp ==> ts <= s.lastProbeTs + RESP_LIMIT)
    && (s.state == PrbWRetry ==> s.retryWarned || ts <= s.retryStartTs + RETRY_LIMIT)
    && (s.state == SettledNoRsv ==> ts <= s.settledNoRsvTs + NO_TK)
  }

  /** Right after a tick the sink agrees with what ADP and MSRP show, and nothing is overdue. */
  lemma TickAgrees(s: Sink, v: View, ts: int)
    requires SinkOk(s) && ts >= 0
    ensures var t := OnTime(s, v, ts);
            && AgreesWithAdp(t, v) && NotOverdue(t, ts) && t.streamId == s.streamId
            && (t.streamId != 0 ==> AgreesWithMsrp(t, v))
  {
    hide Moved, SinkOk, Discovered, Reserved, Timers;
    DiscoveredKeeps(s, v, ts);
    var d := Discovered(s, v, ts);
    ReservedKeeps(d, v, ts);
    TimersKeep(Reserved(d, v, ts), v, ts);
  }

  /** The changes time alone may bring, besides the departure of the talker. */
  predicate TickEdge(from: SinkState, to: SinkState) {
    match from
    case PrbWAvail => to == PrbWDelay
    case PrbWResp | PrbWResp2 => to == PrbWRetry
    case SettledNoRsv => to == SettledRsvOk || to == PrbWDelay
    case SettledRsvOk => to == SettledNoRsv
    case _ => false
  }

  /** A tick returns a bound sink to PRB_W_AVAIL exactly when its talker departed, gives up waiting for a response
      exactly when the wait is overdue, and otherwise brings only the listed changes. */
  lemma TickChanges(s: Sink, v: View, ts: int)
    requires SinkOk(s) && ts >= 0 && s.state != Unbound
    ensures var t := OnTime(s, v, ts);
            && (t.state == PrbWAvail && s.state != PrbWAvail <==> Departs(s, v))
            && (t.state != s.state && !Departs(s, v) ==> TickEdge(s.state, t.state))
            && (s.state == PrbWResp || s.state == PrbWResp2 ==>
                  (t.state == PrbWRetry <==> !Departs(s, v) && !NotOverdue(s, ts)))
            && (s.state == PrbWAvail ==> (t.state == PrbWDelay <==> s.boundTalker in v.available))
  {
    hide Moved, Warned, Traced;
  }

  /** A sink settled on stream id zero is never checked against MSRP: after a tick it agrees exactly if its talker
      departed, its registration timer ran out, or MSRP happens to say what it says. */
  lemma ZeroStreamUnchecked(s: Sink, v: View, ts: int)
    requires s.streamId == 0 && (s.state == SettledRsvOk || s.state == SettledNoRsv)
    ensures AgreesWithMsrp(OnTime(s, v, ts), v) <==>
              || Departs(s, v)
              || (s.state == SettledNoRsv && ts > s.settledNoRsvTs + NO_TK)
              || (s.state == SettledRsvOk <==> 0 in v.registered)
    ensures !Departs(s, v) && !(s.state == SettledNoRsv && ts > s.settledNoRsvTs + NO_TK) ==>
              OnTime(s, v, ts).state == s.state
  {
    hide Moved, Warned;
  }

  /** Nothing recorded and the state unchanged, or one entry from the old state to the new. */
  ghost predicate RecordsOnce(s: Sink, t: Sink, ts: int, capped: bool := true) {
    || (t.hist == s.hist && t.state == s.state)
    || t.hist == Recorded(s.hist, Entry(ts, 0, s.state, t.state), capped)
  }

  /** At most one history entry per tick: a stage that records leaves nothing to do for the later ones. */
  lemma TickRecordsOnce(s: Sink, v: View, ts: int, capped: bool := true)
    ensures RecordsOnce(s, OnTime(s, v, ts, capped), ts, capped)
  {
    hide Recorded, Discovered, Reserved, Timers;
    DiscoveredOnce(s, v, ts, capped);
    var d := Discovered(s, v, ts, capped);
    ReservedOnce(d, v, ts, capped);
    TimersOnce(Reserved(d, v, ts, capped), ts, capped);
  }

  lemma DiscoveredOnce(s: Sink, v: View, ts: int, capped: bool)
    ensures var t := Discovered(s, v, ts, capped);
            RecordsOnce(s, t, ts, capped) && (t.state == s.state || t.state == PrbWDelay)
    ensures Discovered(s, v, ts, capped).state == s.state ==> Discovered(s, v, ts, capped).hist == s.hist
  {
    hide Recorded;
  }

  lemma ReservedOnce(s: Sink, v: View, ts: int, capped: bool)
    ensures var t := Reserved(s, v, ts, capped);
            && RecordsOnce(s, t, ts, capped) && (s.state == PrbWDelay ==> t == s)
            && (t.state == s.state ==> t.hist == s.hist)
            && (t.state == s.state || t.state == SettledRsvOk || (t.state == SettledNoRsv && t.settledNoRsvTs == ts))
  {
    hide Recorded;
  }

  lemma TimersOnce(s: Sink, ts: int, capped: bool)
    ensures var t := Timers(s, ts, capped);
            && RecordsOnce(s, t, ts, capped)
            && (s.state == PrbWDelay || s.state == SettledRsvOk || (s.state == SettledNoRsv && s.settledNoRsvTs == ts)
                ==> t == s)
  {
    hide Recorded;
  }

  /** A sink that agrees with both protocols and has nothing overdue is left alone by a tick. */
  lemma AgreementIsStable(s: Sink, v: View, ts: int)
    requires AgreesWithAdp(s, v) && NotOverdue(s, ts) && (s.streamId != 0 ==> AgreesWithMsrp(s, v))
    ensures OnTime(s, v, ts) == s
  {
    hide Moved, Warned;
  }

  /** Ticking again at the same time, with nothing changed in the shared model, does nothing. */
  lemma TickIdempotent(s: Sink, v: View, ts: int)
    requires SinkOk(s) && ts >= 0
    ensures var t := OnTime(s, v, ts); OnTime(t, v, ts) == t
  {
    hide OnTime, SinkOk, AgreesWithAdp, AgreesWithMsrp, NotOverdue;
    TickAgrees(s, v, ts);
    AgreementIsStable(OnTime(s, v, ts), v, ts);
  }

  lemma SinksTickIdempotent(sinks: Sinks, v: View, ts: int)
    requires SinksOk(sinks) && ts >= 0
    ensures SinksOnTime(SinksOnTime(sinks, v, ts), v, ts) == SinksOnTime(sinks, v, ts)
  {
    hide OnTime, SinkOk;
    forall k | k in sinks
      ensures var t := OnTime(sinks[k], v, ts); OnTime(t, v, ts) == t
    {
      TickIdempotent(sinks[k], v, ts);
    }
  }

  // ---- replay from the capped history ----

  datatype Input = Heard(m: Message, v: View, ts: int, n: nat) | Tick(v: View, ts: int)

  function Step(sinks: Sinks, i: Input, capped: bool): Sinks {
    match i
    case Heard(m, v, ts, n) => SinksOnMessage(sinks, m, v, ts, n, capped)
    case Tick(v, ts) => SinksOnTime(sinks, v, ts, capped)
  }

  function CappedStep(sinks: Sinks, i: Input): Sinks {
    Step(sinks, i, true)
  }

  function FullStep(sinks: Sinks, i: Input): Sinks {
    Step(sinks, i, false)
  }

  /** The sink with only its newest entries. */
  function Trim(s: Sink): Sink {
    s.(hist := Newest(s.hist, SINK_HIST_CAP))
  }

  lemma MovedTrims(s: Sink, to: SinkState, ts: int, n: nat)
    ensures Moved(Trim(s), to, ts, n) == Trim(Moved(s, to, ts, n, false))
    ensures Warned(Trim(s), ts, n) == Trim(Warned(s, ts, n, false))
  {
    PushNewest(s.hist, Entry(ts, n, s.state, to), SINK_HIST_CAP);
    PushNewest(s.hist, Entry(ts, n, s.state, s.state), SINK_HIST_CAP);
  }

  lemma BindTrims(s: Sink, m: Message, v: View, ts: int, n: nat)
    ensures OnBind(Trim(s), m, v, ts, n) == Trim(OnBind(s, m, v, ts, n, false))
  {
    hide Moved, Newest;
    var avail := m.talker in v.available;
    var b := s.(boundTalker := m.talker, boundTalkerUid := m.talkerUid, controller := m.controller,
                talkerAvail := avail);
    MovedTrims(b, if avail then PrbWDelay else PrbWAvail, ts, n);
  }

  lemma ProbeTrims(s: Sink, m: Message, ts: int, n: nat)
    ensures OnProbe(Trim(s), m, ts, n) == Trim(OnProbe(s, m, ts, n, false))
  {
    hide Moved, Newest;
    var p := s.(probes := s.probes + 1);
    MovedTrims(p, PrbWResp2, ts, n);
    MovedTrims(p, PrbWResp, ts, n);
    MovedTrims(p.(retryWarned := false), PrbWResp, ts, n);
    MovedTrims(p.(boundTalker := m.talker, boundTalkerUid := m.talkerUid), PrbWResp, ts, n);
  }

  lemma ResponseTrims(s: Sink, m: Message, v: View, ts: int, n: nat)
    ensures OnProbeResponse(Trim(s), m, v, ts, n) == Trim(OnProbeResponse(s, m, v, ts, n, false))
  {
    hide Moved, Warned, Newest;
    var p := s.(streamId := m.streamId, destMac := m.destMac, vlan := m.vlan, settledNoRsvTs := ts);
    MovedTrims(s, s.state, ts, n);
    MovedTrims(p, SettledNoRsv, ts, n);
    MovedTrims(Moved(p, SettledNoRsv, ts, n, false), SettledRsvOk, ts, n);
  }

  lemma MessageTrims(s: Sink, m: Message, v: View, ts: int, n: nat)
    ensures OnMessage(Trim(s), m, v, ts, n) == Trim(OnMessage(s, m, v, ts, n, false))
  {
    hide OnBind, OnProbe, OnProbeResponse, Moved, Newest;
    BindTrims(s, m, v, ts, n);
    ProbeTrims(s, m, ts, n);
    ResponseTrims(s, m, v, ts, n);
    MovedTrims(s, Unbound, ts, n);
  }

  lemma DiscoveredTrims(s: Sink, v: View, ts: int)
    ensures Discovered(Trim(s), v, ts) == Trim(Discovered(s, v, ts, false))
  {
    hide Moved, Newest;
    MovedTrims(s.(talkerAvail := true), PrbWDelay, ts, 0);
  }

  lemma ReservedTrims(s: Sink, v: View, ts: int)
    ensures Reserved(Trim(s), v, ts) == Trim(Reserved(s, v, ts, false))
  {
    hide Moved, Newest;
    MovedTrims(s, SettledRsvOk, ts, 0);
    MovedTrims(s.(settledNoRsvTs := ts), SettledNoRsv, ts, 0);
  }

  lemma TimersTrim(s: Sink, ts: int)
    ensures Timers(Trim(s), ts) == Trim(Timers(s, ts, false))
  {
    hide Moved, Warned, Newest;
    MovedTrims(s.(retryStartTs := ts), PrbWRetry, ts, 0);
    MovedTrims(s.(retryWarned := true), s.state, ts, 0);
    MovedTrims(s, PrbWDelay, ts, 0);
  }

  lemma TimeTrims(s: Sink, v: View, ts: int)
    ensures OnTime(Trim(s), v, ts) == Trim(OnTime(s, v, ts, false))
  {
    hide Moved, Newest, Discovered, Reserved, Timers;
    MovedTrims(s.(talkerAvail := false), PrbWAvail, ts, 0);
    DiscoveredTrims(s, v, ts);
    var d := Discovered(s, v, ts, false);
    ReservedTrims(d, v, ts);
    TimersTrim(Reserved(d, v, ts, false), ts);
  }

  function TrimAll(sinks: Sinks): Sinks {
    map k | k in sinks :: Trim(sinks[k])
  }

  lemma StepTrims(sinks: Sinks, i: Input)
    ensures CappedStep(TrimAll(sinks), i) == TrimAll(FullStep(sinks, i))
  {
    hide OnMessage, OnTime, Trim;
    match i
    case Heard(m, v, ts, n) =>
      assert Trim(NO_SINK) == NO_SINK by {
        NothingToTrim();
      }
      MessageTrims(Lookup(sinks, m.sink), m, v, ts, n);
    case Tick(v, ts) =>
      forall k | k in sinks
        ensures OnTime(Trim(sinks[k]), v, ts) == Trim(OnTime(sinks[k], v, ts, false))
      {
        TimeTrims(sinks[k], v, ts);
      }
  }

  lemma NothingToTrim()
    ensures Trim(NO_SINK) == NO_SINK
  {
  }

  /** The capped run is the uncapped one with every history cut to its newest entries. */
  lemma {:induction false} RunTrims(inputs: seq<Input>)
    ensures Fold(CappedStep, map[], inputs) == TrimAll(Fold(FullStep, map[], inputs))
    decreases |inputs|
  {
    hide CappedStep, FullStep, Trim;
    if inputs != [] {
      var n := |inputs| - 1;
      RunTrims(inputs[..n]);
      StepTrims(Fold(FullStep, map[], inputs[..n]), inputs[n]);
    }
  }

  /** Appends entries with this time and number that carry the history from state to state. */
  ghost predicate Extends(s: Sink, t: Sink, ts: int, n: nat) {
    && s.hist <= t.hist && (forall k :: |s.hist| <= k < |t.hist| ==> t.hist[k].ts == ts && t.hist[k].n == n)
    && (Spans(s.hist, Unbound, s.state) ==> Spans(t.hist, Unbound, t.state))
  }

  lemma MovedExtends(s: Sink, to: SinkState, ts: int, n: nat)
    ensures Extends(s, Moved(s, to, ts, n, false), ts, n) && Extends(s, Warned(s, ts, n, false), ts, n)
  {
    if Spans(s.hist, Unbound, s.state) {
      AppendSpans(s.hist, Entry(ts, n, s.state, to), Unbound);
      AppendSpans(s.hist, Entry(ts, n, s.state, s.state), Unbound);
    }
  }

  lemma ExtendsTwice(s: Sink, t: Sink, u: Sink, ts: int, n: nat)
    requires Extends(s, t, ts, n) && Extends(t, u, ts, n)
    ensures Extends(s, u, ts, n)
  {
    hide Spans;
  }

  lemma ProbeExtends(s: Sink, m: Message, ts: int, n: nat)
    ensures Extends(s, OnProbe(s, m, ts, n, false), ts, n)
  {
    hide Moved, Spans;
    var p := s.(probes := s.probes + 1);
    MovedExtends(p, PrbWResp2, ts, n);
    MovedExtends(p, PrbWResp, ts, n);
    MovedExtends(p.(retryWarned := false), PrbWResp, ts, n);
    MovedExtends(p.(boundTalker := m.talker, boundTalkerUid := m.talkerUid), PrbWResp, ts, n);
  }

  lemma MessageExtends(s: Sink, m: Message, v: View, ts: int, n: nat)
    ensures Extends(s, OnMessage(s, m, v, ts, n, false), ts, n)
  {
    hide Moved, Warned, Spans, OnProbe;
    ProbeExtends(s, m, ts, n);
    MovedExtends(s, Unbound, ts, n);
    var avail := m.talker in v.available;
    var b := s.(boundTalker := m.talker, boundTalkerUid := m.talkerUid, controller := m.controller,
                talkerAvail := avail);
    MovedExtends(b, if avail then PrbWDelay else PrbWAvail, ts, n);
    var p := s.(streamId := m.streamId, destMac := m.destMac, vlan := m.vlan, settledNoRsvTs := ts);
    var q := Moved(p, SettledNoRsv, ts, n, false);
    MovedExtends(p, SettledNoRsv, ts, n);
    MovedExtends(q, SettledRsvOk, ts, n);
    ExtendsTwice(p, q, Moved(q, SettledRsvOk, ts, n, false), ts, n);
  }

  lemma TimeExtends(s: Sink, v: View, ts: int)
    ensures Extends(s, OnTime(s, v, ts, false), ts, 0)
  {
    hide OnTime;
    TickRecordsOnce(s, v, ts, false);
    if Spans(s.hist, Unbound, s.state) {
      AppendSpans(s.hist, Entry(ts, 0, s.state, OnTime(s, v, ts, false).state), Unbound);
    }
  }

  /** An input only appends, under its own time and number, 0 for a tick, entries that lead from state to state. */
  lemma StepExtends(sinks: Sinks, i: Input, k: SinkKey)
    ensures Extends(Lookup(sinks, k), Lookup(FullStep(sinks, i), k), i.ts, if i.Heard? then i.n else 0)
  {
    hide OnMessage, OnTime, Spans;
    match i
    case Heard(m, v, ts, n) => MessageExtends(Lookup(sinks, m.sink), m, v, ts, n);
    case Tick(v, ts) => TimeExtends(Lookup(sinks, k), v, ts);
  }

  /** Replaying a sink's recorded history at any cursor from its oldest retained entry on shows the state the sink had
      then; so does any cursor while the history is not full. */
  lemma SinkReplay(inputs: seq<Input>, k: SinkKey, t: int)
    requires TimeOrdered(inputs, (i: Input) => i.ts)
    requires var h := Lookup(Fold(CappedStep, map[], inputs), k).hist; |h| < SINK_HIST_CAP || h[0].ts <= t
    ensures var s := Lookup(Fold(CappedStep, map[], inputs), k);
            var past := inputs[..Processed(inputs, (i: Input) => i.ts, t)];
            LiveAt(s.hist, s.state, t) == Lookup(Fold(CappedStep, map[], past), k).state
  {
    hide Spans, FullStep, CappedStep, Fold;
    var hist, state := (m: Sinks) => Lookup(m, k).hist, (m: Sinks) => Lookup(m, k).state;
    var time := (i: Input) => i.ts;
    forall m: Sinks, i: Input
      ensures hist(m) <= hist(FullStep(m, i))
      ensures forall j :: |hist(m)| <= j < |hist(FullStep(m, i))| ==> hist(FullStep(m, i))[j].ts == i.ts
      ensures Spans(hist(m), Unbound, state(m)) ==> Spans(hist(FullStep(m, i)), Unbound, state(FullStep(m, i)))
    {
      StepExtends(m, i, k);
    }
    assert Records(FullStep, hist, state, time, Unbound);
    RunTrims(inputs);
    RunTrims(inputs[..Processed(inputs, time, t)]);
    ReplayCappedIsState(FullStep, hist, state, time, Unbound, map[], inputs, SINK_HIST_CAP, t);
  }
}
