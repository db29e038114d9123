/** Cross-protocol knowledge of one analysis, with the MRP registrar (section 10.7.8 of IEEE 802.1Q). */
module Shared {
  import opened History

  const LEAVE_TIME := SECOND
  const LOG_CAP := 500
  const HIST_CAP := 200

  /** An attribute value; the source's key text is an injective rendering of it. */
  datatype AttrKey =
    | TalkerAdvertise(streamId: nat)
    | TalkerFailed(streamId: nat)
    | Listener(streamId: nat)
    | Domain(classId: nat, prio: nat, vid: nat)
    | Vid(vid: nat)

  /** The attribute type a LeaveAll is scoped to. */
  datatype Kind = KTalkerAdvertise | KTalkerFailed | KListener | KDomain | KVid

  function KindOf(k: AttrKey): Kind {
    match k
    case TalkerAdvertise(_) => KTalkerAdvertise
    case TalkerFailed(_) => KTalkerFailed
    case Listener(_) => KListener
    case Domain(_, _, _) => KDomain
    case Vid(_) => KVid
  }

  datatype Registrar = MT | IN | LV

  const EV_NEW := 0
  const EV_JOIN_IN := 1
  const EV_IN := 2
  const EV_JOIN_MT := 3
  const EV_MT := 4
  const EV_LV := 5
  const EV_LEAVE_ALL := 6

  datatype LogEntry = LogEntry(ts: int, n: nat, event: nat, after: Registrar)

  /** One registrar: an attribute value as declared by one source. A timer of -1 is stopped. */
  datatype MrpAttr = MrpAttr(
    registrar: Registrar, lastEvent: nat, lastEventTs: int, leaveTimerStart: int, eventCount: nat,
    log: seq<LogEntry>, hist: seq<Entry<Registrar>>)

  const FRESH := MrpAttr(MT, 0, -1, -1, 0, [], [])

  type AttrId = (AttrKey, nat)
  type Attrs = map<AttrId, MrpAttr>

  // ---- the registrar machine, one attribute at a time ----

  function SetRegistrar(a: MrpAttr, to: Registrar, ts: int, n: nat): MrpAttr {
    if a.registrar == to then a
    else a.(registrar := to, hist := Push(a.hist, Entry(ts, n, a.registrar, to), HIST_CAP))
  }

  function Logged(a: MrpAttr, ev: nat, ts: int, n: nat): MrpAttr {
    a.(log := Push(a.log, LogEntry(ts, n, ev, a.registrar), LOG_CAP))
  }

  function Counted(a: MrpAttr, ev: nat, ts: int): MrpAttr {
    a.(lastEvent := ev, lastEventTs := ts, eventCount := a.eventCount + 1)
  }

  function OnEvent(a: MrpAttr, ev: nat, ts: int, n: nat): MrpAttr {
    var c := Counted(a, ev, ts);
    var moved :=
      if ev == EV_NEW || ev == EV_JOIN_IN || ev == EV_JOIN_MT then SetRegistrar(c, IN, ts, n).(leaveTimerStart := -1)
      else if ev == EV_LV && a.registrar.IN? then SetRegistrar(c.(leaveTimerStart := ts), LV, ts, n)
      else c;
    Logged(moved, ev, ts, n)
  }

  function OnLeaveAll(a: MrpAttr, ts: int, n: nat): MrpAttr {
    if !a.registrar.IN? then a
    else Logged(SetRegistrar(Counted(a, EV_LEAVE_ALL, ts).(leaveTimerStart := ts), LV, ts, n), EV_LEAVE_ALL, ts, n)
  }

  function OnTick(a: MrpAttr, ts: int): MrpAttr {
    if a.registrar.LV? && a.leaveTimerStart >= 0 && ts > a.leaveTimerStart + LEAVE_TIME
    then SetRegistrar(a, MT, ts, 0).(leaveTimerStart := -1) else a
  }

  // ---- all registrars ----

  function EventAttrs(attrs: Attrs, id: AttrId, ev: nat, ts: int, n: nat): Attrs {
    attrs[id := OnEvent(if id in attrs then attrs[id] else FRESH, ev, ts, n)]
  }

  function LeaveAllAttrs(attrs: Attrs, kind: Kind, ts: int, n: nat): Attrs {
    map id | id in attrs :: if KindOf(id.0) == kind then OnLeaveAll(attrs[id], ts, n) else attrs[id]
  }

  function TickAttrs(attrs: Attrs, ts: int): Attrs {
    map id | id in attrs :: OnTick(attrs[id], ts)
  }

  ghost function Leaving(attrs: Attrs): set<AttrId> {
    set id | id in attrs && attrs[id].registrar.LV?
  }

  ghost predicate AttrOk(a: MrpAttr) {
    && (a.registrar.LV? <==> a.leaveTimerStart >= 0)
    && LeadsTo(a.hist, a.registrar) && |a.hist| <= HIST_CAP
    && |a.log| <= LOG_CAP && (a.log != [] ==> a.log[|a.log| - 1].event == a.lastEvent)
  }

  /** The invariant of the registrar layer. */
  ghost predicate AttrsOk(attrs: Attrs) {
    forall id :: id in attrs ==> AttrOk(attrs[id])
  }

  lemma EventKeeps(a: MrpAttr, ev: nat, ts: int, n: nat)
    requires AttrOk(a) && ts >= 0
    ensures AttrOk(OnEvent(a, ev, ts, n))
  {
    hide Push;
    forall e: Entry<Registrar> | e.from == a.registrar
      ensures LeadsTo(Push(a.hist, e, HIST_CAP), e.to)
    {
      PushLeadsTo(a.hist, e, HIST_CAP);
    }
    LastPushed(a.log, LogEntry(ts, n, ev, OnEvent(a, ev, ts, n).registrar), LOG_CAP);
  }

  lemma LastPushed<T>(h: seq<T>, e: T, cap: nat)
    requires cap > 0
    ensures var r := Push(h, e, cap); r != [] && r[|r| - 1] == e
  {
  }

  lemma LeaveAllKeeps(a: MrpAttr, ts: int, n: nat)
    requires AttrOk(a) && ts >= 0
    ensures AttrOk(OnLeaveAll(a, ts, n))
  {
    hide Push;
    PushLeadsTo(a.hist, Entry(ts, n, a.registrar, LV), HIST_CAP);
    LastPushed(a.log, LogEntry(ts, n, EV_LEAVE_ALL, LV), LOG_CAP);
  }

  lemma TickKeeps(a: MrpAttr, ts: int)
    requires AttrOk(a)
    ensures AttrOk(OnTick(a, ts))
  {
    PushLeadsTo(a.hist, Entry(ts, 0, a.registrar, MT), HIST_CAP);
  }

  /** With nothing leaving, walking every registrar changes none: the counter test may skip the walk. */
  lemma IdleTickSkips(attrs: Attrs, ts: int)
    requires Leaving(attrs) == {}
    ensures TickAttrs(attrs, ts) == attrs
  {
    forall id | id in attrs
      ensures OnTick(attrs[id], ts) == attrs[id]
    {
      assert id !in Leaving(attrs);
    }
  }

  /** After a tick nothing is left past its leave time, and what left is deregistered. */
  lemma NothingOverdue(attrs: Attrs, ts: int, id: AttrId)
    requires AttrsOk(attrs) && id in attrs
    ensures var b := TickAttrs(attrs, ts)[id];
            && (b.registrar.LV? ==> ts <= b.leaveTimerStart + LEAVE_TIME)
            && (b.registrar.MT? <==> attrs[id].registrar.MT? ||
                                     (attrs[id].registrar.LV? && ts > attrs[id].leaveTimerStart + LEAVE_TIME))
  {
    assert AttrOk(attrs[id]);
  }

  /** Ticking is idempotent. */
  lemma TickTwice(attrs: Attrs, ts: int)
    ensures TickAttrs(TickAttrs(attrs, ts), ts) == TickAttrs(attrs, ts)
  {
    var once := TickAttrs(attrs, ts);
    forall id | id in once
      ensures OnTick(once[id], ts) == once[id]
    {
    }
  }

  // ---- what the state means, read off the observations alone ----

  /** Everything that reaches one registrar. */
  datatype Observation = Declared(ev: nat, ts: int, n: nat) | LeftAll(ts: int, n: nat) | Time(ts: int)

  function Observe(a: MrpAttr, o: Observation): MrpAttr {
    match o
    case Declared(ev, ts, n) => OnEvent(a, ev, ts, n)
    case LeftAll(ts, n) => OnLeaveAll(a, ts, n)
    case Time(ts) => OnTick(a, ts)
  }

  function ObserveAll(os: seq<Observation>): MrpAttr {
    if os == [] then FRESH else Observe(ObserveAll(os[..|os| - 1]), os[|os| - 1])
  }

  predicate Joins(o: Observation) {
    o.Declared? && o.ev in {0, 1, 3}
  }

  predicate Leaves(o: Observation) {
    (o.Declared? && o.ev == 5) || o.LeftAll?
  }

  predicate Expires(o: Observation, since: int) {
    o.Time? && o.ts > since + 1_000_000_000
  }

  /** A join at `i` that nothing has followed up on. */
  ghost predicate Stands(os: seq<Observation>, i: int) {
    0 <= i < |os| && Joins(os[i]) && forall k :: i < k < |os| ==> !Leaves(os[k])
  }

  /** A join at `i`, the first leave after it at `j`, no later join, and the leave time not yet seen to pass. */
  ghost predicate LeavesSince(os: seq<Observation>, i: int, j: int) {
    && 0 <= i < j < |os| && Joins(os[i]) && Leaves(os[j])
    && (forall k :: i < k < |os| ==> !Joins(os[k]))
    && (forall k :: i < k < j ==> !Leaves(os[k]))
    && forall k :: j < k < |os| ==> !Expires(os[k], os[j].ts)
  }

  /** Events are those of the wire: 0, 1 and 3 are New, JoinIn and JoinMt, 5 is Lv. IN: joined with no leave since.
      LV: left since the last join, leave time not over. MT: otherwise. */
  lemma {:induction false} RegistrarMeaning(os: seq<Observation>)
    requires forall k :: 0 <= k < |os| ==> os[k].ts >= 0
    ensures ObserveAll(os).registrar.IN? <==> exists i :: Stands(os, i)
    ensures ObserveAll(os).registrar.LV? <==> exists i, j :: LeavesSince(os, i, j)
    ensures forall i, j :: LeavesSince(os, i, j) ==> ObserveAll(os).leaveTimerStart == os[j].ts
  {
    hide Observe;
    if os != [] {
      var n := |os| - 1;
      var before, o := os[..n], os[n];
      RegistrarMeaning(before);
      StandsStep(os);
      LeavesStep(os);
      var a := ObserveAll(before);
      ObserveStep(a, o);
      if exists i, j :: LeavesSince(before, i, j) {
        var i, j :| LeavesSince(before, i, j);
        assert a.leaveTimerStart == os[j].ts;
      }
    }
  }

  /** A registrar records each change of state, with the time and number of what brought it, 0 for a tick, and keeps the
      newest 200. */
  lemma ObserveRecords(a: MrpAttr, o: Observation)
    ensures var b := Observe(a, o); var n := if o.Time? then 0 else o.n;
            b.hist == if b.registrar == a.registrar then a.hist
                      else Push(a.hist, Entry(o.ts, n, a.registrar, b.registrar), 200)
  {
    hide Push;
  }

  /** A declaration, or a LeaveAll that finds a join standing, is taken notice of. */
  ghost predicate Noticed(before: seq<Observation>, o: Observation) {
    o.Declared? || (o.LeftAll? && exists i :: Stands(before, i))
  }

  /** What is logged of the observations: each one noticed, with the state it left; a LeaveAll is event 6. */
  ghost function Log(os: seq<Observation>): seq<LogEntry> {
    if os == [] then []
    else
      var o := os[|os| - 1];
      Log(os[..|os| - 1]) +
        if Noticed(os[..|os| - 1], o)
        then [LogEntry(o.ts, o.n, if o.LeftAll? then 6 else o.ev, ObserveAll(os).registrar)] else []
  }

  /** A registrar keeps the newest 500 log entries, counts all, and shows the last. */
  lemma {:induction false} LogMeaning(os: seq<Observation>)
    requires forall k :: 0 <= k < |os| ==> os[k].ts >= 0
    ensures var a, log := ObserveAll(os), Log(os);
            && a.log == Newest(log, 500) && a.eventCount == |log|
            && (log != [] ==> a.lastEvent == log[|log| - 1].event && a.lastEventTs == log[|log| - 1].ts)
            && (log == [] ==> a.lastEvent == 0 && a.lastEventTs == -1)
  {
    hide Observe, Stands, Newest;
    if os == [] {
      NothingLogged();
    } else {
      var n := |os| - 1;
      var a, o := ObserveAll(os[..n]), os[n];
      LogMeaning(os[..n]);
      RegistrarMeaning(os[..n]);
      NoticeStep(a, o);
      if o.Declared? || (o.LeftAll? && a.registrar.IN?) {
        PushNewest(Log(os[..n]), LogEntry(o.ts, o.n, if o.LeftAll? then 6 else o.ev, ObserveAll(os).registrar), 500);
      } else {
        assert Log(os) == Log(os[..n]) + [] == Log(os[..n]);
      }
    }
  }

  lemma NothingLogged()
    ensures Newest<LogEntry>([], 500) == []
  {
  }

  lemma NoticeStep(a: MrpAttr, o: Observation)
    ensures var b := Observe(a, o);
            if o.Declared? || (o.LeftAll? && a.registrar.IN?) then
              var ev := if o.LeftAll? then 6 else o.ev;
              && b.log == Push(a.log, LogEntry(o.ts, o.n, ev, b.registrar), 500)
              && b.eventCount == a.eventCount + 1 && b.lastEvent == ev && b.lastEventTs == o.ts
            else
              && b.log == a.log && b.eventCount == a.eventCount
              && b.lastEvent == a.lastEvent && b.lastEventTs == a.lastEventTs
  {
    hide Push;
  }

  lemma ObserveStep(a: MrpAttr, o: Observation)
    ensures var b := Observe(a, o);
            && b.registrar == (if Joins(o) then IN
                               else if Leaves(o) && a.registrar.IN? then LV
                               else if a.registrar.LV? && a.leaveTimerStart >= 0 && Expires(o, a.leaveTimerStart)
                               then MT
                               else a.registrar)
            && (b.registrar.LV? ==> b.leaveTimerStart == if a.registrar.LV? then a.leaveTimerStart else o.ts)
  {
    hide Push;
  }

  /** How the last observation changes whether a join stands. */
  lemma StandsStep(os: seq<Observation>)
    requires os != []
    ensures var before, o := os[..|os| - 1], os[|os| - 1];
            (exists i :: Stands(os, i)) <==> Joins(o) || (!Leaves(o) && exists i :: Stands(before, i))
  {
    var n := |os| - 1;
    var before, o := os[..n], os[n];
    if Joins(o) {
      assert Stands(os, n);
    } else if !Leaves(o) && exists i :: Stands(before, i) {
      var i :| Stands(before, i);
      assert Stands(os, i);
    }
    if exists i :: Stands(os, i) {
      var i :| Stands(os, i);
      if i < n {
        assert Stands(before, i);
      }
    }
  }

  /** How the last observation changes whether the object is leaving. */
  lemma LeavesStep(os: seq<Observation>)
    requires os != []
    ensures var before, o := os[..|os| - 1], os[|os| - 1]; var n := |os| - 1;
            && (forall i, j :: LeavesSince(os, i, j) <==>
                  || (j < n && LeavesSince(before, i, j) && !Joins(o) && !Expires(o, os[j].ts))
                  || (j == n && i < n && LatestStands(before, i) && Leaves(o)))
            && ((exists i :: LatestStands(before, i)) <==> exists i :: Stands(before, i))
  {
    var n := |os| - 1;
    var before, o := os[..n], os[n];
    if exists i :: Stands(before, i) {
      var i :| Stands(before, i);
      var l := LatestJoin(before, i);
    }
    forall i, j
      ensures LeavesSince(os, i, j) <==>
                || (j < n && LeavesSince(before, i, j) && !Joins(o) && !Expires(o, os[j].ts))
                || (j == n && i < n && LatestStands(before, i) && Leaves(o))
    {
      LeavesLast(os, i, j);
    }
  }

  ghost predicate LatestStands(os: seq<Observation>, i: int) {
    Stands(os, i) && forall k :: i < k < |os| ==> !Joins(os[k])
  }

  lemma {:induction false} LatestJoin(os: seq<Observation>, i: int) returns (l: int)
    requires Stands(os, i)
    ensures LatestStands(os, l)
    decreases |os| - i
  {
    if k :| i < k < |os| && Joins(os[k]) {
      l := LatestJoin(os, k);
    } else {
      l := i;
    }
  }

  lemma LeavesLast(os: seq<Observation>, i: int, j: int)
    requires os != []
    ensures var before, o := os[..|os| - 1], os[|os| - 1]; var n := |os| - 1;
            LeavesSince(os, i, j) <==>
              || (j < n && LeavesSince(before, i, j) && !Joins(o) && !Expires(o, os[j].ts))
              || (j == n && i < n && LatestStands(before, i) && Leaves(o))
  {
    var n := |os| - 1;
    var before, o := os[..n], os[n];
    assert forall k :: 0 <= k < n ==> before[k] == os[k];
    assert !(Joins(o) && Leaves(o));
  }

  // ---- the shared object ----

  class SharedModel {
    var attrs: Attrs
    var lvCount: nat
    var establishedStreams: set<nat>
    var adpAvailable: set<nat>
    var talkerDecl: map<nat, nat>

    /** The counter is the number of registrars in LV. */
    ghost predicate Valid()
      reads this
    {
      AttrsOk(attrs) && lvCount == |Leaving(attrs)|
    }

    constructor ()
      ensures Valid() && attrs == map[] && lvCount == 0
      ensures establishedStreams == {} && adpAvailable == {} && talkerDecl == map[]
    {
      attrs, lvCount := map[], 0;
      establishedStreams, adpAvailable, talkerDecl := {}, {}, map[];
      new;
      assert Leaving(attrs) == {};
    }

    /** Move one registrar and keep the counter in step. */
    method MrpSetRegistrar(id: AttrId, to: Registrar, ts: int, n: nat)
      requires id in attrs && lvCount == |Leaving(attrs)|
      modifies `attrs, `lvCount
      ensures attrs == old(attrs)[id := SetRegistrar(old(attrs)[id], to, ts, n)]
      ensures lvCount == |Leaving(attrs)|
    {
      var a := attrs[id];
      if a.registrar == to {
        assert attrs == attrs[id := a];
        return;
      }
      LeavingUpdate(attrs, id, SetRegistrar(a, to, ts, n));
      if a.registrar == LV && lvCount > 0 {
        lvCount := lvCount - 1;
      }
      if to == LV {
        lvCount := lvCount + 1;
      }
      attrs := attrs[id := a.(registrar := to, hist := Push(a.hist, Entry(ts, n, a.registrar, to), HIST_CAP))];
    }

    /** Change everything about a registrar but its state. */
    method Touch(id: AttrId, a: MrpAttr)
      requires lvCount == |Leaving(attrs)|
      requires a.registrar == if id in attrs then attrs[id].registrar else MT
      modifies `attrs
      ensures attrs == old(attrs)[id := a] && lvCount == |Leaving(attrs)|
    {
      assert Leaving(attrs[id := a]) == Leaving(attrs);
      attrs := attrs[id := a];
    }

    method MrpEvent(id: AttrId, ev: nat, ts: int, n: nat)
      requires Valid() && ts >= 0
      modifies `attrs, `lvCount
      ensures Valid() && attrs == EventAttrs(old(attrs), id, ev, ts, n)
    {
      hide Push, AttrOk, Leaving;
      EventKeepsAll(attrs, id, ev, ts, n);
      var a := if id in attrs then attrs[id] else FRESH;
      Touch(id, a.(lastEvent := ev, lastEventTs := ts, eventCount := a.eventCount + 1));
      if ev == EV_NEW || ev == EV_JOIN_IN || ev == EV_JOIN_MT {
        MrpSetRegistrar(id, IN, ts, n);
        Touch(id, attrs[id].(leaveTimerStart := -1));
      } else if ev == EV_LV {
        if attrs[id].registrar == IN {
          Touch(id, attrs[id].(leaveTimerStart := ts));
          MrpSetRegistrar(id, LV, ts, n);
        }
      }
      Touch(id, attrs[id].(log := Push(attrs[id].log, LogEntry(ts, n, ev, attrs[id].registrar), LOG_CAP)));
      assert attrs[id] == OnEvent(a, ev, ts, n);
      assert attrs == old(attrs)[id := attrs[id]];
    }

    method MrpLeaveAll(kind: Kind, ts: int, n: nat)
      requires Valid() && ts >= 0
      modifies `attrs, `lvCount
      ensures Valid() && attrs == LeaveAllAttrs(old(attrs), kind, ts, n)
    {
      hide Push, AttrOk, OnLeaveAll, SetRegistrar;
      LeaveAllKeepsAll(attrs, kind, ts, n);
      var todo := attrs.Keys;
      while todo != {}
        invariant todo <= attrs.Keys == old(attrs).Keys && lvCount == |Leaving(attrs)|
        invariant forall id :: id in attrs ==>
                    attrs[id] == if id in todo then old(attrs)[id] else LeaveAllAttrs(old(attrs), kind, ts, n)[id]
      {
        var id :| id in todo;
        LeaveAllOne(id, kind, ts, n);
        todo := todo - {id};
      }
    }

    method LeaveAllOne(id: AttrId, kind: Kind, ts: int, n: nat)
      requires id in attrs && lvCount == |Leaving(attrs)|
      modifies `attrs, `lvCount
      ensures lvCount == |Leaving(attrs)|
      ensures var was := old(attrs)[id];
              attrs == old(attrs)[id := if KindOf(id.0) == kind then OnLeaveAll(was, ts, n) else was]
    {
      hide Push, Leaving;
      if KindOf(id.0) != kind || attrs[id].registrar != IN {
        assert attrs == attrs[id := attrs[id]];
        return;
      }
      var a := attrs[id];
      Touch(id, a.(leaveTimerStart := ts, lastEvent := EV_LEAVE_ALL, lastEventTs := ts,
                   eventCount := a.eventCount + 1));
      MrpSetRegistrar(id, LV, ts, n);
      Touch(id, attrs[id].(log := Push(attrs[id].log, LogEntry(ts, n, EV_LEAVE_ALL, LV), LOG_CAP)));
    }

    /** The early return is invisible: the outcome is always that of the full walk. */
    method MrpTick(ts: int)
      requires Valid()
      modifies `attrs, `lvCount
      ensures Valid() && attrs == TickAttrs(old(attrs), ts)
    {
      hide Push, AttrOk, OnTick, SetRegistrar;
      TickKeepsAll(attrs, ts);
      if lvCount == 0 {
        IdleTickSkips(attrs, ts);
        return;
      }
      var todo := attrs.Keys;
      while todo != {}
        invariant todo <= attrs.Keys == old(attrs).Keys && lvCount == |Leaving(attrs)|
        invariant forall id :: id in attrs ==>
                    attrs[id] == if id in todo then old(attrs)[id] else TickAttrs(old(attrs), ts)[id]
      {
        var id :| id in todo;
        TickOne(id, ts);
        todo := todo - {id};
      }
    }

    method TickOne(id: AttrId, ts: int)
      requires id in attrs && lvCount == |Leaving(attrs)|
      modifies `attrs, `lvCount
      ensures lvCount == |Leaving(attrs)| && attrs == old(attrs)[id := OnTick(old(attrs)[id], ts)]
    {
      hide Push, Leaving;
      var a := attrs[id];
      if a.registrar == LV && a.leaveTimerStart >= 0 && ts > a.leaveTimerStart + LEAVE_TIME {
        MrpSetRegistrar(id, MT, ts, 0);
        Touch(id, attrs[id].(leaveTimerStart := -1));
      } else {
        assert attrs == attrs[id := a];
      }
    }
  }

  lemma LeavingUpdate(attrs: Attrs, id: AttrId, a: MrpAttr)
    requires id in attrs
    ensures Leaving(attrs[id := a]) == (if a.registrar.LV? then Leaving(attrs) + {id} else Leaving(attrs) - {id})
    ensures |Leaving(attrs[id := a])|
         == |Leaving(attrs)| - (if attrs[id].registrar.LV? then 1 else 0) + (if a.registrar.LV? then 1 else 0)
  {
    var before, after := Leaving(attrs), Leaving(attrs[id := a]);
    assert after == if a.registrar.LV? then before + {id} else before - {id};
  }

  lemma EventKeepsAll(attrs: Attrs, id: AttrId, ev: nat, ts: int, n: nat)
    requires AttrsOk(attrs) && ts >= 0
    ensures AttrsOk(EventAttrs(attrs, id, ev, ts, n))
  {
    hide OnEvent;
    assert AttrOk(FRESH);
    EventKeeps(if id in attrs then attrs[id] else FRESH, ev, ts, n);
  }

  lemma LeaveAllKeepsAll(attrs: Attrs, kind: Kind, ts: int, n: nat)
    requires AttrsOk(attrs) && ts >= 0
    ensures AttrsOk(LeaveAllAttrs(attrs, kind, ts, n))
  {
    hide OnLeaveAll, AttrOk;
    forall id | id in attrs
      ensures AttrOk(OnLeaveAll(attrs[id], ts, n))
    {
      LeaveAllKeeps(attrs[id], ts, n);
    }
  }

  lemma TickKeepsAll(attrs: Attrs, ts: int)
    requires AttrsOk(attrs)
    ensures AttrsOk(TickAttrs(attrs, ts))
  {
    hide OnTick, AttrOk;
    forall id | id in attrs
      ensures AttrOk(OnTick(attrs[id], ts))
    {
      TickKeeps(attrs[id], ts);
    }
  }
}
