/** Which wire events reach which registrar, after any run of all observers. */
module RegistrarTruth {
  import opened History
  import opened Shared
  import opened Observers
  import Msrp
  import Mvrp
  import Adp
  import MilanSink

  /** The attribute type an MSRP registrar belongs to; a VLAN's has none. */
  function TypeOf(key: AttrKey): nat {
    match key
    case TalkerAdvertise(_) => 1
    case TalkerFailed(_) => 2
    case Listener(_) => 3
    case Domain(_, _, _) => 4
    case Vid(_) => 0
  }

  /** The declaration is about this attribute value. */
  predicate Names(d: Msrp.Declaration, key: AttrKey) {
    match key
    case TalkerAdvertise(s) => d.attr == 1 && d.streamId == s
    case TalkerFailed(s) => d.attr == 2 && d.streamId == s
    case Listener(s) => d.attr == 3 && d.streamId == s
    case Domain(c, p, v) => d.attr == 4 && d.classId == c && d.classPrio == p && d.classVid == v
    case Vid(_) => false
  }

  /** What one event means for one registrar: a LeaveAll reaches those of its own type only, a declaration that of its
      value and source, a listener's Ignore as a leave, and a tick all. */
  function Reaches(e: Event, id: AttrId): seq<Observation> {
    match e
    case Reservation(d, ts, n) =>
      if d.ev == 6 then if TypeOf(id.0) != 0 && d.attr == TypeOf(id.0) then [LeftAll(ts, n)] else []
      else if Names(d, id.0) && d.src == id.1 then
        [Declared(if d.attr == 3 && d.fourPacked == 0 then 5 else d.ev, ts, n)]
      else []
    case VidDeclared(vid, member, ev, ts, n) =>
      if ev == 6 then if id.0.Vid? then [LeftAll(ts, n)] else []
      else if id == (Vid(vid), member) then [Declared(ev, ts, n)]
      else []
    case RegistrarTick(ts) => [Time(ts)]
    case _ => []
  }

  function Reached(events: seq<Event>, id: AttrId): seq<Observation> {
    if events == [] then []
    else Reached(events[..|events| - 1], id) + Reaches(events[|events| - 1], id)
  }

  function RegistrarOf(attrs: Attrs, id: AttrId): MrpAttr {
    if id in attrs then attrs[id] else FRESH
  }

  lemma ObserveMore(os: seq<Observation>, more: seq<Observation>)
    requires |more| <= 1
    ensures ObserveAll(os + more) == if more == [] then ObserveAll(os) else Observe(ObserveAll(os), more[0])
  {
    hide Observe;
    if more == [] {
      assert os + more == os;
    } else {
      assert (os + more)[..|os|] == os && (os + more)[|os|] == more[0];
    }
  }

  lemma UntouchedByLeaving(ts: int, n: nat)
    ensures OnLeaveAll(FRESH, ts, n) == FRESH && OnTick(FRESH, ts) == FRESH
  {
  }

  lemma ReservationReaches(m: Msrp.MsrpState, d: Msrp.Declaration, ts: int, n: nat, id: AttrId)
    ensures var os := Reaches(Reservation(d, ts, n), id);
            RegistrarOf(Msrp.OnDeclaration(m, d, ts, n).attrs, id) ==
            if os == [] then RegistrarOf(m.attrs, id) else Observe(RegistrarOf(m.attrs, id), os[0])
  {
    hide OnEvent, OnLeaveAll, Msrp.Recomputed, Msrp.TalkerDeclared, Msrp.ListenerDeclared;
    UntouchedByLeaving(ts, n);
  }

  lemma EventReaches(w: World, e: Event, id: AttrId)
    ensures var os := Reaches(e, id);
            RegistrarOf(Step(w, e).msrp.attrs, id) ==
            if os == [] then RegistrarOf(w.msrp.attrs, id) else Observe(RegistrarOf(w.msrp.attrs, id), os[0])
  {
    hide OnEvent, OnLeaveAll, OnTick, Msrp.OnDeclaration, Adp.OnAdp, Adp.OnAdpTime, MilanSink.SinksOnMessage;
    hide MilanSink.SinksOnTime, Mvrp.OnVlanEvent, Mvrp.OnVlanLeaveAll;
    UntouchedByLeaving(e.ts, if e.VidDeclared? then e.n else 0);
    if e.Reservation? {
      ReservationReaches(w.msrp, e.d, e.ts, e.n, id);
    }
  }

  /** After any interleaving a registrar is what the wire events that concern it have made of it. */
  lemma {:induction false} RegistrarRuns(events: seq<Event>, id: AttrId)
    ensures RegistrarOf(Run(events).msrp.attrs, id) == ObserveAll(Reached(events, id))
  {
    hide Step, Reaches, Observe;
    if events != [] {
      var n := |events| - 1;
      RegistrarRuns(events[..n], id);
      EventReaches(Run(events[..n]), events[n], id);
      AtMostOne(events[n], id);
      ObserveMore(Reached(events[..n], id), Reaches(events[n], id));
    }
  }

  lemma AtMostOne(e: Event, id: AttrId)
    ensures |Reaches(e, id)| <= 1 && forall o :: o in Reaches(e, id) ==> o.ts == e.ts
  {
  }

  lemma {:induction false} ReachedTimes(events: seq<Event>, id: AttrId)
    requires forall e :: e in events ==> e.ts >= 0
    ensures forall k :: 0 <= k < |Reached(events, id)| ==> Reached(events, id)[k].ts >= 0
  {
    hide Reaches;
    if events != [] {
      ReachedTimes(events[..|events| - 1], id);
      AtMostOne(events[|events| - 1], id);
    }
  }

  /** So after any interleaving a value is registered exactly while a join of it stands, and leaving exactly while a
      leave is less than its time old. */
  lemma RegistrarTruth(events: seq<Event>, id: AttrId)
    requires forall e :: e in events ==> e.ts >= 0
    ensures var a, os := RegistrarOf(Run(events).msrp.attrs, id), Reached(events, id);
            && (a.registrar.IN? <==> exists i :: Stands(os, i))
            && (a.registrar.LV? <==> exists i, j :: LeavesSince(os, i, j))
  {
    hide Run, Reached, ObserveAll, Stands, LeavesSince;
    RegistrarRuns(events, id);
    ReachedTimes(events, id);
    RegistrarMeaning(Reached(events, id));
  }
}
