/** Stream reservations reconstructed from talker and listener declarations (section 35.2 of IEEE 802.1Q). */
module Msrp {
  import opened Wrappers
  import opened History
  import opened Shared

  const RES_HIST_CAP := 200

  const DECL_NONE := 0
  const DECL_ADVERTISE := 1
  const DECL_FAILED := 2

  datatype ResState = NewRes | Pending | Established | ListenersFailed | TalkerRefused | Withdrawn

  /** What a talker declares about its stream. */
  datatype Offer = Offer(destMac: nat, vlan: nat, maxFrameSize: nat, maxIntervalFrames: nat, priority: nat, rank: nat,
                         accLatency: nat)

  /** `listeners` maps a listener to its four-packed event. */
  datatype Res = Res(
    talkerMac: nat, offer: Offer, failure: (nat, nat), decl: nat, talkerSeen: bool, listeners: map<nat, nat>,
    state: ResState, hist: seq<Entry<ResState>>)

  const NO_RES := Res(0, Offer(0, 0, 0, 0, 0, 0, 0), (0, 0), DECL_NONE, false, map[], NewRes, [])

  type Reservations = map<nat, Res>

  /** One decoded MSRP declaration; only the fields of its attribute type are meaningful. */
  datatype Declaration = Declaration(
    attr: nat, ev: nat, src: nat, streamId: nat, offer: Offer, failure: (nat, nat), fourPacked: nat,
    classId: nat, classPrio: nat, classVid: nat)

  predicate KnownAttr(d: Declaration) {
    1 <= d.attr <= 4
  }

  function KeyOf(d: Declaration): AttrKey
    requires KnownAttr(d)
  {
    if d.attr == 1 then TalkerAdvertise(d.streamId)
    else if d.attr == 2 then TalkerFailed(d.streamId)
    else if d.attr == 3 then Listener(d.streamId)
    else Domain(d.classId, d.classPrio, d.classVid)
  }

  /** A listener declaring Ignore is fed to the registrar as a leave. */
  function RegistrarEvent(d: Declaration): nat {
    if d.attr == 3 && d.fourPacked == 0 then EV_LV else d.ev
  }

  // ---- the state of one reservation ----

  ghost predicate AnyReady(r: Res) {
    exists mac :: mac in r.listeners && (r.listeners[mac] == 2 || r.listeners[mac] == 3)
  }

  ghost predicate AnyAskFailed(r: Res) {
    exists mac :: mac in r.listeners && (r.listeners[mac] == 1 || r.listeners[mac] == 3)
  }

  function StateFor(r: Res, ready: bool, askFailed: bool, withdrew: bool): ResState {
    if withdrew || (r.talkerSeen && r.decl == DECL_NONE) then Withdrawn
    else if r.decl == DECL_FAILED then TalkerRefused
    else if r.decl == DECL_ADVERTISE then if ready then Established else if askFailed then ListenersFailed else Pending
    else Pending
  }

  function Moved(r: Res, to: ResState, ts: int, n: nat): Res {
    r.(state := to, hist := Push(r.hist, Entry(ts, n, r.state, to), RES_HIST_CAP))
  }

  ghost function Recomputed(r: Res, ts: int, n: nat, withdrew: bool): Res {
    var seen := r.(talkerSeen := r.talkerSeen || r.decl != DECL_NONE);
    Moved(seen, StateFor(seen, AnyReady(seen), AnyAskFailed(seen), withdrew), ts, n)
  }

  function TalkerDeclared(r: Res, d: Declaration): (t: Res)
    ensures t.listeners == r.listeners
  {
    var t := r.(talkerMac := d.src, offer := d.offer);
    if d.ev == EV_LV then t.(decl := DECL_NONE)
    else if d.attr == 1 then t.(decl := DECL_ADVERTISE)
    else t.(decl := DECL_FAILED, failure := d.failure)
  }

  function ListenerDeclared(r: Res, d: Declaration): Res {
    if d.ev == EV_LV || d.fourPacked == 0 then r.(listeners := r.listeners - {d.src})
    else r.(listeners := r.listeners[d.src := d.fourPacked])
  }

  function Lookup(rs: Reservations, s: nat): Res {
    if s in rs then rs[s] else NO_RES
  }

  // ---- everything an MSRP declaration touches ----

  datatype MsrpState = MsrpState(attrs: Attrs, established: set<nat>, decls: map<nat, nat>, res: Reservations)

  ghost function Settle(m: MsrpState, s: nat, r: Res, ts: int, n: nat, withdrew: bool): MsrpState {
    var r' := Recomputed(r, ts, n, withdrew);
    m.(res := m.res[s := r'],
       established := if r'.state == r.state then m.established
                      else if r'.state == Established then m.established + {s} else m.established - {s})
  }

  /** The registrar's part of a declaration. */
  function Fed(m: MsrpState, d: Declaration, ts: int, n: nat): MsrpState {
    if KnownAttr(d) then m.(attrs := EventAttrs(m.attrs, (KeyOf(d), d.src), RegistrarEvent(d), ts, n)) else m
  }

  /** The talker declaration other protocols see. */
  function Published(m: MsrpState, s: nat, decl: nat): (p: MsrpState)
    ensures p.attrs == m.attrs && p.res == m.res
  {
    m.(decls := if decl == DECL_NONE then m.decls - {s} else m.decls[s := decl])
  }

  ghost function OnDeclaration(m: MsrpState, d: Declaration, ts: int, n: nat): MsrpState {
    if d.ev == EV_LEAVE_ALL then
      if KnownAttr(d) then m.(attrs := LeaveAllAttrs(m.attrs, KindOf(KeyOf(d)), ts, n)) else m
    else
      var fed := Fed(m, d, ts, n);
      if d.attr == 1 || d.attr == 2 then
        var r := TalkerDeclared(Lookup(m.res, d.streamId), d);
        Settle(Published(fed, d.streamId, r.decl), d.streamId, r, ts, n, d.ev == EV_LV)
      else if d.attr == 3 then
        Settle(fed, d.streamId, ListenerDeclared(Lookup(m.res, d.streamId), d), ts, n, false)
      else fed
  }

  // ---- the module ----

  class MsrpLogic {
    const shared: SharedModel
    var res: Reservations

    function State(): MsrpState
      reads this, shared
    {
      MsrpState(shared.attrs, shared.establishedStreams, shared.talkerDecl, res)
    }

    constructor (shared: SharedModel)
      ensures this.shared == shared && res == map[]
    {
      this.shared := shared;
      res := map[];
    }

    method Recompute(s: nat, r: Res, ts: int, n: nat, withdrew: bool)
      modifies this`res, shared`establishedStreams
      ensures State() == Settle(old(State()), s, r, ts, n, withdrew)
    {
      hide Push;
      var seen := r.(talkerSeen := r.talkerSeen || r.decl != DECL_NONE);
      var anyReady, anyAskFailed := false, false;
      var todo := seen.listeners.Keys;
      while todo != {}
        invariant todo <= seen.listeners.Keys
        invariant anyReady <==> exists mac :: mac in seen.listeners.Keys - todo && seen.listeners[mac] in {2, 3}
        invariant anyAskFailed <==> exists mac :: mac in seen.listeners.Keys - todo && seen.listeners[mac] in {1, 3}
      {
        var mac :| mac in todo;
        if seen.listeners[mac] == 2 || seen.listeners[mac] == 3 {
          anyReady := true;
        }
        if seen.listeners[mac] == 1 || seen.listeners[mac] == 3 {
          anyAskFailed := true;
        }
        todo := todo - {mac};
      }
      assert anyReady == AnyReady(seen) && anyAskFailed == AnyAskFailed(seen);
      var to := StateFor(seen, anyReady, anyAskFailed, withdrew);
      res := res[s := Moved(seen, to, ts, n)];
      if r.state == to {
        return; // churn without a change of state: history only
      }
      if to == Established {
        shared.establishedStreams := shared.establishedStreams + {s};
      } else {
        shared.establishedStreams := shared.establishedStreams - {s};
      }
    }

    method OnDecode(d: Declaration, ts: int, n: nat)
      requires shared.Valid() && ts >= 0
      modifies this`res, shared
      ensures shared.Valid() && shared.adpAvailable == old(shared.adpAvailable)
      ensures State() == OnDeclaration(old(State()), d, ts, n)
    {
      hide Settle, EventAttrs, LeaveAllAttrs, AttrsOk, Leaving;
      if d.ev == EV_LEAVE_ALL {
        if KnownAttr(d) {
          shared.MrpLeaveAll(KindOf(KeyOf(d)), ts, n);
        }
        return;
      }
      if KnownAttr(d) {
        shared.MrpEvent((KeyOf(d), d.src), RegistrarEvent(d), ts, n);
      }
      if d.attr == 1 || d.attr == 2 {
        var r := TalkerDeclared(Lookup(res, d.streamId), d);
        if r.decl == DECL_NONE {
          shared.talkerDecl := shared.talkerDecl - {d.streamId};
        } else {
          shared.talkerDecl := shared.talkerDecl[d.streamId := r.decl];
        }
        Recompute(d.streamId, r, ts, n, d.ev == EV_LV);
      } else if d.attr == 3 {
        Recompute(d.streamId, ListenerDeclared(Lookup(res, d.streamId), d), ts, n, false);
      }
    }
  }

  // ---- reservation truth ----

  /** While a declaration is live the state is a function of it and the listeners; without one it is Pending or
      Withdrawn. */
  ghost predicate ResOk(r: Res) {
    && r.state != NewRes
    && r.decl <= DECL_FAILED
    && (r.state == Established <==> r.decl == DECL_ADVERTISE && AnyReady(r))
    && (r.state == ListenersFailed <==> r.decl == DECL_ADVERTISE && !AnyReady(r) && AnyAskFailed(r))
    && (r.state == TalkerRefused <==> r.decl == DECL_FAILED)
    && (r.state == Withdrawn ==> r.decl == DECL_NONE)
    && (r.decl != DECL_NONE ==> r.talkerSeen)
    && (r.talkerSeen && r.decl == DECL_NONE ==> r.state == Withdrawn)
    && LeadsTo(r.hist, r.state) && |r.hist| <= RES_HIST_CAP
  }

  /** The shared sets are exactly the established streams and the live declarations. */
  ghost predicate TruthOk(m: MsrpState) {
    && (forall s :: s in m.res ==> ResOk(m.res[s]))
    && (forall s :: s in m.established <==> s in m.res && m.res[s].state == Established)
    && (forall s :: s in m.decls <==> s in m.res && m.res[s].decl != DECL_NONE)
    && forall s :: s in m.decls ==> m.decls[s] == m.res[s].decl
  }

  /** A listener registrar that is IN belongs to a source the reservation lists. */
  ghost predicate ListenersAgree(m: MsrpState) {
    forall s, src :: (Listener(s), src) in m.attrs && m.attrs[(Listener(s), src)].registrar.IN? ==>
                       s in m.res && src in m.res[s].listeners
  }

  ghost predicate BeforeSettling(r: Res) {
    && r.decl <= DECL_FAILED && LeadsTo(r.hist, r.state) && |r.hist| <= RES_HIST_CAP
  }

  lemma RecomputedOk(r: Res, ts: int, n: nat, withdrew: bool)
    requires BeforeSettling(r) && (withdrew ==> r.decl == DECL_NONE)
    ensures ResOk(Recomputed(r, ts, n, withdrew)) && Recomputed(r, ts, n, withdrew).decl == r.decl
  {
    hide Push;
    var r' := Recomputed(r, ts, n, withdrew);
    var seen := r.(talkerSeen := r.talkerSeen || r.decl != DECL_NONE);
    PushLeadsTo(r.hist, Entry(ts, n, r.state, r'.state), RES_HIST_CAP);
    assert AnyReady(r') == AnyReady(seen) && AnyAskFailed(r') == AnyAskFailed(seen);
  }

  /** Settling one stream whose declaration table is already right keeps the truth. */
  lemma SettleKeeps(m: MsrpState, was: MsrpState, s: nat, r: Res, ts: int, n: nat, withdrew: bool)
    requires TruthOk(was) && m.res == was.res && m.established == was.established
    requires BeforeSettling(r) && (withdrew ==> r.decl == DECL_NONE)
    requires r.state == Lookup(was.res, s).state
    requires forall t :: t in m.decls <==> if t == s then r.decl != DECL_NONE else t in was.decls
    requires forall t :: t in m.decls ==> m.decls[t] == if t == s then r.decl else was.decls[t]
    ensures TruthOk(Settle(m, s, r, ts, n, withdrew))
  {
    hide ResOk, Recomputed, BeforeSettling;
    RecomputedOk(r, ts, n, withdrew);
    assert s in was.res ==> ResOk(was.res[s]);
  }

  lemma LookupReady(m: MsrpState, s: nat)
    requires TruthOk(m)
    ensures BeforeSettling(Lookup(m.res, s))
  {
    assert s in m.res ==> ResOk(m.res[s]);
  }

  lemma DeclarationKeepsTruth(m: MsrpState, d: Declaration, ts: int, n: nat)
    requires TruthOk(m)
    ensures TruthOk(OnDeclaration(m, d, ts, n))
  {
    hide Settle, Push, EventAttrs, LeaveAllAttrs, ResOk, LeadsTo;
    var r := Lookup(m.res, d.streamId);
    LookupReady(m, d.streamId);
    if d.ev != EV_LEAVE_ALL {
      var fed := Fed(m, d, ts, n);
      if d.attr == 1 || d.attr == 2 {
        var t := TalkerDeclared(r, d);
        SettleKeeps(Published(fed, d.streamId, t.decl), m, d.streamId, t, ts, n, d.ev == EV_LV);
      } else if d.attr == 3 {
        SettleKeeps(fed, m, d.streamId, ListenerDeclared(r, d), ts, n, false);
      }
    }
  }

  lemma SettleFrame(m: MsrpState, s: nat, r: Res, ts: int, n: nat, withdrew: bool)
    ensures var m' := Settle(m, s, r, ts, n, withdrew);
            && m'.attrs == m.attrs && m'.res.Keys == m.res.Keys + {s} && m'.res[s].listeners == r.listeners
            && forall t :: t in m.res && t != s ==> m'.res[t] == m.res[t]
  {
  }

  lemma DeclarationKeepsListeners(m: MsrpState, d: Declaration, ts: int, n: nat)
    requires ListenersAgree(m)
    ensures ListenersAgree(OnDeclaration(m, d, ts, n))
  {
    hide OnDeclaration, ListenersAgree;
    if d.ev == EV_LEAVE_ALL {
      LeaveAllKeepsListeners(m, d, ts, n);
    } else if d.attr == 3 {
      ListenerKeepsListeners(m, d, ts, n);
    } else {
      OthersKeepListeners(m, d, ts, n);
    }
  }

  lemma LeaveAllKeepsListeners(m: MsrpState, d: Declaration, ts: int, n: nat)
    requires ListenersAgree(m) && d.ev == EV_LEAVE_ALL
    ensures ListenersAgree(OnDeclaration(m, d, ts, n))
  {
    hide Settle, OnLeaveAll;
    var attrs := OnDeclaration(m, d, ts, n).attrs;
    forall id | id in attrs && attrs[id].registrar.IN?
      ensures id in m.attrs && m.attrs[id].registrar.IN?
    {
      RegistrarIn(m.attrs[id], d, ts, n);
    }
    TickKeepsListeners(m, attrs);
  }

  /** A listener's registrar moves with the listener's entry. */
  lemma ListenerKeepsListeners(m: MsrpState, d: Declaration, ts: int, n: nat)
    requires ListenersAgree(m) && d.attr == 3 && d.ev != EV_LEAVE_ALL
    ensures ListenersAgree(OnDeclaration(m, d, ts, n))
  {
    hide Settle, OnEvent;
    SettleFrame(Fed(m, d, ts, n), d.streamId, ListenerDeclared(Lookup(m.res, d.streamId), d), ts, n, false);
    var id := (Listener(d.streamId), d.src);
    RegistrarIn(if id in m.attrs then m.attrs[id] else FRESH, d, ts, n);
  }

  /** No other declaration touches a listener's registrar or takes a listener away. */
  lemma OthersKeepListeners(m: MsrpState, d: Declaration, ts: int, n: nat)
    requires ListenersAgree(m) && d.attr != 3 && d.ev != EV_LEAVE_ALL
    ensures ListenersAgree(OnDeclaration(m, d, ts, n))
  {
    hide Settle, OnEvent, TalkerDeclared, Published;
    var r := TalkerDeclared(Lookup(m.res, d.streamId), d);
    SettleFrame(Published(Fed(m, d, ts, n), d.streamId, r.decl), d.streamId, r, ts, n, d.ev == EV_LV);
  }

  /** What can bring a registrar to IN, or leave it there. */
  lemma RegistrarIn(a: MrpAttr, d: Declaration, ts: int, n: nat)
    ensures OnEvent(a, RegistrarEvent(d), ts, n).registrar.IN? ==>
              RegistrarEvent(d) != EV_LV && (a.registrar.IN? || RegistrarEvent(d) in {EV_NEW, EV_JOIN_IN, EV_JOIN_MT})
    ensures OnLeaveAll(a, ts, n).registrar.IN? ==> a.registrar.IN?
  {
    hide Push;
  }

  lemma TickKeepsListeners(m: MsrpState, attrs: Attrs)
    requires ListenersAgree(m)
    requires forall id :: id in attrs && id.0.Listener? && attrs[id].registrar.IN? ==>
                            id in m.attrs && m.attrs[id].registrar.IN?
    ensures ListenersAgree(m.(attrs := attrs))
  {
    forall s, src | (Listener(s), src) in attrs && attrs[(Listener(s), src)].registrar.IN?
      ensures s in m.res && src in m.res[s].listeners
    {
      assert (Listener(s), src).0.Listener?;
    }
  }

  /** Withdrawn is not determined by the stored declaration: the same listener event leads a never-seen talker's stream
      from Withdrawn to Pending, while one seen before stays Withdrawn. */
  lemma WithdrawnDependsOnHistory(r: Res, ts: int, n: nat)
    requires r.decl == DECL_NONE
    ensures Recomputed(r, ts, n, true).state == Withdrawn
    ensures var w := Recomputed(r, ts, n, true);
            Recomputed(w, ts, n, false).state == if r.talkerSeen then Withdrawn else Pending
  {
  }

  // ---- replay from the capped history ----

  datatype Input = Heard(d: Declaration, ts: int, n: nat)

  predicate Concerns(d: Declaration, s: nat) {
    d.ev != EV_LEAVE_ALL && 1 <= d.attr <= 3 && d.streamId == s
  }

  function Told(r: Res, d: Declaration): Res {
    if d.attr == 3 then ListenerDeclared(r, d) else TalkerDeclared(r, d)
  }

  predicate Withdraws(d: Declaration) {
    d.attr != 3 && d.ev == EV_LV
  }

  /** One reservation after one declaration. */
  ghost function Declared(r: Res, i: Input, s: nat): Res {
    if Concerns(i.d, s) then Recomputed(Told(r, i.d), i.ts, i.n, Withdraws(i.d)) else r
  }

  /** The same with a history that is never cut. */
  ghost function RecomputedFull(r: Res, ts: int, n: nat, withdrew: bool): Res {
    var q := Recomputed(r, ts, n, withdrew);
    q.(hist := r.hist + [Entry(ts, n, r.state, q.state)])
  }

  ghost function DeclaredFull(r: Res, i: Input, s: nat): Res {
    if Concerns(i.d, s) then RecomputedFull(Told(r, i.d), i.ts, i.n, Withdraws(i.d)) else r
  }

  ghost function Step(m: MsrpState, i: Input): MsrpState {
    OnDeclaration(m, i.d, i.ts, i.n)
  }

  lemma StepDeclares(m: MsrpState, i: Input, s: nat)
    ensures Lookup(Step(m, i).res, s) == Declared(Lookup(m.res, s), i, s)
  {
    hide Recomputed, EventAttrs, LeaveAllAttrs;
  }

  function Trim(r: Res): Res {
    r.(hist := Newest(r.hist, RES_HIST_CAP))
  }

  lemma RecomputedTrims(r: Res, ts: int, n: nat, withdrew: bool)
    ensures Recomputed(Trim(r), ts, n, withdrew) == Trim(RecomputedFull(r, ts, n, withdrew))
  {
    hide Push, Newest, StateFor;
    var seen := r.(talkerSeen := r.talkerSeen || r.decl != DECL_NONE);
    SameListeners(Trim(seen), seen);
    var to := StateFor(seen, AnyReady(seen), AnyAskFailed(seen), withdrew);
    SameState(Trim(seen), seen, AnyReady(seen), AnyAskFailed(seen), withdrew);
    PushNewest(r.hist, Entry(ts, n, r.state, to), RES_HIST_CAP);
  }

  lemma SameListeners(q: Res, r: Res)
    requires q.listeners == r.listeners
    ensures AnyReady(q) == AnyReady(r) && AnyAskFailed(q) == AnyAskFailed(r)
  {
  }

  lemma SameState(q: Res, r: Res, ready: bool, askFailed: bool, withdrew: bool)
    requires q.decl == r.decl && q.talkerSeen == r.talkerSeen
    ensures StateFor(q, ready, askFailed, withdrew) == StateFor(r, ready, askFailed, withdrew)
  {
  }

  lemma DeclaredTrims(r: Res, i: Input, s: nat)
    ensures Declared(Trim(r), i, s) == Trim(DeclaredFull(r, i, s))
  {
    hide Recomputed, RecomputedFull, Newest;
    RecomputedTrims(Told(r, i.d), i.ts, i.n, Withdraws(i.d));
  }

  /** What the module holds of a stream is the full run of that stream with its history cut to the newest entries. */
  lemma {:induction false} RunTrims(inputs: seq<Input>, s: nat)
    ensures Lookup(Fold(Step, NOTHING, inputs).res, s)
         == Trim(Fold((r: Res, i: Input) => DeclaredFull(r, i, s), NO_RES, inputs))
    decreases |inputs|
  {
    hide Step, Declared, DeclaredFull, Trim;
    if inputs == [] {
      assert Trim(NO_RES) == NO_RES by {
        NothingToTrim();
      }
    } else {
      var n := |inputs| - 1;
      RunTrims(inputs[..n], s);
      StepDeclares(Fold(Step, NOTHING, inputs[..n]), inputs[n], s);
      DeclaredTrims(Fold((r: Res, i: Input) => DeclaredFull(r, i, s), NO_RES, inputs[..n]), inputs[n], s);
    }
  }

  lemma NothingToTrim()
    ensures Trim(NO_RES) == NO_RES
  {
  }

  /** Replaying a reservation's history at any cursor from its oldest retained entry on, or while it is not full, shows
      the state the reservation had then. */
  lemma ReservationReplay(inputs: seq<Input>, s: nat, t: int)
    requires TimeOrdered(inputs, (i: Input) => i.ts)
    requires var h := Lookup(Fold(Step, NOTHING, inputs).res, s).hist;
             |h| < RES_HIST_CAP || h[0].ts <= t
    ensures var r := Lookup(Fold(Step, NOTHING, inputs).res, s);
            var past := inputs[..Processed(inputs, (i: Input) => i.ts, t)];
            LiveAt(r.hist, r.state, t) == Lookup(Fold(Step, NOTHING, past).res, s).state
  {
    hide Spans, Step, DeclaredFull, Fold;
    var step, time := (r: Res, i: Input) => DeclaredFull(r, i, s), (i: Input) => i.ts;
    var hist, state := (r: Res) => r.hist, (r: Res) => r.state;
    forall r: Res, i: Input
      ensures r.hist <= step(r, i).hist
      ensures forall k :: |r.hist| <= k < |step(r, i).hist| ==> step(r, i).hist[k].ts == i.ts
      ensures Spans(r.hist, NewRes, r.state) ==> Spans(step(r, i).hist, NewRes, step(r, i).state)
    {
      FullRecords(r, i, s);
    }
    assert Records(step, hist, state, time, NewRes);
    RunTrims(inputs, s);
    RunTrims(inputs[..Processed(inputs, time, t)], s);
    ReplayCappedIsState(step, hist, state, time, NewRes, NO_RES, inputs, RES_HIST_CAP, t);
  }

  lemma FullRecords(r: Res, i: Input, s: nat)
    ensures var q := DeclaredFull(r, i, s);
            && r.hist <= q.hist && (forall k :: |r.hist| <= k < |q.hist| ==> q.hist[k].ts == i.ts && q.hist[k].n == i.n)
            && (Spans(r.hist, NewRes, r.state) ==> Spans(q.hist, NewRes, q.state))
  {
    hide Spans, Recomputed;
    if Spans(r.hist, NewRes, r.state) {
      AppendSpans(r.hist, Entry(i.ts, i.n, r.state, DeclaredFull(r, i, s).state), NewRes);
    }
  }

  // ---- reservations, read off the declarations alone ----

  const NOTHING := MsrpState(map[], {}, map[], map[])

  /** The last talker declaration of a stream. */
  function LastTalker(inputs: seq<Input>, s: nat): Option<Declaration> {
    if inputs == [] then None
    else
      var d := inputs[|inputs| - 1].d;
      if Concerns(d, s) && d.attr != 3 then Some(d) else LastTalker(inputs[..|inputs| - 1], s)
  }

  /** The last declaration of one listener of a stream. */
  function LastListener(inputs: seq<Input>, s: nat, src: nat): Option<Declaration> {
    if inputs == [] then None
    else
      var d := inputs[|inputs| - 1].d;
      if Concerns(d, s) && d.attr == 3 && d.src == src then Some(d) else LastListener(inputs[..|inputs| - 1], s, src)
  }

  predicate Offers(d: Option<Declaration>) {
    d.Some? && d.value.attr == 1 && d.value.ev != 5
  }

  predicate Listens(d: Option<Declaration>) {
    d.Some? && d.value.ev != 5 && d.value.fourPacked != 0
  }

  predicate IsReady(d: Option<Declaration>) {
    Listens(d) && (d.value.fourPacked == 2 || d.value.fourPacked == 3)
  }

  /** What is stored of a stream is its last talker declaration and the last declaration of each listener. */
  lemma {:induction false} StoredMeaning(inputs: seq<Input>, s: nat)
    ensures var r := Lookup(Fold(Step, NOTHING, inputs).res, s);
            && (r.decl == DECL_ADVERTISE <==> Offers(LastTalker(inputs, s)))
            && forall src :: if Listens(LastListener(inputs, s, src))
                             then
                               src in r.listeners && r.listeners[src] == LastListener(inputs, s, src).value.fourPacked
                             else src !in r.listeners
    decreases |inputs|
  {
    hide Step, Declared;
    if inputs != [] {
      var n := |inputs| - 1;
      StoredMeaning(inputs[..n], s);
      var m := Fold(Step, NOTHING, inputs[..n]);
      StepDeclares(m, inputs[n], s);
      DeclaredStores(Lookup(m.res, s), inputs[n], s);
    }
  }

  lemma DeclaredStores(r: Res, i: Input, s: nat)
    ensures var q := Declared(r, i, s);
            && q.decl == (if !Concerns(i.d, s) || i.d.attr == 3 then r.decl
                          else if i.d.ev == EV_LV then DECL_NONE
                          else if i.d.attr == 1 then DECL_ADVERTISE
                          else DECL_FAILED)
            && q.listeners == (if !Concerns(i.d, s) || i.d.attr != 3 then r.listeners
                               else if i.d.ev == EV_LV || i.d.fourPacked == 0 then r.listeners - {i.d.src}
                               else r.listeners[i.d.src := i.d.fourPacked])
  {
  }

  lemma {:induction false} RunTruth(inputs: seq<Input>)
    ensures TruthOk(Fold(Step, NOTHING, inputs))
    decreases |inputs|
  {
    hide TruthOk, OnDeclaration;
    if inputs == [] {
      NothingTrue();
    } else {
      var n := |inputs| - 1;
      RunTruth(inputs[..n]);
      DeclarationKeepsTruth(Fold(Step, NOTHING, inputs[..n]), inputs[n].d, inputs[n].ts, inputs[n].n);
    }
  }

  lemma NothingTrue()
    ensures TruthOk(NOTHING)
  {
  }

  lemma EstablishedIff(m: MsrpState, s: nat)
    requires TruthOk(m)
    ensures s in m.established <==> Lookup(m.res, s).decl == DECL_ADVERTISE && AnyReady(Lookup(m.res, s))
  {
    assert s in m.res ==> ResOk(m.res[s]);
  }

  /** A stream counts as established exactly when its talker's last word is an Advertise and some listener's last word
      is Ready or ReadyFailed, whatever came before. */
  lemma EstablishedMeaning(inputs: seq<Input>, s: nat)
    ensures s in Fold(Step, NOTHING, inputs).established <==>
              Offers(LastTalker(inputs, s)) && exists src :: IsReady(LastListener(inputs, s, src))
  {
    hide Step, TruthOk;
    var m := Fold(Step, NOTHING, inputs);
    RunTruth(inputs);
    StoredMeaning(inputs, s);
    EstablishedIff(m, s);
    var r := Lookup(m.res, s);
    if AnyReady(r) {
      var src :| src in r.listeners && (r.listeners[src] == 2 || r.listeners[src] == 3);
      assert IsReady(LastListener(inputs, s, src));
    }
    if exists src :: IsReady(LastListener(inputs, s, src)) {
      var src :| IsReady(LastListener(inputs, s, src));
      assert src in r.listeners && (r.listeners[src] == 2 || r.listeners[src] == 3);
    }
    assert AnyReady(r) <==> exists src :: IsReady(LastListener(inputs, s, src));
    assert r.decl == DECL_ADVERTISE <==> Offers(LastTalker(inputs, s));
    assert s in m.established <==> Offers(LastTalker(inputs, s)) && exists src :: IsReady(LastListener(inputs, s, src));
  }
}
