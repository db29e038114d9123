/** ADP entity lifecycle: the source of the availability every Milan sink relies on. */
module Adp {
  import opened Wrappers
  import opened History
  import opened Shared

  datatype EntityState = UnknownEntity | Available | Departing | TimedOut

  datatype Entity = Entity(
    availIdx: nat, validTime: nat, lastSeen: int, gmId: nat, gptpDomain: nat, gmMismatch: bool,
    state: EntityState, hist: seq<Entry<EntityState>>)

  const NO_ENTITY := Entity(0, 0, 0, 0, 0, false, UnknownEntity, [])

  type Entities = map<nat, Entity>

  /** One ADP message; `validTime` is in seconds. */
  datatype AdpMessage = AdpMessage(msg: nat, entityId: nat, availIdx: nat, validTime: nat, gmId: nat, gptpDomain: nat)

  const ENTITY_AVAILABLE := 0
  const ENTITY_DEPARTING := 1
  const ENTITY_DISCOVER := 2

  function Moved(e: Entity, to: EntityState, ts: int, n: nat): Entity {
    e.(state := to, hist := e.hist + [Entry(ts, n, e.state, to)])
  }

  /** `observed` maps a gPTP domain to the grandmaster last announced on it. */
  function CheckGm(e: Entity, observed: map<nat, nat>, ts: int, n: nat): Entity {
    if e.gmId == 0 || e.gptpDomain !in observed then e
    else if e.gmId != observed[e.gptpDomain] && !e.gmMismatch then Moved(e.(gmMismatch := true), e.state, ts, n)
    else if e.gmId == observed[e.gptpDomain] && e.gmMismatch then Moved(e.(gmMismatch := false), e.state, ts, n)
    else e
  }

  function OnAvailable(e: Entity, m: AdpMessage, observed: map<nat, nat>, ts: int, n: nat): Entity {
    var seen := if e.state == Available && !(m.availIdx < e.availIdx) then e else Moved(e, Available, ts, n);
    CheckGm(seen.(availIdx := m.availIdx, validTime := m.validTime, lastSeen := ts, gmId := m.gmId,
                  gptpDomain := m.gptpDomain), observed, ts, n)
  }

  function OnDeparting(e: Entity, ts: int, n: nat): Entity {
    var seen := e.(lastSeen := ts);
    if e.state == Departing then seen else Moved(seen, Departing, ts, n)
  }

  function OnMessage(e: Entity, m: AdpMessage, observed: map<nat, nat>, ts: int, n: nat): Entity {
    if m.msg == ENTITY_AVAILABLE then OnAvailable(e, m, observed, ts, n)
    else if m.msg == ENTITY_DEPARTING then OnDeparting(e, ts, n)
    else e
  }

  function OnTime(e: Entity, ts: int): Entity {
    if e.state == Available && e.validTime > 0 && ts > e.lastSeen + e.validTime * SECOND
    then Moved(e, TimedOut, ts, 0) else e
  }

  datatype AdpState = AdpState(available: set<nat>, entities: Entities)

  /** Store an entity and bring the shared availability set in line with its state. */
  function Put(a: AdpState, id: nat, e: Entity): AdpState {
    AdpState(if e.state == Available then a.available + {id} else a.available - {id}, a.entities[id := e])
  }

  function OnAdp(a: AdpState, m: AdpMessage, observed: map<nat, nat>, ts: int, n: nat): AdpState {
    if m.msg == ENTITY_DISCOVER then a
    else
      var e := if m.entityId in a.entities then a.entities[m.entityId] else NO_ENTITY;
      Stored(a, m.entityId, e, OnMessage(e, m, observed, ts, n))
  }

  /** Availability is only written by a transition, and every transition is recorded. */
  function Stored(a: AdpState, id: nat, e: Entity, e': Entity): AdpState {
    if |e'.hist| == |e.hist| then a.(entities := a.entities[id := e']) else Put(a, id, e')
  }

  function OnAdpTime(a: AdpState, ts: int): AdpState {
    AdpState(a.available - (set id | id in a.entities && OnTime(a.entities[id], ts) != a.entities[id]),
             map id | id in a.entities :: OnTime(a.entities[id], ts))
  }

  class AdpLogic {
    const shared: SharedModel
    var entities: Entities

    function State(): AdpState
      reads this, shared
    {
      AdpState(shared.adpAvailable, entities)
    }

    constructor (shared: SharedModel)
      ensures this.shared == shared && entities == map[]
    {
      this.shared := shared;
      entities := map[];
    }

    method Transition(id: nat, to: EntityState, ts: int, n: nat)
      requires id in entities
      modifies this`entities, shared`adpAvailable
      ensures State() == Put(old(State()), id, Moved(old(entities)[id], to, ts, n))
    {
      var e := entities[id];
      entities := entities[id := e.(state := to, hist := e.hist + [Entry(ts, n, e.state, to)])];
      if to == Available {
        shared.adpAvailable := shared.adpAvailable + {id};
      } else {
        shared.adpAvailable := shared.adpAvailable - {id};
      }
    }

    method CheckGmAgainstObserved(id: nat, observed: map<nat, nat>, ts: int, n: nat)
      requires id in entities
      modifies this`entities, shared`adpAvailable
      ensures var e, e' := old(entities)[id], CheckGm(old(entities)[id], observed, ts, n);
              State() == if e' == e then old(State()) else Put(old(State()), id, e')
    {
      var e := entities[id];
      if e.gmId == 0 || e.gptpDomain !in observed {
        return;
      }
      if e.gmId != observed[e.gptpDomain] && !e.gmMismatch {
        entities := entities[id := e.(gmMismatch := true)];
        Transition(id, e.state, ts, n);
      } else if e.gmId == observed[e.gptpDomain] && e.gmMismatch {
        entities := entities[id := e.(gmMismatch := false)];
        Transition(id, e.state, ts, n);
      }
    }

    method HearAvailable(m: AdpMessage, observed: map<nat, nat>, ts: int, n: nat)
      requires m.entityId in entities
      modifies this`entities, shared`adpAvailable
      ensures var e := old(entities)[m.entityId];
              State() == Stored(old(State()), m.entityId, e, OnAvailable(e, m, observed, ts, n))
    {
      var id := m.entityId;
      var e := entities[id];
      if e.state == Available && m.availIdx < e.availIdx {
        Transition(id, Available, ts, n);
      } else if e.state != Available {
        Transition(id, Available, ts, n);
      }
      entities := entities[id := entities[id].(availIdx := m.availIdx, validTime := m.validTime, lastSeen := ts,
                                               gmId := m.gmId, gptpDomain := m.gptpDomain)];
      CheckGmAgainstObserved(id, observed, ts, n);
    }

    method HearDeparting(id: nat, ts: int, n: nat)
      requires id in entities
      modifies this`entities, shared`adpAvailable
      ensures var e := old(entities)[id]; State() == Stored(old(State()), id, e, OnDeparting(e, ts, n))
    {
      var e := entities[id];
      entities := entities[id := e.(lastSeen := ts)];
      if e.state != Departing {
        Transition(id, Departing, ts, n);
      }
    }

    method OnDecode(m: AdpMessage, observed: map<nat, nat>, ts: int, n: nat)
      modifies this`entities, shared`adpAvailable
      ensures State() == OnAdp(old(State()), m, observed, ts, n)
    {
      hide OnAvailable, OnDeparting;
      if m.msg == ENTITY_DISCOVER {
        return;
      }
      if m.entityId !in entities {
        entities := entities[m.entityId := NO_ENTITY];
      }
      if m.msg == ENTITY_AVAILABLE {
        HearAvailable(m, observed, ts, n);
      } else if m.msg == ENTITY_DEPARTING {
        HearDeparting(m.entityId, ts, n);
      }
    }

    method OnTimeTick(ts: int)
      modifies this`entities, shared`adpAvailable
      ensures State() == OnAdpTime(old(State()), ts)
    {
      var todo := entities.Keys;
      while todo != {}
        invariant todo <= entities.Keys == old(entities).Keys
        invariant forall id :: id in entities ==>
                    entities[id] == if id in todo then old(entities)[id] else OnTime(old(entities)[id], ts)
        invariant shared.adpAvailable == old(shared.adpAvailable) -
                    (set id | id in old(entities) && id !in todo && OnTime(old(entities)[id], ts) != old(entities)[id])
      {
        var id :| id in todo;
        var e := entities[id];
        if e.state == Available && e.validTime > 0 && ts > e.lastSeen + e.validTime * SECOND {
          Transition(id, TimedOut, ts, 0);
        }
        todo := todo - {id};
      }
    }
  }

  // ---- availability is exactly the entities in AVAILABLE ----

  ghost predicate EntitiesOk(a: AdpState) {
    && (forall id :: id in a.available <==> id in a.entities && a.entities[id].state == Available)
    && forall id :: id in a.entities ==> Spans(a.entities[id].hist, UnknownEntity, a.entities[id].state)
  }

  lemma MovedSpans(e: Entity, to: EntityState, ts: int, n: nat)
    requires Spans(e.hist, UnknownEntity, e.state)
    ensures Spans(Moved(e, to, ts, n).hist, UnknownEntity, to)
  {
    AppendSpans(e.hist, Entry(ts, n, e.state, to), UnknownEntity);
  }

  lemma MessageSpans(e: Entity, m: AdpMessage, observed: map<nat, nat>, ts: int, n: nat)
    requires Spans(e.hist, UnknownEntity, e.state)
    ensures var e' := OnMessage(e, m, observed, ts, n);
            && Spans(e'.hist, UnknownEntity, e'.state) && e.hist <= e'.hist
            && (forall k :: |e.hist| <= k < |e'.hist| ==> e'.hist[k].ts == ts)
            && (|e'.hist| == |e.hist| ==> e'.state == e.state)
  {
    hide Spans;
    MovedSpans(e, Available, ts, n);
    MovedSpans(e.(lastSeen := ts), Departing, ts, n);
    var seen := if e.state == Available && !(m.availIdx < e.availIdx) then e else Moved(e, Available, ts, n);
    MovedSpans(seen, seen.state, ts, n);
  }

  lemma MessageKeeps(a: AdpState, m: AdpMessage, observed: map<nat, nat>, ts: int, n: nat)
    requires EntitiesOk(a)
    ensures EntitiesOk(OnAdp(a, m, observed, ts, n))
  {
    hide Spans, OnMessage;
    var e := if m.entityId in a.entities then a.entities[m.entityId] else NO_ENTITY;
    assert Spans(NO_ENTITY.hist, UnknownEntity, NO_ENTITY.state) by {
      NothingSpans();
    }
    MessageSpans(e, m, observed, ts, n);
  }

  lemma NothingSpans()
    ensures Spans<EntityState>([], UnknownEntity, UnknownEntity)
  {
  }

  /** After a tick no entity is still AVAILABLE past the validity it announced. */
  lemma TimeKeeps(a: AdpState, ts: int)
    requires EntitiesOk(a)
    ensures EntitiesOk(OnAdpTime(a, ts))
    ensures forall id :: id in OnAdpTime(a, ts).available ==>
              var e := OnAdpTime(a, ts).entities[id]; e.validTime > 0 ==> ts <= e.lastSeen + e.validTime * SECOND
  {
    hide Spans;
    forall id | id in a.entities
      ensures var e := OnTime(a.entities[id], ts); Spans(e.hist, UnknownEntity, e.state)
    {
      MovedSpans(a.entities[id], TimedOut, ts, 0);
    }
  }

  // ---- replay ----

  datatype Input = Heard(m: AdpMessage, observed: map<nat, nat>, ts: int, n: nat) | Tick(ts: int)

  function Step(a: AdpState, i: Input): AdpState {
    match i
    case Heard(m, observed, ts, n) => OnAdp(a, m, observed, ts, n)
    case Tick(ts) => OnAdpTime(a, ts)
  }

  function EntityOf(a: AdpState, id: nat): Entity {
    if id in a.entities then a.entities[id] else NO_ENTITY
  }

  /** Recorded at the time and under the number of the input; a tick has none. */
  predicate Stamped(e: Entry<EntityState>, i: Input) {
    e.ts == i.ts && e.n == if i.Heard? then i.n else 0
  }

  /** An input only appends, under its own time and number, entries that lead from state to state. */
  lemma StepRecords(a: AdpState, i: Input, id: nat)
    ensures var e, f := EntityOf(a, id), EntityOf(Step(a, i), id);
            && e.hist <= f.hist && (forall k :: |e.hist| <= k < |f.hist| ==> Stamped(f.hist[k], i))
            && (Spans(e.hist, UnknownEntity, e.state) ==> Spans(f.hist, UnknownEntity, f.state))
  {
    hide Spans, OnMessage;
    var e := EntityOf(a, id);
    match i
    case Heard(m, observed, ts, n) =>
      MessageAppends(e, m, observed, ts, n);
      if Spans(e.hist, UnknownEntity, e.state) {
        MessageSpans(e, m, observed, ts, n);
      }
    case Tick(ts) =>
      if Spans(e.hist, UnknownEntity, e.state) {
        MovedSpans(e, TimedOut, ts, 0);
      }
  }

  lemma MessageAppends(e: Entity, m: AdpMessage, observed: map<nat, nat>, ts: int, n: nat)
    ensures var f := OnMessage(e, m, observed, ts, n);
            e.hist <= f.hist && forall k :: |e.hist| <= k < |f.hist| ==> f.hist[k].ts == ts && f.hist[k].n == n
  {
  }

  /** For time-ordered input, the replayed history of any entity shows its state at any cursor time. */
  lemma EntityReplay(inputs: seq<Input>, id: nat, t: int)
    requires TimeOrdered(inputs, (i: Input) => i.ts)
    ensures var f := EntityOf(Fold(Step, AdpState({}, map[]), inputs), id);
            var past := inputs[..Processed(inputs, (i: Input) => i.ts, t)];
            LiveAt(f.hist, f.state, t) == EntityOf(Fold(Step, AdpState({}, map[]), past), id).state
  {
    hide Spans, Step, Fold;
    var hist, state := (a: AdpState) => EntityOf(a, id).hist, (a: AdpState) => EntityOf(a, id).state;
    var time := (i: Input) => i.ts;
    forall a: AdpState, i: Input
      ensures hist(a) <= hist(Step(a, i))
      ensures forall k :: |hist(a)| <= k < |hist(Step(a, i))| ==> hist(Step(a, i))[k].ts == i.ts
      ensures Spans(hist(a), UnknownEntity, state(a)) ==> Spans(hist(Step(a, i)), UnknownEntity, state(Step(a, i)))
    {
      StepRecords(a, i, id);
    }
    assert Records(Step, hist, state, time, UnknownEntity);
    ReplayIsState(Step, hist, state, time, UnknownEntity, AdpState({}, map[]), inputs, t);
  }

  // ---- availability, read off the observations alone ----

  predicate Speaks(i: Input, id: nat) {
    i.Heard? && i.m.entityId == id && (i.m.msg == 0 || i.m.msg == 1)
  }

  /** An announcement at `k` that the entity has not followed up on and that no tick has seen expire. */
  ghost predicate Stands(inputs: seq<Input>, id: nat, k: int) {
    && 0 <= k < |inputs| && Speaks(inputs[k], id) && inputs[k].m.msg == 0
    && (forall j :: k < j < |inputs| ==> !Speaks(inputs[j], id))
    && forall j :: k < j < |inputs| && inputs[j].Tick? ==>
         !(inputs[k].m.validTime > 0 && inputs[j].ts > inputs[k].ts + inputs[k].m.validTime * 1_000_000_000)
  }

  /** One input, for an entity that is or is not available. */
  lemma StepMeans(a: AdpState, i: Input, id: nat)
    ensures var e, f := EntityOf(a, id), EntityOf(Step(a, i), id);
            && (Speaks(i, id) && i.m.msg == ENTITY_AVAILABLE ==>
                  f.state == Available && f.lastSeen == i.ts && f.validTime == i.m.validTime)
            && (Speaks(i, id) && i.m.msg == ENTITY_DEPARTING ==> f.state != Available)
            && (!Speaks(i, id) && i.Heard? ==> f == e)
            && (i.Tick? ==> f.lastSeen == e.lastSeen && f.validTime == e.validTime)
            && (i.Tick? ==> (f.state == Available <==>
                  e.state == Available && !(e.validTime > 0 && i.ts > e.lastSeen + e.validTime * SECOND)))
  {
  }

  /** An entity is AVAILABLE exactly while its last word is an announcement that has not been seen to expire. */
  lemma {:induction false} AvailableMeaning(inputs: seq<Input>, id: nat)
    ensures var e := EntityOf(Fold(Step, AdpState({}, map[]), inputs), id);
            && (e.state == Available <==> exists k :: Stands(inputs, id, k))
            && forall k :: Stands(inputs, id, k) ==> e.lastSeen == inputs[k].ts && e.validTime == inputs[k].m.validTime
    decreases |inputs|
  {
    hide Step;
    if inputs != [] {
      var n := |inputs| - 1;
      var before, i := inputs[..n], inputs[n];
      AvailableMeaning(before, id);
      StepMeans(Fold(Step, AdpState({}, map[]), before), i, id);
      forall k
        ensures Stands(inputs, id, k) <==>
                || (k == n && Speaks(i, id) && i.m.msg == ENTITY_AVAILABLE)
                || StillStands(before, id, k, i)
      {
        assert forall j :: 0 <= j < n ==> before[j] == inputs[j];
      }
      if k :| Stands(before, id, k) {
        assert StillStands(before, id, k, i) <==> Stands(inputs, id, k) && k < n;
      }
      assert Speaks(i, id) && i.m.msg == ENTITY_AVAILABLE <==> Stands(inputs, id, n);
    }
  }

  /** An announcement that stood before an input and is not ended by it. */
  ghost predicate StillStands(before: seq<Input>, id: nat, k: int, i: Input) {
    && Stands(before, id, k) && !Speaks(i, id)
    && (i.Tick? ==> !(before[k].m.validTime > 0 && i.ts > before[k].ts + before[k].m.validTime * SECOND))
  }

  // ---- every field, read off the messages and ticks ----

  /** The last announcement or departure of an entity, with the moment it was heard. */
  function LastWord(inputs: seq<Input>, id: nat): (w: Option<Input>)
    ensures w.Some? ==> Speaks(w.value, id)
    decreases |inputs|
  {
    if inputs == [] then None
    else
      var n := |inputs| - 1;
      if Speaks(inputs[n], id) then Some(inputs[n]) else LastWord(inputs[..n], id)
  }

  function LastAnnounced(inputs: seq<Input>, id: nat): (w: Option<Input>)
    ensures w.Some? ==> Speaks(w.value, id)
    decreases |inputs|
  {
    if inputs == [] then None
    else
      var n := |inputs| - 1;
      if Speaks(inputs[n], id) && inputs[n].m.msg == 0 then Some(inputs[n]) else LastAnnounced(inputs[..n], id)
  }

  /** Since its last word, an announcement, a tick came later than the validity announced. */
  predicate Overslept(inputs: seq<Input>, id: nat)
    decreases |inputs|
  {
    && inputs != []
    && var n := |inputs| - 1;
       var before, i := inputs[..n], inputs[n];
       && !Speaks(i, id)
       && (|| Overslept(before, id)
           || (match LastWord(before, id)
               case None => false
               case Some(w) =>
                 i.Tick? && w.m.msg == 0 && w.m.validTime > 0 && i.ts > w.ts + w.m.validTime * 1_000_000_000))
  }

  /** The last announcement of a grandmaster, on a domain where one was observed, named another one than observed. */
  predicate Mismatched(inputs: seq<Input>, id: nat)
    decreases |inputs|
  {
    && inputs != []
    && var n := |inputs| - 1;
       var i := inputs[n];
       if Speaks(i, id) && i.m.msg == 0 && i.m.gmId != 0 && i.m.gptpDomain in i.observed then
         i.m.gmId != i.observed[i.m.gptpDomain]
       else Mismatched(inputs[..n], id)
  }

  lemma FieldsStep(a: AdpState, i: Input, id: nat)
    ensures var e, f := EntityOf(a, id), EntityOf(Step(a, i), id);
            && (!Speaks(i, id) && i.Heard? ==> f == e)
            && (i.Tick? ==>
                  && f == e.(state := f.state, hist := f.hist)
                  && f.state == if e.state == Available && e.validTime > 0 &&
                                   i.ts > e.lastSeen + e.validTime * 1_000_000_000 then TimedOut else e.state)
            && (Speaks(i, id) && i.m.msg == 1 ==> f == e.(state := Departing, hist := f.hist, lastSeen := i.ts))
            && (Speaks(i, id) && i.m.msg == 0 ==>
                  f == e.(state := Available, hist := f.hist, lastSeen := i.ts, availIdx := i.m.availIdx,
                          validTime := i.m.validTime, gmId := i.m.gmId, gptpDomain := i.m.gptpDomain,
                          gmMismatch := if i.m.gmId != 0 && i.m.gptpDomain in i.observed
                                        then i.m.gmId != i.observed[i.m.gptpDomain] else e.gmMismatch))
  {
  }

  /** What an entity shows after any run: the moment of its last word, the fields of its last announcement, whether the
      grandmaster it names is the one observed, and a state that follows from its last word and the ticks since. */
  lemma {:induction false} EntityMeaning(inputs: seq<Input>, id: nat)
    ensures var e := EntityOf(Fold(Step, AdpState({}, map[]), inputs), id);
            && (match LastWord(inputs, id)
                case None => e.lastSeen == 0 && e.state == UnknownEntity
                case Some(w) =>
                  && e.lastSeen == w.ts
                  && e.state == if w.m.msg == 1 then Departing
                                else if Overslept(inputs, id) then TimedOut
                                else Available)
            && (match LastAnnounced(inputs, id)
                case None => e.availIdx == 0 && e.validTime == 0 && e.gmId == 0 && e.gptpDomain == 0
                case Some(w) =>
                  && e.availIdx == w.m.availIdx && e.validTime == w.m.validTime && e.gmId == w.m.gmId
                  && e.gptpDomain == w.m.gptpDomain)
            && (e.gmMismatch <==> Mismatched(inputs, id))
            && (LastWord(inputs, id).Some? && LastWord(inputs, id).value.m.msg == 0 ==>
                  LastAnnounced(inputs, id) == LastWord(inputs, id))
    decreases |inputs|
  {
    hide Step;
    if inputs != [] {
      var n := |inputs| - 1;
      EntityMeaning(inputs[..n], id);
      FieldsStep(Fold(Step, AdpState({}, map[]), inputs[..n]), inputs[n], id);
    }
  }
}
