/** VLAN registration as observed on the wire: members per VID and the VLAN's state. */
module Mvrp {
  import opened History
  import opened Shared

  datatype VlanState = Unknown | Registered | LeavingVlan | WithdrawnVlan

  datatype Vlan = Vlan(members: set<nat>, state: VlanState, hist: seq<Entry<VlanState>>)

  const NO_VLAN := Vlan({}, Unknown, [])

  type Vlans = map<nat, Vlan>

  function Moved(v: Vlan, to: VlanState, ts: int, n: nat): Vlan {
    v.(state := to, hist := v.hist + [Entry(ts, n, v.state, to)])
  }

  function OnVlanLeaveAll(v: Vlan, ts: int, n: nat): Vlan {
    if v.state == Registered then Moved(v, LeavingVlan, ts, n) else v
  }

  function OnVlanEvent(v: Vlan, member: nat, ev: nat, ts: int, n: nat): Vlan {
    if ev == EV_NEW || ev == EV_JOIN_IN || ev == EV_JOIN_MT then
      var joined := v.(members := v.members + {member});
      if v.state != Registered then Moved(joined, Registered, ts, n) else joined
    else if ev == EV_LV then
      var left := v.(members := v.members - {member});
      if left.members == {} && v.state != WithdrawnVlan then Moved(left, WithdrawnVlan, ts, n) else left
    else v
  }

  datatype MvrpState = MvrpState(attrs: Attrs, vlans: Vlans)

  /** One VID declaration of `member`, or the LeaveAll of its vector. */
  function OnVidEvent(m: MvrpState, vid: nat, member: nat, ev: nat, ts: int, n: nat): MvrpState {
    if ev == EV_LEAVE_ALL then
      MvrpState(LeaveAllAttrs(m.attrs, KVid, ts, n), map v | v in m.vlans :: OnVlanLeaveAll(m.vlans[v], ts, n))
    else
      var vl := if vid in m.vlans then m.vlans[vid] else NO_VLAN;
      MvrpState(EventAttrs(m.attrs, (Vid(vid), member), ev, ts, n),
                m.vlans[vid := OnVlanEvent(vl, member, ev, ts, n)])
  }

  class MvrpLogic {
    const shared: SharedModel
    var vlans: Vlans

    function State(): MvrpState
      reads this, shared
    {
      MvrpState(shared.attrs, vlans)
    }

    constructor (shared: SharedModel)
      ensures this.shared == shared && vlans == map[]
    {
      this.shared := shared;
      vlans := map[];
    }

    method OnDecode(vid: nat, member: nat, ev: nat, ts: int, n: nat)
      requires shared.Valid() && ts >= 0
      modifies this`vlans, shared`attrs, shared`lvCount
      ensures shared.Valid()
      ensures State() == OnVidEvent(old(State()), vid, member, ev, ts, n)
    {
      hide AttrsOk, Leaving, EventAttrs, LeaveAllAttrs;
      if ev == EV_LEAVE_ALL {
        var todo := vlans.Keys;
        while todo != {}
          invariant todo <= vlans.Keys == old(vlans).Keys && shared.Valid() && shared.attrs == old(shared.attrs)
          invariant forall v :: v in vlans ==>
                      vlans[v] == if v in todo then old(vlans)[v] else OnVlanLeaveAll(old(vlans)[v], ts, n)
        {
          var v :| v in todo;
          if vlans[v].state == Registered {
            vlans := vlans[v := Moved(vlans[v], LeavingVlan, ts, n)];
          }
          todo := todo - {v};
        }
        shared.MrpLeaveAll(KVid, ts, n);
        return;
      }
      shared.MrpEvent((Vid(vid), member), ev, ts, n);
      var vl := if vid in vlans then vlans[vid] else NO_VLAN;
      match ev {
        case 0 | 1 | 3 =>
          vl := vl.(members := vl.members + {member});
          if vl.state != Registered {
            vl := Moved(vl, Registered, ts, n);
          }
        case 5 =>
          vl := vl.(members := vl.members - {member});
          if vl.members == {} && vl.state != WithdrawnVlan {
            vl := Moved(vl, WithdrawnVlan, ts, n);
          }
        case _ =>
      }
      vlans := vlans[vid := vl];
    }

    /** Time drives the registrar layer of every MRP application. */
    method OnTimeTick(ts: int)
      requires shared.Valid()
      modifies shared`attrs, shared`lvCount
      ensures shared.Valid() && State() == old(State()).(attrs := TickAttrs(old(shared.attrs), ts))
    {
      shared.MrpTick(ts);
    }
  }

  // ---- membership and the registrar view ----

  /** A VLAN has members exactly while it is registered or leaving, and its history leads from Unknown to its state. */
  ghost predicate VlanOk(v: Vlan) {
    && (v.members != {} <==> v.state == Registered || v.state == LeavingVlan)
    && Spans(v.hist, Unknown, v.state)
  }

  ghost predicate VlansOk(m: MvrpState) {
    forall v :: v in m.vlans ==> VlanOk(m.vlans[v])
  }

  /** A VID registrar that is IN belongs to a member of the VLAN. */
  ghost predicate MembersAgree(m: MvrpState) {
    forall vid, src :: (Vid(vid), src) in m.attrs && m.attrs[(Vid(vid), src)].registrar.IN? ==>
                         vid in m.vlans && src in m.vlans[vid].members
  }

  lemma VlanEventKeeps(v: Vlan, member: nat, ev: nat, ts: int, n: nat)
    requires VlanOk(v)
    ensures VlanOk(OnVlanEvent(v, member, ev, ts, n)) && VlanOk(OnVlanLeaveAll(v, ts, n))
  {
    forall to: VlanState
      ensures Spans(v.hist + [Entry(ts, n, v.state, to)], Unknown, to)
    {
      AppendSpans(v.hist, Entry(ts, n, v.state, to), Unknown);
    }
    assert member in v.members + {member};
  }

  lemma VidEventKeeps(m: MvrpState, vid: nat, member: nat, ev: nat, ts: int, n: nat)
    requires VlansOk(m)
    ensures VlansOk(OnVidEvent(m, vid, member, ev, ts, n))
  {
    hide VlanOk, OnVlanEvent, OnVlanLeaveAll, EventAttrs, LeaveAllAttrs;
    forall v | v in m.vlans || v == vid
      ensures var vl := if v in m.vlans then m.vlans[v] else NO_VLAN;
              VlanOk(OnVlanEvent(vl, member, ev, ts, n)) && VlanOk(OnVlanLeaveAll(vl, ts, n))
    {
      NoVlanOk();
      VlanEventKeeps(if v in m.vlans then m.vlans[v] else NO_VLAN, member, ev, ts, n);
    }
  }

  lemma NoVlanOk()
    ensures VlanOk(NO_VLAN)
  {
  }

  lemma VidEventKeepsMembers(m: MvrpState, vid: nat, member: nat, ev: nat, ts: int, n: nat)
    requires MembersAgree(m)
    ensures MembersAgree(OnVidEvent(m, vid, member, ev, ts, n))
  {
    hide Push;
  }

  // ---- membership, read off the observations alone ----

  datatype Input = Heard(vid: nat, member: nat, ev: nat, ts: int, n: nat)

  function Step(m: MvrpState, i: Input): MvrpState {
    OnVidEvent(m, i.vid, i.member, i.ev, i.ts, i.n)
  }

  /** Whether the last join or leave of `member` on `vid` was a join. */
  predicate LastJoined(inputs: seq<Input>, vid: nat, member: nat) {
    if inputs == [] then false
    else
      var i := inputs[|inputs| - 1];
      if i.vid == vid && i.member == member && i.ev in {0, 1, 3} then true
      else if i.vid == vid && i.member == member && i.ev == 5 then false
      else LastJoined(inputs[..|inputs| - 1], vid, member)
  }

  /** A VLAN's members are exactly the sources whose last join or leave was a join; a LeaveAll removes none. */
  lemma {:induction false} MemberMeaning(inputs: seq<Input>, vid: nat, member: nat)
    ensures var vlans := Fold(Step, MvrpState(map[], map[]), inputs).vlans;
            (vid in vlans && member in vlans[vid].members) <==> LastJoined(inputs, vid, member)
    decreases |inputs|
  {
    hide EventAttrs, LeaveAllAttrs;
    if inputs != [] {
      MemberMeaning(inputs[..|inputs| - 1], vid, member);
    }
  }

  /** Some source's last join or leave of the VLAN was a join. */
  ghost predicate AnyJoined(inputs: seq<Input>, vid: nat) {
    exists member :: LastJoined(inputs, vid, member)
  }

  /** A LeaveAll, event 6, came after the last join of the VLAN. */
  predicate LeftAllSince(inputs: seq<Input>, vid: nat) {
    && inputs != []
    && var n := |inputs| - 1;
       var i := inputs[n];
       && !(i.vid == vid && i.ev in {0, 1, 3})
       && (i.ev == 6 || LeftAllSince(inputs[..n], vid))
  }

  predicate EverLeft(inputs: seq<Input>, vid: nat) {
    && inputs != []
    && var n := |inputs| - 1;
       (inputs[n].vid == vid && inputs[n].ev == 5) || EverLeft(inputs[..n], vid)
  }

  lemma JoinedIs(inputs: seq<Input>, vid: nat)
    ensures var vlans := Fold(Step, MvrpState(map[], map[]), inputs).vlans;
            AnyJoined(inputs, vid) <==> vid in vlans && vlans[vid].members != {}
  {
    hide Step, Fold, LastJoined;
    var vlans := Fold(Step, MvrpState(map[], map[]), inputs).vlans;
    forall member: nat
      ensures (vid in vlans && member in vlans[vid].members) <==> LastJoined(inputs, vid, member)
    {
      MemberMeaning(inputs, vid, member);
    }
    if vid in vlans && vlans[vid].members != {} {
      var member :| member in vlans[vid].members;
      assert LastJoined(inputs, vid, member);
    }
  }

  /** One event and the state of a VLAN. */
  lemma VlanStep(m: MvrpState, i: Input, vid: nat)
    ensures var was := if vid in m.vlans then m.vlans[vid] else NO_VLAN;
            var now := if vid in Step(m, i).vlans then Step(m, i).vlans[vid] else NO_VLAN;
            now.state ==
            if i.ev == 6 then if was.state == Registered then LeavingVlan else was.state
            else if i.vid != vid then was.state
            else if i.ev in {0, 1, 3} then Registered
            else if i.ev == 5 && now.members == {} then WithdrawnVlan
            else was.state
  {
    hide EventAttrs, LeaveAllAttrs;
  }

  /** A VLAN some source has joined is REGISTERED, or LEAVING after a LeaveAll; one nobody is in is WITHDRAWN if ever
      left. */
  lemma {:induction false} VlanMeaning(inputs: seq<Input>, vid: nat)
    ensures var vlans := Fold(Step, MvrpState(map[], map[]), inputs).vlans;
            (if vid in vlans then vlans[vid].state else Unknown) ==
            if AnyJoined(inputs, vid) then if LeftAllSince(inputs, vid) then LeavingVlan else Registered
            else if EverLeft(inputs, vid) then WithdrawnVlan
            else Unknown
    decreases |inputs|
  {
    hide Step, AnyJoined;
    JoinedIs(inputs, vid);
    if inputs != [] {
      var n := |inputs| - 1;
      var m := Fold(Step, MvrpState(map[], map[]), inputs[..n]);
      VlanMeaning(inputs[..n], vid);
      JoinedIs(inputs[..n], vid);
      VlanStep(m, inputs[n], vid);
      MembersStep(m, inputs[n], vid);
    }
  }

  lemma MembersStep(m: MvrpState, i: Input, vid: nat)
    ensures var was := if vid in m.vlans then m.vlans[vid] else NO_VLAN;
            var now := if vid in Step(m, i).vlans then Step(m, i).vlans[vid] else NO_VLAN;
            now.members == if i.vid == vid && i.ev in {0, 1, 3} then was.members + {i.member}
                           else if i.vid == vid && i.ev == 5 then was.members - {i.member}
                           else was.members
  {
    hide EventAttrs, LeaveAllAttrs;
  }
}
