/** What a port's peer delay record shows, read off the messages and ticks alone. */
module PdelayMeaning {
  import opened Wrappers
  import opened History
  import opened Bytes
  import opened Pdelay
  import Bmca
  import BmcaMeaning

  /** The interval of a request, in the encoding of Announce messages. */
  lemma RequestedIs(e: Event)
    requires e.Request?
    ensures RequestedInterval(e) == BmcaMeaning.AnnouncedInterval(e.logInterval)
  {
    BmcaMeaning.IntervalExact(e.logInterval);
  }

  function Requests(events: seq<Event>, key: nat): nat {
    if events == [] then 0
    else
      var e := events[|events| - 1];
      Requests(events[..|events| - 1], key) + if e.Request? && e.key == key then 1 else 0
  }

  function Ended(os: seq<Outcome>, how: Outcome): nat {
    if os == [] then 0 else Ended(os[..|os| - 1], how) + if os[|os| - 1] == how then 1 else 0
  }

  /** What the port last sent as a responder. */
  function LastAnswer(events: seq<Event>, key: nat): RespState {
    if events == [] then RespNotEnabled
    else
      var e := events[|events| - 1];
      if e.Response? && e.key == key then SentRespWaitingForTimestamp
      else if e.FollowUp? && e.key == key then WaitingForReq
      else LastAnswer(events[..|events| - 1], key)
  }

  lemma SidesStep(s: Pdelays, e: Event, key: nat)
    ensures var p, q := PortOf(s, key), PortOf(Step(s, e), key);
            && q.initiated == p.initiated + (if e.Request? && e.key == key then 1 else 0)
            && q.respState == (if e.Response? && e.key == key then SentRespWaitingForTimestamp
                               else if e.FollowUp? && e.key == key then WaitingForReq
                               else p.respState)
            && (key in Step(s, e).ports <==> key in s.ports || (!e.Tick? && e.key == key))
  {
    hide Bmca.IntervalFromLog;
  }

  lemma {:induction false} SidesMeaning(events: seq<Event>, key: nat)
    ensures var p := PortOf(Run(events), key);
            && p.initiated == Requests(events, key) && p.respState == LastAnswer(events, key)
            && (key in Run(events).ports <==> exists i :: 0 <= i < |events| && !events[i].Tick? && events[i].key == key)
  {
    hide Step;
    if events != [] {
      var n := |events| - 1;
      SidesMeaning(events[..n], key);
      SidesStep(Run(events[..n]), events[n], key);
      assert forall i :: 0 <= i < n ==> events[..n][i] == events[i];
    }
  }

  lemma {:induction false} EndsCounted(events: seq<Event>, key: nat)
    ensures var p := PortOf(Run(events), key);
            p.complete == Ended(Outcomes(events, key), WasCompleted) && p.lost == Ended(Outcomes(events, key), WasLost)
  {
    hide Step, Ending, Mirrors, PortOf;
    if events == [] {
      NothingCounted(key);
    } else {
      var before := events[..|events| - 1];
      EndsCounted(before, key);
      RunMirrors(before, key);
      MirrorStep(Run(before), events, key);
      OneMore(Outcomes(before, key), Ending(events, key));
      EndingShort(events, key);
    }
  }

  lemma EndingShort(events: seq<Event>, key: nat)
    requires events != []
    ensures |Ending(events, key)| <= 1
  {
  }

  lemma OneMore(os: seq<Outcome>, ended: seq<Outcome>)
    requires |ended| <= 1
    ensures forall how :: Ended(os + ended, how) == Ended(os, how) + if ended == [how] then 1 else 0
  {
    if ended == [] {
      assert os + ended == os;
    } else {
      assert (os + ended)[..|os|] == os;
    }
  }

  /** After any run a port has initiated, completed and lost what its messages and the ticks tell, waits for what is
      pending or rests as its last exchange ended, shows as a responder what it last sent, and is capable unless its
      last three exchanges were lost or none was ever completed. */
  lemma PortMeaning(events: seq<Event>, key: nat)
    requires exists i :: 0 <= i < |events| && !events[i].Tick? && events[i].key == key
    ensures key in Run(events).ports
    ensures var p, os, pending := Run(events).ports[key], Outcomes(events, key), Pending(events, key);
            && p.initiated == Requests(events, key)
            && p.complete == Ended(os, WasCompleted) && p.lost == p.resets == Ended(os, WasLost)
            && p.respState == LastAnswer(events, key)
            && p.reqInterval == LastInterval(events, key)
            && p.reqState == (if pending.Some? then
                                if pending.value.haveResp then WaitingForRespFollowUp else WaitingForResp
                              else if os == [] then ReqNotEnabled
                              else if os[|os| - 1] == WasLost then Reset
                              else WaitingForIntervalTimer)
            && p.asCapable == (if |os| >= 3 && forall i :: |os| - 3 <= i < |os| ==> os[i] == WasLost then NotCapable
                               else if WasCompleted in os then Capable
                               else UnknownCapable)
  {
    hide Run, Outcomes, Pending, Requests, LastAnswer, LastInterval, Ended, TrailingLost;
    SidesMeaning(events, key);
    EndsCounted(events, key);
    RunMirrors(events, key);
    EveryRunConserves(events);
    ConsecutiveIsTrailing(events, key);
    NotCapableMeaning(events, key);
    var os := Outcomes(events, key);
    TrailingExact(os);
    EndedIn(os);
    LastTrails(os);
  }

  lemma LastTrails(os: seq<Outcome>)
    ensures TrailingLost(os) > 0 <==> os != [] && os[|os| - 1] == WasLost
  {
  }

  lemma {:induction false} EndedIn(os: seq<Outcome>)
    ensures Ended(os, WasCompleted) > 0 <==> WasCompleted in os
    ensures Ended(os, WasCompleted) + Ended(os, WasLost) == |os|
  {
    if os != [] {
      EndedIn(os[..|os| - 1]);
      assert os == os[..|os| - 1] + [os[|os| - 1]];
    }
  }
}
