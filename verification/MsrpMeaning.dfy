/** What a reservation shows, read off the declarations of its talker and listeners alone. */
module MsrpMeaning {
  import opened Wrappers
  import opened History
  import opened Msrp

  ghost function ResAfter(inputs: seq<Input>, s: nat): Res {
    Lookup(Fold(Step, NOTHING, inputs).res, s)
  }

  /** A declaration about a stream: attribute types 1 and 2 are its talker's, 3 a listener's; event 6 is a LeaveAll. */
  predicate About(d: Declaration, s: nat) {
    1 <= d.attr <= 3 && d.streamId == s && d.ev != 6
  }

  predicate Offering(d: Declaration, s: nat) {
    About(d, s) && d.attr != 3 && d.ev != 5
  }

  /** The last talker that failed gave its reason. */
  function LastFailure(inputs: seq<Input>, s: nat): Option<Declaration> {
    if inputs == [] then None
    else
      var d := inputs[|inputs| - 1].d;
      if Offering(d, s) && d.attr == 2 then Some(d) else LastFailure(inputs[..|inputs| - 1], s)
  }

  /** The last declaration of any kind about the stream. */
  function LastWord(inputs: seq<Input>, s: nat): Option<Declaration> {
    if inputs == [] then None
    else
      var d := inputs[|inputs| - 1].d;
      if About(d, s) then Some(d) else LastWord(inputs[..|inputs| - 1], s)
  }

  predicate EverOffered(inputs: seq<Input>, s: nat) {
    exists k :: 0 <= k < |inputs| && Offering(inputs[k].d, s)
  }

  /** Some listener's last word is among some states: 1 asking failed, 2 ready, 3 ready failed. */
  ghost predicate Wanted(inputs: seq<Input>, s: nat, states: set<nat>) {
    exists src :: Says(LastListener(inputs, s, src), states)
  }

  predicate Says(d: Option<Declaration>, states: set<nat>) {
    Listens(d) && d.value.fourPacked in states
  }

  lemma AboutIs(d: Declaration, s: nat)
    ensures About(d, s) <==> Concerns(d, s)
  {
  }

  lemma EverStep(inputs: seq<Input>, s: nat)
    requires inputs != []
    ensures var n := |inputs| - 1;
            EverOffered(inputs, s) <==> EverOffered(inputs[..n], s) || Offering(inputs[n].d, s)
  {
    hide Offering;
    var n := |inputs| - 1;
    assert forall k :: 0 <= k < n ==> inputs[..n][k] == inputs[k];
  }

  /** The fields of a reservation: what the talker last offered and from where, even in leaving, and why it last
      failed. */
  lemma {:induction false} FieldsMeaning(inputs: seq<Input>, s: nat)
    ensures var r := ResAfter(inputs, s);
            && (match LastTalker(inputs, s)
                case None => r.talkerMac == 0 && r.offer == Offer(0, 0, 0, 0, 0, 0, 0) && r.decl == 0
                case Some(d) =>
                  && r.talkerMac == d.src && r.offer == d.offer
                  && r.decl == if d.ev == 5 then 0 else if d.attr == 1 then 1 else 2)
            && (match LastFailure(inputs, s)
                case None => r.failure == (0, 0)
                case Some(d) => r.failure == d.failure)
            && (r.talkerSeen <==> EverOffered(inputs, s)) && (r.decl != 0 ==> r.talkerSeen)
    decreases |inputs|
  {
    hide Step, EverOffered;
    if inputs == [] {
      NoneOffered(s);
    } else {
      var n := |inputs| - 1;
      FieldsMeaning(inputs[..n], s);
      EverStep(inputs, s);
      StepDeclares(Fold(Step, NOTHING, inputs[..n]), inputs[n], s);
      DeclaredFields(ResAfter(inputs[..n], s), inputs[n], s);
    }
  }

  lemma NoneOffered(s: nat)
    ensures !EverOffered([], s)
  {
  }

  lemma DeclaredFields(r: Res, i: Input, s: nat)
    ensures var q := Declared(r, i, s); var talks := About(i.d, s) && i.d.attr != 3;
            && q.talkerMac == (if talks then i.d.src else r.talkerMac)
            && q.offer == (if talks then i.d.offer else r.offer)
            && q.decl == (if !talks then r.decl else if i.d.ev == 5 then 0 else if i.d.attr == 1 then 1 else 2)
            && q.failure == (if Offering(i.d, s) && i.d.attr == 2 then i.d.failure else r.failure)
            && (q.talkerSeen <==> r.talkerSeen || Offering(i.d, s) || (About(i.d, s) && q.decl != 0))
  {
    hide Push, AnyReady, AnyAskFailed;
  }

  /** The state of a reservation in one step: it follows what is stored, except that a talker's own withdrawal is
      remembered only while nothing else is said, unless it was ever seen offering. */
  lemma DeclaredState(r: Res, i: Input, s: nat)
    ensures var q := Declared(r, i, s);
            if !About(i.d, s) then q == r
            else
              q.state ==
              if q.decl == 1 then
                if AnyReady(q) then Established else if AnyAskFailed(q) then ListenersFailed else Pending
              else if q.decl == 2 then TalkerRefused
              else if q.decl == 0 && (q.talkerSeen || (i.d.attr != 3 && i.d.ev == 5)) then Withdrawn
              else Pending
  {
    hide Push;
    var q := Declared(r, i, s);
    var told := Told(r, i.d);
    assert About(i.d, s) ==>
           q.listeners == told.listeners && (AnyReady(q) <==> AnyReady(told.(talkerSeen := q.talkerSeen)));
  }

  lemma ReadyIsWanted(inputs: seq<Input>, s: nat)
    ensures AnyReady(ResAfter(inputs, s)) <==> Wanted(inputs, s, {2, 3})
    ensures AnyAskFailed(ResAfter(inputs, s)) <==> Wanted(inputs, s, {1, 3})
  {
    hide Step, Fold, LastListener, LastTalker;
    StoredMeaning(inputs, s);
    var r := ResAfter(inputs, s);
    forall src, states: set<nat>
      ensures Says(LastListener(inputs, s, src), states) <==> src in r.listeners && r.listeners[src] in states
    {
    }
    if src :| src in r.listeners && (r.listeners[src] == 2 || r.listeners[src] == 3) {
      assert Says(LastListener(inputs, s, src), {2, 3});
    }
    if src :| src in r.listeners && (r.listeners[src] == 1 || r.listeners[src] == 3) {
      assert Says(LastListener(inputs, s, src), {1, 3});
    }
  }

  /** The state the declarations tell. */
  ghost function Reading(inputs: seq<Input>, s: nat): ResState {
    match (LastWord(inputs, s), LastTalker(inputs, s))
    case (None, _) => NewRes
    case (Some(_), None) => Pending
    case (Some(w), Some(d)) =>
      if d.ev == 5 then if EverOffered(inputs, s) || (w.attr != 3 && w.ev == 5) then Withdrawn else Pending
      else if d.attr == 2 then TalkerRefused
      else if Wanted(inputs, s, {2, 3}) then Established
      else if Wanted(inputs, s, {1, 3}) then ListenersFailed
      else Pending
  }

  lemma OthersUnheard(inputs: seq<Input>, s: nat)
    requires inputs != [] && !About(inputs[|inputs| - 1].d, s)
    ensures Reading(inputs, s) == Reading(inputs[..|inputs| - 1], s)
  {
    var before := inputs[..|inputs| - 1];
    EverStep(inputs, s);
    assert forall src :: LastListener(inputs, s, src) == LastListener(before, s, src);
  }

  /** After any declarations a reservation is: new if none was about it; refused or withdrawn by its talker's last
      word, the latter unless it only ever left and a listener spoke since; otherwise established, failed or pending
      by the last words of its listeners. */
  lemma {:induction false} ReservationMeaning(inputs: seq<Input>, s: nat)
    ensures ResAfter(inputs, s).state == Reading(inputs, s)
    decreases |inputs|
  {
    hide Step, AnyReady, AnyAskFailed, Wanted, EverOffered, Reading, Declared;
    if inputs == [] {
      NothingSaid(s);
    } else {
      var n := |inputs| - 1;
      ReservationMeaning(inputs[..n], s);
      StepDeclares(Fold(Step, NOTHING, inputs[..n]), inputs[n], s);
      DeclaredState(ResAfter(inputs[..n], s), inputs[n], s);
      if About(inputs[n].d, s) {
        FieldsMeaning(inputs, s);
        ReadyIsWanted(inputs, s);
        SpokenOf(inputs, s);
      } else {
        OthersUnheard(inputs, s);
      }
    }
  }

  lemma NothingSaid(s: nat)
    ensures Reading([], s) == NewRes
  {
  }

  /** The reading after a word about the stream, from what is stored. */
  lemma SpokenOf(inputs: seq<Input>, s: nat)
    requires inputs != [] && About(inputs[|inputs| - 1].d, s)
    ensures var i := inputs[|inputs| - 1]; var talker := LastTalker(inputs, s);
            Reading(inputs, s) ==
            if talker.None? then Pending
            else if talker.value.ev == 5 then
              if EverOffered(inputs, s) || (i.d.attr != 3 && i.d.ev == 5) then Withdrawn else Pending
            else if talker.value.attr == 2 then TalkerRefused
            else if Wanted(inputs, s, {2, 3}) then Established
            else if Wanted(inputs, s, {1, 3}) then ListenersFailed
            else Pending
    ensures LastTalker(inputs, s).Some? ==> 1 <= LastTalker(inputs, s).value.attr <= 2
    ensures LastTalker(inputs, s).None? ==> !EverOffered(inputs, s) && inputs[|inputs| - 1].d.attr == 3
  {
    hide Wanted, EverOffered;
    TalkerKnown(inputs, s);
  }

  lemma {:induction false} TalkerKnown(inputs: seq<Input>, s: nat)
    ensures LastTalker(inputs, s).Some? ==> 1 <= LastTalker(inputs, s).value.attr <= 2
    ensures LastTalker(inputs, s).None? ==> !EverOffered(inputs, s)
  {
    hide EverOffered;
    if inputs == [] {
      NoneOffered(s);
    } else {
      TalkerKnown(inputs[..|inputs| - 1], s);
      EverStep(inputs, s);
    }
  }
}
