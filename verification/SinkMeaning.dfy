/** What a sink's record means, read off the messages and ticks alone: every field, and every state, of every run. */
module SinkMeaning {
  import opened Wrappers
  import opened History
  import opened MilanSink

  function SinkAfter(inputs: seq<Input>, k: SinkKey): Sink {
    Lookup(Fold(CappedStep, map[], inputs), k)
  }

  // ---- what the messages say ----

  predicate Hears(i: Input, k: SinkKey, msg: nat) {
    i.Heard? && i.m.sink == k && i.m.msg == msg
  }

  /** A command for the sink was heard; responses to unheard commands do not count. */
  predicate Known(inputs: seq<Input>, k: SinkKey) {
    exists j :: 0 <= j < |inputs| && (Hears(inputs[j], k, 6) || Hears(inputs[j], k, 8) || Hears(inputs[j], k, 0))
  }

  predicate Rejected(i: Input, k: SinkKey) {
    Hears(i, k, 7) && i.m.status != 0
  }

  /** A successful PROBE response for a known sink. */
  predicate Offered(before: seq<Input>, i: Input, k: SinkKey) {
    Hears(i, k, 1) && i.m.status == 0 && Known(before, k)
  }

  predicate Binds(before: seq<Input>, i: Input, k: SinkKey) {
    Hears(i, k, 6) || Hears(i, k, 0) || Offered(before, i, k)
  }

  predicate Releases(i: Input, k: SinkKey) {
    Hears(i, k, 8) || Rejected(i, k)
  }

  /** Something bound the sink and nothing has released it since. */
  predicate BoundSince(inputs: seq<Input>, k: SinkKey, j: int) {
    && 0 <= j < |inputs| && Binds(inputs[..j], inputs[j], k)
    && forall l :: j < l < |inputs| ==> !Releases(inputs[l], k)
  }

  ghost predicate Bound(inputs: seq<Input>, k: SinkKey) {
    exists j :: BoundSince(inputs, k, j)
  }

  /** The last message that named a talker: a BIND command, or a PROBE command out of nowhere. */
  ghost function Naming(inputs: seq<Input>, k: SinkKey): Option<Message>
    decreases |inputs|
  {
    if inputs == [] then None
    else
      var n := |inputs| - 1;
      if Hears(inputs[n], k, 6) || (Hears(inputs[n], k, 0) && !Bound(inputs[..n], k)) then Some(inputs[n].m)
      else Naming(inputs[..n], k)
  }

  ghost function TalkerOf(inputs: seq<Input>, k: SinkKey): nat {
    match Naming(inputs, k) case None => 0 case Some(m) => m.talker
  }

  /** The last message of a type, with the moment it was heard. */
  function LastHeard(inputs: seq<Input>, k: SinkKey, msg: nat): (i: Option<Input>)
    ensures i.Some? ==> i.value.Heard?
    decreases |inputs|
  {
    if inputs == [] then None
    else
      var n := |inputs| - 1;
      if Hears(inputs[n], k, msg) then Some(inputs[n]) else LastHeard(inputs[..n], k, msg)
  }

  function ProbedAt(inputs: seq<Input>, k: SinkKey): int {
    match LastHeard(inputs, k, 0) case None => -SECOND case Some(i) => i.ts
  }

  function HowMany(inputs: seq<Input>, k: SinkKey, msg: nat): nat
    decreases |inputs|
  {
    if inputs == [] then 0
    else
      var n := |inputs| - 1;
      HowMany(inputs[..n], k, msg) + if Hears(inputs[n], k, msg) then 1 else 0
  }

  /** The last successful PROBE response for the sink. */
  function Offer(inputs: seq<Input>, k: SinkKey): (i: Option<Input>)
    ensures i.Some? ==> i.value.Heard?
    decreases |inputs|
  {
    if inputs == [] then None
    else
      var n := |inputs| - 1;
      if Offered(inputs[..n], inputs[n], k) then Some(inputs[n]) else Offer(inputs[..n], k)
  }

  function StreamOf(inputs: seq<Input>, k: SinkKey): nat {
    match Offer(inputs, k) case Some(Heard(m, _, _, _)) => m.streamId case _ => 0
  }

  /** Whether the talker was there when last looked at: at a BIND command, and at every tick of a bound sink. A PROBE
      command that names a new talker does not look. */
  ghost predicate ThoughtThere(inputs: seq<Input>, k: SinkKey)
    decreases |inputs|
  {
    && inputs != []
    && var n := |inputs| - 1;
       var before, i := inputs[..n], inputs[n];
       if Hears(i, k, 6) then i.m.talker in i.v.available
       else if i.Tick? && Bound(before, k) then TalkerOf(before, k) in i.v.available
       else ThoughtThere(before, k)
  }

  /** A tick finds the talker gone that was thought to be there. */
  ghost predicate Leaves(before: seq<Input>, i: Input, k: SinkKey) {
    i.Tick? && Bound(before, k) && ThoughtThere(before, k) && TalkerOf(before, k) !in i.v.available
  }

  // ---- the binding ----

  lemma SinkStep(sinks: Sinks, i: Input, k: SinkKey)
    ensures k in CappedStep(sinks, i) <==>
              k in sinks || Hears(i, k, 6) || Hears(i, k, 8) || Hears(i, k, 0)
    ensures Lookup(CappedStep(sinks, i), k) ==
            match i
            case Heard(m, v, ts, n) =>
              if m.sink == k && (k in sinks || Creates(m)) then OnMessage(Lookup(sinks, k), m, v, ts, n)
              else Lookup(sinks, k)
            case Tick(v, ts) => OnTime(Lookup(sinks, k), v, ts)
  {
    hide OnMessage;
  }

  lemma {:induction false} KnownMeaning(inputs: seq<Input>, k: SinkKey)
    ensures k in Fold(CappedStep, map[], inputs) <==> Known(inputs, k)
    decreases |inputs|
  {
    hide CappedStep;
    if inputs != [] {
      var n := |inputs| - 1;
      KnownMeaning(inputs[..n], k);
      SinkStep(Fold(CappedStep, map[], inputs[..n]), inputs[n], k);
      KnownStep(inputs, k);
    }
  }

  lemma KnownStep(inputs: seq<Input>, k: SinkKey)
    requires inputs != []
    ensures var n := |inputs| - 1;
            Known(inputs, k) <==>
              Known(inputs[..n], k) || Hears(inputs[n], k, 6) || Hears(inputs[n], k, 8) || Hears(inputs[n], k, 0)
  {
    var n := |inputs| - 1;
    if Known(inputs[..n], k) {
      var j :| 0 <= j < n && (Hears(inputs[j], k, 6) || Hears(inputs[j], k, 8) || Hears(inputs[j], k, 0));
      assert inputs[..n][j] == inputs[j];
    }
    if j :| 0 <= j < n && (Hears(inputs[j], k, 6) || Hears(inputs[j], k, 8) || Hears(inputs[j], k, 0)) {
      assert inputs[..n][j] == inputs[j];
    }
  }

  lemma BoundStep(inputs: seq<Input>, k: SinkKey)
    requires inputs != []
    ensures var n := |inputs| - 1;
            Bound(inputs, k) <==>
              Binds(inputs[..n], inputs[n], k) || (Bound(inputs[..n], k) && !Releases(inputs[n], k))
  {
    hide Binds, Releases;
    var n := |inputs| - 1;
    var before := inputs[..n];
    forall j
      ensures BoundSince(inputs, k, j) <==>
                || (j == n && Binds(before, inputs[n], k))
                || (BoundSince(before, k, j) && !Releases(inputs[n], k))
    {
      assert forall l :: 0 <= l < n ==> before[l] == inputs[l];
      if 0 <= j < n {
        assert before[..j] == inputs[..j];
      }
    }
    if j :| BoundSince(before, k, j) {
      assert !Releases(inputs[n], k) ==> BoundSince(inputs, k, j);
    }
    assert BoundSince(inputs, k, n) <==> Binds(before, inputs[n], k);
  }

  /** What each message does to a sink, field by field. */
  lemma MessageTable(s: Sink, m: Message, v: View, ts: int, n: nat)
    ensures var t := OnMessage(s, m, v, ts, n);
            && (m.msg == 6 ==>
                  && t.state == (if m.talker in v.available then PrbWDelay else PrbWAvail)
                  && t == s.(state := t.state, hist := t.hist, boundTalker := m.talker, boundTalkerUid := m.talkerUid,
                             controller := m.controller, talkerAvail := m.talker in v.available))
            && (m.msg == 8 || (m.msg == 7 && m.status != 0) ==> t == s.(state := Unbound, hist := t.hist))
            && (m.msg == 0 ==>
                  && t.state == (if s.state == PrbWResp && ts - s.lastProbeTs < 500 * MILLISECOND then PrbWResp2
                                 else PrbWResp)
                  && t == s.(state := t.state, hist := t.hist, probes := s.probes + 1, lastProbeTs := ts,
                             retryWarned := t.retryWarned,
                             boundTalker := if s.state == Unbound then m.talker else s.boundTalker,
                             boundTalkerUid := if s.state == Unbound then m.talkerUid else s.boundTalkerUid))
            && (m.msg == 1 && m.status == 0 ==>
                  && t.state == (if m.streamId in v.registered then SettledRsvOk else SettledNoRsv)
                  && t == s.(state := t.state, hist := t.hist, streamId := m.streamId, destMac := m.destMac,
                             vlan := m.vlan, settledNoRsvTs := ts))
            && (m.msg !in {0, 6, 8} && !(m.msg == 7 && m.status != 0) && !(m.msg == 1 && m.status == 0) ==>
                  t == s.(hist := t.hist))
  {
    hide Recorded;
  }

  predicate Gone(s: Sink, v: View) {
    s.talkerAvail && s.boundTalker !in v.available
  }

  predicate Registered(s: Sink, v: View) {
    s.streamId != 0 && s.streamId in v.registered
  }

  lemma DiscoveredTable(s: Sink, v: View, ts: int)
    ensures var t := Discovered(s, v, ts);
            && t == s.(state := t.state, hist := t.hist, talkerAvail := s.talkerAvail || s.boundTalker in v.available)
            && t.state == (if s.state == PrbWAvail && !s.talkerAvail && s.boundTalker in v.available then PrbWDelay
                           else s.state)
  {
    hide Moved;
  }

  lemma ReservedTable(s: Sink, v: View, ts: int)
    ensures var t := Reserved(s, v, ts);
            && t == s.(state := t.state, hist := t.hist, settledNoRsvTs := t.settledNoRsvTs)
            && t.state == (match s.state
                 case SettledNoRsv => if Registered(s, v) then SettledRsvOk else SettledNoRsv
                 case SettledRsvOk => if s.streamId == 0 || Registered(s, v) then SettledRsvOk else SettledNoRsv
                 case other => other)
            && t.settledNoRsvTs == if s.state == SettledRsvOk && t.state == SettledNoRsv then ts else s.settledNoRsvTs
  {
    hide Moved;
  }

  lemma TimersTable(s: Sink, ts: int)
    ensures var t := Timers(s, ts);
            && t == s.(state := t.state, hist := t.hist, retryStartTs := t.retryStartTs, retryWarned := t.retryWarned)
            && t.state == (match s.state
                 case PrbWResp => if ts > s.lastProbeTs + 1200 * MILLISECOND then PrbWRetry else PrbWResp
                 case PrbWResp2 => if ts > s.lastProbeTs + 250 * MILLISECOND then PrbWRetry else PrbWResp2
                 case SettledNoRsv => if ts > s.settledNoRsvTs + 10 * SECOND then PrbWDelay else SettledNoRsv
                 case other => other)
  {
    hide Moved, Warned;
  }

  /** What a tick leaves of a bound sink whose talker is not gone, state by state. */
  function Aged(s: Sink, v: View, ts: int): SinkState {
    match s.state
    case PrbWAvail => if s.boundTalker in v.available then PrbWDelay else PrbWAvail
    case PrbWResp => if ts > s.lastProbeTs + 1200 * MILLISECOND then PrbWRetry else PrbWResp
    case PrbWResp2 => if ts > s.lastProbeTs + 250 * MILLISECOND then PrbWRetry else PrbWResp2
    case SettledNoRsv =>
      if Registered(s, v) then SettledRsvOk
      else if ts > s.settledNoRsvTs + 10 * SECOND then PrbWDelay
      else SettledNoRsv
    case SettledRsvOk => if s.streamId == 0 || Registered(s, v) then SettledRsvOk else SettledNoRsv
    case other => other
  }

  lemma TickFields(s: Sink, v: View, ts: int)
    ensures var t := OnTime(s, v, ts);
            t == s.(state := t.state, hist := t.hist, talkerAvail := t.talkerAvail, retryStartTs := t.retryStartTs,
                    retryWarned := t.retryWarned, settledNoRsvTs := t.settledNoRsvTs)
  {
    hide Moved, Discovered, Reserved, Timers, Registered;
    DiscoveredTable(s, v, ts);
    var d := Discovered(s, v, ts);
    ReservedTable(d, v, ts);
    TimersTable(Reserved(d, v, ts), ts);
  }

  lemma TickTable(s: Sink, v: View, ts: int)
    requires s.state == PrbWAvail ==> !s.talkerAvail
    ensures var t := OnTime(s, v, ts);
            && (s.state == Unbound ==> t == s)
            && (s.state != Unbound ==>
                  && t.state == (if Gone(s, v) then PrbWAvail else Aged(s, v, ts))
                  && (t.talkerAvail <==> s.boundTalker in v.available)
                  && (t.state == SettledNoRsv ==>
                        t.settledNoRsvTs == if s.state == SettledRsvOk then ts else s.settledNoRsvTs))
  {
    hide Moved, Discovered, Reserved, Timers;
    DiscoveredTable(s, v, ts);
    var d := Discovered(s, v, ts);
    ReservedTable(d, v, ts);
    TimersTable(Reserved(d, v, ts), ts);
  }

  // ---- which sinks are bound, to whom, with what ----

  /** A sink is bound exactly if a BIND command, a PROBE command or a successful PROBE response for a known sink came
      after its last UNBIND command and its last rejected BIND response; time changes nothing about that. */
  lemma {:induction false} BoundMeaning(inputs: seq<Input>, k: SinkKey)
    ensures SinkAfter(inputs, k).state != Unbound <==> Bound(inputs, k)
    decreases |inputs|
  {
    hide CappedStep, OnMessage, OnTime, Bound;
    if inputs == [] {
      assert !Bound(inputs, k) by { NeverBound(k); }
    } else {
      var n := |inputs| - 1;
      var s := SinkAfter(inputs[..n], k);
      BoundMeaning(inputs[..n], k);
      BoundStep(inputs, k);
      KnownMeaning(inputs[..n], k);
      SinkStep(Fold(CappedStep, map[], inputs[..n]), inputs[n], k);
      match inputs[n]
      case Heard(m, v, ts, c) => MessageTable(s, m, v, ts, c);
      case Tick(v, ts) => TickStaysBound(s, v, ts);
    }
  }

  lemma NeverBound(k: SinkKey)
    ensures !Bound([], k)
  {
  }

  lemma TickStaysBound(s: Sink, v: View, ts: int)
    ensures OnTime(s, v, ts).state == Unbound <==> s.state == Unbound
  {
    hide Recorded, Moved, Warned;
  }

  /** The talker is the one last named, the controller that of the last BIND command. */
  lemma {:induction false} BindingMeaning(inputs: seq<Input>, k: SinkKey)
    ensures var s := SinkAfter(inputs, k);
            && (match Naming(inputs, k)
                case None => s.boundTalker == 0 && s.boundTalkerUid == 0
                case Some(m) => s.boundTalker == m.talker && s.boundTalkerUid == m.talkerUid)
            && (match LastHeard(inputs, k, 6)
                case None => s.controller == 0
                case Some(i) => s.controller == i.m.controller)
    decreases |inputs|
  {
    hide CappedStep, OnMessage, OnTime, Bound, Known;
    if inputs != [] {
      var n := |inputs| - 1;
      var s := SinkAfter(inputs[..n], k);
      BindingMeaning(inputs[..n], k);
      BoundMeaning(inputs[..n], k);
      KnownMeaning(inputs[..n], k);
      SinkStep(Fold(CappedStep, map[], inputs[..n]), inputs[n], k);
      match inputs[n]
      case Heard(m, v, ts, c) => MessageTable(s, m, v, ts, c);
      case Tick(v, ts) => TickFields(s, v, ts);
    }
  }

  /** The stream is that of the last successful response, the probes are the PROBE commands heard. */
  lemma {:induction false} StreamMeaning(inputs: seq<Input>, k: SinkKey)
    ensures var s := SinkAfter(inputs, k);
            && (match Offer(inputs, k)
                case None => s.streamId == 0 && s.destMac == 0 && s.vlan == 0
                case Some(i) => s.streamId == i.m.streamId && s.destMac == i.m.destMac && s.vlan == i.m.vlan)
            && s.probes == HowMany(inputs, k, 0)
            && s.lastProbeTs == ProbedAt(inputs, k)
    decreases |inputs|
  {
    hide CappedStep, OnMessage, OnTime, Known;
    if inputs != [] {
      var n := |inputs| - 1;
      var s := SinkAfter(inputs[..n], k);
      StreamMeaning(inputs[..n], k);
      KnownMeaning(inputs[..n], k);
      SinkStep(Fold(CappedStep, map[], inputs[..n]), inputs[n], k);
      match inputs[n]
      case Heard(m, v, ts, c) => MessageTable(s, m, v, ts, c);
      case Tick(v, ts) => TickFields(s, v, ts);
    }
  }

  /** The cached availability is that of the last look, and a sink waiting for its talker believes it is away. */
  lemma {:induction false} ThoughtMeaning(inputs: seq<Input>, k: SinkKey)
    ensures var s := SinkAfter(inputs, k);
            (s.talkerAvail <==> ThoughtThere(inputs, k)) && (s.state == PrbWAvail ==> !s.talkerAvail)
    decreases |inputs|
  {
    hide CappedStep, OnMessage, OnTime, Bound, Known, Naming;
    if inputs != [] {
      var n := |inputs| - 1;
      var s := SinkAfter(inputs[..n], k);
      ThoughtMeaning(inputs[..n], k);
      BoundMeaning(inputs[..n], k);
      BindingMeaning(inputs[..n], k);
      SinkStep(Fold(CappedStep, map[], inputs[..n]), inputs[n], k);
      match inputs[n]
      case Heard(m, v, ts, c) => MessageTable(s, m, v, ts, c);
      case Tick(v, ts) => TickTable(s, v, ts);
    }
  }

  // ---- the states ----

  /** A message that puts an end to whatever a sink was waiting for. */
  predicate Interrupts(before: seq<Input>, i: Input, k: SinkKey) {
    Binds(before, i, k) || Releases(i, k)
  }

  /** A wait for a response stands: a PROBE command began it and since then no message interrupted it, no tick found the
      talker gone, and none came too late. It is a second wait if the command came within half a second of the one that
      began a first wait still standing. */
  ghost predicate Waits(inputs: seq<Input>, k: SinkKey, second: bool)
    decreases |inputs|
  {
    && inputs != []
    && var n := |inputs| - 1;
       var before, i := inputs[..n], inputs[n];
       if Hears(i, k, 0) then
         second <==> Waits(before, k, false) && i.ts - ProbedAt(before, k) < 500 * MILLISECOND
       else
         Waits(before, k, second) && !Interrupts(before, i, k) && !Leaves(before, i, k) && !Late(before, i, k, second)
  }

  /** 250 milliseconds are allowed for the second wait, 1200 for the first. */
  predicate Late(before: seq<Input>, i: Input, k: SinkKey, second: bool) {
    i.Tick? && i.ts > ProbedAt(before, k) + (if second then 250 else 1200) * MILLISECOND
  }

  /** A tick came too late for a wait, and since then no message came for the sink and no tick found its talker gone. */
  ghost predicate Retries(inputs: seq<Input>, k: SinkKey)
    decreases |inputs|
  {
    && inputs != []
    && var n := |inputs| - 1;
       var before, i := inputs[..n], inputs[n];
       && !Leaves(before, i, k)
       && !Interrupts(before, i, k)
       && (Retries(before, k) || exists second :: Waits(before, k, second) && Late(before, i, k, second))
  }

  /** The talker was not there at a BIND command, or a tick found it gone, and no tick has found it since. */
  ghost predicate Away(inputs: seq<Input>, k: SinkKey)
    decreases |inputs|
  {
    && inputs != []
    && var n := |inputs| - 1;
       var before, i := inputs[..n], inputs[n];
       || (Hears(i, k, 6) && i.m.talker !in i.v.available)
       || Leaves(before, i, k)
       || (&& Away(before, k) && !Interrupts(before, i, k)
           && (i.Tick? ==> TalkerOf(before, k) !in i.v.available))
  }

  /** The reservation as last seen, at the response and at every tick; one for stream 0 is never looked at again. */
  predicate Reserves(inputs: seq<Input>, k: SinkKey)
    decreases |inputs|
  {
    && inputs != []
    && var n := |inputs| - 1;
       var before, i := inputs[..n], inputs[n];
       if Offered(before, i, k) then i.m.streamId in i.v.registered
       else if i.Tick? && StreamOf(before, k) != 0 then StreamOf(before, k) in i.v.registered
       else Reserves(before, k)
  }

  /** When the sink last obtained its stream or lost its reservation. */
  function UnreservedSince(inputs: seq<Input>, k: SinkKey): int
    decreases |inputs|
  {
    if inputs == [] then -SECOND
    else
      var n := |inputs| - 1;
      var before, i := inputs[..n], inputs[n];
      if Offered(before, i, k) || (i.Tick? && Reserves(before, k) && !Reserves(inputs, k)) then i.ts
      else UnreservedSince(before, k)
  }

  /** A tick more than ten seconds into the lack of a reservation. */
  predicate RunsOut(before: seq<Input>, i: Input, k: SinkKey) {
    && i.Tick? && !Reserves(before, k)
    && !(StreamOf(before, k) != 0 && StreamOf(before, k) in i.v.registered)
    && i.ts > UnreservedSince(before, k) + 10 * SECOND
  }

  /** A successful response stands: no other message, departure or lack of a reservation has ended that. */
  ghost predicate Settled(inputs: seq<Input>, k: SinkKey)
    decreases |inputs|
  {
    && inputs != []
    && var n := |inputs| - 1;
       var before, i := inputs[..n], inputs[n];
       || Offered(before, i, k)
       || (&& Settled(before, k) && !Interrupts(before, i, k)
           && !Leaves(before, i, k) && !RunsOut(before, i, k))
  }

  /** The state of a sink by what it has heard and seen. */
  ghost function Reading(inputs: seq<Input>, k: SinkKey): SinkState {
    if !Bound(inputs, k) then Unbound
    else if Away(inputs, k) then PrbWAvail
    else if Waits(inputs, k, false) then PrbWResp
    else if Waits(inputs, k, true) then PrbWResp2
    else if Retries(inputs, k) then PrbWRetry
    else if Settled(inputs, k) then if Reserves(inputs, k) then SettledRsvOk else SettledNoRsv
    else PrbWDelay
  }

  /** Each reading holds of exactly the state it describes. */
  ghost predicate Reads(inputs: seq<Input>, k: SinkKey, s: Sink) {
    && (s.state == PrbWAvail <==> Away(inputs, k))
    && (s.state == PrbWResp <==> Waits(inputs, k, false))
    && (s.state == PrbWResp2 <==> Waits(inputs, k, true))
    && (s.state == PrbWRetry <==> Retries(inputs, k))
    && (s.state == SettledNoRsv || s.state == SettledRsvOk <==> Settled(inputs, k))
    && (Settled(inputs, k) ==> (s.state == SettledRsvOk <==> Reserves(inputs, k)))
    && (s.state == SettledNoRsv ==> s.settledNoRsvTs == UnreservedSince(inputs, k))
  }

  /** A sink that knows what was said before the last input. */
  ghost predicate Informed(before: seq<Input>, k: SinkKey, s: Sink, known: bool) {
    && (s.state != Unbound <==> Bound(before, k))
    && s.boundTalker == TalkerOf(before, k) && s.streamId == StreamOf(before, k)
    && s.lastProbeTs == ProbedAt(before, k)
    && (s.talkerAvail <==> ThoughtThere(before, k)) && (s.state == PrbWAvail ==> !s.talkerAvail)
    && (known <==> Known(before, k)) && (!known ==> s == NO_SINK)
  }

  lemma HeardReads(inputs: seq<Input>, k: SinkKey, s: Sink, known: bool)
    requires inputs != [] && inputs[|inputs| - 1].Heard?
    requires var before := inputs[..|inputs| - 1]; Reads(before, k, s) && Informed(before, k, s, known)
    ensures var i := inputs[|inputs| - 1];
            Reads(inputs, k, if i.m.sink == k && (known || Creates(i.m)) then OnMessage(s, i.m, i.v, i.ts, i.n) else s)
  {
    hide OnMessage, Bound, Known, ThoughtThere, TalkerOf, StreamOf, ProbedAt;
    var i := inputs[|inputs| - 1];
    MessageTable(s, i.m, i.v, i.ts, i.n);
  }

  lemma TickReads(inputs: seq<Input>, k: SinkKey, s: Sink, known: bool)
    requires inputs != [] && inputs[|inputs| - 1].Tick?
    requires var before := inputs[..|inputs| - 1]; Reads(before, k, s) && Informed(before, k, s, known)
    ensures var i := inputs[|inputs| - 1]; Reads(inputs, k, OnTime(s, i.v, i.ts))
  {
    hide OnTime, Bound, Known, ThoughtThere, TalkerOf, StreamOf, ProbedAt;
    var i := inputs[|inputs| - 1];
    TickTable(s, i.v, i.ts);
  }

  lemma Informs(inputs: seq<Input>, k: SinkKey)
    ensures Informed(inputs, k, SinkAfter(inputs, k), k in Fold(CappedStep, map[], inputs))
  {
    hide CappedStep, Bound, Known, Naming, Offer, LastHeard, ThoughtThere, HowMany, Fold;
    BoundMeaning(inputs, k);
    BindingMeaning(inputs, k);
    StreamMeaning(inputs, k);
    ThoughtMeaning(inputs, k);
    KnownMeaning(inputs, k);
  }

  lemma NothingRead(k: SinkKey)
    ensures Reads([], k, NO_SINK)
  {
  }

  lemma {:induction false} RunReads(inputs: seq<Input>, k: SinkKey)
    ensures Reads(inputs, k, SinkAfter(inputs, k))
    decreases |inputs|
  {
    hide CappedStep, Reads, Informed, OnMessage, OnTime;
    if inputs == [] {
      NothingRead(k);
    } else {
      var n := |inputs| - 1;
      var before := inputs[..n];
      var s, known := SinkAfter(before, k), k in Fold(CappedStep, map[], before);
      RunReads(before, k);
      Informs(before, k);
      SinkStep(Fold(CappedStep, map[], before), inputs[n], k);
      if inputs[n].Heard? {
        HeardReads(inputs, k, s, known);
      } else {
        TickReads(inputs, k, s, known);
      }
    }
  }

  /** After any run the state of any sink is the one its inputs tell, whatever happened to other sinks. */
  lemma SinkStateMeaning(inputs: seq<Input>, k: SinkKey)
    ensures SinkAfter(inputs, k).state == Reading(inputs, k)
  {
    hide CappedStep, Bound, Away, Waits, Retries, Settled, Reserves, Fold;
    RunReads(inputs, k);
    BoundMeaning(inputs, k);
  }
}
