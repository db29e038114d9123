/** What the connection table shows, read off the messages and ticks: unanswered commands, states and stream
    parameters. */
module ConnectionMeaning {
  import opened Wrappers
  import opened History
  import opened Connections

  ghost function ConnAfter(inputs: seq<Input>, key: ConnKey): Conn {
    ConnOf(Fold(Step, NO_CONNS, inputs), key)
  }

  // ---- commands in flight ----

  /** The moment a command was sent, unless its response was heard, or a tick more than 200 milliseconds on, since. */
  function Unanswered(inputs: seq<Input>, cmd: Command): Option<int>
    decreases |inputs|
  {
    if inputs == [] then None
    else
      var n := |inputs| - 1;
      var sent := Unanswered(inputs[..n], cmd);
      match inputs[n]
      case Heard(m, ts, _) =>
        if m.key != cmd.key || m.seqId != cmd.seqId then sent
        else if m.msg == cmd.msg then Some(ts)
        else if m.msg == cmd.msg + 1 then None
        else sent
      case Tick(ts) => if sent.Some? && ts > sent.value + 200_000_000 then None else sent
  }

  /** The commands in flight are exactly the unanswered ones. */
  lemma {:induction false} InflightMeaning(inputs: seq<Input>, cmd: Command)
    requires cmd.msg % 2 == 0
    ensures var inflight := Fold(Step, NO_CONNS, inputs).inflight;
            Unanswered(inputs, cmd) == if cmd in inflight then Some(inflight[cmd]) else None
    decreases |inputs|
  {
    hide OnMessage, OnTime;
    if inputs != [] {
      InflightMeaning(inputs[..|inputs| - 1], cmd);
    }
  }

  lemma {:induction false} OnlyCommandsInflight(inputs: seq<Input>)
    ensures forall cmd :: cmd in Fold(Step, NO_CONNS, inputs).inflight ==> cmd.msg % 2 == 0
    decreases |inputs|
  {
    hide OnMessage, OnTime;
    if inputs != [] {
      OnlyCommandsInflight(inputs[..|inputs| - 1]);
    }
  }

  /** A tick comes too late for some unanswered command of the connection, to open it or to close it. */
  ghost predicate TimesOut(before: seq<Input>, i: Input, key: ConnKey, opening: bool) {
    i.Tick? && exists cmd :: TooLate(before, i.ts, cmd, key, opening)
  }

  ghost predicate TooLate(before: seq<Input>, ts: int, cmd: Command, key: ConnKey, opening: bool) {
    && cmd.key == key && (if opening then cmd.msg == 0 || cmd.msg == 6 else cmd.msg == 2 || cmd.msg == 8)
    && Unanswered(before, cmd).Some? && ts > Unanswered(before, cmd).value + 200_000_000
  }

  lemma TimesOutIs(before: seq<Input>, ts: int, key: ConnKey, opening: bool)
    ensures TimesOut(before, Tick(ts), key, opening) <==>
            ExpiredFor(Fold(Step, NO_CONNS, before).inflight, key, ts, opening)
  {
    hide Fold, Step, Unanswered;
    var inflight := Fold(Step, NO_CONNS, before).inflight;
    forall cmd: Command | cmd.msg % 2 == 0
      ensures Unanswered(before, cmd) == if cmd in inflight then Some(inflight[cmd]) else None
    {
      InflightMeaning(before, cmd);
    }
    if cmd :| TooLate(before, ts, cmd, key, opening) {
      assert cmd in inflight;
    }
    if cmd :| cmd in inflight && cmd.key == key && Overdue(inflight[cmd], ts) &&
              if opening then Opens(cmd) else Closes(cmd) {
      assert TooLate(before, ts, cmd, key, opening);
    }
  }

  // ---- states ----

  predicate Hears(i: Input, key: ConnKey, msgs: set<nat>) {
    i.Heard? && i.m.key == key && i.m.msg in msgs
  }

  predicate Good(i: Input, key: ConnKey, msgs: set<nat>) {
    Hears(i, key, msgs) && i.m.status == 0
  }

  predicate Bad(i: Input, key: ConnKey, msgs: set<nat>) {
    Hears(i, key, msgs) && i.m.status != 0
  }

  /** Every state by what the last input made of the one before: a command or a talker's consent opens an unconnected
      connection, a listener's consent connects, a refusal of either or an unanswered command fails, commands to close
      and their consent close, and a refusal to close connects. */
  lemma StateMeaning(inputs: seq<Input>, key: ConnKey)
    requires inputs != []
    ensures var n := |inputs| - 1;
            var i, was, now := inputs[n], ConnAfter(inputs[..n], key).state, ConnAfter(inputs, key).state;
            var late, lateClose := TimesOut(inputs[..n], i, key, true), TimesOut(inputs[..n], i, key, false);
            && (now == Connecting <==>
                  || ((Hears(i, key, {0, 6}) || Good(i, key, {1})) && was != Connected)
                  || (was == Connecting && !late && !Good(i, key, {3, 7, 9}) && !Bad(i, key, {1, 7})
                      && !Hears(i, key, {2, 8})))
            && (now == Connected <==>
                  || Good(i, key, {7})
                  || (Bad(i, key, {3, 9}) && was == Disconnecting)
                  || (was == Connected && !Bad(i, key, {1, 7}) && !Hears(i, key, {2, 8}) && !Good(i, key, {3, 9})))
            && (now == FailedConn <==>
                  || Bad(i, key, {1, 7})
                  || (was == Connecting && late)
                  || (was == FailedConn && !Hears(i, key, {0, 2, 6, 8}) && !Good(i, key, {1, 3, 7, 9})))
            && (now == Disconnecting <==>
                  || (Hears(i, key, {2, 8}) && was != Disconnected)
                  || (was == Disconnecting && !lateClose && !Hears(i, key, {0, 1, 3, 6, 7, 9})))
  {
    hide ExpiredFor, Unanswered, TimesOut;
    var n := |inputs| - 1;
    if inputs[n].Tick? {
      TimesOutIs(inputs[..n], inputs[n].ts, key, true);
      TimesOutIs(inputs[..n], inputs[n].ts, key, false);
    } else {
      assert !TimesOut(inputs[..n], inputs[n], key, true) && !TimesOut(inputs[..n], inputs[n], key, false) by {
        OnlyTicks(inputs[..n], inputs[n], key);
      }
    }
  }

  lemma OnlyTicks(before: seq<Input>, i: Input, key: ConnKey)
    ensures i.Heard? ==> !TimesOut(before, i, key, true) && !TimesOut(before, i, key, false)
  {
  }

  // ---- parameters ----

  /** The last message of the connection, and the last consent, which carries the stream. */
  function LastMessage(inputs: seq<Input>, key: ConnKey): Option<AcmpMessage>
    decreases |inputs|
  {
    if inputs == [] then None
    else
      var n := |inputs| - 1;
      if inputs[n].Heard? && inputs[n].m.key == key then Some(inputs[n].m) else LastMessage(inputs[..n], key)
  }

  function LastConsent(inputs: seq<Input>, key: ConnKey): Option<AcmpMessage>
    decreases |inputs|
  {
    if inputs == [] then None
    else
      var n := |inputs| - 1;
      if Good(inputs[n], key, {1, 7}) then Some(inputs[n].m) else LastConsent(inputs[..n], key)
  }

  lemma ParametersStep(a: AcmpState, i: Input, key: ConnKey)
    ensures var c, d := ConnOf(a, key), ConnOf(Step(a, i), key);
            && d.controller == (if i.Heard? && i.m.key == key then i.m.controller else c.controller)
            && (d.streamId, d.destMac, d.vlan) ==
               if Good(i, key, {1, 7}) then (i.m.streamId, i.m.destMac, i.m.vlan) else (c.streamId, c.destMac, c.vlan)
  {
    hide ExpiredFor, Correlate;
  }

  /** A connection shows its last message's controller and its last consent's stream. */
  lemma {:induction false} ParametersMeaning(inputs: seq<Input>, key: ConnKey)
    ensures var c := ConnAfter(inputs, key);
            && (match LastMessage(inputs, key)
                case None => c.controller == 0
                case Some(m) => c.controller == m.controller)
            && (match LastConsent(inputs, key)
                case None => c.streamId == 0 && c.destMac == 0 && c.vlan == 0
                case Some(m) => c.streamId == m.streamId && c.destMac == m.destMac && c.vlan == m.vlan)
    decreases |inputs|
  {
    hide Step, Good;
    if inputs != [] {
      var n := |inputs| - 1;
      ParametersMeaning(inputs[..n], key);
      ParametersStep(Fold(Step, NO_CONNS, inputs[..n]), inputs[n], key);
    }
  }

  /** The connection count is that of the last message that connected the listener or let it go: a listener's consent to
      connect, or to disconnect while it was not disconnected already. */
  lemma CountMeaning(inputs: seq<Input>, key: ConnKey)
    requires inputs != []
    ensures var n := |inputs| - 1; var i, was := inputs[n], ConnAfter(inputs[..n], key);
            ConnAfter(inputs, key).connCount ==
            if Good(i, key, {7}) || (Good(i, key, {9}) && was.state != Disconnected) then i.m.connCount
            else was.connCount
  {
    hide ExpiredFor, Correlate;
  }
}
