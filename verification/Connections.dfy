/** ACMP connections: command/response correlation, command timeouts and the connection state per stream pair. */
module Connections {
  import opened History

  const COMMAND_TIMEOUT := 200 * MILLISECOND

  datatype ConnState = Disconnected | Connecting | Connected | Disconnecting | FailedConn

  datatype ConnKey = ConnKey(talker: nat, talkerUid: nat, listener: nat, listenerUid: nat)

  datatype Conn = Conn(controller: nat, streamId: nat, destMac: nat, vlan: nat, connCount: nat,
                       state: ConnState, hist: seq<Entry<ConnState>>)

  const NO_CONN := Conn(0, 0, 0, 0, 0, Disconnected, [])

  datatype AcmpMessage = AcmpMessage(
    msg: nat, status: nat, key: ConnKey, controller: nat, seqId: nat,
    streamId: nat, destMac: nat, vlan: nat, connCount: nat)

  /** A command that has not been answered. */
  datatype Command = Command(msg: nat, seqId: nat, key: ConnKey)

  type Conns = map<ConnKey, Conn>
  type Inflight = map<Command, int>

  function Moved(c: Conn, to: ConnState, ts: int, n: nat): Conn {
    if c.state == to then c else c.(state := to, hist := c.hist + [Entry(ts, n, c.state, to)])
  }

  function WithStream(c: Conn, m: AcmpMessage): Conn {
    c.(streamId := m.streamId, destMac := m.destMac, vlan := m.vlan)
  }

  function OnMessage(was: Conn, m: AcmpMessage, ts: int, n: nat): Conn {
    var c := was.(controller := m.controller);
    match m.msg
    case 0 | 6 => if c.state != Connecting && c.state != Connected then Moved(c, Connecting, ts, n) else c
    case 1 =>
      if m.status != 0 then Moved(c, FailedConn, ts, n)
      else
        var s := WithStream(c, m);
        if c.state != Connected && c.state != Connecting then Moved(s, Connecting, ts, n) else s
    case 7 =>
      if m.status != 0 then Moved(c, FailedConn, ts, n)
      else Moved(WithStream(c, m).(connCount := m.connCount), Connected, ts, n)
    case 2 | 8 => if c.state != Disconnected then Moved(c, Disconnecting, ts, n) else c
    case 3 | 9 =>
      if m.status == 0 then
        if c.state != Disconnected
        then Moved(if m.msg == 9 then c.(connCount := m.connCount) else c, Disconnected, ts, n) else c
      else if c.state == Disconnecting then Moved(c, Connected, ts, n)
      else c
    case _ => c
  }

  // ---- command timeouts ----

  predicate Overdue(sent: int, ts: int) {
    ts > sent + COMMAND_TIMEOUT
  }

  predicate Opens(c: Command) {
    c.msg == 0 || c.msg == 6
  }

  predicate Closes(c: Command) {
    c.msg == 2 || c.msg == 8
  }

  /** What one expired command does to its connection. */
  function OnExpired(c: Conn, cmd: Command, ts: int): Conn {
    if Opens(cmd) && c.state == Connecting then Moved(c, FailedConn, ts, 0)
    else if Closes(cmd) && c.state == Disconnecting then Moved(c, Disconnected, ts, 0)
    else c
  }

  ghost predicate ExpiredFor(inflight: Inflight, key: ConnKey, ts: int, opening: bool) {
    exists cmd :: cmd in inflight && cmd.key == key && Overdue(inflight[cmd], ts) &&
                  if opening then Opens(cmd) else Closes(cmd)
  }

  /** The outcome of a tick for one connection, whatever the order its expired commands are walked in. */
  ghost function OnTime(c: Conn, inflight: Inflight, key: ConnKey, ts: int): Conn {
    if c.state == Connecting && ExpiredFor(inflight, key, ts, true) then Moved(c, FailedConn, ts, 0)
    else if c.state == Disconnecting && ExpiredFor(inflight, key, ts, false) then Moved(c, Disconnected, ts, 0)
    else c
  }

  datatype AcmpState = AcmpState(conns: Conns, inflight: Inflight)

  function Correlate(inflight: Inflight, m: AcmpMessage, ts: int): Inflight {
    if m.msg % 2 == 0 then inflight[Command(m.msg, m.seqId, m.key) := ts]
    else inflight - {Command(m.msg - 1, m.seqId, m.key)}
  }

  function OnAcmp(a: AcmpState, m: AcmpMessage, ts: int, n: nat): AcmpState {
    var c := if m.key in a.conns then a.conns[m.key] else NO_CONN;
    AcmpState(a.conns[m.key := OnMessage(c, m, ts, n)], Correlate(a.inflight, m, ts))
  }

  ghost function OnAcmpTime(a: AcmpState, ts: int): AcmpState {
    AcmpState(map k | k in a.conns :: OnTime(a.conns[k], a.inflight, k, ts),
              map c | c in a.inflight && !Overdue(a.inflight[c], ts) :: a.inflight[c])
  }

  /** Every command in flight belongs to a known connection. */
  ghost predicate Known(a: AcmpState) {
    forall c :: c in a.inflight ==> c.key in a.conns
  }

  class ConnectionLogic {
    var conns: Conns
    var inflight: Inflight

    function State(): AcmpState
      reads this
    {
      AcmpState(conns, inflight)
    }

    ghost predicate Valid()
      reads this
    {
      Known(State())
    }

    constructor ()
      ensures Valid() && State() == NO_CONNS
    {
      conns, inflight := map[], map[];
    }

    method Transition(key: ConnKey, to: ConnState, ts: int, n: nat)
      requires key in conns
      modifies `conns
      ensures conns == old(conns)[key := Moved(old(conns)[key], to, ts, n)]
    {
      var c := conns[key];
      if c.state == to {
        assert conns == conns[key := c];
        return;
      }
      conns := conns[key := c.(state := to, hist := c.hist + [Entry(ts, n, c.state, to)])];
    }

    method OnDecode(m: AcmpMessage, ts: int, n: nat)
      requires Valid()
      modifies this
      ensures Valid() && State() == OnAcmp(old(State()), m, ts, n)
    {
      hide OnMessage, Moved, Known;
      MessageKnown(State(), m, ts, n);
      if m.msg % 2 == 0 {
        inflight := inflight[Command(m.msg, m.seqId, m.key) := ts];
      } else {
        inflight := inflight - {Command(m.msg - 1, m.seqId, m.key)};
      }
      Advance(m, ts, n);
    }

    /** The connection's own reaction, with its record held by reference in the source. */
    method Advance(m: AcmpMessage, ts: int, n: nat)
      modifies `conns
      ensures var was := if m.key in old(conns) then old(conns)[m.key] else NO_CONN;
              conns == old(conns)[m.key := OnMessage(was, m, ts, n)]
    {
      hide Moved;
      var c := (if m.key in conns then conns[m.key] else NO_CONN).(controller := m.controller);
      if m.msg == 0 || m.msg == 6 {
        if c.state != Connecting && c.state != Connected {
          c := Moved(c, Connecting, ts, n);
        }
      } else if m.msg == 1 {
        if m.status == 0 {
          c := WithStream(c, m);
          if c.state != Connected && c.state != Connecting {
            c := Moved(c, Connecting, ts, n);
          }
        } else {
          c := Moved(c, FailedConn, ts, n);
        }
      } else if m.msg == 7 {
        if m.status == 0 {
          c := WithStream(c, m).(connCount := m.connCount);
          c := Moved(c, Connected, ts, n);
        } else {
          c := Moved(c, FailedConn, ts, n);
        }
      } else if m.msg == 2 || m.msg == 8 {
        if c.state != Disconnected {
          c := Moved(c, Disconnecting, ts, n);
        }
      } else if m.msg == 3 || m.msg == 9 {
        if m.status == 0 {
          if c.state != Disconnected {
            if m.msg == 9 {
              c := c.(connCount := m.connCount);
            }
            c := Moved(c, Disconnected, ts, n);
          }
        } else if c.state == Disconnecting {
          c := Moved(c, Connected, ts, n);
        }
      }
      conns := conns[m.key := c];
    }

    /** The expired commands are dropped one by one; the result does not depend on the order. */
    method OnTimeTick(ts: int)
      requires Valid()
      modifies this
      ensures Valid() && State() == OnAcmpTime(old(State()), ts)
    {
      hide OnTime, OnExpired, Overdue;
      var todo := inflight.Keys;
      assert old(inflight) - todo == map[];
      NoneExpired(conns, ts);
      while todo != {}
        invariant todo <= inflight.Keys <= old(inflight).Keys && conns.Keys == old(conns).Keys
        invariant forall c :: c in old(inflight) ==>
                    (c in inflight <==> c in todo || !Overdue(old(inflight)[c], ts))
        invariant forall c :: c in inflight ==> inflight[c] == old(inflight)[c]
        invariant forall k :: k in conns ==> conns[k] == OnTime(old(conns)[k], old(inflight) - todo, k, ts)
        decreases todo
      {
        var cmd :| cmd in todo;
        ghost var was, now, sent := old(inflight) - todo, old(inflight) - (todo - {cmd}), old(inflight)[cmd];
        assert now == was[cmd := sent];
        OneMoreForAll(old(conns), was, now, cmd, sent, ts);
        todo := todo - {cmd};
        Visit(cmd, ts);
      }
      assert old(inflight) - todo == old(inflight);
      assert inflight == map c | c in old(inflight) && !Overdue(old(inflight)[c], ts) :: old(inflight)[c];
    }

    /** One turn of the loop. */
    method Visit(cmd: Command, ts: int)
      requires cmd in inflight && cmd.key in conns
      modifies this
      ensures inflight == if Overdue(old(inflight)[cmd], ts) then old(inflight) - {cmd} else old(inflight)
      ensures conns == old(conns)[cmd.key :=
                         if Overdue(old(inflight)[cmd], ts) then OnExpired(old(conns)[cmd.key], cmd, ts)
                         else old(conns)[cmd.key]]
    {
      if Overdue(inflight[cmd], ts) {
        Expire(cmd, ts);
        inflight := inflight - {cmd};
      } else {
        assert conns == conns[cmd.key := conns[cmd.key]];
      }
    }

    method Expire(cmd: Command, ts: int)
      requires cmd.key in conns
      modifies `conns
      ensures conns == old(conns)[cmd.key := OnExpired(old(conns)[cmd.key], cmd, ts)]
    {
      var c := conns[cmd.key];
      if cmd.msg == 0 || cmd.msg == 6 {
        if c.state == Connecting {
          Transition(cmd.key, FailedConn, ts, 0);
          return;
        }
      } else if cmd.msg == 2 || cmd.msg == 8 {
        if c.state == Disconnecting {
          Transition(cmd.key, Disconnected, ts, 0);
          return;
        }
      }
      assert conns == conns[cmd.key := c];
    }
  }

  /** Walking one more command extends the outcome by that command's effect. */
  lemma OneMoreExpired(c: Conn, was: Inflight, now: Inflight, cmd: Command, sent: int, key: ConnKey, ts: int)
    requires cmd !in was && now == was[cmd := sent]
    ensures OnTime(c, now, key, ts)
         == if key == cmd.key && Overdue(sent, ts) then OnExpired(OnTime(c, was, key, ts), cmd, ts)
            else OnTime(c, was, key, ts)
  {
    forall opening: bool
      ensures ExpiredFor(now, key, ts, opening) <==>
                ExpiredFor(was, key, ts, opening) ||
                (key == cmd.key && Overdue(sent, ts) && if opening then Opens(cmd) else Closes(cmd))
    {
      if ExpiredFor(was, key, ts, opening) {
        var x :| x in was && x.key == key && Overdue(was[x], ts) && if opening then Opens(x) else Closes(x);
        assert x in now && now[x] == was[x];
      }
      if key == cmd.key && Overdue(sent, ts) && (if opening then Opens(cmd) else Closes(cmd)) {
        assert cmd in now && now[cmd] == sent;
      }
    }
  }

  lemma OneMoreForAll(conns: Conns, was: Inflight, now: Inflight, cmd: Command, sent: int, ts: int)
    requires cmd !in was && now == was[cmd := sent]
    ensures forall k :: k in conns ==>
              OnTime(conns[k], now, k, ts) ==
                if k == cmd.key && Overdue(sent, ts) then OnExpired(OnTime(conns[k], was, k, ts), cmd, ts)
                else OnTime(conns[k], was, k, ts)
  {
    hide OnTime, OnExpired, Overdue;
    forall k | k in conns
      ensures OnTime(conns[k], now, k, ts)
           == if k == cmd.key && Overdue(sent, ts) then OnExpired(OnTime(conns[k], was, k, ts), cmd, ts)
              else OnTime(conns[k], was, k, ts)
    {
      OneMoreExpired(conns[k], was, now, cmd, sent, k, ts);
    }
  }

  lemma NoneExpired(conns: Conns, ts: int)
    ensures forall k :: k in conns ==> OnTime(conns[k], map[], k, ts) == conns[k]
  {
  }

  // ---- runs ----

  lemma MessageKnown(a: AcmpState, m: AcmpMessage, ts: int, n: nat)
    requires Known(a)
    ensures Known(OnAcmp(a, m, ts, n))
  {
  }

  /** After a tick no command is overdue, and no connection waits on one that expired. */
  lemma NothingOverdue(a: AcmpState, ts: int)
    requires Known(a)
    ensures Known(OnAcmpTime(a, ts))
    ensures forall c :: c in OnAcmpTime(a, ts).inflight ==> !Overdue(OnAcmpTime(a, ts).inflight[c], ts)
    ensures forall k :: k in a.conns && OnAcmpTime(a, ts).conns[k].state == Connecting ==>
              !ExpiredFor(a.inflight, k, ts, true)
    ensures forall k :: k in a.conns && OnAcmpTime(a, ts).conns[k].state == Disconnecting ==>
              !ExpiredFor(a.inflight, k, ts, false)
  {
    hide ExpiredFor;
  }

  // ---- replay ----

  datatype Input = Heard(m: AcmpMessage, ts: int, n: nat) | Tick(ts: int)

  ghost function Step(a: AcmpState, i: Input): AcmpState {
    match i
    case Heard(m, ts, n) => OnAcmp(a, m, ts, n)
    case Tick(ts) => OnAcmpTime(a, ts)
  }

  /** The connection as the client knows it; one never spoken of is disconnected. */
  function ConnOf(a: AcmpState, key: ConnKey): Conn {
    if key in a.conns then a.conns[key] else NO_CONN
  }

  lemma MovedRecords(c: Conn, to: ConnState, ts: int, n: nat)
    ensures var f := Moved(c, to, ts, n);
            && c.hist <= f.hist && (forall k :: |c.hist| <= k < |f.hist| ==> f.hist[k].ts == ts && f.hist[k].n == n)
            && (Spans(c.hist, Disconnected, c.state) ==> Spans(f.hist, Disconnected, f.state))
  {
    if Spans(c.hist, Disconnected, c.state) {
      AppendSpans(c.hist, Entry(ts, n, c.state, to), Disconnected);
    }
  }

  /** Recorded at the time and under the number of the input; a tick has none. */
  predicate Stamped(e: Entry<ConnState>, i: Input) {
    e.ts == i.ts && e.n == if i.Heard? then i.n else 0
  }

  /** An input only appends, under its own time and number, entries that lead from state to state. */
  lemma StepRecords(a: AcmpState, i: Input, key: ConnKey)
    ensures var c, f := ConnOf(a, key), ConnOf(Step(a, i), key);
            && c.hist <= f.hist && (forall k :: |c.hist| <= k < |f.hist| ==> Stamped(f.hist[k], i))
            && (Spans(c.hist, Disconnected, c.state) ==> Spans(f.hist, Disconnected, f.state))
  {
    hide Spans, ExpiredFor, Moved;
    var c := ConnOf(a, key);
    forall to: ConnState, n: nat, d: Conn | d.hist == c.hist && d.state == c.state
      ensures var f := Moved(d, to, i.ts, n);
              && c.hist <= f.hist && (forall k :: |c.hist| <= k < |f.hist| ==> f.hist[k].ts == i.ts && f.hist[k].n == n)
              && (Spans(c.hist, Disconnected, c.state) ==> Spans(f.hist, Disconnected, f.state))
    {
      MovedRecords(d, to, i.ts, n);
    }
  }

  /** For time-ordered input, the replayed history of any connection shows its state at any cursor time. */
  lemma ConnectionReplay(inputs: seq<Input>, key: ConnKey, t: int)
    requires TimeOrdered(inputs, (i: Input) => i.ts)
    ensures var f := ConnOf(Fold(Step, NO_CONNS, inputs), key);
            var past := inputs[..Processed(inputs, (i: Input) => i.ts, t)];
            LiveAt(f.hist, f.state, t) == ConnOf(Fold(Step, NO_CONNS, past), key).state
  {
    hide Spans, Step, Fold, ConnOf;
    var hist, state := (a: AcmpState) => ConnOf(a, key).hist, (a: AcmpState) => ConnOf(a, key).state;
    var time := (i: Input) => i.ts;
    forall a: AcmpState, i: Input
      ensures hist(a) <= hist(Step(a, i))
      ensures forall k :: |hist(a)| <= k < |hist(Step(a, i))| ==> hist(Step(a, i))[k].ts == i.ts
      ensures Spans(hist(a), Disconnected, state(a)) ==> Spans(hist(Step(a, i)), Disconnected, state(Step(a, i)))
    {
      StepRecords(a, i, key);
    }
    assert Records(Step, hist, state, time, Disconnected);
    NothingYet(key);
    ReplayIsState(Step, hist, state, time, Disconnected, NO_CONNS, inputs, t);
  }

  lemma NothingYet(key: ConnKey)
    ensures ConnOf(NO_CONNS, key) == NO_CONN
  {
  }

  /** What makes a connection CONNECTED, and what ends that; no timeout does either. */
  lemma ConnectedChanges(a: AcmpState, i: Input, key: ConnKey)
    ensures var was, now := ConnOf(a, key).state, ConnOf(Step(a, i), key).state;
            && (was != Connected && now == Connected <==>
                  i.Heard? && i.m.key == key && was != Connected &&
                  ((i.m.msg == 7 && i.m.status == 0) ||
                   ((i.m.msg == 3 || i.m.msg == 9) && i.m.status != 0 && was == Disconnecting)))
            && (was == Connected && now != Connected <==>
                  i.Heard? && i.m.key == key && was == Connected &&
                  (((i.m.msg == 1 || i.m.msg == 7) && i.m.status != 0) || i.m.msg == 2 || i.m.msg == 8 ||
                   ((i.m.msg == 3 || i.m.msg == 9) && i.m.status == 0)))
  {
    hide ExpiredFor;
  }

  const NO_CONNS := AcmpState(map[], map[])

  ghost function StateAfter(inputs: seq<Input>, key: ConnKey): ConnState {
    ConnOf(Fold(Step, NO_CONNS, inputs), key).state
  }

  predicate Confirms(i: Input, key: ConnKey) {
    i.Heard? && i.m.key == key && i.m.msg == 7 && i.m.status == 0
  }

  predicate Rejects(i: Input, key: ConnKey) {
    i.Heard? && i.m.key == key && (i.m.msg == 3 || i.m.msg == 9) && i.m.status != 0
  }

  predicate Ends(i: Input, key: ConnKey) {
    i.Heard? && i.m.key == key &&
    (((i.m.msg == 1 || i.m.msg == 7) && i.m.status != 0) || i.m.msg == 2 || i.m.msg == 8 ||
     ((i.m.msg == 3 || i.m.msg == 9) && i.m.status == 0))
  }

  /** A confirmation, or the rejection of a disconnect that is under way, that nothing has ended since. */
  ghost predicate Stands(inputs: seq<Input>, key: ConnKey, k: int) {
    && 0 <= k < |inputs|
    && (Confirms(inputs[k], key) || (Rejects(inputs[k], key) && StateAfter(inputs[..k], key) == Disconnecting))
    && forall j :: k < j < |inputs| ==> !Ends(inputs[j], key)
  }

  /** A connection is CONNECTED exactly while a confirmation or a rejected disconnect stands. */
  lemma {:induction false} ConnectedMeaning(inputs: seq<Input>, key: ConnKey)
    ensures StateAfter(inputs, key) == Connected <==> exists k :: Stands(inputs, key, k)
    decreases |inputs|
  {
    hide Step, ConnOf;
    if inputs == [] {
      NothingYet(key);
    } else {
      var n := |inputs| - 1;
      var before, i := inputs[..n], inputs[n];
      ConnectedMeaning(before, key);
      ConnectedChanges(Fold(Step, NO_CONNS, before), i, key);
      forall k
        ensures Stands(inputs, key, k) <==>
                  || (k == n && (Confirms(i, key) || (Rejects(i, key) && StateAfter(before, key) == Disconnecting)))
                  || (Stands(before, key, k) && !Ends(i, key))
      {
        StandsStep(inputs, key, k);
      }
      if k :| Stands(before, key, k) {
        assert !Ends(i, key) ==> Stands(inputs, key, k);
      }
      assert Stands(inputs, key, n) <==>
             Confirms(i, key) || (Rejects(i, key) && StateAfter(before, key) == Disconnecting);
    }
  }

  lemma StandsStep(inputs: seq<Input>, key: ConnKey, k: int)
    requires inputs != []
    ensures var n := |inputs| - 1; var before, i := inputs[..n], inputs[n];
            Stands(inputs, key, k) <==>
              || (k == n && (Confirms(i, key) || (Rejects(i, key) && StateAfter(before, key) == Disconnecting)))
              || (Stands(before, key, k) && !Ends(i, key))
  {
    hide StateAfter, Confirms, Rejects, Ends;
    var n := |inputs| - 1;
    var before := inputs[..n];
    assert forall j :: 0 <= j < n ==> before[j] == inputs[j];
    assert 0 <= k < n ==> before[..k] == inputs[..k];
  }

  /** A connect command, a disconnect command and its rejection make a connection CONNECTED that nothing ever
      confirmed. */
  lemma RejectedDisconnectConnects(open: AcmpMessage, close: AcmpMessage, reject: AcmpMessage, ts: int)
    requires open.msg == 6 && close.msg == 8 && reject.msg == 9 && reject.status != 0
    requires close.key == open.key == reject.key
    ensures var run := [Heard(open, ts, 1), Heard(close, ts, 2), Heard(reject, ts, 3)];
            StateAfter(run, open.key) == Connected && forall i :: i in run ==> !Confirms(i, open.key)
  {
    hide ExpiredFor, Fold;
    FoldThree(Heard(open, ts, 1), Heard(close, ts, 2), Heard(reject, ts, 3));
    var a := Step(NO_CONNS, Heard(open, ts, 1));
    assert ConnOf(a, open.key).state == Connecting;
    var b := Step(a, Heard(close, ts, 2));
    assert ConnOf(b, open.key).state == Disconnecting;
  }

  lemma FoldThree(x: Input, y: Input, z: Input)
    ensures Fold(Step, NO_CONNS, [x, y, z]) == Step(Step(Step(NO_CONNS, x), y), z)
  {
    hide Step;
    assert [x, y, z][..2] == [x, y] && [x, y][..1] == [x] && [x][..0] == [];
    assert Fold(Step, NO_CONNS, [x, y]) == Step(Fold(Step, NO_CONNS, [x]), y);
  }
}
