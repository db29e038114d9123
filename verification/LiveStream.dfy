/** The analyzer filling the event log while a reader streams it: one shared log, one lock, one status word. */
module LiveStream {
  import opened Sessions

  const BATCH := 500

  /** What a client receives. */
  datatype Message<E> = Batch(events: seq<E>) | Progress(sent: nat) | Complete(total: nat) | Failed

  /** Where the reader's loop stands; the lock is held in `Locked` and `SawStatus`. */
  datatype Reader<E> =
    | Idle
    | Locked
    | SawStatus(st: Status)
    | Snapped(st: Status, chunk: seq<E>)
    | Closed

  datatype World<E> = World(
    future: seq<E>,        // events the analyzer has yet to produce
    pending: seq<E>,       // its unflushed batch
    log: seq<E>,           // the shared event log
    status: Status,
    reader: Reader<E>,
    sent: nat,
    received: seq<Message<E>>)

  function Start<E>(all: seq<E>): World<E> {
    World(all, [], [], Running, Idle, 0, [])
  }

  predicate LockHeld<E>(w: World<E>) {
    w.reader.Locked? || w.reader.SawStatus?
  }

  datatype Step =
    | Produce | Flush | Finish | Fail                                     // analyzer
    | Lock | ReadStatus | Snapshot | Send | Report | Wait | Nudge | Drop   // reader

  /** One atomic step; a step that is not enabled leaves the world alone. */
  function Next<E>(w: World<E>, step: Step): World<E> {
    match step
    case Produce =>
      if w.status.Running? && w.future != []
      then w.(future := w.future[1..], pending := w.pending + [w.future[0]]) else w
    case Flush => // needs the lock exclusively
      if w.pending != [] && !LockHeld(w) then w.(log := w.log + w.pending, pending := []) else w
    case Finish => // the status is stored without the lock, after the last flush
      if w.status.Running? && w.future == [] && w.pending == [] then w.(status := Done) else w
    case Fail => // a capture that cannot be opened fails before any event
      if w.status.Running? && w.log == [] && w.pending == [] then w.(status := Error, future := []) else w
    case Lock => if w.reader.Idle? then w.(reader := Locked) else w
    case ReadStatus => if w.reader.Locked? then w.(reader := SawStatus(w.status)) else w
    case Snapshot => // chunk, new position, unlock
      if w.reader.SawStatus? then
        var end := if w.sent + BATCH < |w.log| then w.sent + BATCH else |w.log|;
        if w.sent < |w.log| then w.(reader := Snapped(w.reader.st, w.log[w.sent..end]), sent := end)
        else w.(reader := Snapped(w.reader.st, []))
      else w
    case Send =>
      if w.reader.Snapped? && w.reader.chunk != []
      then w.(reader := Idle, received := w.received + [Batch(w.reader.chunk)]) else w
    case Report =>
      if w.reader.Snapped? && w.reader.chunk == [] && !w.reader.st.Running?
      then
        w.(reader := Closed, received := w.received + [if w.reader.st.Error? then Failed else Complete(w.sent)])
      else w
    case Wait =>
      if w.reader.Snapped? && w.reader.chunk == [] && w.reader.st.Running? then w.(reader := Idle) else w
    case Nudge =>
      if w.reader.Snapped? && w.reader.chunk == [] && w.reader.st.Running?
      then w.(received := w.received + [Progress(w.sent)]) else w
    case Drop => // the client goes away or the server stops
      if w.reader.Closed? || LockHeld(w) then w else w.(reader := Closed)
  }

  /** From taking the lock to giving it back with the snapshot the reader sees one log: nothing but that snapshot,
      and no flush, moves the log or the reader's place in it. */
  lemma LockedLogStands<E>(w: World<E>, step: Step)
    requires w.reader == Locked || w.reader.SawStatus?
    ensures Next(w, step).log == w.log
    ensures !step.Snapshot? ==> Next(w, step).sent == w.sent && Next(w, step).received == w.received
    ensures !step.Snapshot? ==>
              Next(w, step).reader == w.reader || (step.ReadStatus? && Next(w, step).reader.SawStatus?)
  {
  }

  function Run<E>(w: World<E>, steps: seq<Step>): World<E>
    decreases |steps|
  {
    if steps == [] then w else Run(Next(w, steps[0]), steps[1..])
  }

  function Delivered<E>(ms: seq<Message<E>>): seq<E> {
    if ms == [] then []
    else Delivered(ms[..|ms| - 1]) + match ms[|ms| - 1] case Batch(events) => events case _ => []
  }

  function Chunk<E>(r: Reader<E>): seq<E> {
    if r.Snapped? then r.chunk else []
  }

  /** The final log, unless the session failed. */
  ghost predicate Whole<E>(w: World<E>, all: seq<E>) {
    if w.status.Error? then w.log == [] && w.pending == [] && w.future == []
    else w.log + w.pending + w.future == all
  }

  ghost predicate Settled<E>(w: World<E>, st: Status) {
    st == w.status && (st.Done? ==> w.pending == [] && w.future == [])
  }

  ghost predicate LastWord<E>(w: World<E>, all: seq<E>) {
    forall k :: 0 <= k < |w.received| ==>
      match w.received[k]
      case Batch(events) => 0 < |events| <= BATCH
      case Complete(total) =>
        k == |w.received| - 1 && w.reader.Closed? && w.status.Done? && Delivered(w.received) == all && total == |all|
      case Failed => k == |w.received| - 1 && w.reader.Closed? && w.status.Error?
      case Progress(n) => true
  }

  ghost predicate Inv<E>(w: World<E>, all: seq<E>) {
    && Whole(w, all)
    && (w.status.Done? ==> Settled(w, Done))
    && w.sent <= |w.log|
    // unless the connection dropped, what was delivered is exactly the first `sent` events
    && (!w.reader.Closed? ==> Delivered(w.received) + Chunk(w.reader) == w.log[..w.sent])
    && Delivered(w.received) <= w.log[..w.sent]
    && (w.reader.SawStatus? && !w.reader.st.Running? ==> Settled(w, w.reader.st))
    && (w.reader.Snapped? && !w.reader.st.Running? ==>
          Settled(w, w.reader.st) && (w.reader.chunk == [] ==> w.sent == |w.log|))
    && (w.reader.Snapped? ==> |w.reader.chunk| <= BATCH)
    && LastWord(w, all)
  }

  lemma DeliveredSnoc<E>(ms: seq<Message<E>>, m: Message<E>)
    ensures Delivered(ms + [m]) == Delivered(ms) + if m.Batch? then m.events else []
  {
    assert (ms + [m])[..|ms|] == ms;
    assert Delivered(ms) + [] == Delivered(ms);
  }

  lemma AnalyzerKeeps<E>(w: World<E>, step: Step, all: seq<E>)
    requires Inv(w, all) && (step.Produce? || step.Flush? || step.Finish? || step.Fail?)
    ensures Inv(Next(w, step), all)
  {
    hide Delivered;
    var v := Next(w, step);
    assert v.log[..w.sent] == w.log[..w.sent];
    match step
    case Produce =>
      if w.future != [] {
        assert w.future == [w.future[0]] + w.future[1..];
        assert w.log + (w.pending + [w.future[0]]) + w.future[1..] == w.log + w.pending + w.future;
      }
    case Flush =>
      assert w.log + w.pending + [] == w.log + w.pending;
    case Finish =>
    case Fail =>
  }

  lemma ReaderKeeps<E>(w: World<E>, step: Step, all: seq<E>)
    requires Inv(w, all) && (step.Lock? || step.ReadStatus? || step.Snapshot? || step.Wait? || step.Drop?)
    ensures Inv(Next(w, step), all)
  {
    hide Delivered;
    var v := Next(w, step);
    var d := Delivered(w.received);
    assert d + [] == d;
    if step.Snapshot? && w.reader.SawStatus? {
      assert w.log[..w.sent] <= w.log[..v.sent];
      assert w.log[..w.sent] + v.reader.chunk == w.log[..v.sent];
    }
  }

  lemma SenderKeeps<E>(w: World<E>, step: Step, all: seq<E>)
    requires Inv(w, all) && (step.Send? || step.Report? || step.Nudge?)
    ensures Inv(Next(w, step), all)
  {
    hide Delivered;
    var v := Next(w, step);
    if v != w {
      var m := v.received[|w.received|];
      DeliveredSnoc(w.received, m);
      assert Delivered(w.received) + [] == Delivered(w.received);
      assert w.log + [] + [] == w.log && w.log[..|w.log|] == w.log;
      assert w.log[..w.sent][..w.sent] == w.log[..w.sent];
    }
  }

  lemma StartInv<E>(all: seq<E>)
    ensures Inv(Start(all), all)
  {
    assert [] + [] + all == all;
  }

  lemma {:induction false} RunInv<E>(w: World<E>, steps: seq<Step>, all: seq<E>)
    requires Inv(w, all)
    ensures Inv(Run(w, steps), all)
    decreases |steps|
  {
    hide Inv, Next;
    if steps != [] {
      match steps[0] {
        case Produce | Flush | Finish | Fail => AnalyzerKeeps(w, steps[0], all);
        case Lock | ReadStatus | Snapshot | Wait | Drop => ReaderKeeps(w, steps[0], all);
        case Send | Report | Nudge => SenderKeeps(w, steps[0], all);
      }
      RunInv(Next(w, steps[0]), steps[1..], all);
    }
  }

  /** Under every interleaving: what a client has is a prefix of the final log in non-empty batches of at most 500;
      `complete` comes at most once, last, only when the whole log has been delivered, and counts it. */
  lemma ExactlyOnce<E>(all: seq<E>, steps: seq<Step>)
    ensures var w := Run(Start(all), steps);
            && Delivered(w.received) <= (if w.status.Error? then [] else all)
            && forall k :: 0 <= k < |w.received| ==>
                 match w.received[k]
                 case Batch(events) => 0 < |events| <= BATCH
                 case Complete(total) => k == |w.received| - 1 && Delivered(w.received) == all && total == |all|
                 case Failed => k == |w.received| - 1 && w.status.Error? && Delivered(w.received) == []
                 case Progress(n) => true
  {
    hide Run, Delivered, Start;
    StartInv(all);
    RunInv(Start(all), steps, all);
    var w := Run(Start(all), steps);
    assert w.log[..w.sent] <= w.log;
  }

  // ---- nothing is left behind: once the analyzer is done, the reader's own steps deliver the rest ----

  const ROUND := [Lock, ReadStatus, Snapshot, Send]
  const LAST_ROUND := [Lock, ReadStatus, Snapshot, Report]

  lemma RunFour<E>(w: World<E>, a: Step, b: Step, c: Step, d: Step)
    ensures Run(w, [a, b, c, d]) == Next(Next(Next(Next(w, a), b), c), d)
  {
    hide Next;
    assert [a, b, c, d][1..] == [b, c, d] && [b, c, d][1..] == [c, d] && [c, d][1..] == [d] && [d][1..] == [];
    assert Run(w, [a, b, c, d]) == Run(Next(w, a), [b, c, d]);
    assert Run(Next(w, a), [b, c, d]) == Run(Next(Next(w, a), b), [c, d]);
    assert Run(Next(Next(w, a), b), [c, d]) == Run(Next(Next(Next(w, a), b), c), [d]);
    assert Run(Next(Next(Next(w, a), b), c), [d]) == Next(Next(Next(Next(w, a), b), c), d);
  }

  lemma {:induction false} RunAppend<E>(w: World<E>, a: seq<Step>, b: seq<Step>)
    ensures Run(w, a + b) == Run(Run(w, a), b)
    decreases |a|
  {
    hide Next;
    if a == [] {
      assert [] + b == b;
    } else {
      assert (a + b)[1..] == a[1..] + b;
      RunAppend(Next(w, a[0]), a[1..], b);
    }
  }

  /** From any point where the reader is about to look again, it reaches `complete` by itself. */
  lemma {:induction false} DrainsToComplete<E>(w: World<E>, all: seq<E>) returns (steps: seq<Step>)
    requires Inv(w, all) && w.status.Done? && w.reader.Idle?
    ensures var v := Run(w, steps); v.received != [] && v.received[|v.received| - 1] == Complete(|all|)
    decreases |w.log| - w.sent
  {
    hide Delivered;
    assert w.log + [] + [] == w.log;
    if w.sent == |w.log| {
      steps := LAST_ROUND;
      RunFour(w, Lock, ReadStatus, Snapshot, Report);
    } else {
      RunFour(w, Lock, ReadStatus, Snapshot, Send);
      var v := Run(w, ROUND);
      RunInv(w, ROUND, all);
      var rest := DrainsToComplete(v, all);
      RunAppend(w, ROUND, rest);
      steps := ROUND + rest;
    }
  }

  // ---- the reader's critical section in the server ----

  /** One turn of the streaming loop under the shared lock: status first, then at most 500 events. */
  method TakeChunk<E>(s: Session<E>, sent: nat) returns (st: Status, chunk: seq<E>, next: nat)
    requires sent <= |s.events|
    ensures st == s.status && next == sent + |chunk| <= |s.events|
    ensures chunk == s.events[sent..next] && |chunk| <= BATCH
    ensures |chunk| < BATCH ==> next == |s.events|
  {
    st := s.status;
    var avail := |s.events|;
    chunk, next := [], sent;
    if sent < avail {
      var end := if sent + BATCH < avail then sent + BATCH else avail;
      chunk := s.events[sent..end];
      next := end;
    }
  }

  /** The state machine's snapshot is this method, with the status read just before: the word only says Done of a log
      that is whole already. */
  lemma SnapshotIsTakeChunk<E>(w: World<E>, all: seq<E>)
    requires Inv(w, all) && w.reader.SawStatus?
    ensures var v := Next(w, Snapshot);
            && v.reader.Snapped? && v.sent == w.sent + |v.reader.chunk| <= |w.log|
            && v.reader.chunk == w.log[w.sent..v.sent] && |v.reader.chunk| <= BATCH
            && (|v.reader.chunk| < BATCH ==> v.sent == |w.log|)
            && v.reader.st == w.reader.st && (v.reader.st.Done? ==> w.log == all)
  {
    hide Delivered, LastWord;
    assert w.log + [] + [] == w.log;
  }
}
