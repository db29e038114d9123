/** Recorded state histories, and the front end's replay of them up to a cursor time. */
module History {
  import opened Wrappers

  /** Times are integer nanoseconds of capture time. */
  const SECOND := 1_000_000_000
  const MILLISECOND := 1_000_000

  datatype Entry<+S> = Entry(ts: int, n: nat, from: S, to: S)

  /** Append, dropping the oldest entry beyond the cap. */
  function Push<T>(h: seq<T>, e: T, cap: nat): (r: seq<T>)
    requires cap > 0
    ensures |h| <= cap ==> |r| <= cap
  {
    var grown := h + [e];
    if |grown| > cap then grown[1..] else grown
  }

  /** The newest `cap` entries. */
  function Newest<T>(h: seq<T>, cap: nat): seq<T> {
    if |h| > cap then h[|h| - cap..] else h
  }

  /** Pushing entry by entry keeps exactly the newest ones of everything ever pushed. */
  lemma PushNewest<T>(all: seq<T>, e: T, cap: nat)
    requires cap > 0
    ensures Push(Newest(all, cap), e, cap) == Newest(all + [e], cap)
  {
  }

  ghost predicate Chain<S(!new)>(h: seq<Entry<S>>) {
    forall i :: 0 <= i < |h| - 1 ==> h[i].to == h[i + 1].from
  }

  /** A history that leads to state `s`: consecutive entries join and the last one arrives there. */
  ghost predicate LeadsTo<S(!new)>(h: seq<Entry<S>>, s: S) {
    Chain(h) && (h != [] ==> h[|h| - 1].to == s)
  }

  /** The same from the state an object has before anything is recorded. */
  ghost predicate Spans<S(!new)>(h: seq<Entry<S>>, initial: S, s: S) {
    LeadsTo(h, s) && if h == [] then s == initial else h[0].from == initial
  }

  lemma PushLeadsTo<S(!new)>(h: seq<Entry<S>>, e: Entry<S>, cap: nat)
    requires cap > 0 && LeadsTo(h, e.from)
    ensures LeadsTo(Push(h, e, cap), e.to)
  {
    var grown := h + [e];
    assert forall i :: 0 <= i < |grown| - 1 ==> grown[i].to == grown[i + 1].from;
  }

  lemma AppendSpans<S(!new)>(h: seq<Entry<S>>, e: Entry<S>, initial: S)
    requires Spans(h, initial, e.from)
    ensures Spans(h + [e], initial, e.to)
  {
  }

  // ---- replay ----

  /** How many entries lie at or before `t`, counted up to the first one that does not. */
  function Walked<S>(h: seq<Entry<S>>, t: int): (k: nat)
    ensures k <= |h|
  {
    if h == [] || h[0].ts > t then 0 else 1 + Walked(h[1..], t)
  }

  function LiveAt<S>(h: seq<Entry<S>>, finalState: S, t: int): S {
    var k := Walked(h, t);
    if k > 0 then h[k - 1].to else if h != [] then h[0].from else finalState
  }

  /** `liveAtN`: the state in effect at the cursor, and the entries walked to get there. */
  method LiveAtN<S(==)>(h: seq<Entry<S>>, finalState: S, t: int)
      returns (current: S, walked: seq<Entry<S>>, visited: set<S>)
    ensures current == LiveAt(h, finalState, t) && walked == h[..Walked(h, t)]
    ensures visited == {current}
                       + (set i | 0 <= i < Walked(h, t) :: h[i].from)
                       + (set i | 0 <= i < Walked(h, t) :: h[i].to)
  {
    visited, walked := {}, [];
    var found: Option<S> := None;
    var initial: Option<S> := None;
    var k := 0;
    while k < |h|
      invariant 0 <= k <= |h| && walked == h[..k] && Walked(h, t) == k + Walked(h[k..], t)
      invariant found == if k == 0 then None else Some(h[k - 1].to)
      invariant k > 0 ==> initial == Some(h[0].from)
      invariant k == 0 ==> initial == None
      invariant visited == (set i | 0 <= i < k :: h[i].from) + (set i | 0 <= i < k :: h[i].to)
    {
      if initial.None? {
        initial := Some(h[k].from);
      }
      if h[k].ts > t {
        break;
      }
      assert h[k..][1..] == h[k + 1..];
      visited := visited + {h[k].from, h[k].to};
      walked := walked + [h[k]];
      found := Some(h[k].to);
      k := k + 1;
    }
    match found {
      case Some(s) => current := s;
      case None => current := if h != [] then h[0].from else finalState;
    }
    visited := visited + {current};
  }

  lemma {:induction false} WalkedExact<S(!new)>(h: seq<Entry<S>>, k: nat, t: int)
    requires k <= |h| && forall i :: 0 <= i < k ==> h[i].ts <= t
    requires k < |h| ==> h[k].ts > t
    ensures Walked(h, t) == k
    decreases k
  {
    if k > 0 {
      WalkedExact(h[1..], k - 1, t);
    }
  }

  /** Replaying a complete history at `t`: `done` was recorded at or before `t`, `rest` after it. */
  lemma ReplayComplete<S(!new)>(done: seq<Entry<S>>, rest: seq<Entry<S>>, initial: S, now: S, finalState: S, t: int)
    requires forall i :: 0 <= i < |done| ==> done[i].ts <= t
    requires forall i :: 0 <= i < |rest| ==> rest[i].ts > t
    requires Spans(done, initial, now) && Spans(done + rest, initial, finalState)
    ensures LiveAt(done + rest, finalState, t) == now
  {
    WalkedExact(done + rest, |done|, t);
  }

  /** A capped history replays the same state, as long as nothing after `t` has been dropped. */
  lemma ReplayCapped<S(!new)>(done: seq<Entry<S>>, rest: seq<Entry<S>>, now: S, finalState: S, cap: nat, t: int)
    requires cap > 0
    requires forall i :: 0 <= i < |done| ==> done[i].ts <= t
    requires forall i :: 0 <= i < |rest| ==> rest[i].ts > t
    requires LeadsTo(done, now) && LeadsTo(done + rest, finalState)
    requires done != [] && |rest| <= cap
    ensures LiveAt(Newest(done + rest, cap), finalState, t) == now
  {
    var h := done + rest;
    var dropped := if |h| > cap then |h| - cap else 0;
    var kept := done[dropped..];
    NewestSplit(done, rest, cap, dropped);
    WalkedExact(kept + rest, |kept|, t);
    if kept != [] {
      assert (kept + rest)[|kept| - 1] == done[|done| - 1] == h[|done| - 1];
    } else if rest != [] {
      assert h[|done| - 1].to == h[|done|].from;
    }
  }

  lemma NewestSplit<T>(done: seq<T>, rest: seq<T>, cap: nat, dropped: nat)
    requires |rest| <= cap && dropped == if |done + rest| > cap then |done + rest| - cap else 0
    ensures dropped <= |done| && Newest(done + rest, cap) == done[dropped..] + rest
  {
  }

  // ---- replaying a whole run ----

  function Fold<O, I>(step: (O, I) -> O, o: O, inputs: seq<I>): O
    decreases |inputs|
  {
    if inputs == [] then o else step(Fold(step, o, inputs[..|inputs| - 1]), inputs[|inputs| - 1])
  }

  /** A step only appends entries, stamped with the time of its input, that lead from state to state. */
  ghost predicate Records<O(!new), I(!new), S(!new)>(step: (O, I) -> O, hist: O -> seq<Entry<S>>, state: O -> S,
                                                     time: I -> int, initial: S) {
    && (forall o, i :: hist(o) <= hist(step(o, i)))
    && (forall o, i, k :: |hist(o)| <= k < |hist(step(o, i))| ==> hist(step(o, i))[k].ts == time(i))
    && (forall o, i :: Spans(hist(o), initial, state(o)) ==> Spans(hist(step(o, i)), initial, state(step(o, i))))
  }

  ghost predicate TimeOrdered<I>(inputs: seq<I>, time: I -> int) {
    forall j, k :: 0 <= j < k < |inputs| ==> time(inputs[j]) <= time(inputs[k])
  }

  /** How many inputs lie at or before `t`. */
  function Processed<I>(inputs: seq<I>, time: I -> int, t: int): (k: nat)
    ensures k <= |inputs|
  {
    if inputs == [] then 0
    else if time(inputs[|inputs| - 1]) <= t then |inputs|
    else Processed(inputs[..|inputs| - 1], time, t)
  }

  lemma {:induction false} ProcessedSplits<I>(inputs: seq<I>, time: I -> int, t: int)
    requires TimeOrdered(inputs, time)
    ensures var k := Processed(inputs, time, t);
            && (forall j :: 0 <= j < k ==> time(inputs[j]) <= t)
            && (forall j :: k <= j < |inputs| ==> time(inputs[j]) > t)
  {
    if inputs != [] && time(inputs[|inputs| - 1]) > t {
      ProcessedSplits(inputs[..|inputs| - 1], time, t);
    }
  }

  /** Nothing recorded so far is later than `t`. */
  lemma {:induction false} FoldUpTo<O(!new), I(!new), S(!new)>(
      step: (O, I) -> O, hist: O -> seq<Entry<S>>, state: O -> S, time: I -> int, initial: S, o: O, inputs: seq<I>,
      t: int)
    requires Records(step, hist, state, time, initial)
    requires hist(o) == [] && state(o) == initial
    requires forall j :: 0 <= j < |inputs| ==> time(inputs[j]) <= t
    ensures var f := Fold(step, o, inputs);
            Spans(hist(f), initial, state(f)) && forall i :: 0 <= i < |hist(f)| ==> hist(f)[i].ts <= t
    decreases |inputs|
  {
    if inputs != [] {
      FoldUpTo(step, hist, state, time, initial, o, inputs[..|inputs| - 1], t);
      LastStep(step, hist, state, time, initial, Fold(step, o, inputs[..|inputs| - 1]), inputs[|inputs| - 1]);
    }
  }

  /** Everything recorded by inputs after `t` comes behind what was there, and is later than `t`. */
  lemma {:induction false} FoldAfter<O(!new), I(!new), S(!new)>(
      step: (O, I) -> O, hist: O -> seq<Entry<S>>, state: O -> S, time: I -> int, initial: S, o: O, inputs: seq<I>,
      k: nat, t: int)
    requires Records(step, hist, state, time, initial) && k <= |inputs|
    requires forall j :: k <= j < |inputs| ==> time(inputs[j]) > t
    requires var p := Fold(step, o, inputs[..k]); Spans(hist(p), initial, state(p))
    ensures var p, f := Fold(step, o, inputs[..k]), Fold(step, o, inputs);
            && Spans(hist(f), initial, state(f)) && hist(p) <= hist(f)
            && forall i :: |hist(p)| <= i < |hist(f)| ==> hist(f)[i].ts > t
    decreases |inputs|
  {
    hide Records, Spans;
    if k == |inputs| {
      assert inputs[..k] == inputs;
    } else {
      var n := |inputs| - 1;
      assert inputs[..n][..k] == inputs[..k];
      FoldAfter(step, hist, state, time, initial, o, inputs[..n], k, t);
      LastStep(step, hist, state, time, initial, Fold(step, o, inputs[..n]), inputs[n]);
    }
  }

  lemma LastStep<O(!new), I(!new), S(!new)>(
      step: (O, I) -> O, hist: O -> seq<Entry<S>>, state: O -> S, time: I -> int, initial: S, q: O, i: I)
    requires Records(step, hist, state, time, initial) && Spans(hist(q), initial, state(q))
    ensures var f := step(q, i);
            && Spans(hist(f), initial, state(f)) && hist(q) <= hist(f)
            && forall k :: |hist(q)| <= k < |hist(f)| ==> hist(f)[k].ts == time(i)
  {
  }

  /** Replaying the recorded history at `t` gives the state the machine had after everything up to `t`. */
  lemma ReplayIsState<O(!new), I(!new), S(!new)>(
      step: (O, I) -> O, hist: O -> seq<Entry<S>>, state: O -> S, time: I -> int, initial: S, o: O, inputs: seq<I>,
      t: int)
    requires Records(step, hist, state, time, initial)
    requires hist(o) == [] && state(o) == initial && TimeOrdered(inputs, time)
    ensures var f := Fold(step, o, inputs);
            LiveAt(hist(f), state(f), t) == state(Fold(step, o, inputs[..Processed(inputs, time, t)]))
  {
    hide Records, Fold;
    var k := Processed(inputs, time, t);
    ProcessedSplits(inputs, time, t);
    var p, f := Fold(step, o, inputs[..k]), Fold(step, o, inputs);
    FoldUpTo(step, hist, state, time, initial, o, inputs[..k], t);
    FoldAfter(step, hist, state, time, initial, o, inputs, k, t);
    var done, rest := hist(p), hist(f)[|hist(p)|..];
    assert hist(f) == done + rest;
    forall i | 0 <= i < |rest|
      ensures rest[i].ts > t
    {
      assert rest[i] == hist(f)[|done| + i];
    }
    ReplayComplete(done, rest, initial, state(p), state(f), t);
  }

  /** The same from a capped history, at any cursor from its oldest retained entry on, or while it is not full. */
  lemma ReplayCappedIsState<O(!new), I(!new), S(!new)>(
      step: (O, I) -> O, hist: O -> seq<Entry<S>>, state: O -> S, time: I -> int, initial: S, o: O, inputs: seq<I>,
      cap: nat, t: int)
    requires Records(step, hist, state, time, initial) && cap > 0
    requires hist(o) == [] && state(o) == initial && TimeOrdered(inputs, time)
    requires var h := Newest(hist(Fold(step, o, inputs)), cap); |h| < cap || h[0].ts <= t
    ensures var f := Fold(step, o, inputs);
            LiveAt(Newest(hist(f), cap), state(f), t) == state(Fold(step, o, inputs[..Processed(inputs, time, t)]))
  {
    hide Records, Fold, LiveAt, Spans, Newest;
    var k := Processed(inputs, time, t);
    ProcessedSplits(inputs, time, t);
    var p, f := Fold(step, o, inputs[..k]), Fold(step, o, inputs);
    FoldUpTo(step, hist, state, time, initial, o, inputs[..k], t);
    FoldAfter(step, hist, state, time, initial, o, inputs, k, t);
    var done, rest := hist(p), hist(f)[|hist(p)|..];
    assert hist(f) == done + rest;
    forall i | 0 <= i < |rest|
      ensures rest[i].ts > t
    {
      assert rest[i] == hist(f)[|done| + i];
    }
    OldestKept(done, rest, cap, t);
    if |hist(f)| <= cap {
      NothingDropped(hist(f), cap);
      ReplayComplete(done, rest, initial, state(p), state(f), t);
    } else {
      SpansLeads(done, initial, state(p));
      SpansLeads(done + rest, initial, state(f));
      ReplayCapped(done, rest, state(p), state(f), cap, t);
    }
  }

  lemma SpansLeads<S(!new)>(h: seq<Entry<S>>, initial: S, s: S)
    requires Spans(h, initial, s)
    ensures LeadsTo(h, s)
  {
  }

  lemma NothingDropped<T>(h: seq<T>, cap: nat)
    requires |h| <= cap
    ensures Newest(h, cap) == h
  {
  }

  /** When the oldest retained entry is not after `t`, nothing after `t` was dropped. */
  lemma OldestKept<S(!new)>(done: seq<Entry<S>>, rest: seq<Entry<S>>, cap: nat, t: int)
    requires cap > 0 && forall i :: 0 <= i < |rest| ==> rest[i].ts > t
    requires var h := Newest(done + rest, cap); |h| < cap || h[0].ts <= t
    ensures |done + rest| > cap ==> done != [] && |rest| <= cap
  {
    var dropped := |done + rest| - cap;
    forall i | |done| <= i < |done + rest|
      ensures (done + rest)[i].ts > t
    {
      assert (done + rest)[i] == rest[i - |done|];
    }
    assert dropped > 0 ==> Newest(done + rest, cap)[0] == (done + rest)[dropped];
  }
}
