/** MAAP address-range acquisition per claimant. */
module Maap {
  import opened Wrappers
  import opened History

  datatype RangeState = UnknownRange | Probing | Acquired | Defending | Lost

  datatype Range = Range(
    start: nat, count: nat, probes: nat, conflicts: nat, state: RangeState, hist: seq<Entry<RangeState>>)

  const NO_RANGE := Range(0, 0, 0, 0, UnknownRange, [])

  datatype MaapMessage = MaapMessage(msg: nat, claimant: nat, start: nat, count: nat, ts: int, n: nat)

  const PROBE := 1
  const DEFEND := 2
  const ANNOUNCE := 3

  function Moved(r: Range, to: RangeState, ts: int, n: nat): Range {
    r.(state := to, hist := r.hist + [Entry(ts, n, r.state, to)])
  }

  function MovedUnless(r: Range, to: RangeState, ts: int, n: nat): Range {
    if r.state == to then r else Moved(r, to, ts, n)
  }

  predicate Abandons(r: Range, m: MaapMessage) {
    && !(r.hist == [] && r.state == UnknownRange)
    && (r.start != m.start || r.count != m.count)
    && m.msg == PROBE
    && (r.state == Acquired || r.state == Defending)
  }

  function OnMessage(r: Range, m: MaapMessage): Range {
    var lost := if Abandons(r, m) then Moved(r, Lost, m.ts, m.n) else r;
    var at := lost.(start := m.start, count := m.count);
    if m.msg == PROBE then MovedUnless(at.(probes := at.probes + 1), Probing, m.ts, m.n)
    else if m.msg == ANNOUNCE then MovedUnless(at, Acquired, m.ts, m.n)
    else if m.msg == DEFEND then MovedUnless(at.(conflicts := at.conflicts + 1), Defending, m.ts, m.n)
    else at
  }

  class MaapLogic {
    var ranges: map<nat, Range>

    constructor ()
      ensures ranges == map[]
    {
      ranges := map[];
    }

    /** The claimant's record is held by reference in the source and stored back here. */
    method OnDecode(m: MaapMessage)
      modifies this
      ensures ranges == OnMaap(old(ranges), m)
    {
      hide Moved;
      var r := if m.claimant in ranges then ranges[m.claimant] else NO_RANGE;
      var isNew := r.hist == [] && r.state == UnknownRange;
      var rangeChanged := !isNew && (r.start != m.start || r.count != m.count);
      if rangeChanged && m.msg == PROBE && (r.state == Acquired || r.state == Defending) {
        r := Moved(r, Lost, m.ts, m.n);
      }
      r := r.(start := m.start, count := m.count);
      if m.msg == PROBE {
        r := r.(probes := r.probes + 1);
        if r.state != Probing {
          r := Moved(r, Probing, m.ts, m.n);
        }
      } else if m.msg == ANNOUNCE {
        if r.state != Acquired {
          r := Moved(r, Acquired, m.ts, m.n);
        }
      } else if m.msg == DEFEND {
        r := r.(conflicts := r.conflicts + 1);
        if r.state != Defending {
          r := Moved(r, Defending, m.ts, m.n);
        }
      }
      ranges := ranges[m.claimant := r];
    }
  }

  // ---- replay ----

  lemma MovedSpans(r: Range, to: RangeState, ts: int, n: nat)
    requires Spans(r.hist, UnknownRange, r.state)
    ensures Spans(Moved(r, to, ts, n).hist, UnknownRange, to)
  {
    AppendSpans(r.hist, Entry(ts, n, r.state, to), UnknownRange);
  }

  lemma StepRecords(r: Range, m: MaapMessage)
    ensures var f := OnMessage(r, m);
            && r.hist <= f.hist && (forall k :: |r.hist| <= k < |f.hist| ==> f.hist[k].ts == m.ts && f.hist[k].n == m.n)
            && (Spans(r.hist, UnknownRange, r.state) ==> Spans(f.hist, UnknownRange, f.state))
  {
    hide Spans;
    var lost := if Abandons(r, m) then Moved(r, Lost, m.ts, m.n) else r;
    if Spans(r.hist, UnknownRange, r.state) {
      MovedSpans(r, Lost, m.ts, m.n);
      MovedSpans(lost, Probing, m.ts, m.n);
      MovedSpans(lost, Acquired, m.ts, m.n);
      MovedSpans(lost, Defending, m.ts, m.n);
    }
  }

  function RangeOf(ranges: map<nat, Range>, claimant: nat): Range {
    if claimant in ranges then ranges[claimant] else NO_RANGE
  }

  function OnMaap(ranges: map<nat, Range>, m: MaapMessage): map<nat, Range> {
    ranges[m.claimant := OnMessage(RangeOf(ranges, m.claimant), m)]
  }

  /** For time-ordered messages, the replayed history of any claimant shows its state at any cursor time. */
  lemma ClaimantReplay(messages: seq<MaapMessage>, claimant: nat, t: int)
    requires TimeOrdered(messages, (m: MaapMessage) => m.ts)
    ensures var f := RangeOf(Fold(OnMaap, map[], messages), claimant);
            var past := messages[..Processed(messages, (m: MaapMessage) => m.ts, t)];
            LiveAt(f.hist, f.state, t) == RangeOf(Fold(OnMaap, map[], past), claimant).state
  {
    hide Spans, OnMessage, Fold;
    var hist := (a: map<nat, Range>) => RangeOf(a, claimant).hist;
    var state := (a: map<nat, Range>) => RangeOf(a, claimant).state;
    var time := (m: MaapMessage) => m.ts;
    forall a: map<nat, Range>, m: MaapMessage
      ensures hist(a) <= hist(OnMaap(a, m))
      ensures forall k :: |hist(a)| <= k < |hist(OnMaap(a, m))| ==> hist(OnMaap(a, m))[k].ts == m.ts
      ensures Spans(hist(a), UnknownRange, state(a)) ==> Spans(hist(OnMaap(a, m)), UnknownRange, state(OnMaap(a, m)))
    {
      StepRecords(RangeOf(a, claimant), m);
    }
    assert Records(OnMaap, hist, state, time, UnknownRange);
    ReplayIsState(OnMaap, hist, state, time, UnknownRange, map[], messages, t);
  }

  function LastOf(messages: seq<MaapMessage>, claimant: nat): Option<MaapMessage> {
    if messages == [] then None
    else
      var m := messages[|messages| - 1];
      if m.claimant == claimant then Some(m) else LastOf(messages[..|messages| - 1], claimant)
  }

  predicate IsKnown(m: MaapMessage) {
    1 <= m.msg <= 3
  }

  /** The last message of a claimant that has a meaning; the wire has room for thirteen other types. */
  function LastKnown(messages: seq<MaapMessage>, claimant: nat): Option<MaapMessage> {
    if messages == [] then None
    else
      var m := messages[|messages| - 1];
      if m.claimant == claimant && IsKnown(m) then Some(m) else LastKnown(messages[..|messages| - 1], claimant)
  }

  /** A claimant's range is the one its last message of any type names, and its state is that of the last message of a
      known type. */
  lemma {:induction false} ClaimantMeaning(messages: seq<MaapMessage>, claimant: nat)
    ensures var r := RangeOf(Fold(OnMaap, map[], messages), claimant);
            && (match LastOf(messages, claimant)
                case None => r == NO_RANGE
                case Some(m) => r.start == m.start && r.count == m.count)
            && (match LastKnown(messages, claimant)
                case None => r.state == UnknownRange
                case Some(m) =>
                  r.state == if m.msg == 1 then Probing else if m.msg == 2 then Defending else Acquired)
    decreases |messages|
  {
    if messages != [] {
      ClaimantMeaning(messages[..|messages| - 1], claimant);
    }
  }

  function HowMany(messages: seq<MaapMessage>, claimant: nat, msg: nat): nat {
    if messages == [] then 0
    else
      var m := messages[|messages| - 1];
      HowMany(messages[..|messages| - 1], claimant, msg) + if m.claimant == claimant && m.msg == msg then 1 else 0
  }

  /** Probes are the claimant's messages of type 1, conflicts those of type 2. */
  lemma {:induction false} CountMeaning(messages: seq<MaapMessage>, claimant: nat)
    ensures var r := RangeOf(Fold(OnMaap, map[], messages), claimant);
            r.probes == HowMany(messages, claimant, 1) && r.conflicts == HowMany(messages, claimant, 2)
    decreases |messages|
  {
    if messages != [] {
      CountMeaning(messages[..|messages| - 1], claimant);
    }
  }

  /** A range is recorded as LOST exactly when its holder probes for another one. */
  lemma LostMeaning(r: Range, m: MaapMessage)
    requires r.hist != []
    ensures (exists k :: |r.hist| <= k < |OnMessage(r, m).hist| && OnMessage(r, m).hist[k].to == Lost)
       <==> (r.state == Acquired || r.state == Defending) && m.msg == 1 && (m.start, m.count) != (r.start, r.count)
  {
    if Abandons(r, m) {
      assert OnMessage(r, m).hist[|r.hist|].to == Lost;
    }
  }
}
