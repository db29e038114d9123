/** The single-threaded pass of the analyzer: capture order, dense event log, batched flushes. */
module StatePass {
  import opened StableSort
  import opened Sessions

  const U64 := 0x1_0000_0000_0000_0000
  const FLUSH_AT := 256

  datatype Kind = PacketEvent | ErrorEvent | TransitionEvent

  /** `n` is the packet number, or 0 for a transition no single packet caused. */
  datatype Event = Event(i: nat, n: nat, ts: nat, kind: Kind, text: string)

  /** A decoded packet together with the transitions the protocol modules emit when it is their turn:
      `direct` while consuming it, `ticked` when time advances to it. */
  datatype Packet = Packet(num: nat, ts: nat, interesting: bool, ok: bool, direct: seq<string>, ticked: seq<string>)

  // ---- capture order and relative time ----

  function Stamped(pkts: seq<nat>): seq<Timed<nat>> {
    seq(|pkts|, i requires 0 <= i < |pkts| => Timed(pkts[i], i))
  }

  /** Packet indices in strict capture-timestamp order, ties in file order. */
  function Order(pkts: seq<nat>): seq<Timed<nat>> {
    Sort(Stamped(pkts))
  }

  /** Time since the first record, in the unsigned 64-bit arithmetic of the source. */
  function RelTs(pkts: seq<nat>, ts: nat): nat
    requires pkts != []
  {
    (ts - pkts[0]) % U64
  }

  // ---- the log ----

  function Transitions(labels: seq<string>, n: nat, ts: nat, base: nat): (es: seq<Event>)
    ensures |es| == |labels|
    ensures forall k :: 0 <= k < |es| ==> es[k] == Event(base + k, n, ts, TransitionEvent, labels[k])
  {
    if labels == [] then []
    else Transitions(labels[..|labels| - 1], n, ts, base) +
         [Event(base + |labels| - 1, n, ts, TransitionEvent, labels[|labels| - 1])]
  }

  function HeadEvents(d: Packet, base: nat): seq<Event> {
    if !d.ok then [Event(base, d.num, d.ts, ErrorEvent, "")]
    else [Event(base, d.num, d.ts, PacketEvent, "")] + Transitions(d.direct, d.num, d.ts, base + 1)
  }

  /** All events of one packet, numbered from `base`. */
  function EventsOf(d: Packet, base: nat): seq<Event> {
    if !d.interesting then []
    else HeadEvents(d, base) + Transitions(d.ticked, 0, d.ts, base + |HeadEvents(d, base)|)
  }

  /** The log after the first `k` packets in capture order. */
  function LogUpTo(ds: seq<Packet>, k: nat): seq<Event>
    requires k <= |ds|
  {
    if k == 0 then [] else LogUpTo(ds, k - 1) + EventsOf(ds[k - 1], |LogUpTo(ds, k - 1)|)
  }

  method Emit(labels: seq<string>, n: nat, ts: nat, batch: seq<Event>, index: nat) returns (out: seq<Event>, next: nat)
    ensures out == batch + Transitions(labels, n, ts, index) && next == index + |labels|
  {
    out, next := batch, index;
    for k := 0 to |labels|
      invariant out == batch + Transitions(labels[..k], n, ts, index) && next == index + k
    {
      assert labels[..k + 1][..k] == labels[..k];
      out := out + [Event(next, n, ts, TransitionEvent, labels[k])];
      next := next + 1;
    }
    assert labels[..|labels|] == labels;
  }

  /** The state pass over packets already in capture order. */
  method RunPass(s: Session<Event>, ds: seq<Packet>)
    requires s.events == [] && s.status == Running
    modifies s
    ensures s.status == Done && s.events == LogUpTo(ds, |ds|)
  {
    hide EventsOf;
    var eventIndex := 0;
    var batch: seq<Event> := [];
    for oi := 0 to |ds|
      invariant s.events + batch == LogUpTo(ds, oi) && eventIndex == |LogUpTo(ds, oi)|
      invariant s.status == Running
    {
      ghost var before := LogUpTo(ds, oi);
      var d := ds[oi];
      batch, eventIndex := ProcessPacket(d, batch, eventIndex);
      assert s.events + batch == before + EventsOf(d, |before|);
      if |batch| >= FLUSH_AT {
        s.Flush(batch);
        batch := [];
      }
    }
    if batch != [] {
      s.Flush(batch);
    }
    s.status := Done;
  }

  method ProcessPacket(d: Packet, batch: seq<Event>, index: nat) returns (out: seq<Event>, next: nat)
    ensures out == batch + EventsOf(d, index) && next == index + |EventsOf(d, index)|
  {
    out, next := batch, index;
    if !d.interesting {
      return;
    }
    if !d.ok {
      out := out + [Event(next, d.num, d.ts, ErrorEvent, "")];
      next := next + 1;
    } else {
      out := out + [Event(next, d.num, d.ts, PacketEvent, "")];
      next := next + 1;
      out, next := Emit(d.direct, d.num, d.ts, out, next);
    }
    assert out == batch + HeadEvents(d, index);
    out, next := Emit(d.ticked, 0, d.ts, out, next);
  }

  // ---- what the log tells of each packet ----

  /** An interesting packet has one event for itself, an error if it did not decode, then, if it did, the transitions it
      caused under its own number, then those its time caused, under none; others have nothing. All carry its time. */
  lemma PacketTold(ds: seq<Packet>, p: nat)
    requires p < |ds|
    ensures var log, d := LogUpTo(ds, |ds|), ds[p];
            var at, caused := |LogUpTo(ds, p)|, if d.ok then |d.direct| else 0;
            && |LogUpTo(ds, p + 1)| == at + (if d.interesting then 1 + caused + |d.ticked| else 0) <= |log|
            && (d.interesting ==>
                  && log[at] == Event(at, d.num, d.ts, if d.ok then PacketEvent else ErrorEvent, "")
                  && (forall j :: 0 <= j < caused ==>
                        log[at + 1 + j] == Event(at + 1 + j, d.num, d.ts, TransitionEvent, d.direct[j]))
                  && forall j :: 0 <= j < |d.ticked| ==>
                       log[at + 1 + caused + j] ==
                       Event(at + 1 + caused + j, 0, d.ts, TransitionEvent, d.ticked[j]))
  {
    hide LogUpTo, EventsOf, Transitions;
    var at, d := |LogUpTo(ds, p)|, ds[p];
    LogPrefix(ds, p + 1, |ds|);
    LogStep(ds, p);
    EventsTold(d, at);
    var told := EventsOf(d, at);
    forall j | 0 <= j < |told|
      ensures LogUpTo(ds, |ds|)[at + j] == told[j]
    {
      assert LogUpTo(ds, p + 1)[at + j] == told[j];
    }
    if d.interesting {
      ReadOff(LogUpTo(ds, |ds|), at, told, d);
    }
  }

  lemma ReadOff(log: seq<Event>, at: nat, told: seq<Event>, d: Packet)
    requires at + |told| <= |log| && forall j :: 0 <= j < |told| ==> log[at + j] == told[j]
    requires d.interesting && Tells(told, d, at)
    ensures Tells(log[at..at + |told|], d, at)
    ensures var caused := if d.ok then |d.direct| else 0;
            && log[at] == Event(at, d.num, d.ts, if d.ok then PacketEvent else ErrorEvent, "")
            && (forall j :: 0 <= j < caused ==>
                  log[at + 1 + j] == Event(at + 1 + j, d.num, d.ts, TransitionEvent, d.direct[j]))
            && forall j :: 0 <= j < |d.ticked| ==>
                 log[at + 1 + caused + j] == Event(at + 1 + caused + j, 0, d.ts, TransitionEvent, d.ticked[j])
  {
    var caused := if d.ok then |d.direct| else 0;
    assert log[at] == told[0];
    forall j | 0 <= j < caused
      ensures log[at + 1 + j] == Event(at + 1 + j, d.num, d.ts, TransitionEvent, d.direct[j])
    {
      assert log[at + (1 + j)] == told[1 + j];
    }
    forall j | 0 <= j < |d.ticked|
      ensures log[at + 1 + caused + j] == Event(at + 1 + caused + j, 0, d.ts, TransitionEvent, d.ticked[j])
    {
      assert log[at + (1 + caused + j)] == told[1 + caused + j];
    }
    assert log[at..at + |told|] == told;
  }

  /** The events of one packet, by position. */
  ghost predicate Tells(told: seq<Event>, d: Packet, at: nat) {
    var caused := if d.ok then |d.direct| else 0;
    && |told| == 1 + caused + |d.ticked|
    && told[0] == Event(at, d.num, d.ts, if d.ok then PacketEvent else ErrorEvent, "")
    && (forall j :: 0 <= j < caused ==>
          told[1 + j] == Event(at + 1 + j, d.num, d.ts, TransitionEvent, d.direct[j]))
    && forall j :: 0 <= j < |d.ticked| ==>
         told[1 + caused + j] == Event(at + 1 + caused + j, 0, d.ts, TransitionEvent, d.ticked[j])
  }

  lemma EventsTold(d: Packet, at: nat)
    ensures if d.interesting then Tells(EventsOf(d, at), d, at) else EventsOf(d, at) == []
  {
    hide Transitions;
  }

  lemma LogStep(ds: seq<Packet>, p: nat)
    requires p < |ds|
    ensures LogUpTo(ds, p + 1) == LogUpTo(ds, p) + EventsOf(ds[p], |LogUpTo(ds, p)|)
  {
  }

  // ---- dense numbering ----

  ghost predicate Dense(es: seq<Event>, base: nat) {
    forall k :: 0 <= k < |es| ==> es[k].i == base + k
  }

  lemma EventsDense(d: Packet, base: nat)
    ensures Dense(EventsOf(d, base), base)
  {
  }

  /** The k-th event of the log carries index k, through every flush and packet boundary. */
  lemma {:induction false} LogDense(ds: seq<Packet>, k: nat)
    requires k <= |ds|
    ensures Dense(LogUpTo(ds, k), 0)
  {
    hide EventsOf;
    if k > 0 {
      LogDense(ds, k - 1);
      EventsDense(ds[k - 1], |LogUpTo(ds, k - 1)|);
    }
  }

  /** The log only ever grows: what was readable stays, at the same index. */
  lemma {:induction false} LogPrefix(ds: seq<Packet>, j: nat, k: nat)
    requires j <= k <= |ds|
    ensures LogUpTo(ds, j) <= LogUpTo(ds, k)
  {
    hide EventsOf;
    if j < k {
      LogPrefix(ds, j, k - 1);
    }
  }

  // ---- event times ----

  /** The decoded packets of a capture with timestamps `pkts`, in capture order. */
  ghost predicate InCaptureOrder(ds: seq<Packet>, pkts: seq<nat>) {
    && pkts != []
    && (forall i :: 0 <= i < |pkts| ==> pkts[i] < U64)
    && |ds| == |Order(pkts)|
    && forall k :: 0 <= k < |ds| ==> ds[k].ts == RelTs(pkts, Order(pkts)[k].ts) && ds[k].num == Order(pkts)[k].item + 1
  }

  ghost predicate TimesNeverDecrease(es: seq<Event>) {
    forall j, k :: 0 <= j < k < |es| ==> es[j].ts <= es[k].ts
  }

  /** A packet stamped before the first record: its relative time wraps around. */
  ghost predicate Wraps(pkts: seq<nat>, k: nat)
    requires pkts != [] && k < |Order(pkts)|
  {
    Order(pkts)[k].ts < pkts[0]
  }

  lemma EventsTimed(d: Packet, base: nat)
    ensures forall k :: 0 <= k < |EventsOf(d, base)| ==> EventsOf(d, base)[k].ts == d.ts
    ensures d.interesting <==> EventsOf(d, base) != []
  {
  }

  lemma OrderBounds(pkts: seq<nat>, k: nat)
    requires pkts != [] && (forall i :: 0 <= i < |pkts| ==> pkts[i] < U64) && k < |Order(pkts)|
    ensures Order(pkts)[k].ts < U64 && Order(pkts)[k].item < |pkts|
  {
    var s := Stamped(pkts);
    SortSorts(s);
    assert Order(pkts)[k] in multiset(Order(pkts));
    assert Order(pkts)[k] in s;
  }

  lemma RelTsValue(pkts: seq<nat>, ts: nat)
    requires pkts != [] && pkts[0] < U64 && ts < U64
    ensures RelTs(pkts, ts) == if ts < pkts[0] then U64 + ts - pkts[0] else ts - pkts[0]
  {
  }

  /** Two packets of the pass: later in order means no earlier in relative time, unless only the first one wraps. */
  lemma RelativeOrder(ds: seq<Packet>, pkts: seq<nat>, p: nat, q: nat)
    requires InCaptureOrder(ds, pkts) && p <= q < |ds|
    ensures ds[p].ts <= ds[q].ts <==> !(Wraps(pkts, p) && !Wraps(pkts, q))
  {
    hide Order, RelTs;
    OrderSorted(pkts);
    OrderBounds(pkts, p);
    OrderBounds(pkts, q);
    RelTsValue(pkts, Order(pkts)[p].ts);
    RelTsValue(pkts, Order(pkts)[q].ts);
  }

  lemma OrderSorted(pkts: seq<nat>)
    ensures Sorted(Order(pkts))
  {
    SortSorts(Stamped(pkts));
  }

  ghost predicate Mixed(ds: seq<Packet>, pkts: seq<nat>)
    requires InCaptureOrder(ds, pkts)
  {
    exists p, q :: 0 <= p < |ds| && 0 <= q < |ds| && ds[p].interesting && ds[q].interesting &&
                   Wraps(pkts, p) && !Wraps(pkts, q)
  }

  lemma {:induction false} UnmixedTimes(ds: seq<Packet>, pkts: seq<nat>, k: nat)
    requires InCaptureOrder(ds, pkts) && !Mixed(ds, pkts) && k <= |ds|
    ensures TimesNeverDecrease(LogUpTo(ds, k))
    ensures forall j, q :: 0 <= j < |LogUpTo(ds, k)| && k <= q < |ds| && ds[q].interesting ==>
              LogUpTo(ds, k)[j].ts <= ds[q].ts
  {
    hide EventsOf, InCaptureOrder, Wraps;
    if k > 0 {
      var d := ds[k - 1];
      var earlier := LogUpTo(ds, k - 1);
      UnmixedTimes(ds, pkts, k - 1);
      EventsTimed(d, |earlier|);
      forall q | k <= q < |ds| && ds[q].interesting && d.interesting
        ensures d.ts <= ds[q].ts
      {
        RelativeOrder(ds, pkts, k - 1, q);
      }
    }
  }

  /** Two events of such a log that run backwards in time. */
  lemma MixedTimes(ds: seq<Packet>, pkts: seq<nat>) returns (j: nat, k: nat)
    requires InCaptureOrder(ds, pkts) && Mixed(ds, pkts)
    ensures j < k < |LogUpTo(ds, |ds|)| && LogUpTo(ds, |ds|)[j].ts > LogUpTo(ds, |ds|)[k].ts
  {
    hide EventsOf, LogUpTo;
    var p, q :| 0 <= p < |ds| && 0 <= q < |ds| && ds[p].interesting && ds[q].interesting &&
                Wraps(pkts, p) && !Wraps(pkts, q);
    OrderSorted(pkts);
    RelativeOrder(ds, pkts, p, q);
    EventStands(ds, p);
    EventStands(ds, q);
    LogPrefix(ds, p + 1, q);
    j, k := |LogUpTo(ds, p)|, |LogUpTo(ds, q)|;
  }

  /** The first event of an interesting packet stands right after the log of the packets before it. */
  lemma EventStands(ds: seq<Packet>, p: nat)
    requires p < |ds| && ds[p].interesting
    ensures |LogUpTo(ds, p)| < |LogUpTo(ds, p + 1)| <= |LogUpTo(ds, |ds|)|
    ensures LogUpTo(ds, |ds|)[|LogUpTo(ds, p)|].ts == ds[p].ts
  {
    hide EventsOf;
    EventsTimed(ds[p], |LogUpTo(ds, p)|);
    LogPrefix(ds, p + 1, |ds|);
  }

  /** Event times never decrease unless packets of interest lie on both sides of the first record's timestamp. */
  lemma EventTimesOrdered(ds: seq<Packet>, pkts: seq<nat>)
    requires InCaptureOrder(ds, pkts)
    ensures TimesNeverDecrease(LogUpTo(ds, |ds|)) <==> !Mixed(ds, pkts)
  {
    if Mixed(ds, pkts) {
      var j, k := MixedTimes(ds, pkts);
    } else {
      UnmixedTimes(ds, pkts, |ds|);
    }
  }

  /** In particular when the first record has the least timestamp. */
  lemma FirstRecordLeast(ds: seq<Packet>, pkts: seq<nat>)
    requires InCaptureOrder(ds, pkts) && forall i :: 0 <= i < |pkts| ==> pkts[0] <= pkts[i]
    ensures TimesNeverDecrease(LogUpTo(ds, |ds|))
  {
    forall k | 0 <= k < |ds|
      ensures !Wraps(pkts, k)
    {
      NeverWraps(pkts, k);
    }
    EventTimesOrdered(ds, pkts);
  }

  lemma NeverWraps(pkts: seq<nat>, k: nat)
    requires pkts != [] && k < |Order(pkts)| && forall i :: 0 <= i < |pkts| ==> pkts[0] <= pkts[i]
    ensures !Wraps(pkts, k)
  {
    var s := Stamped(pkts);
    SortSorts(s);
    assert Order(pkts)[k] in multiset(Order(pkts));
    assert Order(pkts)[k] in s;
  }
}
