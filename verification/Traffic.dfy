/** Requests of the last minute per domain, counted in a ring of sixty one-second slots. */
module Traffic {
  import opened Wrappers

  const SLOTS := 60

  /** How many of the logged seconds lie in `(after, upTo]`. */
  function Count(log: seq<int>, after: int, upTo: int): nat {
    if log == [] then 0
    else Count(log[..|log| - 1], after, upTo) + if after < log[|log| - 1] <= upTo then 1 else 0
  }

  lemma {:induction false} CountSplit(log: seq<int>, after: int, mid: int, upTo: int)
    requires after <= mid <= upTo
    ensures Count(log, after, upTo) == Count(log, after, mid) + Count(log, mid, upTo)
  {
    if log != [] {
      CountSplit(log[..|log| - 1], after, mid, upTo);
    }
  }

  lemma {:induction false} CountNone(log: seq<int>, after: int, upTo: int)
    requires forall k :: 0 <= k < |log| ==> !(after < log[k] <= upTo)
    ensures Count(log, after, upTo) == 0
  {
    if log != [] {
      CountNone(log[..|log| - 1], after, upTo);
    }
  }

  /** The second in `(last - 60, last]` that slot `i` stands for. */
  function SecondOf(i: nat, last: int): (s: int)
    requires i < SLOTS
    ensures last - SLOTS < s <= last && s % SLOTS == i
  {
    last - (last - i) % SLOTS
  }

  /** Within one minute a second determines its slot and the other way round. */
  lemma SlotUnique(s: int, t: int)
    requires s % SLOTS == t % SLOTS && -SLOTS < s - t < SLOTS
    ensures s == t
  {
  }

  /** The ring with the slots of the seconds after `lastSec` cleared. */
  function Skipped(slots: seq<nat>, lastSec: int, nowSec: int): (r: seq<nat>)
    requires |slots| == SLOTS
    ensures |r| == SLOTS
  {
    seq(SLOTS, i requires 0 <= i < SLOTS => if lastSec < SecondOf(i, nowSec) then 0 else slots[i])
  }

  /** The ring after a hit in second `nowSec`: skipped seconds are cleared, or everything after a minute's gap. */
  function HitSlots(slots: seq<nat>, lastSec: int, nowSec: nat): (r: seq<nat>)
    requires |slots| == SLOTS
    ensures |r| == SLOTS
  {
    var kept :=
      if lastSec == nowSec then slots
      else if lastSec == 0 || nowSec - lastSec >= SLOTS then seq(SLOTS, _ => 0)
      else Skipped(slots, lastSec, nowSec);
    kept[nowSec % SLOTS := kept[nowSec % SLOTS] + 1]
  }

  class DomainTraffic {
    const slots: array<nat>
    var lastSec: int
    var total: nat
    /** Every hit so far, by its second. */
    ghost var log: seq<int>

    /** The ring shows the log. A `lastSec` of zero means no hit yet. */
    ghost predicate Valid()
      reads this, slots
    {
      && slots.Length == SLOTS && lastSec >= 0 && total == |log|
      && RingShows(slots[..], log, lastSec)
    }

    constructor ()
      ensures Valid() && log == [] && fresh(slots)
    {
      slots := new nat[SLOTS](_ => 0);
      lastSec, total, log := 0, 0, [];
    }

    /** One request in second `nowSec`; the ring stays exact if and only if time does not go back. */
    method Hit(nowSec: nat)
      requires slots.Length == SLOTS && nowSec > 0 && lastSec >= 0
      modifies this, slots
      ensures slots[..] == HitSlots(old(slots[..]), old(lastSec), nowSec)
      ensures lastSec == nowSec && total == old(total) + 1 && log == old(log) + [nowSec]
      ensures old(Valid()) ==> (Valid() <==> nowSec >= old(lastSec))
    {
      if Valid() {
        HitExact(slots[..], log, lastSec, nowSec);
      }
      if lastSec != nowSec {
        var gap := nowSec - lastSec;
        if lastSec == 0 || gap >= SLOTS {
          Clear();
        } else {
          ClearBetween(nowSec);
        }
        lastSec := nowSec;
      }
      slots[nowSec % SLOTS] := slots[nowSec % SLOTS] + 1;
      total := total + 1;
      log := log + [nowSec];
    }

    method Clear()
      requires slots.Length == SLOTS
      modifies slots
      ensures slots[..] == seq(SLOTS, _ => 0)
    {
      for k := 0 to SLOTS
        invariant forall i :: 0 <= i < k ==> slots[i] == 0
      {
        slots[k] := 0;
      }
    }

    /** Clear the slots of the seconds skipped since the last hit. */
    method ClearBetween(nowSec: nat)
      requires slots.Length == SLOTS && 0 < lastSec && nowSec < lastSec + SLOTS
      modifies slots
      ensures slots[..] == Skipped(old(slots[..]), lastSec, nowSec)
    {
      hide Count;
      var s := lastSec + 1;
      while s <= nowSec
        invariant lastSec < s && (s <= nowSec + 1 || s == lastSec + 1)
        invariant forall i :: 0 <= i < SLOTS ==>
                    slots[i] == if lastSec < SecondOf(i, nowSec) < s then 0 else old(slots[i])
      {
        forall i | 0 <= i < SLOTS && SecondOf(i, nowSec) == s
          ensures i == s % SLOTS
        {
        }
        assert SecondOf(s % SLOTS, nowSec) == s by {
          SlotUnique(SecondOf(s % SLOTS, nowSec), s);
        }
        slots[s % SLOTS] := 0;
        s := s + 1;
      }
    }

    /** Requests in the sixty seconds up to `nowSec`. `None` stands for a negative slot index, which the source forms
        when the clock and the last hit are both below 59 seconds. */
    method PerMin(nowSec: nat) returns (sum: Option<nat>)
      requires slots.Length == SLOTS && lastSec >= 0
      ensures sum.None? <==> 0 < lastSec < SLOTS - 1 && nowSec < SLOTS - 1
      ensures sum.Some? ==> sum.value == RingSum(slots[..], lastSec, nowSec)
      ensures Valid() && sum.Some? ==>
                sum.value == Count(log, (if nowSec < lastSec then lastSec else nowSec) - 60, nowSec)
    {
      if lastSec == 0 || nowSec - lastSec >= SLOTS {
        if Valid() {
          RingSumExact(slots[..], log, lastSec, nowSec);
        }
        return Some(0);
      }
      var total := 0;
      var s := nowSec - SLOTS + 1;
      while s <= nowSec
        invariant nowSec - SLOTS < s <= nowSec + 1
        invariant total == SumBetween(slots[..], lastSec, nowSec - SLOTS, s - 1)
        invariant lastSec < SLOTS - 1 && nowSec < SLOTS - 1 ==> s < 0
      {
        if s > lastSec - SLOTS && s <= lastSec {
          if s < 0 {
            return None;
          }
          total := total + slots[s % SLOTS];
        }
        s := s + 1;
      }
      if Valid() {
        RingSumExact(slots[..], log, lastSec, nowSec);
      }
      sum := Some(total);
    }
  }

  /** The slots of the seconds in `(after, upTo]` that the ring stands for, added up. */
  function SumBetween(slots: seq<nat>, lastSec: int, after: int, upTo: int): nat
    requires |slots| == SLOTS
    decreases upTo - after
  {
    if upTo <= after then 0
    else
      SumBetween(slots, lastSec, after, upTo - 1) +
        if lastSec - SLOTS < upTo <= lastSec then slots[upTo % SLOTS] else 0
  }

  /** What is reported for the minute up to `nowSec`. */
  function RingSum(slots: seq<nat>, lastSec: int, nowSec: int): nat
    requires |slots| == SLOTS
  {
    if lastSec == 0 || nowSec - lastSec >= SLOTS then 0 else SumBetween(slots, lastSec, nowSec - SLOTS, nowSec)
  }

  /** Adding up slots is counting in the log. */
  lemma {:induction false} SumCounts(slots: seq<nat>, log: seq<int>, lastSec: int, after: int, upTo: int)
    requires |slots| == SLOTS && RingShows(slots, log, lastSec) && lastSec > 0 && lastSec - SLOTS <= after <= upTo
    ensures SumBetween(slots, lastSec, after, upTo) == Count(log, after, upTo)
    decreases upTo - after
  {
    hide Count;
    if after == upTo {
      CountEmpty(log, after);
    } else {
      SumCounts(slots, log, lastSec, after, upTo - 1);
      CountSplit(log, after, upTo - 1, upTo);
      if upTo <= lastSec {
        SlotUnique(SecondOf(upTo % SLOTS, lastSec), upTo);
      } else {
        CountNone(log, upTo - 1, upTo);
      }
    }
  }

  /** Seconds before the ring's minute add nothing. */
  lemma {:induction false} SumClips(slots: seq<nat>, lastSec: int, after: int, upTo: int)
    requires |slots| == SLOTS && after <= lastSec - SLOTS
    ensures SumBetween(slots, lastSec, after, upTo) == SumBetween(slots, lastSec, lastSec - SLOTS, upTo)
    decreases upTo - after
  {
    if upTo > after {
      SumClips(slots, lastSec, after, upTo - 1);
    }
  }

  /** A ring that shows the log reports exactly the log's last sixty seconds; asked for a moment before the last hit, as
      the clock is read before the lock is taken, it has only what the minute of that hit still holds. */
  lemma RingSumExact(slots: seq<nat>, log: seq<int>, lastSec: int, nowSec: int)
    requires |slots| == SLOTS && RingShows(slots, log, lastSec) && lastSec >= 0
    ensures RingSum(slots, lastSec, nowSec) ==
            Count(log, (if nowSec < lastSec then lastSec else nowSec) - 60, nowSec)
  {
    if lastSec == 0 || nowSec - lastSec >= SLOTS {
      CountNone(log, (if nowSec < lastSec then lastSec else nowSec) - SLOTS, nowSec);
    } else if nowSec >= lastSec {
      SumCounts(slots, log, lastSec, nowSec - SLOTS, nowSec);
    } else {
      SumClips(slots, lastSec, nowSec - SLOTS, nowSec);
      if nowSec >= lastSec - SLOTS {
        SumCounts(slots, log, lastSec, lastSec - SLOTS, nowSec);
      } else {
        CountNone(log, lastSec - SLOTS, nowSec);
      }
    }
  }

  lemma {:induction false} CountEmpty(log: seq<int>, at: int)
    ensures Count(log, at, at) == 0
  {
    if log != [] {
      CountEmpty(log[..|log| - 1], at);
    }
  }

  /** Each slot counts the hits of the one second it stands for. */
  ghost predicate RingShows(slots: seq<nat>, log: seq<int>, lastSec: int)
    requires |slots| == SLOTS
  {
    && (lastSec == 0 <==> log == []) && (log != [] ==> log[|log| - 1] == lastSec)
    && (forall k :: 0 <= k < |log| ==> 0 < log[k] <= lastSec)
    && forall i :: 0 <= i < SLOTS ==>
         slots[i] == if lastSec == 0 then 0 else Count(log, SecondOf(i, lastSec) - 1, SecondOf(i, lastSec))
  }

  /** A slot after a hit, but for the hit itself. */
  lemma KeptShows(slots: seq<nat>, log: seq<int>, lastSec: int, nowSec: nat, i: nat)
    requires |slots| == SLOTS && RingShows(slots, log, lastSec) && 0 <= lastSec <= nowSec && nowSec > 0 && i < SLOTS
    ensures Count(log, SecondOf(i, nowSec) - 1, SecondOf(i, nowSec))
         == if lastSec == 0 || lastSec < SecondOf(i, nowSec) then 0 else slots[i]
  {
    if lastSec == 0 || lastSec < SecondOf(i, nowSec) {
      CountNone(log, SecondOf(i, nowSec) - 1, SecondOf(i, nowSec));
    } else {
      SlotUnique(SecondOf(i, nowSec), SecondOf(i, lastSec));
    }
  }

  lemma HitKeeps(slots: seq<nat>, log: seq<int>, lastSec: int, nowSec: nat)
    requires |slots| == SLOTS && RingShows(slots, log, lastSec) && 0 <= lastSec <= nowSec && nowSec > 0
    ensures RingShows(HitSlots(slots, lastSec, nowSec), log + [nowSec], nowSec)
  {
    hide Count, SecondOf;
    Appended(log, nowSec);
    forall i | 0 <= i < SLOTS
      ensures Count(log, SecondOf(i, nowSec) - 1, SecondOf(i, nowSec))
           == if lastSec == 0 || lastSec < SecondOf(i, nowSec) then 0 else slots[i]
    {
      KeptShows(slots, log, lastSec, nowSec, i);
    }
  }

  lemma Appended(log: seq<int>, nowSec: int)
    ensures forall i :: 0 <= i < SLOTS ==>
              Count(log + [nowSec], SecondOf(i, nowSec) - 1, SecondOf(i, nowSec))
              == Count(log, SecondOf(i, nowSec) - 1, SecondOf(i, nowSec)) + if i == nowSec % SLOTS then 1 else 0
  {
    assert (log + [nowSec])[..|log|] == log;
    SlotUnique(SecondOf(nowSec % SLOTS, nowSec), nowSec);
  }

  /** After a hit the ring shows the log exactly when the hit is not earlier than the last one: the threads read the
      clock before they take the lock, so it may be. */
  lemma HitExact(slots: seq<nat>, log: seq<int>, lastSec: int, nowSec: nat)
    requires |slots| == SLOTS && RingShows(slots, log, lastSec) && lastSec >= 0 && nowSec > 0
    ensures RingShows(HitSlots(slots, lastSec, nowSec), log + [nowSec], nowSec) <==> nowSec >= lastSec
  {
    hide Count, HitSlots;
    if nowSec >= lastSec {
      HitKeeps(slots, log, lastSec, nowSec);
    } else {
      assert (log + [nowSec])[|log| - 1] == lastSec;
    }
  }

  /** A late hit of second `t` makes the report for second `last` fall short by all that was counted since `t`, or
      report nothing at all when it is a minute late. */
  lemma LateHitForgets(slots: seq<nat>, log: seq<int>, last: nat, t: nat)
    requires |slots| == SLOTS && RingShows(slots, log, last) && 0 < t < last
    ensures var reported, actual := RingSum(HitSlots(slots, last, t), t, last), Count(log + [t], last - SLOTS, last);
            && reported < actual
            && reported == if last - t >= SLOTS then 0 else actual - Count(log, t, last)
  {
    hide HitSlots, RingShows, SumBetween;
    var late := HitSlots(slots, last, t);
    assert (log + [t])[..|log|] == log && (log + [t])[|log|] == t;
    LastCounts(slots, log, last, t);
    if last - t < SLOTS {
      LateSum(slots, last, t, last);
      SumCounts(slots, log, last, last - SLOTS, t);
      CountSplit(log, last - SLOTS, t, last);
    }
  }

  /** The last hit lies after `t` and within the minute. */
  lemma LastCounts(slots: seq<nat>, log: seq<int>, last: nat, t: int)
    requires |slots| == SLOTS && RingShows(slots, log, last) && last > 0 && t < last
    ensures Count(log, t, last) >= 1 && Count(log, last - SLOTS, last) >= 1
  {
  }

  /** Between the minute's start and `upTo` the late ring still adds up the old slots, and the late hit with them. */
  lemma {:induction false} LateSum(slots: seq<nat>, last: nat, t: nat, upTo: int)
    requires |slots| == SLOTS && 0 < t < last < t + SLOTS && last - SLOTS <= upTo <= last
    ensures SumBetween(HitSlots(slots, last, t), t, last - SLOTS, upTo)
         == SumBetween(slots, last, last - SLOTS, if upTo < t then upTo else t) + if upTo < t then 0 else 1
    decreases upTo - last + SLOTS
  {
    hide HitSlots;
    if upTo > last - SLOTS {
      LateSum(slots, last, t, upTo - 1);
      LateSlot(slots, last, t, upTo % SLOTS);
      if upTo <= t && upTo % SLOTS == t % SLOTS {
        SlotUnique(upTo, t);
      }
    }
  }

  lemma LateSlot(slots: seq<nat>, last: nat, t: nat, i: nat)
    requires |slots| == SLOTS && 0 < t < last < t + SLOTS && i < SLOTS
    ensures HitSlots(slots, last, t)[i] == slots[i] + if i == t % SLOTS then 1 else 0
  {
  }
}
