/** Partitioned parallel decode: any interleaving of the workers yields the sequential decode. */
module ParallelDecode {
  import opened Wrappers
  import Bytes

  const MIN_CHUNK := 512

  function CeilDiv(a: nat, b: nat): nat
    requires b > 0
  {
    (a + b - 1) / b
  }

  /** `hardware` is what the system reports, possibly zero. */
  function Workers(count: nat, hardware: nat): (w: nat)
    requires count > 0
    ensures w > 0
  {
    Min(if hardware == 0 then 1 else hardware, CeilDiv(count, MIN_CHUNK))
  }

  /** As many workers as there are cores, at least one, but none without 512 packets before it. */
  lemma WorkersExact(count: nat, hardware: nat)
    requires count > 0
    ensures var w := Workers(count, hardware);
            && 1 <= w && (w <= hardware || w == 1) && (w - 1) * 512 < count
            && (w < hardware ==> w * 512 >= count)
  {
    CeilDivCovers(count, 512);
  }

  datatype Slice = Slice(begin: nat, end: nat)

  function SliceOf(count: nat, workers: nat, w: nat): Slice
    requires workers > 0
  {
    var chunk := CeilDiv(count, workers);
    Slice(w * chunk, Min(count, w * chunk + chunk))
  }

  lemma CeilDivCovers(a: nat, b: nat)
    requires b > 0
    ensures a <= b * CeilDiv(a, b) && (a > 0 ==> CeilDiv(a, b) > 0)
  {
    var q, r := (a + b - 1) / b, (a + b - 1) % b;
    assert a + b - 1 == q * b + r;
    assert a > 0 ==> q > 0;
  }

  /** The worker responsible for index `i`. */
  function OwnerOf(count: nat, workers: nat, i: nat): nat
    requires workers > 0 && i < count
  {
    CeilDivCovers(count, workers);
    i / CeilDiv(count, workers)
  }

  /** Every index lies in exactly one worker's slice, and slices past the first empty one are empty. */
  lemma SlicesPartition(count: nat, workers: nat, i: nat, w: nat)
    requires workers > 0 && i < count
    ensures OwnerOf(count, workers, i) < workers
    ensures SliceOf(count, workers, w).begin <= i < SliceOf(count, workers, w).end <==> w == OwnerOf(count, workers, i)
  {
    CeilDivCovers(count, workers);
    var chunk := CeilDiv(count, workers);
    var q, r := i / chunk, i % chunk;
    assert i == q * chunk + r;
    LessMul(q, workers, chunk, i);
    if w * chunk <= i < w * chunk + chunk {
      SameQuotient(i, chunk, w, q);
    }
    if w == q {
      assert w * chunk == q * chunk;
    }
  }

  lemma LessMul(q: nat, workers: nat, chunk: nat, i: nat)
    requires q * chunk <= i < workers * chunk
    ensures q < workers
  {
    assert q >= workers ==> (q - workers) * chunk >= 0;
  }

  lemma SameQuotient(i: nat, chunk: nat, a: nat, b: nat)
    requires chunk > 0 && a * chunk <= i < a * chunk + chunk && b * chunk <= i < b * chunk + chunk
    ensures a == b
  {
    Distribute(b, a, chunk);
    Bytes.SmallMultiple(b - a, chunk);
  }

  lemma Distribute(a: int, b: int, c: int)
    ensures (a - b) * c == a * c - b * c
  {
  }

  lemma EmptySlicesLast(count: nat, workers: nat, w: nat, v: nat)
    requires workers > 0 && w <= v && SliceOf(count, workers, w).begin >= SliceOf(count, workers, w).end
    ensures SliceOf(count, workers, v).begin >= SliceOf(count, workers, v).end
  {
    hide CeilDiv;
    CeilDivCovers(count, workers);
    var chunk := CeilDiv(count, workers);
    Distribute(v, w, chunk);
    ProductNonNegative(v - w, chunk);
  }

  lemma ProductNonNegative(a: nat, b: nat)
    ensures a * b >= 0
  {
  }

  // ---- interleavings ----

  /** What is stored for each packet, and how far each worker has come. */
  datatype Decoding<D> = Decoding(decoded: seq<Option<D>>, cursor: seq<nat>)

  function Begin<D>(count: nat, workers: nat): Decoding<D>
    requires workers > 0
  {
    Decoding(seq(count, i => None), seq(workers, w requires 0 <= w < workers => SliceOf(count, workers, w).begin))
  }

  predicate Shape<D>(s: Decoding<D>, count: nat, workers: nat) {
    workers > 0 && |s.decoded| == count && |s.cursor| == workers
  }

  /** Worker `w` decodes its next packet, if it has one left. */
  function Advance<D>(s: Decoding<D>, count: nat, workers: nat, decode: nat -> D, w: nat): (s': Decoding<D>)
    requires Shape(s, count, workers)
    ensures Shape(s', count, workers)
  {
    if w < workers && s.cursor[w] < SliceOf(count, workers, w).end && s.cursor[w] < count
    then Decoding(s.decoded[s.cursor[w] := Some(decode(s.cursor[w]))], s.cursor[w := s.cursor[w] + 1])
    else s
  }

  function RunSchedule<D>(
      s: Decoding<D>, count: nat, workers: nat, decode: nat -> D, schedule: seq<nat>): (s': Decoding<D>)
    requires Shape(s, count, workers)
    ensures Shape(s', count, workers)
    decreases |schedule|
  {
    if schedule == [] then s
    else RunSchedule(Advance(s, count, workers, decode, schedule[0]), count, workers, decode, schedule[1..])
  }

  /** Exactly the packets a worker has passed are decoded, each to its own result. */
  ghost predicate Decoded<D>(s: Decoding<D>, count: nat, workers: nat, decode: nat -> D) {
    && Shape(s, count, workers)
    && (forall w :: 0 <= w < workers ==> s.cursor[w] >= SliceOf(count, workers, w).begin)
    && forall i :: 0 <= i < count ==>
         var w := OwnerOf(count, workers, i);
         w < workers && s.decoded[i] == if i < s.cursor[w] then Some(decode(i)) else None
  }

  lemma AdvanceKeeps<D>(s: Decoding<D>, count: nat, workers: nat, decode: nat -> D, w: nat)
    requires Decoded(s, count, workers, decode)
    ensures Decoded(Advance(s, count, workers, decode, w), count, workers, decode)
  {
    hide SliceOf, OwnerOf;
    var s' := Advance(s, count, workers, decode, w);
    if s' != s {
      var at := s.cursor[w];
      forall i | 0 <= i < count
        ensures var v := OwnerOf(count, workers, i);
                v < workers && s'.decoded[i] == if i < s'.cursor[v] then Some(decode(i)) else None
      {
        SlicesPartition(count, workers, i, w);
        SlicesPartition(count, workers, at, w);
      }
    }
  }

  lemma {:induction false} ScheduleKeeps<D>(
      s: Decoding<D>, count: nat, workers: nat, decode: nat -> D, schedule: seq<nat>)
    requires Decoded(s, count, workers, decode)
    ensures Decoded(RunSchedule(s, count, workers, decode, schedule), count, workers, decode)
    decreases |schedule|
  {
    hide Decoded, Advance;
    if schedule != [] {
      DecodedShape(s, count, workers, decode);
      AdvanceKeeps(s, count, workers, decode, schedule[0]);
      DecodedShape(Advance(s, count, workers, decode, schedule[0]), count, workers, decode);
      ScheduleKeeps(Advance(s, count, workers, decode, schedule[0]), count, workers, decode, schedule[1..]);
    }
  }

  lemma DecodedShape<D>(s: Decoding<D>, count: nat, workers: nat, decode: nat -> D)
    requires Decoded(s, count, workers, decode)
    ensures Shape(s, count, workers)
  {
  }

  lemma BeginDecoded<D>(count: nat, workers: nat, decode: nat -> D)
    requires workers > 0
    ensures Decoded(Begin<D>(count, workers), count, workers, decode)
  {
    hide SliceOf, OwnerOf;
    forall i | 0 <= i < count
      ensures var w := OwnerOf(count, workers, i); w < workers && i >= SliceOf(count, workers, w).begin
    {
      SlicesPartition(count, workers, i, OwnerOf(count, workers, i));
    }
  }

  /** Once every worker has reached the end of its slice, the buffer is the sequential decode, whatever the schedule. */
  lemma AnyScheduleDecodesAll<D>(count: nat, hardware: nat, decode: nat -> D, schedule: seq<nat>)
    requires count > 0
    ensures var workers := Workers(count, hardware);
            var s := RunSchedule(Begin<D>(count, workers), count, workers, decode, schedule);
            (forall w :: 0 <= w < workers ==> s.cursor[w] >= SliceOf(count, workers, w).end) ==>
              s.decoded == seq(count, (i: nat) => Some(decode(i)))
  {
    hide Begin, SliceOf, OwnerOf, Workers;
    var workers := Workers(count, hardware);
    BeginDecoded(count, workers, decode);
    ScheduleKeeps(Begin<D>(count, workers), count, workers, decode, schedule);
    var s := RunSchedule(Begin<D>(count, workers), count, workers, decode, schedule);
    if forall w :: 0 <= w < workers ==> s.cursor[w] >= SliceOf(count, workers, w).end {
      forall i | 0 <= i < count
        ensures s.decoded[i] == Some(decode(i))
      {
        SlicesPartition(count, workers, i, OwnerOf(count, workers, i));
      }
    }
  }
}
