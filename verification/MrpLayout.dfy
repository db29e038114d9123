/** The bytes an MRP PDU is made of, as a relation; the decoder accepts exactly what is laid out so. */
module MrpLayout {
  import opened Wrappers
  import opened Bytes
  import opened MrpParser

  function Word(data: seq<byte>, pos: nat): nat
    requires pos + 2 <= |data|
  {
    256 * data[pos] as int + data[pos + 1]
  }

  predicate Span(data: seq<byte>, pos: int, end: int, bytes: seq<byte>) {
    0 <= pos <= end <= |data| && data[pos..end] == bytes
  }

  /** A vector: a word that is not zero, of which three bits tell LeaveAll and thirteen the number of values, at most
      4096; the first value; events three to a byte; for MSRP listeners states four to a byte. */
  predicate VectorLaid(data: seq<byte>, pos: nat, isMsrp: bool, attrType: byte, attrLen: byte, v: MrpVector, end: nat) {
    && pos + 2 <= |data| && Word(data, pos) != 0
    && v.numValues == Word(data, pos) % 8192 && v.numValues <= 4096
    && (v.leaveAll <==> Word(data, pos) / 8192 == 1)
    && var first := pos + 2; var three := first + attrLen; var four := three + (v.numValues + 2) / 3;
       && Span(data, first, three, v.firstValue) && Span(data, three, four, v.threePacked)
       && Span(data, four, end, v.fourPacked)
       && end == four + if isMsrp && attrType == 3 then (v.numValues + 3) / 4 else 0
  }

  /** A list ends with a zero word, at its declared end, or where the frame has less than two bytes left. */
  predicate ListEnds(data: seq<byte>, pos: nat, isMsrp: bool, listEnd: nat, end: nat) {
    if pos + 2 > |data| || (isMsrp && pos >= listEnd) then end == pos <= |data|
    else Word(data, pos) == 0 && end == pos + 2
  }

  /** Where a vector at `pos` ends, by its own number of values. */
  function NextAfter(pos: nat, isMsrp: bool, attrType: byte, attrLen: byte, v: MrpVector): nat {
    pos + 2 + attrLen + (v.numValues + 2) / 3 + if isMsrp && attrType == 3 then (v.numValues + 3) / 4 else 0
  }

  predicate VectorsLaid(data: seq<byte>, pos: nat, isMsrp: bool, attrType: byte, attrLen: byte, listEnd: nat,
                        vs: seq<MrpVector>, end: nat)
    decreases |vs|
  {
    if vs == [] then ListEnds(data, pos, isMsrp, listEnd, end)
    else
      && (isMsrp ==> pos < listEnd)
      && var next := NextAfter(pos, isMsrp, attrType, attrLen, vs[0]);
         && VectorLaid(data, pos, isMsrp, attrType, attrLen, vs[0], next)
         && VectorsLaid(data, next, isMsrp, attrType, attrLen, listEnd, vs[1..], end)
  }

  predicate StaysWithin(data: seq<byte>, pos: nat, m: MrpMessage, last: nat, end: nat) {
    last <= end && VectorsLaid(data, pos + 4, true, m.attrType, m.attrLen, end, m.vectors, last)
  }

  /** A message: a type that is not zero, an attribute length of 1 to 64, for MSRP a list length, and the list; an
      MSRP list stays within its declared length, which is skipped to its end. */
  ghost predicate MessageLaid(data: seq<byte>, pos: nat, isMsrp: bool, m: MrpMessage, end: nat) {
    && pos + 2 <= |data| && m.attrType == data[pos] != 0 && m.attrLen == data[pos + 1] && 1 <= m.attrLen <= 64
    && if isMsrp then
         && pos + 4 <= |data| && end == pos + 4 + Word(data, pos + 2) && end <= |data|
         && exists last: nat :: StaysWithin(data, pos, m, last, end)
       else VectorsLaid(data, pos + 2, false, m.attrType, m.attrLen, 0, m.vectors, end)
  }

  /** At most 256 messages, ended by a zero type or where the frame has less than two bytes left. */
  ghost predicate MessagesLaid(data: seq<byte>, pos: nat, isMsrp: bool, ms: seq<MrpMessage>, end: nat)
    decreases |ms|
  {
    if ms == [] then
      if pos + 2 > |data| then end == pos <= |data| else data[pos] == 0 && end == pos + 1
    else
      exists next :: MessageLaid(data, pos, isMsrp, ms[0], next) && MessagesLaid(data, next, isMsrp, ms[1..], end)
  }

  ghost predicate PduLaid(data: seq<byte>, pos: nat, isMsrp: bool, pdu: MrpPdu, end: nat) {
    && pos < |data| && pdu.version == data[pos] && |pdu.messages| <= 256
    && MessagesLaid(data, pos + 1, isMsrp, pdu.messages, end)
  }

  // ---- the decoder finds exactly this ----

  lemma VectorExact(data: seq<byte>, pos: nat, isMsrp: bool, attrType: byte, attrLen: byte, v: MrpVector, end: nat)
    requires pos + 2 <= |data| && U16At(data, pos) != 0
    ensures ParseVector(data, pos + 2, isMsrp, attrType, attrLen, U16At(data, pos)) == Success((v, end)) <==>
              VectorLaid(data, pos, isMsrp, attrType, attrLen, v, end)
  {
    hide TakeAt, Span;
    var four := if isMsrp && attrType == 3 then (v.numValues + 3) / 4 else 0;
    SpanTaken(data, pos + 2, attrLen, v.firstValue);
    SpanTaken(data, pos + 2 + attrLen, (v.numValues + 2) / 3, v.threePacked);
    SpanTaken(data, pos + 2 + attrLen + (v.numValues + 2) / 3, four, v.fourPacked);
  }

  lemma SpanTaken(data: seq<byte>, pos: nat, n: nat, bytes: seq<byte>)
    ensures TakeAt(data, pos, n) == Success(bytes) <==> Span(data, pos, pos + n, bytes)
  {
  }

  lemma {:induction false} VectorsExact(
      data: seq<byte>, pos: nat, isMsrp: bool, attrType: byte, attrLen: byte, listEnd: nat, have: seq<MrpVector>,
      vs: seq<MrpVector>, end: nat)
    requires pos <= |data|
    ensures ParseVectors(data, pos, isMsrp, attrType, attrLen, listEnd, have) == Success((have + vs, end)) <==>
              VectorsLaid(data, pos, isMsrp, attrType, attrLen, listEnd, vs, end)
    decreases |data| - pos
  {
    hide ParseVector, VectorLaid;
    if pos + 2 > |data| || (isMsrp && pos >= listEnd) || Word(data, pos) == 0 {
      assert have + vs == have <==> vs == [];
      NoVector(data, pos, isMsrp, attrType, attrLen, listEnd, vs, end);
    } else {
      var r := ParseVector(data, pos + 2, isMsrp, attrType, attrLen, U16At(data, pos));
      if r.Success? {
        var (v, next) := r.value;
        VectorExact(data, pos, isMsrp, attrType, attrLen, v, next);
        LaidEnd(data, pos, isMsrp, attrType, attrLen, v, next);
        ParsedMore(data, next, isMsrp, attrType, attrLen, listEnd, have + [v]);
        if vs != [] {
          var claimed := NextAfter(pos, isMsrp, attrType, attrLen, vs[0]);
          if VectorLaid(data, pos, isMsrp, attrType, attrLen, vs[0], claimed) {
            OneLayout(data, pos, isMsrp, attrType, attrLen, v, vs[0]);
          }
          if vs[0] == v {
            VectorsExact(data, next, isMsrp, attrType, attrLen, listEnd, have + [v], vs[1..], end);
            assert have + [v] + vs[1..] == have + vs;
          } else {
            assert (have + vs)[|have|] == vs[0] && (have + [v])[|have|] == v;
          }
        } else {
          assert have + vs == have;
        }
      } else if vs != [] {
        VectorExact(data, pos, isMsrp, attrType, attrLen, vs[0], NextAfter(pos, isMsrp, attrType, attrLen, vs[0]));
      }
    }
  }

  lemma NoVector(data: seq<byte>, pos: nat, isMsrp: bool, attrType: byte, attrLen: byte, listEnd: nat,
                 vs: seq<MrpVector>, end: nat)
    requires pos <= |data| && (pos + 2 > |data| || (isMsrp && pos >= listEnd) || Word(data, pos) == 0)
    ensures vs != [] ==> !VectorsLaid(data, pos, isMsrp, attrType, attrLen, listEnd, vs, end)
  {
  }

  lemma LaidEnd(data: seq<byte>, pos: nat, isMsrp: bool, attrType: byte, attrLen: byte, v: MrpVector, end: nat)
    requires VectorLaid(data, pos, isMsrp, attrType, attrLen, v, end)
    ensures end == NextAfter(pos, isMsrp, attrType, attrLen, v) <= |data|
  {
  }

  /** Bytes lay out one vector only. */
  lemma OneLayout(data: seq<byte>, pos: nat, isMsrp: bool, attrType: byte, attrLen: byte, v: MrpVector, w: MrpVector)
    requires exists end: nat :: VectorLaid(data, pos, isMsrp, attrType, attrLen, v, end)
    ensures (exists end: nat :: VectorLaid(data, pos, isMsrp, attrType, attrLen, w, end)) ==> w == v
  {
  }

  /** The loop only adds to what it has. */
  lemma {:induction false} ParsedMore(
      data: seq<byte>, pos: nat, isMsrp: bool, attrType: byte, attrLen: byte, listEnd: nat, have: seq<MrpVector>)
    requires pos <= |data|
    ensures var r := ParseVectors(data, pos, isMsrp, attrType, attrLen, listEnd, have); r.Success? ==> have <= r.value.0
    decreases |data| - pos
  {
    hide ParseVector;
    if pos + 2 <= |data| && !(isMsrp && pos >= listEnd) && U16At(data, pos) != 0 {
      var r := ParseVector(data, pos + 2, isMsrp, attrType, attrLen, U16At(data, pos));
      if r.Success? {
        ParsedMore(data, r.value.1, isMsrp, attrType, attrLen, listEnd, have + [r.value.0]);
      }
    }
  }

  lemma MessageExact(data: seq<byte>, pos: nat, isMsrp: bool, m: MrpMessage, end: nat)
    requires pos + 2 <= |data| && data[pos] != 0
    ensures ParseMessage(data, pos + 1, isMsrp, data[pos]) == Success((m, end)) <==>
              MessageLaid(data, pos, isMsrp, m, end)
  {
    hide ParseVectors, VectorsLaid;
    var attrLen := data[pos + 1];
    if isMsrp && pos + 4 <= |data| {
      var listEnd := pos + 4 + Word(data, pos + 2);
      var r := ParseVectors(data, pos + 4, true, data[pos], attrLen, listEnd, []);
      assert [] + m.vectors == m.vectors;
      if r.Success? {
        VectorsExact(data, pos + 4, true, data[pos], attrLen, listEnd, [], r.value.0, r.value.1);
        assert [] + r.value.0 == r.value.0;
        if ParseMessage(data, pos + 1, isMsrp, data[pos]) == Success((m, end)) {
          assert StaysWithin(data, pos, m, r.value.1, end);
        }
      }
      if MessageLaid(data, pos, isMsrp, m, end) {
        var last: nat :| StaysWithin(data, pos, m, last, end);
        VectorsExact(data, pos + 4, true, data[pos], attrLen, listEnd, [], m.vectors, last);
      }
    } else if !isMsrp {
      assert [] + m.vectors == m.vectors;
      VectorsExact(data, pos + 2, false, data[pos], attrLen, 0, [], m.vectors, end);
    }
  }

  lemma {:induction false} MessagesExact(data: seq<byte>, pos: nat, isMsrp: bool, have: seq<MrpMessage>,
                                         ms: seq<MrpMessage>, end: nat)
    requires pos <= |data| && |have| <= 256
    ensures ParseMessages(data, pos, isMsrp, have) == Success((have + ms, end)) <==>
              MessagesLaid(data, pos, isMsrp, ms, end) && |have + ms| <= 256
    decreases |data| - pos
  {
    hide ParseMessage, MessageLaid;
    if pos + 2 > |data| || data[pos] == 0 {
      assert have + ms == have <==> ms == [];
      assert ms != [] ==> !MessagesLaid(data, pos, isMsrp, ms, end) by {
        NoMessage(data, pos, isMsrp, ms, end);
      }
    } else {
      var r := ParseMessage(data, pos + 1, isMsrp, data[pos]);
      forall m, next: nat
        ensures r == Success((m, next)) <==> MessageLaid(data, pos, isMsrp, m, next)
      {
        MessageExact(data, pos, isMsrp, m, next);
      }
      if r.Success? {
        var (m, next) := r.value;
        if |have| < 256 {
          MoreMessages(data, next, isMsrp, have + [m]);
          if ms != [] && ms[0] == m {
            MessagesExact(data, next, isMsrp, have + [m], ms[1..], end);
            assert have + [m] + ms[1..] == have + ms;
          } else if ms != [] {
            assert (have + ms)[|have|] == ms[0] && (have + [m])[|have|] == m;
          } else {
            assert have + ms == have;
          }
        }
      }
    }
  }

  lemma NoMessage(data: seq<byte>, pos: nat, isMsrp: bool, ms: seq<MrpMessage>, end: nat)
    requires pos <= |data| && (pos + 2 > |data| || data[pos] == 0)
    ensures ms != [] ==> !MessagesLaid(data, pos, isMsrp, ms, end)
  {
  }

  lemma {:induction false} MoreMessages(data: seq<byte>, pos: nat, isMsrp: bool, have: seq<MrpMessage>)
    requires pos <= |data|
    ensures var r := ParseMessages(data, pos, isMsrp, have); r.Success? ==> have <= r.value.0
    decreases |data| - pos
  {
    hide ParseMessage;
    if pos + 2 <= |data| && data[pos] != 0 {
      var r := ParseMessage(data, pos + 1, isMsrp, data[pos]);
      if r.Success? {
        MoreMessages(data, r.value.1, isMsrp, have + [r.value.0]);
      }
    }
  }

  /** On any bytes, from any position: the decoder accepts a PDU and stops at a position exactly if the bytes up to
      it are laid out as that PDU, so in particular it refuses whatever is not laid out as one. */
  lemma PduExact(data: seq<byte>, pos: nat, isMsrp: bool, pdu: MrpPdu, end: nat)
    requires pos <= |data|
    ensures ParsePdu(data, pos, isMsrp) == Success((pdu, end)) <==> PduLaid(data, pos, isMsrp, pdu, end)
  {
    hide ParseMessages, MessagesLaid;
    if pos < |data| {
      assert [] + pdu.messages == pdu.messages;
      MessagesExact(data, pos + 1, isMsrp, [], pdu.messages, end);
    }
  }
}
