/** The MRP PDU walk of the decoder (backend/src/decode/decode.cpp). */
module MrpParser {
  import opened Wrappers
  import opened Bytes

  const MAX_VECTOR_VALUES := 4096
  const MAX_MESSAGES := 256
  const MAX_ATTR_LEN := 64

  datatype MrpVector = MrpVector(
    leaveAll: bool,
    numValues: nat,
    firstValue: seq<byte>,
    threePacked: seq<byte>,
    fourPacked: seq<byte>)

  datatype MrpMessage = MrpMessage(attrType: byte, attrLen: byte, vectors: seq<MrpVector>)

  datatype MrpPdu = MrpPdu(version: byte, messages: seq<MrpMessage>)

  /** What every accepted vector satisfies; expansion indexes into the packed bytes on the strength of it. */
  predicate WfVector(v: MrpVector, isMsrp: bool, attrType: byte, attrLen: byte) {
    && v.numValues <= MAX_VECTOR_VALUES
    && |v.firstValue| == attrLen
    && |v.threePacked| == (v.numValues + 2) / 3
    && |v.fourPacked| == if isMsrp && attrType == 3 then (v.numValues + 3) / 4 else 0
  }

  ghost predicate WfMessage(m: MrpMessage, isMsrp: bool) {
    && m.attrType != 0
    && 1 <= m.attrLen <= MAX_ATTR_LEN
    && forall v :: v in m.vectors ==> WfVector(v, isMsrp, m.attrType, m.attrLen)
  }

  ghost predicate WfMessages(msgs: seq<MrpMessage>, isMsrp: bool) {
    && |msgs| <= MAX_MESSAGES
    && forall m :: m in msgs ==> WfMessage(m, isMsrp)
  }

  // ---- the specification: what is parsed from position `pos`, and where the parse stops ----

  function TakeAt(data: seq<byte>, pos: nat, n: nat): (r: Result<seq<byte>>)
    ensures r.Success? <==> pos + n <= |data|
    ensures r.Success? ==> |r.value| == n
  {
    if pos + n <= |data| then Success(data[pos..pos + n]) else Failure
  }

  /** One vector whose non-zero header word has just been read. */
  function ParseVector(data: seq<byte>, pos: nat, isMsrp: bool, attrType: byte, attrLen: byte, header: nat)
    : (r: Result<(MrpVector, nat)>)
    requires IsU16(header) && pos <= |data|
    ensures r.Success? ==> pos <= r.value.1 <= |data| && WfVector(r.value.0, isMsrp, attrType, attrLen)
  {
    var n := header % 0x2000;
    if n > MAX_VECTOR_VALUES then Failure
    else
      var firstValue :- TakeAt(data, pos, attrLen);
      var p := pos + attrLen;
      var three :- TakeAt(data, p, (n + 2) / 3);
      var q := p + (n + 2) / 3;
      var four :- TakeAt(data, q, if isMsrp && attrType == 3 then (n + 3) / 4 else 0);
      Success((MrpVector((header / 0x2000) % 8 == 1, n, firstValue, three, four), q + |four|))
  }

  /** The vector loop with `have` vectors already collected; `vecEnd` bounds it only for MSRP. */
  function ParseVectors(data: seq<byte>, pos: nat, isMsrp: bool, attrType: byte, attrLen: byte, vecEnd: nat,
                        have: seq<MrpVector>)
    : (r: Result<(seq<MrpVector>, nat)>)
    requires pos <= |data|
    ensures r.Success? ==> pos <= r.value.1 <= |data|
    decreases |data| - pos
  {
    if |data| - pos < 2 || (isMsrp && pos >= vecEnd) then Success((have, pos))
    else
      var header := U16At(data, pos);
      if header == 0 then Success((have, pos + 2))
      else
        var v :- ParseVector(data, pos + 2, isMsrp, attrType, attrLen, header);
        ParseVectors(data, v.1, isMsrp, attrType, attrLen, vecEnd, have + [v.0])
  }

  /** One message whose non-zero attribute type has just been read. */
  function ParseMessage(data: seq<byte>, pos: nat, isMsrp: bool, attrType: byte): (r: Result<(MrpMessage, nat)>)
    requires pos <= |data| && attrType != 0
    ensures r.Success? ==> pos < r.value.1 <= |data|
  {
    if pos == |data| then Failure
    else
    var attrLen := data[pos];
    if attrLen == 0 || attrLen > MAX_ATTR_LEN then Failure
    else if !isMsrp then
      var vs :- ParseVectors(data, pos + 1, false, attrType, attrLen, 0, []);
      Success((MrpMessage(attrType, attrLen, vs.0), vs.1))
    else if |data| - (pos + 1) < 2 then Failure
    else
      var listLen := U16At(data, pos + 1);
      if listLen > |data| - (pos + 3) then Failure
      else
        var vecEnd := pos + 3 + listLen;
        var vs :- ParseVectors(data, pos + 3, true, attrType, attrLen, vecEnd, []);
        if vs.1 > vecEnd then Failure
        else Success((MrpMessage(attrType, attrLen, vs.0), vecEnd))
  }

  /** The message loop with `have` messages already collected. */
  function ParseMessages(data: seq<byte>, pos: nat, isMsrp: bool, have: seq<MrpMessage>)
    : (r: Result<(seq<MrpMessage>, nat)>)
    requires pos <= |data|
    ensures r.Success? ==> pos <= r.value.1 <= |data|
    decreases |data| - pos
  {
    if |data| - pos < 2 then Success((have, pos))
    else if data[pos] == 0 then Success((have, pos + 1))
    else
      var m :- ParseMessage(data, pos + 1, isMsrp, data[pos]);
      if |have| + 1 > MAX_MESSAGES then Failure
      else ParseMessages(data, m.1, isMsrp, have + [m.0])
  }

  function ParsePdu(data: seq<byte>, pos: nat, isMsrp: bool): (r: Result<(MrpPdu, nat)>)
    requires pos <= |data|
    ensures r.Success? ==> pos < r.value.1 <= |data|
  {
    if pos == |data| then Failure
    else
      var ms :- ParseMessages(data, pos + 1, isMsrp, []);
      Success((MrpPdu(data[pos], ms.0), ms.1))
  }

  lemma {:induction false} VectorsWellFormed(data: seq<byte>, pos: nat, isMsrp: bool, attrType: byte, attrLen: byte,
                                             vecEnd: nat, have: seq<MrpVector>)
    requires pos <= |data|
    requires forall v :: v in have ==> WfVector(v, isMsrp, attrType, attrLen)
    ensures var r := ParseVectors(data, pos, isMsrp, attrType, attrLen, vecEnd, have);
            r.Success? ==> forall v :: v in r.value.0 ==> WfVector(v, isMsrp, attrType, attrLen)
    decreases |data| - pos
  {
    if |data| - pos >= 2 && (!isMsrp || pos < vecEnd) && U16At(data, pos) != 0 {
      var first := ParseVector(data, pos + 2, isMsrp, attrType, attrLen, U16At(data, pos));
      if first.Success? {
        VectorsWellFormed(data, first.value.1, isMsrp, attrType, attrLen, vecEnd, have + [first.value.0]);
      }
    }
  }

  lemma MessageWellFormed(data: seq<byte>, pos: nat, isMsrp: bool, attrType: byte)
    requires pos <= |data| && attrType != 0
    ensures var r := ParseMessage(data, pos, isMsrp, attrType); r.Success? ==> WfMessage(r.value.0, isMsrp)
  {
    if pos < |data| {
      if !isMsrp {
        VectorsWellFormed(data, pos + 1, false, attrType, data[pos], 0, []);
      } else if |data| - pos >= 3 {
        VectorsWellFormed(data, pos + 3, true, attrType, data[pos], pos + 3 + U16At(data, pos + 1), []);
      }
    }
  }

  lemma {:induction false} MessagesWellFormed(data: seq<byte>, pos: nat, isMsrp: bool, have: seq<MrpMessage>)
    requires pos <= |data| && WfMessages(have, isMsrp)
    ensures var r := ParseMessages(data, pos, isMsrp, have); r.Success? ==> WfMessages(r.value.0, isMsrp)
    decreases |data| - pos
  {
    if |data| - pos >= 2 && data[pos] != 0 {
      MessageWellFormed(data, pos + 1, isMsrp, data[pos]);
      var first := ParseMessage(data, pos + 1, isMsrp, data[pos]);
      if first.Success? && |have| < MAX_MESSAGES {
        MessagesWellFormed(data, first.value.1, isMsrp, have + [first.value.0]);
      }
    }
  }

  /** Every accepted PDU is well formed, whatever the bytes. */
  lemma AcceptedPduWellFormed(data: seq<byte>, pos: nat, isMsrp: bool)
    requires pos <= |data| && ParsePdu(data, pos, isMsrp).Success?
    ensures WfMessages(ParsePdu(data, pos, isMsrp).value.0.messages, isMsrp)
  {
    MessagesWellFormed(data, pos + 1, isMsrp, []);
  }

  // ---- the loops of the decoder ----

  method ReadVector(r: BeReader, isMsrp: bool, attrType: byte, attrLen: byte, header: nat)
    returns (res: Result<MrpVector>)
    requires r.Valid() && IsU16(header)
    modifies r`pos
    ensures r.Valid()
    ensures match ParseVector(r.data, old(r.pos), isMsrp, attrType, attrLen, header)
            case Failure => res.Failure?
            case Success((v, next)) => res == Success(v) && r.pos == next
  {
    var leaveAll := (header / 0x2000) % 8 == 1;
    var numValues := header % 0x2000;
    if numValues > MAX_VECTOR_VALUES {
      return Failure;
    }
    var firstValue :- r.Take(attrLen);
    var three :- r.Take((numValues + 2) / 3);
    var four: seq<byte> := [];
    if isMsrp && attrType == 3 {
      four :- r.Take((numValues + 3) / 4);
    }
    res := Success(MrpVector(leaveAll, numValues, firstValue, three, four));
  }

  method ReadVectors(r: BeReader, isMsrp: bool, attrType: byte, attrLen: byte, vecEnd: nat)
    returns (res: Result<seq<MrpVector>>)
    requires r.Valid()
    modifies r`pos
    ensures r.Valid()
    ensures match ParseVectors(r.data, old(r.pos), isMsrp, attrType, attrLen, vecEnd, [])
            case Failure => res.Failure?
            case Success((vs, next)) => res == Success(vs) && r.pos == next
  {
    hide ParseVector;
    var vectors := [];
    while r.Remaining() >= 2 && (!isMsrp || r.pos < vecEnd)
      invariant r.Valid()
      invariant ParseVectors(r.data, old(r.pos), isMsrp, attrType, attrLen, vecEnd, []) ==
                ParseVectors(r.data, r.pos, isMsrp, attrType, attrLen, vecEnd, vectors)
      decreases r.Remaining()
    {
      var header := r.U16();
      if header.value == 0 {
        return Success(vectors);
      }
      var v :- ReadVector(r, isMsrp, attrType, attrLen, header.value);
      vectors := vectors + [v];
    }
    res := Success(vectors);
  }

  method ReadMessage(r: BeReader, isMsrp: bool, attrType: byte) returns (res: Result<MrpMessage>)
    requires r.Valid() && attrType != 0
    modifies r`pos
    ensures r.Valid()
    ensures match ParseMessage(r.data, old(r.pos), isMsrp, attrType)
            case Failure => res.Failure?
            case Success((m, next)) => res == Success(m) && r.pos == next
  {
    var attrLen :- r.U8();
    if attrLen == 0 || attrLen > MAX_ATTR_LEN {
      return Failure;
    }
    var vecEnd := 0;
    if isMsrp {
      var listLen :- r.U16();
      if listLen > r.Remaining() {
        return Failure;
      }
      vecEnd := r.pos + listLen;
    }
    var vectors :- ReadVectors(r, isMsrp, attrType, attrLen, vecEnd);
    if isMsrp {
      if r.pos > vecEnd {
        return Failure;
      }
      var skipped := r.Skip(vecEnd - r.pos);
    }
    res := Success(MrpMessage(attrType, attrLen, vectors));
  }

  /** Total on every byte string: the walk ends, the cursor stays in range and the result is well formed. */
  method ParseMrpPdu(r: BeReader, isMsrp: bool) returns (res: Result<MrpPdu>)
    requires r.Valid()
    modifies r`pos
    ensures r.Valid()
    ensures match ParsePdu(r.data, old(r.pos), isMsrp)
            case Failure => res.Failure?
            case Success((pdu, next)) => res == Success(pdu) && r.pos == next
    ensures res.Success? ==> WfMessages(res.value.messages, isMsrp)
  {
    hide ParseMessage;
    ghost var start := r.pos;
    var version :- r.U8();
    var msgs := [];
    while r.Remaining() >= 2
      invariant r.Valid()
      invariant ParseMessages(r.data, start + 1, isMsrp, []) == ParseMessages(r.data, r.pos, isMsrp, msgs)
      decreases r.Remaining()
    {
      var attrType := r.U8();
      if attrType.value == 0 {
        break;
      }
      var m :- ReadMessage(r, isMsrp, attrType.value);
      msgs := msgs + [m];
      if |msgs| > MAX_MESSAGES {
        return Failure;
      }
    }
    res := Success(MrpPdu(version, msgs));
    AcceptedPduWellFormed(r.data, start, isMsrp);
  }
}
