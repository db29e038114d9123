/** Decoding inverts encoding, and exactly when. */
module MrpRoundTrip {
  import opened Wrappers
  import opened Bytes
  import opened MrpEncoder
  import opened MrpParser

  // ---- packed events ----

  /** `threePackedEvent` of the decoder. */
  function ThreePackedEvent(packed: seq<byte>, k: nat): nat
    requires k / 3 < |packed|
  {
    var b := packed[k / 3];
    if k % 3 == 0 then b / 36 else if k % 3 == 1 then (b / 6) % 6 else b % 6
  }

  /** `fourPackedEvent` of the decoder: two bits per event, the first in the top bits. */
  function FourPackedEvent(packed: seq<byte>, k: nat): nat
    requires k / 4 < |packed|
  {
    var b := packed[k / 4];
    if k % 4 == 0 then b / 64 else if k % 4 == 1 then (b / 16) % 4 else if k % 4 == 2 then (b / 4) % 4 else b % 4
  }

  lemma ThreePackedInverse(events: seq<Event>, k: nat)
    requires k < |events|
    ensures ThreePackedEvent(PackThree(events), k) == events[k]
  {
    var g := k / 3;
    assert PackThree(events)[g] == PackThreeGroup(events, 3 * g);
    assert k == 3 * g || k == 3 * g + 1 || k == 3 * g + 2;
  }

  /** What fills up the last byte is zero. */
  lemma PaddingZero(events: seq<Event>, listeners: seq<FourPacked>, k: nat)
    ensures |events| <= k < 3 * |PackThree(events)| ==> ThreePackedEvent(PackThree(events), k) == 0
    ensures |listeners| <= k < 4 * |PackFour(listeners)| ==> FourPackedEvent(PackFour(listeners), k) == 0
  {
    if |events| <= k < 3 * |PackThree(events)| {
      assert PackThree(events)[k / 3] == PackThreeGroup(events, k / 3 * 3);
    }
    if |listeners| <= k < 4 * |PackFour(listeners)| {
      var i := k / 4 * 4;
      assert PackFour(listeners)[k / 4] == PackFourGroup(listeners, i);
      FourFields(Padded(listeners, i), Padded(listeners, i + 1), Padded(listeners, i + 2), Padded(listeners, i + 3));
    }
  }

  lemma FourFields(a: FourPacked, b: FourPacked, c: FourPacked, d: FourPacked)
    ensures var x := a * 64 + b * 16 + c * 4 + d;
            x / 64 == a && (x / 16) % 4 == b && (x / 4) % 4 == c && x % 4 == d
  {
    assert (a * 64 + b * 16 + c * 4 + d) / 16 == a * 4 + b;
    assert (a * 64 + b * 16 + c * 4 + d) / 4 == a * 16 + b * 4 + c;
  }

  lemma FourPackedInverse(events: seq<FourPacked>, k: nat)
    requires k < |events|
    ensures FourPackedEvent(PackFour(events), k) == events[k]
  {
    var i := k / 4 * 4;
    assert PackFour(events)[k / 4] == PackFourGroup(events, i);
    FourFields(Padded(events, i), Padded(events, i + 1), Padded(events, i + 2), Padded(events, i + 3));
  }

  /** The wire byte that makes the decoder report an event outside NEW..LV: event 6 is its LeaveAll code. */
  lemma ThreePackedAlias(b: byte, k: nat)
    requires k < 3
    ensures ThreePackedEvent([b], k) < 6 <==> (k == 0 ==> b < 216)
    ensures ThreePackedEvent([b], 0) == 6 <==> 216 <= b < 252
  {
  }

  // ---- what the parser must return for what the encoder was given ----

  function PackedVector(v: VectorSpec): MrpVector {
    MrpVector(v.leaveAll, |v.events|, v.firstValue, PackThree(v.events),
              FourBytes(v))
  }

  function PackedVectors(vs: seq<VectorSpec>): seq<MrpVector> {
    if vs == [] then [] else [PackedVector(vs[0])] + PackedVectors(vs[1..])
  }

  /** An empty vector without LeaveAll encodes the end mark. */
  predicate Visible(v: VectorSpec) {
    v.leaveAll || v.events != []
  }

  function VisiblePrefix(vs: seq<VectorSpec>): seq<VectorSpec> {
    if vs == [] || !Visible(vs[0]) then [] else [vs[0]] + VisiblePrefix(vs[1..])
  }

  function PackedMessage(m: MessageSpec): MrpMessage {
    MrpMessage(m.attrType, m.attrLen, PackedVectors(VisiblePrefix(m.vectors)))
  }

  function PackedMessages(msgs: seq<MessageSpec>): seq<MrpMessage> {
    if msgs == [] then [] else [PackedMessage(msgs[0])] + PackedMessages(msgs[1..])
  }

  /** The shape every caller of the encoder gives a vector. */
  predicate Shaped(v: VectorSpec, isMsrp: bool, attrType: byte, attrLen: byte) {
    && |v.firstValue| == attrLen
    && (v.listeners.Some? <==> isMsrp && attrType == 3)
    && (v.listeners.Some? ==> |v.listeners.value| == |v.events|)
  }

  ghost predicate ShapedVectors(vs: seq<VectorSpec>, isMsrp: bool, attrType: byte, attrLen: byte) {
    forall v :: v in vs ==> Shaped(v, isMsrp, attrType, attrLen)
  }

  ghost predicate SmallVectors(vs: seq<VectorSpec>) {
    forall v :: v in vs ==> |v.events| <= 4096
  }

  /** The limits the decoder enforces on one message. */
  ghost predicate Acceptable(m: MessageSpec) {
    && m.attrType != 0
    && 1 <= m.attrLen <= 64
    && SmallVectors(m.vectors)
  }

  // ---- one vector, one list, one message, one PDU ----

  lemma HeaderFields(leaveAll: bool, n: nat)
    requires n <= MAX_VECTOR_VALUES
    ensures var h := Header(leaveAll, n); h % 0x2000 == n && (h / 0x2000 % 8 == 1 <==> leaveAll)
    ensures Header(leaveAll, n) == 0 <==> !leaveAll && n == 0
  {
  }

  lemma AtParts(data: seq<byte>, pos: nat, h: seq<byte>, fv: seq<byte>, three: seq<byte>, four: seq<byte>)
    requires At(data, pos, h + (fv + (three + four)))
    ensures At(data, pos, h) && At(data, pos + |h|, fv)
    ensures At(data, pos + |h| + |fv|, three) && At(data, pos + |h| + |fv| + |three|, four)
  {
    AtSplit(data, pos, h, fv + (three + four));
    AtSplit(data, pos + |h|, fv, three + four);
    AtSplit(data, pos + |h| + |fv|, three, four);
  }

  lemma ParseParts(data: seq<byte>, pos: nat, isMsrp: bool, attrType: byte, attrLen: byte, header: nat,
                   fv: seq<byte>, three: seq<byte>, four: seq<byte>)
    requires IsU16(header) && header % 0x2000 <= MAX_VECTOR_VALUES
    requires |fv| == attrLen && |three| == (header % 0x2000 + 2) / 3
    requires |four| == if isMsrp && attrType == 3 then (header % 0x2000 + 3) / 4 else 0
    requires At(data, pos, fv) && At(data, pos + |fv|, three) && At(data, pos + |fv| + |three|, four)
    ensures ParseVector(data, pos, isMsrp, attrType, attrLen, header)
         == Success((MrpVector(header / 0x2000 % 8 == 1, header % 0x2000, fv, three, four),
                     pos + |fv| + |three| + |four|))
  {
  }

  lemma ParseEncodedVector(data: seq<byte>, pos: nat, isMsrp: bool, attrType: byte, attrLen: byte, v: VectorSpec)
    requires |v.events| <= MAX_VECTOR_VALUES && Shaped(v, isMsrp, attrType, attrLen)
    requires At(data, pos, EncodeVector(v))
    ensures U16At(data, pos) == Header(v.leaveAll, |v.events|)
    ensures ParseVector(data, pos + 2, isMsrp, attrType, attrLen, Header(v.leaveAll, |v.events|))
         == Success((PackedVector(v), pos + |EncodeVector(v)|))
  {
    hide PackThree, PackFour, ParseVector;
    var header := Header(v.leaveAll, |v.events|);
    HeaderFields(v.leaveAll, |v.events|);
    AtParts(data, pos, PutU16(header), v.firstValue, PackThree(v.events), FourBytes(v));
    AtU16(data, pos, header);
    ParseParts(data, pos + 2, isMsrp, attrType, attrLen, header, v.firstValue, PackThree(v.events), FourBytes(v));
  }

  /** One turn of the vector loop. */
  lemma VectorTurn(data: seq<byte>, pos: nat, isMsrp: bool, attrType: byte, attrLen: byte, vecEnd: nat,
                   v: VectorSpec, have: seq<MrpVector>)
    requires |v.events| <= MAX_VECTOR_VALUES && Shaped(v, isMsrp, attrType, attrLen)
    requires At(data, pos, EncodeVector(v)) && (isMsrp ==> pos < vecEnd)
    ensures ParseVectors(data, pos, isMsrp, attrType, attrLen, vecEnd, have)
         == if Visible(v)
            then
              ParseVectors(data, pos + |EncodeVector(v)|, isMsrp, attrType, attrLen, vecEnd, have + [PackedVector(v)])
            else Success((have, pos + 2))
  {
    HeaderFields(v.leaveAll, |v.events|);
    ParseEncodedVector(data, pos, isMsrp, attrType, attrLen, v);
  }

  lemma {:induction false} ParseEncodedVectors(data: seq<byte>, pos: nat, isMsrp: bool, attrType: byte, attrLen: byte,
                                               vecEnd: nat, vs: seq<VectorSpec>, have: seq<MrpVector>)
    requires Encodable(vs) && SmallVectors(vs) && ShapedVectors(vs, isMsrp, attrType, attrLen)
    requires At(data, pos, VectorList(vs))
    requires isMsrp ==> vecEnd == pos + |VectorList(vs)|
    ensures var r := ParseVectors(data, pos, isMsrp, attrType, attrLen, vecEnd, have);
            && r.Success?
            && r.value.0 == have + PackedVectors(VisiblePrefix(vs))
            && r.value.1 <= pos + |VectorList(vs)|
            && (VisiblePrefix(vs) == vs ==> r.value.1 == pos + |VectorList(vs)|)
    decreases |vs|
  {
    hide ParseVectors, ParseVector, EncodeVector, PackedVector, At, Shaped;
    if vs == [] {
      assert VectorList(vs) == [0, 0];
      EndMark(data, pos, isMsrp, attrType, attrLen, vecEnd, have);
      assert have + [] == have;
    } else {
      var enc, rest := EncodeVector(vs[0]), VectorList(vs[1..]);
      assert VectorList(vs) == enc + rest;
      AtSplit(data, pos, enc, rest);
      VectorTurn(data, pos, isMsrp, attrType, attrLen, vecEnd, vs[0], have);
      if Visible(vs[0]) {
        var first := PackedVector(vs[0]);
        var more := PackedVectors(VisiblePrefix(vs[1..]));
        ParseEncodedVectors(data, pos + |enc|, isMsrp, attrType, attrLen, vecEnd, vs[1..], have + [first]);
        VisibleCons(vs);
        AppendCons(have, first, more);
      } else {
        assert have + [] == have;
      }
    }
  }

  lemma EndMark(
      data: seq<byte>, pos: nat, isMsrp: bool, attrType: byte, attrLen: byte, vecEnd: nat, have: seq<MrpVector>)
    requires At(data, pos, [0, 0]) && (isMsrp ==> pos < vecEnd)
    ensures ParseVectors(data, pos, isMsrp, attrType, attrLen, vecEnd, have) == Success((have, pos + 2))
  {
    AtU16(data, pos, 0);
  }

  lemma VisibleCons(vs: seq<VectorSpec>)
    requires vs != [] && Visible(vs[0])
    ensures PackedVectors(VisiblePrefix(vs)) == [PackedVector(vs[0])] + PackedVectors(VisiblePrefix(vs[1..]))
    ensures VisiblePrefix(vs) == vs <==> VisiblePrefix(vs[1..]) == vs[1..]
  {
    var rest := VisiblePrefix(vs[1..]);
    assert VisiblePrefix(vs)[1..] == rest;
    assert vs == [vs[0]] + vs[1..];
  }

  lemma ParseEncodedMessage(data: seq<byte>, pos: nat, m: MessageSpec)
    requires Encodable(m.vectors) && IsU16(|VectorList(m.vectors)|)
    requires Acceptable(m) && ShapedVectors(m.vectors, true, m.attrType, m.attrLen)
    requires At(data, pos, MessageBody(m))
    ensures ParseMessage(data, pos, true, m.attrType)
         == Success((PackedMessage(m), pos + |MessageBody(m)|))
  {
    hide ParseVectors, VectorList, PackedVectors, VisiblePrefix;
    var vec := VectorList(m.vectors);
    AtSplit(data, pos, [m.attrLen], PutU16(|vec|) + vec);
    AtSplit(data, pos + 1, PutU16(|vec|), vec);
    AtByte(data, pos, m.attrLen);
    AtU16(data, pos + 1, |vec|);
    ParseEncodedVectors(data, pos + 3, true, m.attrType, m.attrLen, pos + 3 + |vec|, m.vectors, []);
    var packed := PackedVectors(VisiblePrefix(m.vectors));
    assert [] + packed == packed;
  }

  /** One turn of the message loop. */
  lemma MessageTurn(data: seq<byte>, pos: nat, m: MessageSpec, have: seq<MrpMessage>)
    requires Encodable(m.vectors) && IsU16(|VectorList(m.vectors)|) && |have| < MAX_MESSAGES
    requires Acceptable(m) && ShapedVectors(m.vectors, true, m.attrType, m.attrLen)
    requires At(data, pos, [m.attrType])
    requires At(data, pos + 1, MessageBody(m))
    ensures ParseMessages(data, pos, true, have)
         == ParseMessages(data, pos + 1 + |MessageBody(m)|, true, have + [PackedMessage(m)])
  {
    hide ParseMessage, VectorList, PackedMessage;
    AtByte(data, pos, m.attrType);
    ParseEncodedMessage(data, pos + 1, m);
  }

  lemma {:induction false} ParseEncodedMessages(
      data: seq<byte>, pos: nat, msgs: seq<MessageSpec>, have: seq<MrpMessage>)
    requires EncodableMessages(msgs) && |have| + |msgs| <= MAX_MESSAGES
    requires forall m :: m in msgs ==> Acceptable(m) && ShapedVectors(m.vectors, true, m.attrType, m.attrLen)
    requires At(data, pos, EncodeMessages(msgs) + [0, 0])
    ensures ParseMessages(data, pos, true, have)
         == Success((have + PackedMessages(msgs), pos + |EncodeMessages(msgs)| + 1))
    decreases |msgs|
  {
    hide *;
    if msgs == [] {
      MessagesEnd(data, pos, have);
    } else {
      var m := msgs[0];
      EncodeMessagesCons(msgs);
      var body, rest := MessageBody(m), EncodeMessages(msgs[1..]) + [0, 0];
      AtSplit(data, pos, [m.attrType], body + rest);
      AtSplit(data, pos + 1, body, rest);
      MessageTurn(data, pos, m, have);
      ParseEncodedMessages(data, pos + 1 + |body|, msgs[1..], have + [PackedMessage(m)]);
      AppendCons(have, PackedMessage(m), PackedMessages(msgs[1..]));
    }
  }

  lemma AppendCons<T>(have: seq<T>, x: T, rest: seq<T>)
    ensures have + [x] + rest == have + ([x] + rest)
  {
  }

  lemma EncodeMessagesCons(msgs: seq<MessageSpec>)
    requires EncodableMessages(msgs) && msgs != []
    ensures Encodable(msgs[0].vectors) && IsU16(|VectorList(msgs[0].vectors)|) && EncodableMessages(msgs[1..])
    ensures EncodeMessages(msgs) + [0, 0]
         == [msgs[0].attrType] + (MessageBody(msgs[0]) + (EncodeMessages(msgs[1..]) + [0, 0]))
    ensures |EncodeMessages(msgs)| == 1 + |MessageBody(msgs[0])| + |EncodeMessages(msgs[1..])|
    ensures PackedMessages(msgs) == [PackedMessage(msgs[0])] + PackedMessages(msgs[1..])
  {
    hide MessageBody, PackedMessage;
  }

  lemma MessagesEnd(data: seq<byte>, pos: nat, have: seq<MrpMessage>)
    requires At(data, pos, EncodeMessages([]) + [0, 0])
    ensures ParseMessages(data, pos, true, have)
         == Success((have + PackedMessages([]), pos + |EncodeMessages([])| + 1))
  {
    AtSplit(data, pos, [0], [0]);
    AtByte(data, pos, 0);
    assert have + [] == have;
  }

  /** On every encodable input the decoder returns each message up to its first invisible vector, whatever follows. */
  lemma MsrpPduParsed(data: seq<byte>, pos: nat, msgs: seq<MessageSpec>)
    requires EncodableMessages(msgs) && |msgs| <= MAX_MESSAGES
    requires forall m :: m in msgs ==> Acceptable(m) && ShapedVectors(m.vectors, true, m.attrType, m.attrLen)
    requires At(data, pos, MsrpPdu(msgs))
    ensures ParsePdu(data, pos, true)
         == Success((MrpPdu(0, PackedMessages(msgs)), pos + |MsrpPdu(msgs)| - 1))
  {
    hide ParseMessages, EncodeMessages, PackedMessages;
    var tail := EncodeMessages(msgs) + [0, 0];
    assert MsrpPdu(msgs) == [0] + tail;
    AtSplit(data, pos, [0], tail);
    AtByte(data, pos, 0);
    ParseEncodedMessages(data, pos + 1, msgs, []);
    assert [] + PackedMessages(msgs) == PackedMessages(msgs);
  }

  // ---- the events and first values are recovered ----

  /** `m` shows, event by event as the decoder unpacks them, the vector the encoder was given. */
  ghost predicate ShowsVector(v: MrpVector, spec: VectorSpec) {
    && v.leaveAll == spec.leaveAll
    && v.numValues == |spec.events|
    && v.firstValue == spec.firstValue
    && (forall k: nat :: k < v.numValues ==>
          k / 3 < |v.threePacked| && ThreePackedEvent(v.threePacked, k) == spec.events[k])
    && (spec.listeners.Some? ==>
          |spec.listeners.value| == v.numValues &&
          forall k: nat :: k < v.numValues ==>
            k / 4 < |v.fourPacked| && FourPackedEvent(v.fourPacked, k) == spec.listeners.value[k])
  }

  ghost predicate ShowsVectors(vs: seq<MrpVector>, specs: seq<VectorSpec>) {
    |vs| == |specs| && forall i :: 0 <= i < |vs| ==> ShowsVector(vs[i], specs[i])
  }

  ghost predicate ShowsMessages(ms: seq<MrpMessage>, specs: seq<MessageSpec>) {
    && |ms| == |specs|
    && forall i :: 0 <= i < |ms| ==>
         && ms[i].attrType == specs[i].attrType
         && ms[i].attrLen == specs[i].attrLen
         && ShowsVectors(ms[i].vectors, specs[i].vectors)
  }

  /** Unpacking event by event inverts packing. */
  lemma PackedShows(v: VectorSpec)
    requires v.listeners.Some? ==> |v.listeners.value| == |v.events|
    ensures ShowsVector(PackedVector(v), v)
  {
    var p := PackedVector(v);
    forall k: nat | k < |v.events|
      ensures k / 3 < |p.threePacked| && ThreePackedEvent(p.threePacked, k) == v.events[k]
    {
      ThreePackedInverse(v.events, k);
    }
    if v.listeners.Some? {
      forall k: nat | k < |v.events|
        ensures k / 4 < |p.fourPacked| && FourPackedEvent(p.fourPacked, k) == v.listeners.value[k]
      {
        FourPackedInverse(v.listeners.value, k);
      }
    }
  }

  lemma {:induction false} PackedVectorsAt(vs: seq<VectorSpec>)
    ensures |PackedVectors(vs)| == |vs|
    ensures forall i :: 0 <= i < |vs| ==> PackedVectors(vs)[i] == PackedVector(vs[i])
  {
    hide PackedVector;
    if vs != [] {
      PackedVectorsAt(vs[1..]);
    }
  }

  lemma {:induction false} PackedMessagesAt(msgs: seq<MessageSpec>)
    ensures |PackedMessages(msgs)| == |msgs|
    ensures forall i :: 0 <= i < |msgs| ==> PackedMessages(msgs)[i] == PackedMessage(msgs[i])
  {
    hide PackedMessage;
    if msgs != [] {
      PackedMessagesAt(msgs[1..]);
    }
  }

  lemma {:induction false} VisiblePrefixWhole(vs: seq<VectorSpec>)
    ensures |VisiblePrefix(vs)| <= |vs|
    ensures |VisiblePrefix(vs)| == |vs| <==> VisiblePrefix(vs) == vs
    ensures VisiblePrefix(vs) == vs <==> forall v :: v in vs ==> Visible(v)
  {
    if vs != [] {
      assert vs == [vs[0]] + vs[1..];
      VisiblePrefixWhole(vs[1..]);
      assert (forall v :: v in vs ==> Visible(v)) <==> Visible(vs[0]) && forall v :: v in vs[1..] ==> Visible(v);
    }
  }

  /** What is parsed of one vector list shows that list exactly when every vector of it is visible. */
  lemma ShowsPackedPrefix(vs: seq<VectorSpec>)
    requires forall v :: v in vs ==> v.listeners.Some? ==> |v.listeners.value| == |v.events|
    ensures ShowsVectors(PackedVectors(VisiblePrefix(vs)), vs) <==> forall v :: v in vs ==> Visible(v)
  {
    hide ShowsVector, PackedVector, PackedVectors, Visible, VisiblePrefix;
    VisiblePrefixWhole(vs);
    PackedVectorsAt(VisiblePrefix(vs));
    forall i | 0 <= i < |vs|
      ensures ShowsVector(PackedVector(vs[i]), vs[i])
    {
      PackedShows(vs[i]);
    }
  }

  /** The exact condition for an MSRP round trip, on what the caller hands to the encoder. */
  ghost predicate Survives(msgs: seq<MessageSpec>) {
    && |msgs| <= 256
    && forall m :: m in msgs ==> Acceptable(m) && forall v :: v in m.vectors ==> Visible(v)
  }

  ghost predicate ShapedMessages(msgs: seq<MessageSpec>) {
    forall m :: m in msgs ==> ShapedVectors(m.vectors, true, m.attrType, m.attrLen)
  }

  ghost predicate DecodesTo(r: Result<(MrpPdu, nat)>, msgs: seq<MessageSpec>) {
    r.Success? && r.value.0.version == 0 && ShowsMessages(r.value.0.messages, msgs)
  }

  /** Whatever surrounds it in the frame, an encoded MSRP PDU decodes to what was encoded if and only if it survives. */
  lemma MsrpRoundTrip(data: seq<byte>, pos: nat, msgs: seq<MessageSpec>)
    requires EncodableMessages(msgs) && ShapedMessages(msgs)
    requires At(data, pos, MsrpPdu(msgs))
    ensures DecodesTo(ParsePdu(data, pos, true), msgs) <==> Survives(msgs)
  {
    hide ParsePdu, MsrpPdu, PackedMessages, VisiblePrefix, PackedVectors, ShowsVectors, WfVector;
    var r := ParsePdu(data, pos, true);
    if DecodesTo(r, msgs) {
      AcceptedPduWellFormed(data, pos, true);
      ShownAcceptable(r.value.0.messages, msgs);
    }
    if |msgs| <= MAX_MESSAGES && forall m :: m in msgs ==> Acceptable(m) {
      MsrpPduParsed(data, pos, msgs);
      PackedMessagesAt(msgs);
      forall i | 0 <= i < |msgs|
        ensures ShowsVectors(PackedMessage(msgs[i]).vectors, msgs[i].vectors) <==>
                forall v :: v in msgs[i].vectors ==> Visible(v)
      {
        ShowsPackedPrefix(msgs[i].vectors);
      }
    }
  }

  /** Messages the parser accepted show only input within the decoder's limits. */
  lemma ShownAcceptable(ms: seq<MrpMessage>, msgs: seq<MessageSpec>)
    requires WfMessages(ms, true) && ShowsMessages(ms, msgs)
    ensures |msgs| <= MAX_MESSAGES && forall m :: m in msgs ==> Acceptable(m)
  {
    forall i | 0 <= i < |msgs|
      ensures Acceptable(msgs[i])
    {
      assert WfMessage(ms[i], true);
      ShownSmall(ms[i].vectors, msgs[i].vectors, ms[i].attrType, ms[i].attrLen, true);
    }
  }

  lemma ShownSmall(vs: seq<MrpVector>, specs: seq<VectorSpec>, attrType: byte, attrLen: byte, isMsrp: bool)
    requires ShowsVectors(vs, specs) && forall v :: v in vs ==> WfVector(v, isMsrp, attrType, attrLen)
    ensures SmallVectors(specs)
  {
    forall i | 0 <= i < |specs|
      ensures |specs[i].events| <= MAX_VECTOR_VALUES
    {
      assert ShowsVector(vs[i], specs[i]) && WfVector(vs[i], isMsrp, attrType, attrLen);
    }
  }

  /** The same for MVRP, whose PDU is one VID message: type 1, attribute length 2. */
  lemma MvrpRoundTrip(data: seq<byte>, pos: nat, vs: seq<VectorSpec>)
    requires Encodable(vs) && ShapedVectors(vs, false, 1, 2)
    requires At(data, pos, MvrpPdu(vs))
    ensures DecodesTo(ParsePdu(data, pos, false), [MessageSpec(1, 2, vs)])
       <==> SmallVectors(vs) && forall v :: v in vs ==> Visible(v)
  {
    hide ParseMessages, VectorList, PackedVectors, VisiblePrefix, ShowsVectors, WfVector, Visible;
    var r := ParsePdu(data, pos, false);
    MvrpPduAt(data, pos, vs);
    if DecodesTo(r, [MessageSpec(1, 2, vs)]) {
      AcceptedPduWellFormed(data, pos, false);
      assert WfMessage(r.value.0.messages[0], false);
      ShownSmall(r.value.0.messages[0].vectors, vs, 1, 2, false);
    }
    if SmallVectors(vs) {
      MvrpFirstMessage(data, pos, vs);
      VisiblePrefixWhole(vs);
      ShowsPackedPrefix(vs);
      assert [MessageSpec(1, 2, vs)][0].vectors == vs;
    }
  }

  lemma MvrpPduAt(data: seq<byte>, pos: nat, vs: seq<VectorSpec>)
    requires Encodable(vs) && At(data, pos, MvrpPdu(vs))
    ensures At(data, pos, [0, 1, 2]) && At(data, pos + 3, VectorList(vs))
    ensures At(data, pos + 3 + |VectorList(vs)|, [0, 0])
    ensures data[pos] == 0 && data[pos + 1] == 1 && data[pos + 2] == 2
  {
    hide VectorList;
    assert MvrpPdu(vs) == [0, 1, 2] + (VectorList(vs) + [0, 0]);
    AtSplit(data, pos, [0, 1, 2], VectorList(vs) + [0, 0]);
    AtSplit(data, pos + 3, VectorList(vs), [0, 0]);
    var head := data[pos..pos + 3];
    assert head[0] == 0 && head[1] == 1 && head[2] == 2;
  }

  /** The first message is parsed up to its first invisible vector; only a whole list reaches the end mark. */
  lemma MvrpFirstMessage(data: seq<byte>, pos: nat, vs: seq<VectorSpec>)
    requires Encodable(vs) && ShapedVectors(vs, false, 1, 2) && SmallVectors(vs)
    requires At(data, pos, MvrpPdu(vs))
    ensures var r := ParsePdu(data, pos, false);
            var first := MrpMessage(1, 2, PackedVectors(VisiblePrefix(vs)));
            && (r.Success? ==> r.value.0.messages != [] && r.value.0.messages[0] == first)
            && (VisiblePrefix(vs) == vs ==> r == Success((MrpPdu(0, [first]), pos + |MvrpPdu(vs)| - 1)))
  {
    hide ParseVectors, VectorList, PackedVectors, VisiblePrefix, ParseMessages;
    MvrpPduAt(data, pos, vs);
    ParseEncodedVectors(data, pos + 3, false, 1, 2, 0, vs, []);
    var packed := PackedVectors(VisiblePrefix(vs));
    assert [] + packed == packed;
    var first := ParseMessage(data, pos + 2, false, 1);
    assert first.value.0 == MrpMessage(1, 2, packed);
    MessagesCons(data, pos + 1, first.value);
    MessagesPrefix(data, first.value.1, [first.value.0]);
    if VisiblePrefix(vs) == vs {
      MessagesStop(data, first.value.1, [first.value.0]);
    }
  }

  lemma MessagesCons(data: seq<byte>, pos: nat, m: (MrpMessage, nat))
    requires |data| - pos >= 2 && data[pos] != 0
    requires ParseMessage(data, pos + 1, false, data[pos]) == Success(m)
    ensures ParseMessages(data, pos, false, []) == ParseMessages(data, m.1, false, [m.0])
  {
    hide ParseMessage;
    assert [] + [m.0] == [m.0];
  }

  lemma MessagesStop(data: seq<byte>, pos: nat, have: seq<MrpMessage>)
    requires At(data, pos, [0, 0])
    ensures ParseMessages(data, pos, false, have) == Success((have, pos + 1))
  {
    AtSplit(data, pos, [0], [0]);
    AtByte(data, pos, 0);
  }

  /** The message loop only appends. */
  lemma {:induction false} MessagesPrefix(data: seq<byte>, pos: nat, have: seq<MrpMessage>)
    requires pos <= |data|
    ensures var r := ParseMessages(data, pos, false, have); r.Success? ==> have <= r.value.0
    decreases |data| - pos
  {
    hide ParseMessage;
    if |data| - pos >= 2 && data[pos] != 0 {
      var m := ParseMessage(data, pos + 1, false, data[pos]);
      if m.Success? && |have| < MAX_MESSAGES {
        MessagesPrefix(data, m.value.1, have + [m.value.0]);
      }
    }
  }
}
