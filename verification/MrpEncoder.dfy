/** The MRP encoder of the capture generator (tools/gen_pcaps.py). */
module MrpEncoder {
  import opened Wrappers
  import opened Bytes

  /** NEW, JOININ, IN, JOINMT, MT, LV. */
  type Event = x: int | 0 <= x < 6
  /** IGNORE, ASKFAIL, READY, READYFAIL. */
  type FourPacked = x: int | 0 <= x < 4

  datatype VectorSpec = VectorSpec(
    leaveAll: bool,
    firstValue: seq<byte>,
    events: seq<Event>,
    listeners: Option<seq<FourPacked>>)

  datatype MessageSpec = MessageSpec(attrType: byte, attrLen: byte, vectors: seq<VectorSpec>)

  function Padded(events: seq<int>, k: nat): int {
    if k < |events| then events[k] else 0
  }

  function PackThree(events: seq<Event>): (out: seq<byte>)
    ensures |out| == (|events| + 2) / 3
  {
    seq((|events| + 2) / 3, (i: nat) => PackThreeGroup(events, 3 * i))
  }

  function PackThreeGroup(events: seq<Event>, i: nat): byte {
    var a, b, c := Padded(events, i), Padded(events, i + 1), Padded(events, i + 2);
    assert 0 <= a < 6 && 0 <= b < 6 && 0 <= c < 6;
    a * 36 + b * 6 + c
  }

  function PackFour(events: seq<FourPacked>): (out: seq<byte>)
    ensures |out| == (|events| + 3) / 4
  {
    seq((|events| + 3) / 4, (i: nat) => PackFourGroup(events, 4 * i))
  }

  function PackFourGroup(events: seq<FourPacked>, i: nat): byte {
    var a, b, c, d := Padded(events, i), Padded(events, i + 1), Padded(events, i + 2), Padded(events, i + 3);
    assert 0 <= a < 4 && 0 <= b < 4 && 0 <= c < 4 && 0 <= d < 4;
    a * 64 + b * 16 + c * 4 + d
  }

  method ThreePacked(events: seq<Event>) returns (out: seq<byte>)
    ensures out == PackThree(events)
  {
    var evs: seq<int> := events;
    while |evs| % 3 != 0
      invariant |events| <= |evs| <= (|events| + 2) / 3 * 3
      invariant forall k :: 0 <= k < |evs| ==> evs[k] == Padded(events, k)
      decreases (|events| + 2) / 3 * 3 - |evs|
    {
      evs := evs + [0];
    }
    out := [];
    var i := 0;
    while i < |evs|
      invariant 0 <= i <= |evs| && i % 3 == 0 && |out| == i / 3
      invariant forall g :: 0 <= g < |out| ==> out[g] == PackThreeGroup(events, 3 * g)
    {
      out := out + [evs[i] * 36 + evs[i + 1] * 6 + evs[i + 2]];
      i := i + 3;
    }
    out := out[..(|events| + 2) / 3];
  }

  method FourPackedBytes(events: seq<FourPacked>) returns (out: seq<byte>)
    ensures out == PackFour(events)
  {
    var evs: seq<int> := events;
    while |evs| % 4 != 0
      invariant |events| <= |evs| <= (|events| + 3) / 4 * 4
      invariant forall k :: 0 <= k < |evs| ==> evs[k] == Padded(events, k)
      decreases (|events| + 3) / 4 * 4 - |evs|
    {
      evs := evs + [0];
    }
    out := [];
    var i := 0;
    while i < |evs|
      invariant 0 <= i <= |evs| && i % 4 == 0 && |out| == i / 4
      invariant forall g :: 0 <= g < |out| ==> out[g] == PackFourGroup(events, 4 * g)
    {
      out := out + [evs[i] * 64 + evs[i + 1] * 16 + evs[i + 2] * 4 + evs[i + 3]];
      i := i + 4;
    }
    out := out[..(|events| + 3) / 4];
  }

  /** `0x2000 | count` or `count`: a bitwise or, so a count that already has the bit keeps it. */
  function Header(leaveAll: bool, count: nat): (h: nat)
    requires IsU16(count)
    ensures IsU16(h)
  {
    if leaveAll && (count / 0x2000) % 2 == 0 then count + 0x2000 else count
  }

  function EncodeVector(v: VectorSpec): seq<byte>
    requires IsU16(|v.events|)
  {
    PutU16(Header(v.leaveAll, |v.events|)) + (v.firstValue + (PackThree(v.events) + FourBytes(v)))
  }

  function FourBytes(v: VectorSpec): seq<byte> {
    if v.listeners.Some? then PackFour(v.listeners.value) else []
  }

  /** What the length fields of the encoder can hold. */
  ghost predicate Encodable(vs: seq<VectorSpec>) {
    forall v :: v in vs ==> IsU16(|v.events|)
  }

  function EncodeVectors(vs: seq<VectorSpec>): seq<byte>
    requires Encodable(vs)
  {
    if vs == [] then [] else EncodeVector(vs[0]) + EncodeVectors(vs[1..])
  }

  function VectorList(vs: seq<VectorSpec>): seq<byte>
    requires Encodable(vs)
  {
    EncodeVectors(vs) + [0, 0]
  }

  ghost predicate EncodableMessages(msgs: seq<MessageSpec>) {
    forall m :: m in msgs ==> Encodable(m.vectors) && IsU16(|VectorList(m.vectors)|)
  }

  /** A message after its attribute type: attribute length, list length, list. */
  function MessageBody(m: MessageSpec): seq<byte>
    requires Encodable(m.vectors) && IsU16(|VectorList(m.vectors)|)
  {
    [m.attrLen] + (PutU16(|VectorList(m.vectors)|) + VectorList(m.vectors))
  }

  function EncodeMessages(msgs: seq<MessageSpec>): seq<byte>
    requires EncodableMessages(msgs)
  {
    if msgs == [] then []
    else [msgs[0].attrType] + (MessageBody(msgs[0]) + EncodeMessages(msgs[1..]))
  }

  function MsrpPdu(msgs: seq<MessageSpec>): seq<byte>
    requires EncodableMessages(msgs)
  {
    [0] + EncodeMessages(msgs) + [0, 0]
  }

  function MvrpPdu(vs: seq<VectorSpec>): seq<byte>
    requires Encodable(vs)
  {
    [0, 1, 2] + VectorList(vs) + [0, 0]
  }
}
