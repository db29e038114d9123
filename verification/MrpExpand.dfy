/** Expansion of a parsed PDU into one declaration per attribute value: the MRP branch of the frame decoder. */
module MrpExpand {
  import opened Wrappers
  import opened Bytes
  import opened MrpEncoder
  import opened MrpParser
  import opened MrpRoundTrip

  const MAX_DECLS := 8192
  const LEAVE_ALL := 6
  const U64 := 0x1_0000_0000_0000_0000

  /** The first value of an MSRP vector; the fields a type does not carry stay zero in the source. */
  datatype FirstValue =
    | Talker(streamId: nat, destMac: nat, vlan: nat, maxFrameSize: nat, maxIntervalFrames: nat,
             priority: nat, rank: nat, accLatency: nat, failure: Option<(nat, nat)>)
    | Listener(streamId: nat)
    | Domain(classId: nat, classPrio: nat, classVid: nat)
    | Vid(vid: nat)
    | Unknown

  /** One logic context; `fromValue` tells a value of the vector from its LeaveAll flag. */
  datatype Decl = Decl(attrType: byte, event: nat, fourPacked: Option<nat>, value: FirstValue, fromValue: bool)

  // ---- first values ----

  /** The attribute lengths an MSRP frame must carry for the types it knows. */
  function RequiredLength(isMsrp: bool, attrType: byte): Option<nat> {
    if !isMsrp then Some(2)
    else if attrType == 1 then Some(25)
    else if attrType == 2 then Some(34)
    else if attrType == 3 then Some(8)
    else if attrType == 4 then Some(4)
    else None
  }

  predicate LengthOk(isMsrp: bool, attrType: byte, len: nat) {
    && (!isMsrp ==> attrType == 1)
    && (RequiredLength(isMsrp, attrType).Some? ==> len == RequiredLength(isMsrp, attrType).value)
  }

  function FirstValueOf(isMsrp: bool, attrType: byte, fv: seq<byte>): FirstValue
    requires LengthOk(isMsrp, attrType, |fv|)
  {
    if !isMsrp then Vid(BeNat(fv))
    else if attrType == 1 || attrType == 2 then
      Talker(BeNat(fv[0..8]), BeNat(fv[8..14]), BeNat(fv[14..16]) % 0x1000, BeNat(fv[16..18]), BeNat(fv[18..20]),
             fv[20] / 32, fv[20] / 16 % 2, BeNat(fv[21..25]),
             if attrType == 2 then Some((BeNat(fv[25..33]), fv[33] as nat)) else None)
    else if attrType == 3 then Listener(BeNat(fv))
    else if attrType == 4 then Domain(fv[0], fv[1], BeNat(fv[2..4]) % 0x1000)
    else Unknown
  }

  lemma U16IsBe(s: seq<byte>)
    requires |s| == 2
    ensures BeNat(s) == 256 * s[0] as int + s[1]
  {
    var high := s[..1];
    assert high[..0] == [];
    assert BeNat(high) == BeNat(high[..0]) * 256 + high[0];
    assert BeNat(s) == BeNat(high) * 256 + s[1];
  }

  /** A talker's first value, the failure information only in type 2. */
  method ReadTalker(r: BeReader, attrType: byte) returns (v: FirstValue)
    requires r.Valid() && r.pos == 0 && (attrType == 1 || attrType == 2) && LengthOk(true, attrType, |r.data|)
    modifies r`pos
    ensures v == FirstValueOf(true, attrType, r.data)
  {
    hide BeNat;
    ghost var fv := r.data;
    U16IsBe(fv[14..16]);
    U16IsBe(fv[16..18]);
    U16IsBe(fv[18..20]);
    var streamId := r.UBe(8);
    var destMac := r.UBe(6);
    var vlan := r.U16();
    var maxFrameSize := r.U16();
    var maxIntervalFrames := r.U16();
    var pr := r.U8();
    var accLatency := r.UBe(4);
    var failure := None;
    if attrType == 2 {
      var bridge := r.UBe(8);
      var code := r.U8();
      failure := Some((bridge.value, code.value as nat));
    }
    v := Talker(streamId.value, destMac.value, vlan.value % 0x1000, maxFrameSize.value, maxIntervalFrames.value,
                pr.value / 32, pr.value / 16 % 2, accLatency.value, failure);
  }

  /** After the length check no read of the first value fails. */
  method ParseMsrpFirstValue(attrType: byte, fv: seq<byte>) returns (v: Result<FirstValue>)
    requires LengthOk(true, attrType, |fv|)
    ensures v == Success(FirstValueOf(true, attrType, fv))
  {
    hide BeNat;
    var r := new BeReader(fv);
    if attrType == 1 || attrType == 2 {
      var talker := ReadTalker(r, attrType);
      v := Success(talker);
    } else if attrType == 3 {
      var streamId := r.UBe(8);
      assert fv[0..8] == fv;
      v := Success(Listener(streamId.value));
    } else if attrType == 4 {
      var classId := r.U8();
      var classPrio := r.U8();
      var classVid := r.U16();
      U16IsBe(fv[2..4]);
      v := Success(Domain(classId.value, classPrio.value, classVid.value % 0x1000));
    } else {
      v := Success(Unknown);
    }
  }

  /** `talker_fv` of the generator, and `talker_failed_fv` when a failure is given. */
  function TalkerFv(t: FirstValue): seq<byte>
    requires t.Talker? && t.priority < 8 && t.rank < 2 && (t.failure.Some? ==> t.failure.value.1 < 256)
  {
    PutBe(t.streamId, 8) + PutBe(t.destMac, 6) + PutBe(t.vlan, 2) + PutBe(t.maxFrameSize, 2) +
    PutBe(t.maxIntervalFrames, 2) + [t.priority * 32 + t.rank * 16] + PutBe(t.accLatency, 4) +
    match t.failure case None => [] case Some((bridge, code)) => PutBe(bridge, 8) + [code]
  }

  predicate TalkerFits(t: FirstValue) {
    && t.Talker? && t.streamId < Pow256(8) && t.destMac < Pow256(6) && t.vlan < 0x1000
    && t.maxFrameSize < Pow256(2) && t.maxIntervalFrames < Pow256(2) && t.priority < 8 && t.rank < 2
    && t.accLatency < Pow256(4)
    && (t.failure.Some? ==> t.failure.value.0 < Pow256(8) && t.failure.value.1 < 256)
  }

  lemma PutBeExact(n: nat, width: nat)
    requires n < Pow256(width)
    ensures BeNat(PutBe(n, width)) == n
  {
    PutBeRoundTrip(n, width);
  }

  /** Every field of a talker declaration survives its first value. */
  lemma TalkerFvRoundTrip(t: FirstValue)
    requires TalkerFits(t)
    ensures var attrType: byte := if t.failure.Some? then 2 else 1;
            LengthOk(true, attrType, |TalkerFv(t)|) && FirstValueOf(true, attrType, TalkerFv(t)) == t
  {
    hide BeNat, PutBe, Pow256;
    var fv := TalkerFv(t);
    assert fv[0..8] == PutBe(t.streamId, 8);
    assert fv[8..14] == PutBe(t.destMac, 6);
    assert fv[14..16] == PutBe(t.vlan, 2);
    assert fv[16..18] == PutBe(t.maxFrameSize, 2);
    assert fv[18..20] == PutBe(t.maxIntervalFrames, 2);
    assert fv[21..25] == PutBe(t.accLatency, 4);
    PutBeExact(t.streamId, 8);
    PutBeExact(t.destMac, 6);
    VlanFits(t.vlan);
    PutBeExact(t.vlan, 2);
    PutBeExact(t.maxFrameSize, 2);
    PutBeExact(t.maxIntervalFrames, 2);
    PutBeExact(t.accLatency, 4);
    if t.failure.Some? {
      assert fv[25..33] == PutBe(t.failure.value.0, 8);
      PutBeExact(t.failure.value.0, 8);
    }
  }

  lemma VlanFits(vlan: nat)
    requires vlan < 0x1000
    ensures vlan < Pow256(2)
  {
    assert Pow256(2) == 256 * Pow256(1) && Pow256(1) == 256 * Pow256(0);
  }

  /** `listener_fv` of the generator. */
  function ListenerFv(streamId: nat): seq<byte> {
    PutBe(streamId, 8)
  }

  /** `domain_fv` of the generator. */
  function DomainFv(classId: byte, classPrio: byte, vid: nat): seq<byte> {
    [classId, classPrio] + PutBe(vid, 2)
  }

  lemma ListenerFvRoundTrip(streamId: nat)
    requires streamId < 0x1_0000_0000_0000_0000
    ensures LengthOk(true, 3, |ListenerFv(streamId)|)
    ensures FirstValueOf(true, 3, ListenerFv(streamId)) == Listener(streamId)
  {
    hide BeNat, PutBe, Pow256;
    PowersOf256();
    PutBeExact(streamId, 8);
  }

  /** Of the 16 bits of a class VID the decoder keeps twelve. */
  lemma DomainFvRoundTrip(classId: byte, classPrio: byte, vid: nat)
    requires vid < 0x1_0000
    ensures LengthOk(true, 4, |DomainFv(classId, classPrio, vid)|)
    ensures FirstValueOf(true, 4, DomainFv(classId, classPrio, vid)) == Domain(classId, classPrio, vid % 0x1000)
  {
    hide BeNat, PutBe, Pow256;
    PowersOf256();
    PutBeExact(vid, 2);
    assert DomainFv(classId, classPrio, vid)[2..4] == PutBe(vid, 2);
  }

  // ---- expansion ----

  /** The k-th value of a vector: identifiers count up, VIDs modulo 4096. */
  function ValueAt(first: FirstValue, k: nat): FirstValue {
    match first
    case Talker(s, d, _, _, _, _, _, _, _) => first.(streamId := (s + k) % U64, destMac := (d + k) % U64)
    case Listener(s) => Listener((s + k) % U64)
    case Domain(c, _, _) => first.(classId := c + k)
    case Vid(v) => Vid((v + k) % 0x1000)
    case Unknown => Unknown
  }

  function PlusOne(n: nat, limit: nat): nat
    requires limit > 0
  {
    if n + 1 == limit then 0 else n + 1
  }

  /** The attribute value after a given one: identifiers, MAC addresses and VIDs wrap around. */
  function Successor(v: FirstValue): FirstValue {
    match v
    case Talker(s, d, _, _, _, _, _, _, _) => v.(streamId := PlusOne(s, U64), destMac := PlusOne(d, U64))
    case Listener(s) => Listener(PlusOne(s, U64))
    case Domain(c, _, _) => v.(classId := c + 1)
    case Vid(w) => Vid(PlusOne(w, 0x1000))
    case Unknown => Unknown
  }

  /** The k-th value from `first` on; of a first VID only twelve bits count. */
  function Nth(first: FirstValue, k: nat): FirstValue {
    if k > 0 then Successor(Nth(first, k - 1))
    else if first.Vid? then Vid(first.vid % 0x1000)
    else first
  }

  /** Stream identifiers and MAC addresses are 64-bit numbers. */
  predicate InRange(v: FirstValue) {
    && (v.Talker? ==> v.streamId < U64 && v.destMac < U64)
    && (v.Listener? ==> v.streamId < U64)
  }

  lemma PlusOneMod(n: nat, k: nat, limit: nat)
    requires limit > 0
    ensures (n + k + 1) % limit == PlusOne((n + k) % limit, limit)
  {
    var q, r := (n + k) / limit, (n + k) % limit;
    if r + 1 == limit {
      assert n + k + 1 == (q + 1) * limit;
      DivModUnique(n + k + 1, limit, q + 1, 0);
    } else {
      DivModUnique(n + k + 1, limit, q, r + 1);
    }
  }

  lemma NextValue(first: FirstValue, k: nat)
    ensures ValueAt(first, k + 1) == Successor(ValueAt(first, k))
  {
    hide PlusOne;
    match first
    case Talker(s, d, _, _, _, _, _, _, _) =>
      PlusOneMod(s, k, U64);
      PlusOneMod(d, k, U64);
    case Listener(s) => PlusOneMod(s, k, U64);
    case Domain(c, _, _) =>
    case Vid(v) => PlusOneMod(v, k, 0x1000);
    case Unknown =>
  }

  /** Counting up by `k` is going to the next value `k` times. */
  lemma {:induction false} ValueIsNth(first: FirstValue, k: nat)
    requires InRange(first)
    ensures ValueAt(first, k) == Nth(first, k)
  {
    hide Successor;
    if k > 0 {
      hide ValueAt;
      ValueIsNth(first, k - 1);
      NextValue(first, k - 1);
    }
  }

  lemma FirstInRange(isMsrp: bool, attrType: byte, fv: seq<byte>)
    requires LengthOk(isMsrp, attrType, |fv|)
    ensures InRange(FirstValueOf(isMsrp, attrType, fv))
  {
    hide BeNat;
    var f := FirstValueOf(isMsrp, attrType, fv);
    PowersOf256();
    if f.Talker? {
      BeNatBound(fv[0..8]);
      BeNatBound(fv[8..14]);
    } else if f.Listener? {
      BeNatBound(fv);
    }
  }

  lemma PowersOf256()
    ensures Pow256(8) == U64 && Pow256(6) <= U64 && Pow256(2) == 0x1_0000
  {
    assert Pow256(2) == 256 * 256;
    assert Pow256(4) == 256 * 256 * Pow256(2);
    assert Pow256(6) == 256 * 256 * Pow256(4);
    assert Pow256(8) == 256 * 256 * Pow256(6);
  }

  predicate Expandable(m: MrpMessage, v: MrpVector, isMsrp: bool) {
    LengthOk(isMsrp, m.attrType, m.attrLen) && WfVector(v, isMsrp, m.attrType, m.attrLen)
  }

  function ValueDecl(m: MrpMessage, v: MrpVector, isMsrp: bool, k: nat): Decl
    requires Expandable(m, v, isMsrp) && k < v.numValues
  {
    Decl(m.attrType, ThreePackedEvent(v.threePacked, k),
         if isMsrp && m.attrType == 3 then Some(FourPackedEvent(v.fourPacked, k)) else None,
         ValueAt(FirstValueOf(isMsrp, m.attrType, v.firstValue), k), true)
  }

  function LeaveAllDecls(m: MrpMessage, v: MrpVector, isMsrp: bool): seq<Decl>
    requires Expandable(m, v, isMsrp)
  {
    if v.leaveAll
    then [Decl(m.attrType, LEAVE_ALL, None, ValueAt(FirstValueOf(isMsrp, m.attrType, v.firstValue), 0), false)]
    else []
  }

  function ValueDecls(m: MrpMessage, v: MrpVector, isMsrp: bool, n: nat): (ds: seq<Decl>)
    requires Expandable(m, v, isMsrp) && n <= v.numValues
    ensures |ds| == n && forall k :: 0 <= k < n ==> ds[k] == ValueDecl(m, v, isMsrp, k)
  {
    if n == 0 then [] else ValueDecls(m, v, isMsrp, n - 1) + [ValueDecl(m, v, isMsrp, n - 1)]
  }

  function VectorDecls(m: MrpMessage, v: MrpVector, isMsrp: bool): seq<Decl>
    requires Expandable(m, v, isMsrp)
  {
    LeaveAllDecls(m, v, isMsrp) + ValueDecls(m, v, isMsrp, v.numValues)
  }

  ghost predicate ExpandableVectors(m: MrpMessage, vs: seq<MrpVector>, isMsrp: bool) {
    forall v :: v in vs ==> Expandable(m, v, isMsrp)
  }

  /** Declarations of the first `n` vectors of a message. */
  function MessageDecls(m: MrpMessage, isMsrp: bool, n: nat): seq<Decl>
    requires ExpandableVectors(m, m.vectors, isMsrp) && n <= |m.vectors|
  {
    if n == 0 then [] else MessageDecls(m, isMsrp, n - 1) + VectorDecls(m, m.vectors[n - 1], isMsrp)
  }

  ghost predicate ExpandableMessages(ms: seq<MrpMessage>, isMsrp: bool) {
    forall m :: m in ms ==> ExpandableVectors(m, m.vectors, isMsrp)
  }

  /** Declarations of the first `n` messages, were there no limit. */
  function PduDecls(ms: seq<MrpMessage>, isMsrp: bool, n: nat): seq<Decl>
    requires ExpandableMessages(ms, isMsrp) && n <= |ms|
  {
    if n == 0 then [] else PduDecls(ms, isMsrp, n - 1) + MessageDecls(ms[n - 1], isMsrp, |ms[n - 1].vectors|)
  }

  /** The limit only stops values: LeaveAll contexts may pass it. */
  ghost predicate TooMany(ds: seq<Decl>) {
    exists i :: 8192 <= i < |ds| && ds[i].fromValue
  }

  lemma TooManyGrows(a: seq<Decl>, b: seq<Decl>)
    ensures TooMany(a) ==> TooMany(a + b)
    ensures TooMany(a + b) && |b| == 1 && !TooMany(a) ==> |a| >= MAX_DECLS && b[0].fromValue
  {
    forall i | 0 <= i < |a|
      ensures (a + b)[i] == a[i]
    {
    }
    if TooMany(a) {
      var i :| MAX_DECLS <= i < |a| && a[i].fromValue;
      assert (a + b)[i].fromValue;
    }
  }

  /** What appending `more` to an accepted prefix yields. */
  ghost function Limited(ds: seq<Decl>): Result<seq<Decl>> {
    if TooMany(ds) then Failure else Success(ds)
  }

  method ReadFirstValue(m: MrpMessage, v: MrpVector, isMsrp: bool) returns (first: FirstValue)
    requires Expandable(m, v, isMsrp)
    ensures first == FirstValueOf(isMsrp, m.attrType, v.firstValue)
  {
    if isMsrp {
      var p := ParseMsrpFirstValue(m.attrType, v.firstValue);
      first := p.value;
    } else {
      first := Vid(256 * v.firstValue[0] as int + v.firstValue[1]);
      U16IsBe(v.firstValue);
    }
  }

  method EmitVector(m: MrpMessage, v: MrpVector, isMsrp: bool, have: seq<Decl>) returns (r: Result<seq<Decl>>)
    requires Expandable(m, v, isMsrp) && !TooMany(have)
    ensures r == Limited(have + VectorDecls(m, v, isMsrp))
  {
    hide ThreePackedEvent, FourPackedEvent, FirstValueOf, ValueAt;
    var first := ReadFirstValue(m, v, isMsrp);
    var out := have;
    if v.leaveAll {
      out := out + [Decl(m.attrType, LEAVE_ALL, None, ValueAt(first, 0), false)];
    }
    ghost var base := have + LeaveAllDecls(m, v, isMsrp);
    assert out == base;
    TooManyGrows(have, LeaveAllDecls(m, v, isMsrp));
    for k := 0 to v.numValues
      invariant out == base + ValueDecls(m, v, isMsrp, k) && !TooMany(out)
    {
      ghost var next := ValueDecl(m, v, isMsrp, k);
      if |out| >= MAX_DECLS {
        OverLimit(m, v, isMsrp, have, k);
        return Failure;
      }
      var ev := ThreePackedEvent(v.threePacked, k);
      var fp := if isMsrp && m.attrType == 3 then Some(FourPackedEvent(v.fourPacked, k)) else None;
      TooManyGrows(out, [next]);
      out := out + [Decl(m.attrType, ev, fp, ValueAt(first, k), true)];
      assert base + ValueDecls(m, v, isMsrp, k) + [next] == base + ValueDecls(m, v, isMsrp, k + 1);
    }
    assert base + ValueDecls(m, v, isMsrp, v.numValues) == have + VectorDecls(m, v, isMsrp);
    r := Success(out);
  }

  lemma OverLimit(m: MrpMessage, v: MrpVector, isMsrp: bool, have: seq<Decl>, k: nat)
    requires Expandable(m, v, isMsrp) && k < v.numValues
    requires |have| + |LeaveAllDecls(m, v, isMsrp)| + k >= MAX_DECLS
    ensures TooMany(have + VectorDecls(m, v, isMsrp))
  {
    var i := |have| + |LeaveAllDecls(m, v, isMsrp)| + k;
    assert (have + VectorDecls(m, v, isMsrp))[i] == ValueDecl(m, v, isMsrp, k);
  }

  method EmitMessage(m: MrpMessage, isMsrp: bool, have: seq<Decl>) returns (r: Result<seq<Decl>>)
    requires ExpandableVectors(m, m.vectors, isMsrp) && !TooMany(have)
    ensures r == Limited(have + MessageDecls(m, isMsrp, |m.vectors|))
  {
    hide VectorDecls, TooMany;
    var out := have;
    assert have + [] == have;
    for j := 0 to |m.vectors|
      invariant out == have + MessageDecls(m, isMsrp, j) && !TooMany(out)
    {
      ghost var next := VectorDecls(m, m.vectors[j], isMsrp);
      assert out + next == have + MessageDecls(m, isMsrp, j + 1);
      var more := EmitVector(m, m.vectors[j], isMsrp, out);
      if more.Failure? {
        MessagePrefix(m, isMsrp, have, j + 1, |m.vectors|);
        return Failure;
      }
      out := more.value;
    }
    r := Success(out);
  }

  lemma {:induction false} MessagePrefix(m: MrpMessage, isMsrp: bool, have: seq<Decl>, i: nat, n: nat)
    requires ExpandableVectors(m, m.vectors, isMsrp) && i <= n <= |m.vectors|
    requires TooMany(have + MessageDecls(m, isMsrp, i))
    ensures TooMany(have + MessageDecls(m, isMsrp, n))
  {
    hide TooMany, VectorDecls;
    if i < n {
      MessagePrefix(m, isMsrp, have, i, n - 1);
      var last := VectorDecls(m, m.vectors[n - 1], isMsrp);
      assert have + MessageDecls(m, isMsrp, n) == have + MessageDecls(m, isMsrp, n - 1) + last;
      TooManyGrows(have + MessageDecls(m, isMsrp, n - 1), last);
    }
  }

  /** The whole list is produced, unless some value declaration has 8192 declarations before it. */
  method EmitMrpDecls(ms: seq<MrpMessage>, isMsrp: bool) returns (r: Result<seq<Decl>>)
    requires ExpandableMessages(ms, isMsrp)
    ensures r == Limited(PduDecls(ms, isMsrp, |ms|))
  {
    hide TooMany, MessageDecls;
    var out := [];
    NothingTooMany();
    for i := 0 to |ms|
      invariant out == PduDecls(ms, isMsrp, i) && !TooMany(out)
    {
      var more := EmitMessage(ms[i], isMsrp, out);
      if more.Failure? {
        PduPrefix(ms, isMsrp, i + 1, |ms|);
        return Failure;
      }
      out := more.value;
    }
    r := Success(out);
  }

  lemma NothingTooMany()
    ensures !TooMany([])
  {
  }

  lemma {:induction false} PduPrefix(ms: seq<MrpMessage>, isMsrp: bool, i: nat, n: nat)
    requires ExpandableMessages(ms, isMsrp) && i <= n <= |ms|
    requires TooMany(PduDecls(ms, isMsrp, i))
    ensures TooMany(PduDecls(ms, isMsrp, n))
  {
    hide TooMany, MessageDecls;
    if i < n {
      PduPrefix(ms, isMsrp, i, n - 1);
      TooManyGrows(PduDecls(ms, isMsrp, n - 1), MessageDecls(ms[n - 1], isMsrp, |ms[n - 1].vectors|));
    }
  }

  // ---- counting ----

  function VectorCount(v: MrpVector): nat {
    v.numValues + if v.leaveAll then 1 else 0
  }

  function VectorsCount(vs: seq<MrpVector>, n: nat): nat
    requires n <= |vs|
  {
    if n == 0 then 0 else VectorsCount(vs, n - 1) + VectorCount(vs[n - 1])
  }

  function PduCount(ms: seq<MrpMessage>, n: nat): nat
    requires n <= |ms|
  {
    if n == 0 then 0 else PduCount(ms, n - 1) + VectorsCount(ms[n - 1].vectors, |ms[n - 1].vectors|)
  }

  lemma {:induction false} MessageDeclCount(m: MrpMessage, isMsrp: bool, n: nat)
    requires ExpandableVectors(m, m.vectors, isMsrp) && n <= |m.vectors|
    ensures |MessageDecls(m, isMsrp, n)| == VectorsCount(m.vectors, n)
  {
    hide ValueDecl, ValueAt, FirstValueOf, Expandable;
    if n > 0 {
      MessageDeclCount(m, isMsrp, n - 1);
    }
  }

  /** One declaration per value plus one per LeaveAll flag. */
  lemma {:induction false} DeclCount(ms: seq<MrpMessage>, isMsrp: bool, n: nat)
    requires ExpandableMessages(ms, isMsrp) && n <= |ms|
    ensures |PduDecls(ms, isMsrp, n)| == PduCount(ms, n)
  {
    hide MessageDecls, VectorsCount;
    if n > 0 {
      DeclCount(ms, isMsrp, n - 1);
      MessageDeclCount(ms[n - 1], isMsrp, |ms[n - 1].vectors|);
    }
  }

  // ---- the MRP branch of the frame decoder ----

  ghost predicate LengthsOk(ms: seq<MrpMessage>, isMsrp: bool) {
    forall m :: m in ms ==> LengthOk(isMsrp, m.attrType, m.attrLen)
  }

  lemma AcceptedExpandable(ms: seq<MrpMessage>, isMsrp: bool)
    requires WfMessages(ms, isMsrp) && LengthsOk(ms, isMsrp)
    ensures ExpandableMessages(ms, isMsrp)
  {
    forall m, v | m in ms && v in m.vectors
      ensures Expandable(m, v, isMsrp)
    {
      assert WfMessage(m, isMsrp);
    }
  }

  /** What an MRP frame decodes to: its declarations, or a rejected frame. */
  ghost function FrameDecls(data: seq<byte>, pos: nat, isMsrp: bool): Result<seq<Decl>>
    requires pos <= |data|
  {
    var r := ParsePdu(data, pos, isMsrp);
    if r.Failure? || !LengthsOk(r.value.0.messages, isMsrp) then Failure
    else
      var ms := r.value.0.messages;
      AcceptedPduWellFormed(data, pos, isMsrp);
      AcceptedExpandable(ms, isMsrp);
      Limited(PduDecls(ms, isMsrp, |ms|))
  }

  /** Total on arbitrary bytes: every packed event and first value is read in bounds. */
  method DecodeMrpFrame(r: BeReader, isMsrp: bool) returns (res: Result<seq<Decl>>)
    requires r.Valid()
    modifies r`pos
    ensures r.Valid()
    ensures res == FrameDecls(r.data, old(r.pos), isMsrp)
  {
    hide ParsePdu, LengthOk, PduDecls, TooMany, WfMessages;
    var pdu :- ParseMrpPdu(r, isMsrp);
    var ms := pdu.messages;
    for i := 0 to |ms|
      invariant forall m :: m in ms[..i] ==> LengthOk(isMsrp, m.attrType, m.attrLen)
    {
      assert ms[i] in ms;
      if !LengthOk(isMsrp, ms[i].attrType, ms[i].attrLen) {
        return Failure;
      }
      assert ms[..i + 1] == ms[..i] + [ms[i]];
    }
    assert ms[..|ms|] == ms;
    AcceptedExpandable(ms, isMsrp);
    res := EmitMrpDecls(ms, isMsrp);
  }

  // ---- end to end: what is declared is what was encoded ----

  predicate SpecExpandable(m: MessageSpec, v: VectorSpec, isMsrp: bool) {
    LengthOk(isMsrp, m.attrType, |v.firstValue|) && Shaped(v, isMsrp, m.attrType, m.attrLen)
  }

  /** A declaration read straight off the encoder's input. */
  function SpecDecl(m: MessageSpec, v: VectorSpec, isMsrp: bool, k: nat): Decl
    requires SpecExpandable(m, v, isMsrp) && k < |v.events|
  {
    Decl(m.attrType, v.events[k], if v.listeners.Some? then Some(v.listeners.value[k] as nat) else None,
         Nth(FirstValueOf(isMsrp, m.attrType, v.firstValue), k), true)
  }

  function SpecVectorDecls(m: MessageSpec, v: VectorSpec, isMsrp: bool): seq<Decl>
    requires SpecExpandable(m, v, isMsrp)
  {
    (if v.leaveAll
     then [Decl(m.attrType, LEAVE_ALL, None, Nth(FirstValueOf(isMsrp, m.attrType, v.firstValue), 0), false)]
     else []) +
    seq(|v.events|, k requires 0 <= k < |v.events| => SpecDecl(m, v, isMsrp, k))
  }

  ghost predicate SpecExpandableVectors(m: MessageSpec, isMsrp: bool) {
    forall v :: v in m.vectors ==> SpecExpandable(m, v, isMsrp)
  }

  function SpecMessageDecls(m: MessageSpec, isMsrp: bool, n: nat): seq<Decl>
    requires SpecExpandableVectors(m, isMsrp) && n <= |m.vectors|
  {
    if n == 0 then [] else SpecMessageDecls(m, isMsrp, n - 1) + SpecVectorDecls(m, m.vectors[n - 1], isMsrp)
  }

  ghost predicate SpecExpandableMessages(msgs: seq<MessageSpec>, isMsrp: bool) {
    forall m :: m in msgs ==> SpecExpandableVectors(m, isMsrp) && LengthOk(isMsrp, m.attrType, m.attrLen)
  }

  function SpecDecls(msgs: seq<MessageSpec>, isMsrp: bool, n: nat): seq<Decl>
    requires SpecExpandableMessages(msgs, isMsrp) && n <= |msgs|
  {
    if n == 0 then [] else SpecDecls(msgs, isMsrp, n - 1) + SpecMessageDecls(msgs[n - 1], isMsrp, |msgs[n - 1].vectors|)
  }

  lemma ShownVectorDecls(m: MrpMessage, v: MrpVector, spec: MessageSpec, sv: VectorSpec, isMsrp: bool)
    requires Expandable(m, v, isMsrp) && SpecExpandable(spec, sv, isMsrp) && m.attrType == spec.attrType
    requires ShowsVector(v, sv)
    ensures VectorDecls(m, v, isMsrp) == SpecVectorDecls(spec, sv, isMsrp)
  {
    hide ThreePackedEvent, FourPackedEvent, ValueAt, Nth, FirstValueOf, InRange;
    var first := FirstValueOf(isMsrp, m.attrType, v.firstValue);
    FirstInRange(isMsrp, m.attrType, v.firstValue);
    ValueIsNth(first, 0);
    var ds := ValueDecls(m, v, isMsrp, v.numValues);
    var es := seq(|sv.events|, k requires 0 <= k < |sv.events| => SpecDecl(spec, sv, isMsrp, k));
    forall k | 0 <= k < |ds|
      ensures ds[k] == es[k]
    {
      assert ds[k] == ValueDecl(m, v, isMsrp, k);
      ValueIsNth(first, k);
    }
    assert ds == es;
  }

  lemma {:induction false} ShownMessageDecls(m: MrpMessage, spec: MessageSpec, isMsrp: bool, n: nat)
    requires ExpandableVectors(m, m.vectors, isMsrp) && SpecExpandableVectors(spec, isMsrp)
    requires m.attrType == spec.attrType && ShowsVectors(m.vectors, spec.vectors) && n <= |m.vectors|
    ensures MessageDecls(m, isMsrp, n) == SpecMessageDecls(spec, isMsrp, n)
  {
    hide VectorDecls, SpecVectorDecls, ShowsVector, Expandable, SpecExpandable;
    if n > 0 {
      ShownMessageDecls(m, spec, isMsrp, n - 1);
      ShownVectorDecls(m, m.vectors[n - 1], spec, spec.vectors[n - 1], isMsrp);
    }
  }

  lemma {:induction false} ShownDecls(ms: seq<MrpMessage>, msgs: seq<MessageSpec>, isMsrp: bool, n: nat)
    requires ExpandableMessages(ms, isMsrp) && SpecExpandableMessages(msgs, isMsrp)
    requires ShowsMessages(ms, msgs) && n <= |ms|
    ensures PduDecls(ms, isMsrp, n) == SpecDecls(msgs, isMsrp, n)
  {
    hide MessageDecls, SpecMessageDecls, ExpandableVectors, SpecExpandableVectors;
    if n > 0 {
      ShownDecls(ms, msgs, isMsrp, n - 1);
      assert ms[n - 1] in ms && msgs[n - 1] in msgs;
      ShownMessageDecls(ms[n - 1], msgs[n - 1], isMsrp, |ms[n - 1].vectors|);
    }
  }

  /** Encoding, then decoding a frame: the declarations are those of the encoder's input, in order. */
  lemma MsrpEndToEnd(data: seq<byte>, pos: nat, msgs: seq<MessageSpec>)
    requires EncodableMessages(msgs) && ShapedMessages(msgs) && Survives(msgs) && SpecExpandableMessages(msgs, true)
    requires pos <= |data| && At(data, pos, MsrpPdu(msgs))
    ensures FrameDecls(data, pos, true) == Limited(SpecDecls(msgs, true, |msgs|))
  {
    hide ParsePdu, MsrpPdu, PduDecls, SpecDecls, Survives, EncodableMessages, LengthOk;
    hide SpecExpandableVectors, ShowsVectors;
    MsrpRoundTrip(data, pos, msgs);
    DecodedDecls(data, pos, msgs, true);
  }

  /** The same for MVRP: one declaration per VID, and LeaveAll, as encoded. */
  lemma MvrpEndToEnd(data: seq<byte>, pos: nat, vs: seq<VectorSpec>)
    requires Encodable(vs) && ShapedVectors(vs, false, 1, 2) && SmallVectors(vs) && forall v :: v in vs ==> Visible(v)
    requires pos <= |data| && At(data, pos, MvrpPdu(vs))
    ensures SpecExpandableMessages([MessageSpec(1, 2, vs)], false)
    ensures FrameDecls(data, pos, false) == Limited(SpecDecls([MessageSpec(1, 2, vs)], false, 1))
  {
    hide ParsePdu, MvrpPdu, PduDecls, SpecDecls, ShowsVectors;
    MvrpRoundTrip(data, pos, vs);
    DecodedDecls(data, pos, [MessageSpec(1, 2, vs)], false);
  }

  /** A frame that decodes to given messages declares what they spell out. */
  lemma DecodedDecls(data: seq<byte>, pos: nat, msgs: seq<MessageSpec>, isMsrp: bool)
    requires SpecExpandableMessages(msgs, isMsrp) && pos <= |data| && DecodesTo(ParsePdu(data, pos, isMsrp), msgs)
    ensures FrameDecls(data, pos, isMsrp) == Limited(SpecDecls(msgs, isMsrp, |msgs|))
  {
    hide ParsePdu, PduDecls, SpecDecls, LengthOk, SpecExpandableVectors, ShowsVectors;
    var ms := ParsePdu(data, pos, isMsrp).value.0.messages;
    AcceptedPduWellFormed(data, pos, isMsrp);
    forall i | 0 <= i < |ms|
      ensures LengthOk(isMsrp, ms[i].attrType, ms[i].attrLen)
    {
      assert msgs[i] in msgs;
    }
    assert LengthsOk(ms, isMsrp);
    AcceptedExpandable(ms, isMsrp);
    ShownDecls(ms, msgs, isMsrp, |ms|);
  }
}
