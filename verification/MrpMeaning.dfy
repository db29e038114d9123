/** What a frame declares, read off the attribute values and events its sender put in, without counting along. */
module MrpMeaning {
  import opened Wrappers
  import opened Bytes
  import opened MrpEncoder
  import opened MrpParser
  import opened MrpRoundTrip
  import opened MrpExpand

  const M64 := 0x1_0000_0000_0000_0000

  /** Vector `v` of message `m` declares value `d` with its k-th event. */
  ghost predicate DeclaredBy(m: MessageSpec, v: VectorSpec, isMsrp: bool, d: Decl, k: nat) {
    SpecExpandable(m, v, isMsrp) && k < |v.events| && d == SpecDecl(m, v, isMsrp, k)
  }

  lemma {:induction false} InMessage(m: MessageSpec, isMsrp: bool, n: nat, d: Decl)
    requires SpecExpandableVectors(m, isMsrp) && n <= |m.vectors|
    ensures d in SpecMessageDecls(m, isMsrp, n) <==>
              exists j :: 0 <= j < n && d in SpecVectorDecls(m, m.vectors[j], isMsrp)
  {
    hide SpecVectorDecls, SpecExpandable;
    if n > 0 {
      InMessage(m, isMsrp, n - 1, d);
      assert m.vectors[n - 1] in m.vectors;
    }
  }

  lemma {:induction false} InPdu(msgs: seq<MessageSpec>, isMsrp: bool, n: nat, d: Decl)
    requires SpecExpandableMessages(msgs, isMsrp) && n <= |msgs|
    ensures d in SpecDecls(msgs, isMsrp, n) <==>
              exists i :: 0 <= i < n && d in SpecMessageDecls(msgs[i], isMsrp, |msgs[i].vectors|)
  {
    hide SpecMessageDecls, SpecExpandableVectors;
    if n > 0 {
      InPdu(msgs, isMsrp, n - 1, d);
      assert msgs[n - 1] in msgs;
    }
  }

  lemma InVector(m: MessageSpec, v: VectorSpec, isMsrp: bool, d: Decl)
    requires SpecExpandable(m, v, isMsrp)
    ensures d.fromValue ==> (d in SpecVectorDecls(m, v, isMsrp) <==> exists k: nat :: DeclaredBy(m, v, isMsrp, d, k))
    ensures !d.fromValue ==>
              (d in SpecVectorDecls(m, v, isMsrp) <==>
                 v.leaveAll && d == Decl(m.attrType, 6, None, Nth(FirstValueOf(isMsrp, m.attrType, v.firstValue), 0),
                                         false))
  {
    hide Nth, FirstValueOf, LengthOk;
    var es := seq(|v.events|, k requires 0 <= k < |v.events| => SpecDecl(m, v, isMsrp, k));
    forall k: nat | DeclaredBy(m, v, isMsrp, d, k)
      ensures d in SpecVectorDecls(m, v, isMsrp)
    {
      assert es[k] == d;
      assert d in es;
    }
    if d in es {
      var k :| 0 <= k < |es| && es[k] == d;
      assert DeclaredBy(m, v, isMsrp, d, k);
    }
  }

  lemma InFrame(msgs: seq<MessageSpec>, isMsrp: bool, d: Decl)
    requires SpecExpandableMessages(msgs, isMsrp)
    ensures d in SpecDecls(msgs, isMsrp, |msgs|) <==>
              exists m, v :: m in msgs && v in m.vectors && d in SpecVectorDecls(m, v, isMsrp)
  {
    hide SpecDecls, SpecMessageDecls, SpecVectorDecls, SpecExpandable;
    InPdu(msgs, isMsrp, |msgs|, d);
    if i :| 0 <= i < |msgs| && d in SpecMessageDecls(msgs[i], isMsrp, |msgs[i].vectors|) {
      InMessage(msgs[i], isMsrp, |msgs[i].vectors|, d);
      var j :| 0 <= j < |msgs[i].vectors| && d in SpecVectorDecls(msgs[i], msgs[i].vectors[j], isMsrp);
      assert msgs[i] in msgs && msgs[i].vectors[j] in msgs[i].vectors;
    }
    forall m, v | m in msgs && v in m.vectors && d in SpecVectorDecls(m, v, isMsrp)
      ensures d in SpecDecls(msgs, isMsrp, |msgs|)
    {
      InMessage(m, isMsrp, |m.vectors|, d);
      var i :| 0 <= i < |msgs| && msgs[i] == m;
    }
  }

  /** A frame declares a value exactly if some vector of some message of it does. */
  lemma Declared(msgs: seq<MessageSpec>, isMsrp: bool, d: Decl)
    requires SpecExpandableMessages(msgs, isMsrp) && d.fromValue
    ensures d in SpecDecls(msgs, isMsrp, |msgs|) <==>
              exists m, v, k: nat :: m in msgs && v in m.vectors && DeclaredBy(m, v, isMsrp, d, k)
  {
    hide SpecDecls, SpecVectorDecls, SpecExpandable, DeclaredBy;
    InFrame(msgs, isMsrp, d);
    forall m, v | m in msgs && v in m.vectors
      ensures d in SpecVectorDecls(m, v, isMsrp) <==> exists k: nat :: DeclaredBy(m, v, isMsrp, d, k)
    {
      InVector(m, v, isMsrp, d);
    }
  }

  /** Going `k` on from `f` around a ring is arriving at `w` exactly if `k` is the way from `f` to `w`. */
  lemma RingDistance(f: nat, k: nat, w: nat, ring: nat)
    requires w < ring && k < ring
    ensures (f + k) % ring == w <==> (w - f) % ring == k
  {
    if (f + k) % ring == w {
      DivModUnique(w - f, ring, -((f + k) / ring), k);
    }
    if (w - f) % ring == k {
      DivModUnique(f + k, ring, -((w - f) / ring), w);
    }
  }

  /** The k-th value in closed form. */
  lemma NthIs(first: FirstValue, k: nat)
    requires InRange(first)
    ensures match first
            case Talker(s, d, _, _, _, _, _, _, _) =>
              Nth(first, k) == first.(streamId := (s + k) % M64, destMac := (d + k) % M64)
            case Listener(s) => Nth(first, k) == Listener((s + k) % M64)
            case Domain(c, _, _) => Nth(first, k) == first.(classId := c + k)
            case Vid(v) => Nth(first, k) == Vid((v + k) % 4096)
            case Unknown => Nth(first, k) == Unknown
  {
    hide Nth;
    ValueIsNth(first, k);
  }

  // ---- which frames are accepted ----

  /** One declaration for every event and one for every LeaveAll flag. */
  function Count(vs: seq<VectorSpec>, n: nat): nat
    requires n <= |vs|
  {
    if n == 0 then 0 else Count(vs, n - 1) + |vs[n - 1].events| + if vs[n - 1].leaveAll then 1 else 0
  }

  function CountAll(msgs: seq<MessageSpec>, n: nat): nat
    requires n <= |msgs|
  {
    if n == 0 then 0 else CountAll(msgs, n - 1) + Count(msgs[n - 1].vectors, |msgs[n - 1].vectors|)
  }

  lemma {:induction false} MessageCount(m: MessageSpec, isMsrp: bool, n: nat)
    requires SpecExpandableVectors(m, isMsrp) && n <= |m.vectors|
    ensures |SpecMessageDecls(m, isMsrp, n)| == Count(m.vectors, n)
  {
    hide SpecExpandable, SpecDecl, Nth, FirstValueOf;
    if n > 0 {
      MessageCount(m, isMsrp, n - 1);
    }
  }

  lemma {:induction false} FrameCount(msgs: seq<MessageSpec>, isMsrp: bool, n: nat)
    requires SpecExpandableMessages(msgs, isMsrp) && n <= |msgs|
    ensures |SpecDecls(msgs, isMsrp, n)| == CountAll(msgs, n)
  {
    hide SpecMessageDecls, SpecExpandableVectors, Count;
    if n > 0 {
      FrameCount(msgs, isMsrp, n - 1);
      assert msgs[n - 1] in msgs;
      MessageCount(msgs[n - 1], isMsrp, |msgs[n - 1].vectors|);
    }
  }

  /** A frame that decodes to what was encoded is accepted with its declarations unless some value has 8192 of them
      before it; so it is if there are at most 8192 events and LeaveAll flags. */
  lemma AcceptedExact(data: seq<byte>, pos: nat, msgs: seq<MessageSpec>, isMsrp: bool)
    requires SpecExpandableMessages(msgs, isMsrp) && pos <= |data| && DecodesTo(ParsePdu(data, pos, isMsrp), msgs)
    ensures var ds, r := SpecDecls(msgs, isMsrp, |msgs|), FrameDecls(data, pos, isMsrp);
            && (r.Failure? <==> exists i :: 8192 <= i < |ds| && ds[i].fromValue)
            && (r.Success? ==> r.value == ds)
            && (CountAll(msgs, |msgs|) <= 8192 ==> r.Success?)
  {
    hide FrameDecls, SpecDecls, DecodesTo;
    DecodedDecls(data, pos, msgs, isMsrp);
    FrameCount(msgs, isMsrp, |msgs|);
  }

  /** Talkers have first values of 25 bytes, failed ones of 34, listeners of 8, domains of 4, VIDs of 2. */
  predicate RightLength(isMsrp: bool, m: MrpMessage) {
    if isMsrp then
      && (m.attrType == 1 ==> m.attrLen == 25) && (m.attrType == 2 ==> m.attrLen == 34)
      && (m.attrType == 3 ==> m.attrLen == 8) && (m.attrType == 4 ==> m.attrLen == 4)
    else m.attrType == 1 && m.attrLen == 2
  }

  /** On any bytes: a frame is refused if its PDU does not parse, if some message has the wrong length for its type,
      or if there are too many declarations, and for no other reason. */
  lemma RefusedExact(data: seq<byte>, pos: nat, isMsrp: bool)
    requires pos <= |data|
    ensures var r := ParsePdu(data, pos, isMsrp);
            && (r.Failure? ==> FrameDecls(data, pos, isMsrp).Failure?)
            && (r.Success? && (exists m :: m in r.value.0.messages && !RightLength(isMsrp, m)) ==>
                  FrameDecls(data, pos, isMsrp).Failure?)
            && (r.Success? && (forall m :: m in r.value.0.messages ==> RightLength(isMsrp, m)) ==>
                  ExpandableMessages(r.value.0.messages, isMsrp) &&
                  (FrameDecls(data, pos, isMsrp).Failure? <==>
                     TooMany(PduDecls(r.value.0.messages, isMsrp, |r.value.0.messages|))))
  {
    hide ParsePdu, PduDecls, WfMessages, TooMany;
    var r := ParsePdu(data, pos, isMsrp);
    if r.Success? {
      var ms := r.value.0.messages;
      assert forall m :: m in ms ==> (RightLength(isMsrp, m) <==> LengthOk(isMsrp, m.attrType, m.attrLen));
      if forall m :: m in ms ==> RightLength(isMsrp, m) {
        AcceptedPduWellFormed(data, pos, isMsrp);
        AcceptedExpandable(ms, isMsrp);
      }
    }
  }

  // ---- VIDs ----

  function FirstVid(v: VectorSpec): nat
    requires |v.firstValue| == 2
  {
    256 * v.firstValue[0] as int + v.firstValue[1]
  }

  /** The vector carries event `e` for VID `w`. */
  predicate Carries(v: VectorSpec, w: nat, e: nat)
    requires |v.firstValue| == 2
  {
    (w - FirstVid(v)) % 4096 < |v.events| && v.events[(w - FirstVid(v)) % 4096] == e
  }

  lemma VidNth(fv: seq<byte>, k: nat)
    requires |fv| == 2
    ensures FirstValueOf(false, 1, fv) == Vid(256 * fv[0] as int + fv[1])
    ensures Nth(FirstValueOf(false, 1, fv), k) == Vid((256 * fv[0] as int + fv[1] + k) % 4096)
  {
    U16IsBe(fv);
    NthIs(FirstValueOf(false, 1, fv), k);
  }

  lemma VidDeclaredBy(m: MessageSpec, v: VectorSpec, w: nat, e: nat)
    requires m.attrType == 1 && m.attrLen == 2 && SpecExpandable(m, v, false) && |v.events| <= 4096 && w < 4096
    ensures (exists k: nat :: DeclaredBy(m, v, false, Decl(1, e, None, Vid(w), true), k)) <==> Carries(v, w, e)
  {
    hide Nth, FirstValueOf;
    var d := Decl(1, e, None, Vid(w), true);
    forall k: nat
      ensures DeclaredBy(m, v, false, d, k) <==>
                k < |v.events| && v.events[k] == e && k == (w - FirstVid(v)) % 4096
    {
      if k < |v.events| {
        VidNth(v.firstValue, k);
        RingDistance(FirstVid(v), k, w, 4096);
      }
    }
    if Carries(v, w, e) {
      assert DeclaredBy(m, v, false, d, (w - FirstVid(v)) % 4096);
    }
  }

  /** An accepted MVRP frame declares event `e` for VID `w` exactly if some vector put it in the place of `w`, counting
      from the first VID around 4096. */
  lemma VidsDeclared(data: seq<byte>, pos: nat, vs: seq<VectorSpec>, w: nat, e: nat)
    requires Encodable(vs) && ShapedVectors(vs, false, 1, 2) && SmallVectors(vs) && forall v :: v in vs ==> Visible(v)
    requires pos <= |data| && At(data, pos, MvrpPdu(vs))
    requires w < 4096 && FrameDecls(data, pos, false).Success?
    ensures Decl(1, e, None, Vid(w), true) in FrameDecls(data, pos, false).value
            <==> exists v :: v in vs && Carries(v, w, e)
  {
    hide FrameDecls, SpecDecls, MvrpPdu, Carries, DeclaredBy;
    var m, d := MessageSpec(1, 2, vs), Decl(1, e, None, Vid(w), true);
    MvrpEndToEnd(data, pos, vs);
    Declared([m], false, d);
    forall v | v in vs
      ensures (exists k: nat :: DeclaredBy(m, v, false, d, k)) <==> Carries(v, w, e)
    {
      VidDeclaredBy(m, v, w, e);
    }
    if v :| v in vs && Carries(v, w, e) {
      var k: nat :| DeclaredBy(m, v, false, d, k);
      assert m in [m] && v in m.vectors;
    }
  }

  // ---- streams, domains ----

  function First(m: MessageSpec, v: VectorSpec): FirstValue
    requires SpecExpandable(m, v, true)
  {
    FirstValueOf(true, m.attrType, v.firstValue)
  }

  /** How far a value is from the first one: stream identifiers count around 2^64, classes up. */
  function Way(first: FirstValue, to: FirstValue): int {
    match (first, to)
    case (Talker(f, _, _, _, _, _, _, _, _), Talker(s, _, _, _, _, _, _, _, _)) => (s - f) % M64
    case (Listener(f), Listener(s)) => (s - f) % M64
    case (Domain(f, _, _), Domain(c, _, _)) => c - f
    case _ => -1
  }

  /** A talker keeps its distance between stream and address; everything else is as in the first value. */
  predicate SameKind(first: FirstValue, to: FirstValue) {
    match (first, to)
    case (Talker(f, d, _, _, _, _, _, _, _), Talker(s, e, _, _, _, _, _, _, _)) =>
      to == first.(streamId := s, destMac := e) && e == (d + (s - f) % M64) % M64
    case (Listener(_), Listener(_)) => true
    case (Domain(_, p, w), Domain(_, q, x)) => p == q && w == x
    case _ => false
  }

  /** The vector puts the declaration's event in the place of its value. */
  predicate Spells(m: MessageSpec, v: VectorSpec, d: Decl)
    requires SpecExpandable(m, v, true)
  {
    && d.attrType == m.attrType && SameKind(First(m, v), d.value)
    && var k := Way(First(m, v), d.value);
       && 0 <= k < |v.events| && d.event == v.events[k]
       && d.fourPacked == if m.attrType == 3 then Some(v.listeners.value[k] as nat) else None
  }

  lemma KindsOf(m: MessageSpec, v: VectorSpec)
    requires SpecExpandable(m, v, true)
    ensures InRange(First(m, v)) && !First(m, v).Vid?
    ensures First(m, v).Unknown? <==> m.attrType !in {1, 2, 3, 4}
  {
    FirstInRange(true, m.attrType, v.firstValue);
  }

  /** The k-th value from the first is the one `k` away of the same kind. */
  lemma NthAway(first: FirstValue, to: FirstValue, k: nat)
    requires InRange(first) && InRange(to) && !first.Vid? && !first.Unknown? && k < M64
    ensures Nth(first, k) == to <==> SameKind(first, to) && Way(first, to) == k
  {
    hide Nth;
    NthIs(first, k);
    match (first, to)
    case (Talker(f, _, _, _, _, _, _, _, _), Talker(s, _, _, _, _, _, _, _, _)) => RingDistance(f, k, s, M64);
    case (Listener(f), Listener(s)) => RingDistance(f, k, s, M64);
    case _ =>
  }

  lemma SpelledBy(m: MessageSpec, v: VectorSpec, d: Decl)
    requires SpecExpandable(m, v, true) && |v.events| <= 4096 && m.attrType in {1, 2, 3, 4}
    requires d.fromValue && InRange(d.value)
    ensures (exists k: nat :: DeclaredBy(m, v, true, d, k)) <==> Spells(m, v, d)
  {
    hide Nth, FirstValueOf, Way, SameKind, LengthOk;
    KindsOf(m, v);
    forall k: nat
      ensures DeclaredBy(m, v, true, d, k) <==> Spells(m, v, d) && k == Way(First(m, v), d.value)
    {
      if k < |v.events| {
        NthAway(First(m, v), d.value, k);
      }
    }
    if Spells(m, v, d) {
      assert DeclaredBy(m, v, true, d, Way(First(m, v), d.value));
    }
  }

  /** An accepted MSRP frame declares a talker, listener or domain with an event, and a listener with its four-packed
      state, exactly if some vector put that event and state in the place of that value: streams counted from the first
      one around 2^64, addresses along with them, classes upwards. */
  lemma StreamsDeclared(data: seq<byte>, pos: nat, msgs: seq<MessageSpec>, d: Decl)
    requires EncodableMessages(msgs) && ShapedMessages(msgs) && Survives(msgs) && SpecExpandableMessages(msgs, true)
    requires pos <= |data| && At(data, pos, MsrpPdu(msgs)) && FrameDecls(data, pos, true).Success?
    requires d.attrType in {1, 2, 3, 4} && d.fromValue && InRange(d.value)
    ensures d in FrameDecls(data, pos, true).value
            <==> exists m, v :: m in msgs && v in m.vectors && SpecExpandable(m, v, true) && Spells(m, v, d)
  {
    hide FrameDecls, SpecDecls, MsrpPdu, Spells, DeclaredBy, SpecExpandable;
    MsrpEndToEnd(data, pos, msgs);
    Declared(msgs, true, d);
    forall m, v | m in msgs && v in m.vectors
      ensures SpecExpandable(m, v, true)
      ensures (exists k: nat :: DeclaredBy(m, v, true, d, k)) <==> Spells(m, v, d)
    {
      if m.attrType in {1, 2, 3, 4} {
        SpelledBy(m, v, d);
      } else {
        OtherType(m, v, d);
      }
    }
  }

  lemma OtherType(m: MessageSpec, v: VectorSpec, d: Decl)
    requires SpecExpandable(m, v, true) && d.attrType != m.attrType
    ensures !Spells(m, v, d) && forall k: nat :: !DeclaredBy(m, v, true, d, k)
  {
  }

  // ---- LeaveAll ----

  /** The vector has its LeaveAll flag set, and this is the declaration that stands for it. */
  predicate LeavesAll(m: MessageSpec, v: VectorSpec, isMsrp: bool, d: Decl)
    requires SpecExpandable(m, v, isMsrp)
  {
    v.leaveAll && d == Decl(m.attrType, 6, None, if isMsrp then First(m, v) else Vid(FirstVid(v) % 4096), false)
  }

  /** The declarations that are no values are exactly those of the LeaveAll flags, each with its vector's first
      value. */
  lemma LeaveAllsDeclared(msgs: seq<MessageSpec>, isMsrp: bool, d: Decl)
    requires SpecExpandableMessages(msgs, isMsrp) && !d.fromValue
    ensures d in SpecDecls(msgs, isMsrp, |msgs|)
            <==> exists m, v :: m in msgs && v in m.vectors && LeavesAll(m, v, isMsrp, d)
  {
    hide SpecDecls, SpecVectorDecls, Nth, FirstValueOf, LengthOk;
    InFrame(msgs, isMsrp, d);
    forall m, v | m in msgs && v in m.vectors
      ensures d in SpecVectorDecls(m, v, isMsrp) <==> LeavesAll(m, v, isMsrp, d)
    {
      InVector(m, v, isMsrp, d);
      FirstOfVector(m, v, isMsrp);
    }
  }

  lemma FirstOfVector(m: MessageSpec, v: VectorSpec, isMsrp: bool)
    requires SpecExpandable(m, v, isMsrp)
    ensures Nth(FirstValueOf(isMsrp, m.attrType, v.firstValue), 0) ==
            if isMsrp then First(m, v) else Vid(FirstVid(v) % 4096)
  {
    if isMsrp {
      KindsOf(m, v);
    } else {
      VidNth(v.firstValue, 0);
    }
  }
}
