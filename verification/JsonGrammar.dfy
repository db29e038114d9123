/** What the parser reads, as a grammar: every spelling of a value, with any white space and any escapes. */
module JsonGrammar {
  import opened Wrappers
  import opened Bytes
  import opened JsonText
  import opened JsonParsing
  import opened JsonSpelling

  // ---- white space ----

  /** Blanks, tabs, line feeds and carriage returns. */
  predicate Blank(w: Text) {
    forall i :: 0 <= i < |w| ==> w[i] == 32 || w[i] == 9 || w[i] == 10 || w[i] == 13
  }

  lemma {:induction false} SkipBlank(t: Text, pos: nat, w: Text)
    requires Blank(w) && At(t, pos, w)
    ensures SkipSpace(t, pos) == SkipSpace(t, pos + |w|)
    decreases |w|
  {
    if w != [] {
      AtSplit(t, pos, [w[0]], w[1..]);
      assert w == [w[0]] + w[1..];
      AtByte(t, pos, w[0]);
      SkipBlank(t, pos + 1, w[1..]);
    }
  }

  lemma {:induction false} BlankSkipped(t: Text, pos: nat)
    requires pos <= |t|
    ensures Blank(t[pos..SkipSpace(t, pos)])
    ensures SkipSpace(t, SkipSpace(t, pos)) == SkipSpace(t, pos)
    decreases |t| - pos
  {
    if pos < |t| && IsSpace(t[pos]) {
      BlankSkipped(t, pos + 1);
      assert t[pos..SkipSpace(t, pos)] == [t[pos]] + t[pos + 1..SkipSpace(t, pos)];
    }
  }

  // ---- values ----

  /** A value as it is written: a word, a number, a string, or a list with the white space between its parts. */
  datatype Syntax =
    | Word(v: Json)
    | Figure(f: Numeral)
    | Chars(cs: seq<Spelling>)
    | Array(inner: Text, items: seq<Element>)
    | Object(inner: Text, members: seq<Member>)
  datatype Element = Element(before: Text, value: Syntax, after: Text)
  datatype Member = Member(before: Text, key: seq<Spelling>, mid: Text, value: Element)

  predicate SyntaxOk(s: Syntax)
    decreases s
  {
    match s
    case Word(v) => v.Null? || v.Bool?
    case Figure(f) => NumeralOk(f)
    case Chars(cs) => SpellingsOk(cs)
    case Array(inner, items) => Blank(inner) && forall i :: 0 <= i < |items| ==> ElementOk(items[i])
    case Object(inner, members) => Blank(inner) && forall i :: 0 <= i < |members| ==> MemberOk(members[i])
  }

  predicate ElementOk(e: Element)
    decreases e
  {
    Blank(e.before) && Blank(e.after) && SyntaxOk(e.value)
  }

  predicate MemberOk(m: Member)
    decreases m
  {
    Blank(m.before) && SpellingsOk(m.key) && Blank(m.mid) && ElementOk(m.value)
  }

  ghost predicate ElementsOk(items: seq<Element>) {
    forall i :: 0 <= i < |items| ==> ElementOk(items[i])
  }

  ghost predicate MembersOk(members: seq<Member>) {
    forall i :: 0 <= i < |members| ==> MemberOk(members[i])
  }

  function WordText(v: Json): Text {
    match v case Bool(b) => if b then TRUE else FALSE case _ => NULL
  }

  ghost function Render(s: Syntax): Text
    requires SyntaxOk(s)
    decreases s
  {
    match s
    case Word(v) => WordText(v)
    case Figure(f) => Figures(f)
    case Chars(cs) => [QUOTE] + (WrittenAll(cs) + [QUOTE])
    case Array(inner, items) => [OPEN_ARR] + ((if items == [] then inner else RenderItems(items)) + [CLOSE_ARR])
    case Object(inner, members) =>
      [OPEN_OBJ] + ((if members == [] then inner else RenderMembers(members)) + [CLOSE_OBJ])
  }

  ghost function RenderElement(e: Element): Text
    requires ElementOk(e)
    decreases e
  {
    e.before + (Render(e.value) + e.after)
  }

  ghost function RenderItems(items: seq<Element>): Text
    requires ElementsOk(items)
    decreases items
  {
    if items == [] then []
    else if |items| == 1 then RenderElement(items[0])
    else RenderElement(items[0]) + ([COMMA] + RenderItems(items[1..]))
  }

  ghost function RenderMember(m: Member): Text
    requires MemberOk(m)
    decreases m
  {
    m.before + (([QUOTE] + (WrittenAll(m.key) + [QUOTE])) + (m.mid + ([COLON] + RenderElement(m.value))))
  }

  ghost function RenderMembers(members: seq<Member>): Text
    requires MembersOk(members)
    decreases members
  {
    if members == [] then []
    else if |members| == 1 then RenderMember(members[0])
    else RenderMember(members[0]) + ([COMMA] + RenderMembers(members[1..]))
  }

  ghost function Meaning(s: Syntax): Json
    requires SyntaxOk(s)
    decreases s
  {
    match s
    case Word(v) => v
    case Figure(f) => Worth(f)
    case Chars(cs) => Str(DenotedAll(cs))
    case Array(_, items) => Arr(MeaningItems(items))
    case Object(_, members) => Obj(MeaningMembers(members))
  }

  ghost function MeaningItems(items: seq<Element>): (r: seq<Json>)
    requires ElementsOk(items)
    ensures |r| == |items|
    decreases items
  {
    if items == [] then [] else [Meaning(items[0].value)] + MeaningItems(items[1..])
  }

  ghost function MeaningMembers(members: seq<Member>): (r: seq<(Text, Json)>)
    requires MembersOk(members)
    ensures |r| == |members|
    decreases members
  {
    if members == [] then [] else [MeaningMember(members[0])] + MeaningMembers(members[1..])
  }

  ghost function MeaningMember(m: Member): (Text, Json)
    requires MemberOk(m)
    decreases m
  {
    assert ElementOk(m.value);
    (DenotedAll(m.key), Meaning(m.value.value))
  }

  // ---- every spelling is read as what it means ----

  ghost function Outcome(s: Syntax, pos: nat, depth: nat): Result<(Json, nat)>
    requires SyntaxOk(s)
  {
    if depth + Depth(Meaning(s)) <= 64 then Success((Meaning(s), pos + |Render(s)|)) else Failure
  }

  /** What a list that is read item by item must come to. */
  ghost function ItemsOutcome(items: seq<Element>, pos: nat, depth: nat, have: seq<Json>): Result<(seq<Json>, nat)>
    requires ElementsOk(items)
  {
    if depth + 1 + ItemsDepth(MeaningItems(items)) <= 64
    then Success((have + MeaningItems(items), pos + |RenderItems(items)| + 1))
    else Failure
  }

  ghost function MembersOutcome(members: seq<Member>, pos: nat, depth: nat, have: seq<(Text, Json)>)
    : Result<(seq<(Text, Json)>, nat)>
    requires MembersOk(members)
  {
    if depth + 1 + MembersDepth(MeaningMembers(members)) <= 64
    then Success((have + MeaningMembers(members), pos + |RenderMembers(members)| + 1))
    else Failure
  }

  lemma ValueSkips(t: Text, pos: nat, w: Text, depth: nat)
    requires Blank(w) && At(t, pos, w)
    ensures ValueFrom(t, pos, depth) == ValueFrom(t, pos + |w|, depth)
  {
    hide MembersFrom, ItemsFrom, StringFrom, NumberFrom, LiteralFrom, SkipSpace;
    SkipBlank(t, pos, w);
  }

  lemma ItemsSkip(t: Text, pos: nat, w: Text, depth: nat, have: seq<Json>)
    requires Blank(w) && At(t, pos, w)
    ensures ItemsFrom(t, pos, depth, have) == ItemsFrom(t, pos + |w|, depth, have)
  {
    hide ValueFrom;
    ValueSkips(t, pos, w, depth + 1);
  }

  lemma MembersSkip(t: Text, pos: nat, w: Text, depth: nat, have: seq<(Text, Json)>)
    requires Blank(w) && At(t, pos, w)
    ensures MembersFrom(t, pos, depth, have) == MembersFrom(t, pos + |w|, depth, have)
  {
    hide ValueFrom, StringFrom, SkipSpace;
    SkipBlank(t, pos, w);
  }

  lemma {:induction false} ValueRead(t: Text, pos: nat, s: Syntax, depth: nat)
    requires SyntaxOk(s) && At(t, pos, Render(s)) && Delimited(t, pos + |Render(s)|)
    ensures ValueFrom(t, pos, depth) == Outcome(s, pos, depth)
    decreases s
  {
    hide *;
    match s
    case Array(inner, items) =>
      ArrayParts(t, pos, inner, items);
      if items != [] {
        ItemsRead(t, pos + 1, items, depth, []);
      }
      ArrayRead(t, pos, inner, items, depth);
    case Object(inner, members) =>
      ObjectParts(t, pos, inner, members);
      if members != [] {
        MembersRead(t, pos + 1, members, depth, []);
      }
      ObjectRead(t, pos, inner, members, depth);
    case _ => ScalarRead(t, pos, s, depth);
  }

  lemma ScalarRead(t: Text, pos: nat, s: Syntax, depth: nat)
    requires SyntaxOk(s) && At(t, pos, Render(s)) && Delimited(t, pos + |Render(s)|) && !s.Array? && !s.Object?
    ensures ValueFrom(t, pos, depth) == Outcome(s, pos, depth)
  {
    hide ValueFrom, StringFrom, NumberFrom, SpellingsOk, NumeralOk, Worth, Figures, WrittenAll, DenotedAll;
    match s
    case Word(v) => WordRead(t, pos, v, depth);
    case Figure(f) =>
      FigureRead(t, pos, f);
      NumberBranch(t, pos, depth);
      WorthFlat(f);
    case Chars(cs) =>
      AtSplit(t, pos, [QUOTE], WrittenAll(cs) + [QUOTE]);
      AtByte(t, pos, QUOTE);
      StringRead(t, pos + 1, cs, []);
      StringBranch(t, pos, depth);
      assert [] + DenotedAll(cs) == DenotedAll(cs);
  }

  lemma WordRead(t: Text, pos: nat, v: Json, depth: nat)
    requires (v.Null? || v.Bool?) && At(t, pos, WordText(v))
    ensures ValueFrom(t, pos, depth) == if depth > 64 then Failure else Success((v, pos + |WordText(v)|))
  {
    hide StringFrom, NumberFrom, ItemsFrom, MembersFrom;
    assert t[pos] == t[pos..pos + |WordText(v)|][0];
  }

  lemma NumberBranch(t: Text, pos: nat, depth: nat)
    requires pos < |t| && IsNumberChar(t[pos])
    ensures ValueFrom(t, pos, depth) == if depth > 64 then Failure else NumberFrom(t, pos)
  {
    hide StringFrom, NumberFrom, ItemsFrom, MembersFrom;
  }

  lemma StringBranch(t: Text, pos: nat, depth: nat)
    requires pos < |t| && t[pos] == QUOTE
    ensures ValueFrom(t, pos, depth) ==
            if depth > 64 || StringFrom(t, pos + 1, []).Failure? then Failure
            else Success((Str(StringFrom(t, pos + 1, []).value.0), StringFrom(t, pos + 1, []).value.1))
  {
    hide StringFrom, NumberFrom, ItemsFrom, MembersFrom;
  }

  lemma WorthFlat(f: Numeral)
    ensures Depth(Worth(f)) == 0
  {
  }

  /** A value does not begin with white space or a closing bracket. */
  lemma FirstOf(s: Syntax)
    requires SyntaxOk(s)
    ensures Render(s) != [] && !IsSpace(Render(s)[0]) && Render(s)[0] != CLOSE_ARR && Render(s)[0] != CLOSE_OBJ
  {
    hide NumeralOk, Figures, SpellingsOk, WrittenAll, RenderItems, RenderMembers, ElementOk, MemberOk;
    if s.Figure? {
      FiguresChars(s.f);
    }
  }

  /** Where the parts of an element lie, and what stands at its value. */
  lemma ElementParts(t: Text, pos: nat, e: Element)
    requires ElementOk(e) && At(t, pos, RenderElement(e))
    ensures var p := pos + |e.before|; var q := p + |Render(e.value)|;
            && At(t, pos, e.before) && At(t, p, Render(e.value)) && At(t, q, e.after)
            && q + |e.after| == pos + |RenderElement(e)|
            && SkipSpace(t, pos) == p < |t| && t[p] != CLOSE_ARR && t[p] != CLOSE_OBJ
            && SkipSpace(t, q) == SkipSpace(t, pos + |RenderElement(e)|)
            && (Delimited(t, pos + |RenderElement(e)|) ==> Delimited(t, q))
  {
    hide Render, SyntaxOk, SkipSpace;
    var r := Render(e.value);
    AtSplit(t, pos, e.before, r + e.after);
    AtSplit(t, pos + |e.before|, r, e.after);
    FirstOf(e.value);
    var p := pos + |e.before|;
    assert t[p] == t[p..p + |r|][0];
    SkipBlank(t, pos, e.before);
    SkipBlank(t, p + |r|, e.after);
    NoSpace(t, p);
    if e.after != [] {
      assert t[p + |r|] == t[p + |r|..p + |r| + |e.after|][0];
    }
  }

  lemma NoSpace(t: Text, pos: nat)
    requires pos <= |t| && (pos == |t| || !IsSpace(t[pos]))
    ensures SkipSpace(t, pos) == pos
  {
  }

  /** A comma or closing bracket ends numbers and is no white space. */
  predicate Stops(c: byte) {
    c == COMMA || c == CLOSE_ARR || c == CLOSE_OBJ
  }

  lemma {:induction false} ElementRead(t: Text, pos: nat, e: Element, depth: nat)
    requires ElementOk(e) && At(t, pos, RenderElement(e))
    requires var n := pos + |RenderElement(e)|; n < |t| && Stops(t[n])
    ensures var end := pos + |e.before| + |Render(e.value)|;
            && ValueFrom(t, pos, depth) ==
               (if depth + Depth(Meaning(e.value)) <= 64 then Success((Meaning(e.value), end)) else Failure)
            && end <= |t| && SkipSpace(t, end) == pos + |RenderElement(e)|
    decreases e
  {
    hide Render, RenderElement, Meaning, ValueFrom, SyntaxOk, SkipSpace, Depth;
    ElementParts(t, pos, e);
    ValueRead(t, pos + |e.before|, e.value, depth);
    ValueSkips(t, pos, e.before, depth);
    NoSpace(t, pos + |RenderElement(e)|);
  }

  lemma ArrayParts(t: Text, pos: nat, inner: Text, items: seq<Element>)
    requires SyntaxOk(Array(inner, items)) && At(t, pos, Render(Array(inner, items)))
    ensures ElementsOk(items) && Blank(inner)
    ensures var body := if items == [] then inner else RenderItems(items);
            && At(t, pos, [OPEN_ARR]) && At(t, pos + 1, body + [CLOSE_ARR])
            && |Render(Array(inner, items))| == |body| + 2
  {
    hide ElementOk, RenderItems;
    var body := if items == [] then inner else RenderItems(items);
    AtSplit(t, pos, [OPEN_ARR], body + [CLOSE_ARR]);
  }

  lemma ItemsCons(items: seq<Element>, tail: Text)
    requires ElementsOk(items) && items != []
    ensures ElementsOk(items[1..])
    ensures |items| == 1 ==> RenderItems(items) == RenderElement(items[0])
    ensures |items| > 1 ==>
              && RenderItems(items) + tail == RenderElement(items[0]) + ([COMMA] + (RenderItems(items[1..]) + tail))
              && |RenderItems(items)| == |RenderElement(items[0])| + 1 + |RenderItems(items[1..])|
  {
    hide RenderElement, ElementOk;
    if |items| > 1 {
      Regroup(RenderElement(items[0]), RenderItems(items[1..]), tail);
    }
  }

  lemma Regroup(a: Text, b: Text, tail: Text)
    ensures (a + ([COMMA] + b)) + tail == a + ([COMMA] + (b + tail))
  {
  }

  lemma MeaningCons(items: seq<Element>)
    requires ElementsOk(items) && items != []
    ensures ElementsOk(items[1..])
    ensures MeaningItems(items) == [Meaning(items[0].value)] + MeaningItems(items[1..])
    ensures |items| == 1 ==>
              && MeaningItems(items) == [Meaning(items[0].value)]
              && ItemsDepth(MeaningItems(items)) == Depth(Meaning(items[0].value))
    ensures |items| > 1 ==>
              ItemsDepth(MeaningItems(items)) ==
                Max(Depth(Meaning(items[0].value)), ItemsDepth(MeaningItems(items[1..])))
  {
    hide Meaning, Depth, ElementOk;
    assert MeaningItems(items)[1..] == MeaningItems(items[1..]);
    if |items| == 1 {
      assert MeaningItems(items[1..]) == [];
    }
  }

  /** One turn of the item loop, its value known to be read or refused. */
  lemma ItemsTurn(t: Text, pos: nat, depth: nat, have: seq<Json>, v: Json, end: nat, next: nat, c: byte)
    requires pos <= end <= |t| && (c == COMMA || c == CLOSE_ARR)
    requires ValueFrom(t, pos, depth + 1) == if depth + 1 + Depth(v) <= 64 then Success((v, end)) else Failure
    requires SkipSpace(t, end) == next < |t| && t[next] == c
    ensures ItemsFrom(t, pos, depth, have)
         == if depth + 1 + Depth(v) > 64 then Failure
            else if c == COMMA then ItemsFrom(t, next + 1, depth, have + [v])
            else Success((have + [v], next + 1))
  {
    hide ValueFrom, Depth, SkipSpace;
  }

  lemma {:induction false} ItemsRead(t: Text, pos: nat, items: seq<Element>, depth: nat, have: seq<Json>)
    requires ElementsOk(items) && items != [] && At(t, pos, RenderItems(items) + [CLOSE_ARR])
    ensures ItemsFrom(t, pos, depth, have) == ItemsOutcome(items, pos, depth, have)
    decreases items
  {
    hide At, ElementOk, RenderElement, Render, Meaning, Depth, ItemsDepth, RenderItems, MeaningItems, ItemsFrom;
    hide ValueFrom;
    var first := items[0];
    FirstElementOk(items);
    ItemsCons(items, [CLOSE_ARR]);
    MeaningCons(items);
    var w := RenderElement(first);
    var n := pos + |w|;
    var end := pos + |first.before| + |Render(first.value)|;
    if |items| == 1 {
      AtSplit(t, pos, w, [CLOSE_ARR]);
      AtByteIn(t, n, CLOSE_ARR);
      ElementRead(t, pos, first, depth + 1);
      ItemsTurn(t, pos, depth, have, Meaning(first.value), end, n, CLOSE_ARR);
      ItemsOutcomeIs(items, pos, depth, have);
    } else {
      var rest := RenderItems(items[1..]) + [CLOSE_ARR];
      AtSplit(t, pos, w, [COMMA] + rest);
      AtSplit(t, n, [COMMA], rest);
      AtByteIn(t, n, COMMA);
      ElementRead(t, pos, first, depth + 1);
      ItemsTurn(t, pos, depth, have, Meaning(first.value), end, n, COMMA);
      ItemsRead(t, n + 1, items[1..], depth, have + [Meaning(first.value)]);
      ItemsOutcomeIs(items, pos, depth, have);
      ItemsOutcomeIs(items[1..], n + 1, depth, have + [Meaning(first.value)]);
      assert have + [Meaning(first.value)] + MeaningItems(items[1..]) == have + MeaningItems(items);
    }
  }

  lemma FirstElementOk(items: seq<Element>)
    requires ElementsOk(items) && items != []
    ensures ElementOk(items[0]) && SyntaxOk(items[0].value)
  {
  }

  lemma AtByteIn(t: Text, pos: nat, c: byte)
    requires At(t, pos, [c])
    ensures pos < |t| && t[pos] == c && (Stops(c) ==> Stops(t[pos]))
  {
    AtByte(t, pos, c);
  }

  lemma ItemsOutcomeIs(items: seq<Element>, pos: nat, depth: nat, have: seq<Json>)
    requires ElementsOk(items)
    ensures ItemsOutcome(items, pos, depth, have) ==
            if depth + 1 + ItemsDepth(MeaningItems(items)) <= 64
            then Success((have + MeaningItems(items), pos + |RenderItems(items)| + 1))
            else Failure
  {
  }

  lemma ArrayRead(t: Text, pos: nat, inner: Text, items: seq<Element>, depth: nat)
    requires SyntaxOk(Array(inner, items)) && At(t, pos, Render(Array(inner, items)))
    requires ElementsOk(items)
    requires items != [] ==> ItemsFrom(t, pos + 1, depth, []) == ItemsOutcome(items, pos + 1, depth, [])
    ensures ValueFrom(t, pos, depth) == Outcome(Array(inner, items), pos, depth)
  {
    hide RenderItems, ItemsDepth, ItemsFrom, MeaningItems, ElementOk, SkipSpace, Render;
    ArrayParts(t, pos, inner, items);
    AtByte(t, pos, OPEN_ARR);
    NoSpace(t, pos);
    assert [] + MeaningItems(items) == MeaningItems(items);
    if items == [] {
      AtSplit(t, pos + 1, inner, [CLOSE_ARR]);
      AtByte(t, pos + 1 + |inner|, CLOSE_ARR);
      SkipBlank(t, pos + 1, inner);
      NoSpace(t, pos + 1 + |inner|);
    } else {
      ItemsFirst(t, pos + 1, items);
      SkippedBlank(t, pos + 1);
      ItemsSkip(t, pos + 1, t[pos + 1..SkipSpace(t, pos + 1)], depth, []);
    }
  }

  lemma SkippedBlank(t: Text, pos: nat)
    requires pos <= |t|
    ensures Blank(t[pos..SkipSpace(t, pos)]) && At(t, pos, t[pos..SkipSpace(t, pos)])
  {
    BlankSkipped(t, pos);
  }

  lemma ItemsFirst(t: Text, pos: nat, items: seq<Element>)
    requires ElementsOk(items) && items != [] && At(t, pos, RenderItems(items) + [CLOSE_ARR])
    ensures SkipSpace(t, pos) < |t| && t[SkipSpace(t, pos)] != CLOSE_ARR
  {
    hide RenderElement, RenderItems, SkipSpace, MeaningItems;
    ItemsCons(items, [CLOSE_ARR]);
    if |items| == 1 {
      AtSplit(t, pos, RenderElement(items[0]), [CLOSE_ARR]);
    } else {
      AtSplit(t, pos, RenderElement(items[0]), [COMMA] + (RenderItems(items[1..]) + [CLOSE_ARR]));
    }
    ElementParts(t, pos, items[0]);
  }

  // ---- members ----

  lemma ObjectParts(t: Text, pos: nat, inner: Text, members: seq<Member>)
    requires SyntaxOk(Object(inner, members)) && At(t, pos, Render(Object(inner, members)))
    ensures MembersOk(members) && Blank(inner)
    ensures var body := if members == [] then inner else RenderMembers(members);
            && At(t, pos, [OPEN_OBJ]) && At(t, pos + 1, body + [CLOSE_OBJ])
            && |Render(Object(inner, members))| == |body| + 2
  {
    hide MemberOk, RenderMembers;
    var body := if members == [] then inner else RenderMembers(members);
    AtSplit(t, pos, [OPEN_OBJ], body + [CLOSE_OBJ]);
  }

  lemma MembersCons(members: seq<Member>, tail: Text)
    requires MembersOk(members) && members != []
    ensures MembersOk(members[1..]) && MemberOk(members[0])
    ensures |members| == 1 ==> RenderMembers(members) == RenderMember(members[0])
    ensures |members| > 1 ==>
              && RenderMembers(members) + tail ==
                 RenderMember(members[0]) + ([COMMA] + (RenderMembers(members[1..]) + tail))
              && |RenderMembers(members)| == |RenderMember(members[0])| + 1 + |RenderMembers(members[1..])|
  {
    hide RenderMember, MemberOk;
    if |members| > 1 {
      Regroup(RenderMember(members[0]), RenderMembers(members[1..]), tail);
    }
  }

  lemma MeaningMembersCons(members: seq<Member>)
    requires MembersOk(members) && members != []
    ensures MembersOk(members[1..]) && MemberOk(members[0])
    ensures MeaningMembers(members) == [MeaningMember(members[0])] + MeaningMembers(members[1..])
    ensures |members| == 1 ==>
              && MeaningMembers(members) == [MeaningMember(members[0])]
              && MembersDepth(MeaningMembers(members)) == Depth(MeaningMember(members[0]).1)
    ensures |members| > 1 ==>
              MembersDepth(MeaningMembers(members)) ==
                Max(Depth(MeaningMember(members[0]).1), MembersDepth(MeaningMembers(members[1..])))
  {
    hide MeaningMember, Depth, MemberOk;
    assert MeaningMembers(members)[1..] == MeaningMembers(members[1..]);
    if |members| == 1 {
      assert MeaningMembers(members[1..]) == [];
    }
  }

  /** Where the parts of a member lie: its key begins at `p`, the colon stands at `c`. */
  lemma MemberParts(t: Text, pos: nat, m: Member)
    requires MemberOk(m) && At(t, pos, RenderMember(m))
    ensures var p := pos + |m.before|; var k := p + |WrittenAll(m.key)| + 2; var c := k + |m.mid|;
            && SkipSpace(t, pos) == p < |t| && t[p] == QUOTE && At(t, p + 1, WrittenAll(m.key) + [QUOTE])
            && k <= |t| && SkipSpace(t, k) == c < |t| && t[c] == COLON
            && ElementOk(m.value) && At(t, c + 1, RenderElement(m.value))
            && c + 1 + |RenderElement(m.value)| == pos + |RenderMember(m)|
  {
    hide WrittenAll, SpellingsOk, RenderElement, ElementOk, SkipSpace;
    var key := [QUOTE] + (WrittenAll(m.key) + [QUOTE]);
    var value := RenderElement(m.value);
    var p := pos + |m.before|;
    var k := p + |key|;
    var c := k + |m.mid|;
    AtSplit(t, pos, m.before, key + (m.mid + ([COLON] + value)));
    AtSplit(t, p, key, m.mid + ([COLON] + value));
    AtSplit(t, k, m.mid, [COLON] + value);
    AtSplit(t, c, [COLON], value);
    AtSplit(t, p, [QUOTE], WrittenAll(m.key) + [QUOTE]);
    AtByteIn(t, p, QUOTE);
    AtByteIn(t, c, COLON);
    SkipBlank(t, pos, m.before);
    SkipBlank(t, k, m.mid);
    NoSpace(t, p);
    NoSpace(t, c);
  }

  lemma {:induction false} MemberRead(t: Text, pos: nat, m: Member, depth: nat)
    requires MemberOk(m) && At(t, pos, RenderMember(m))
    requires var n := pos + |RenderMember(m)|; n < |t| && Stops(t[n])
    ensures var r := MemberFrom(t, pos, depth);
            if depth + 1 + Depth(MeaningMember(m).1) <= 64
            then r.Success? && r.value.0 == MeaningMember(m) && SkipSpace(t, r.value.1) == pos + |RenderMember(m)|
            else r.Failure?
    decreases m
  {
    hide RenderElement, RenderMember, Render, Meaning, ValueFrom, StringFrom, SkipSpace, Depth, WrittenAll, DenotedAll;
    hide SpellingsOk, ElementOk, Stops;
    MemberParts(t, pos, m);
    var p := pos + |m.before|;
    var c := p + |WrittenAll(m.key)| + 2 + |m.mid|;
    KeyOk(m);
    StringRead(t, p + 1, m.key, []);
    assert [] + DenotedAll(m.key) == DenotedAll(m.key);
    ElementRead(t, c + 1, m.value, depth + 1);
  }

  lemma KeyOk(m: Member)
    requires MemberOk(m)
    ensures SpellingsOk(m.key) && ElementOk(m.value) && SyntaxOk(m.value.value)
  {
    hide SpellingsOk;
  }

  lemma MembersTurn(t: Text, pos: nat, depth: nat, have: seq<(Text, Json)>, m: (Text, Json), next: nat, c: byte)
    requires pos <= |t| && (c == COMMA || c == CLOSE_OBJ) && next < |t| && t[next] == c
    requires var r := MemberFrom(t, pos, depth);
             if depth + 1 + Depth(m.1) <= 64
             then r.Success? && r.value.0 == m && SkipSpace(t, r.value.1) == next
             else r.Failure?
    ensures MembersFrom(t, pos, depth, have)
         == if depth + 1 + Depth(m.1) > 64 then Failure
            else if c == COMMA then MembersFrom(t, next + 1, depth, have + [m])
            else Success((have + [m], next + 1))
  {
    hide MemberFrom, Depth, SkipSpace;
  }

  lemma {:induction false} MembersRead(t: Text, pos: nat, members: seq<Member>, depth: nat, have: seq<(Text, Json)>)
    requires MembersOk(members) && members != [] && At(t, pos, RenderMembers(members) + [CLOSE_OBJ])
    ensures MembersFrom(t, pos, depth, have) == MembersOutcome(members, pos, depth, have)
    decreases members
  {
    hide At, MemberOk, RenderMember, MeaningMember, Depth, MembersDepth, RenderMembers, MeaningMembers, MembersFrom;
    hide MemberFrom, Stops, SkipSpace;
    var first := members[0];
    MembersCons(members, [CLOSE_OBJ]);
    MeaningMembersCons(members);
    var w := RenderMember(first);
    var n := pos + |w|;
    if |members| == 1 {
      AtSplit(t, pos, w, [CLOSE_OBJ]);
      AtByteIn(t, n, CLOSE_OBJ);
      AllStop();
      MemberRead(t, pos, first, depth);
      MembersTurn(t, pos, depth, have, MeaningMember(first), n, CLOSE_OBJ);
    } else {
      var rest := RenderMembers(members[1..]) + [CLOSE_OBJ];
      AtSplit(t, pos, w, [COMMA] + rest);
      AtSplit(t, n, [COMMA], rest);
      AtByteIn(t, n, COMMA);
      AllStop();
      MemberRead(t, pos, first, depth);
      MembersTurn(t, pos, depth, have, MeaningMember(first), n, COMMA);
      MembersRead(t, n + 1, members[1..], depth, have + [MeaningMember(first)]);
      assert have + [MeaningMember(first)] + MeaningMembers(members[1..]) == have + MeaningMembers(members);
    }
  }

  lemma AllStop()
    ensures Stops(COMMA) && Stops(CLOSE_ARR) && Stops(CLOSE_OBJ)
  {
  }

  lemma ObjectRead(t: Text, pos: nat, inner: Text, members: seq<Member>, depth: nat)
    requires SyntaxOk(Object(inner, members)) && At(t, pos, Render(Object(inner, members)))
    requires MembersOk(members)
    requires members != [] ==> MembersFrom(t, pos + 1, depth, []) == MembersOutcome(members, pos + 1, depth, [])
    ensures ValueFrom(t, pos, depth) == Outcome(Object(inner, members), pos, depth)
  {
    hide RenderMembers, MembersDepth, MembersFrom, MeaningMembers, MemberOk, SkipSpace, Render;
    ObjectParts(t, pos, inner, members);
    AtByte(t, pos, OPEN_OBJ);
    NoSpace(t, pos);
    assert [] + MeaningMembers(members) == MeaningMembers(members);
    if members == [] {
      AtSplit(t, pos + 1, inner, [CLOSE_OBJ]);
      AtByte(t, pos + 1 + |inner|, CLOSE_OBJ);
      SkipBlank(t, pos + 1, inner);
      NoSpace(t, pos + 1 + |inner|);
    } else {
      MembersFirst(t, pos + 1, members);
      SkippedBlank(t, pos + 1);
      MembersSkip(t, pos + 1, t[pos + 1..SkipSpace(t, pos + 1)], depth, []);
    }
  }

  lemma MembersFirst(t: Text, pos: nat, members: seq<Member>)
    requires MembersOk(members) && members != [] && At(t, pos, RenderMembers(members) + [CLOSE_OBJ])
    ensures SkipSpace(t, pos) < |t| && t[SkipSpace(t, pos)] == QUOTE
  {
    hide RenderMember, RenderMembers, SkipSpace, MeaningMembers, MeaningMember;
    MembersCons(members, [CLOSE_OBJ]);
    if |members| == 1 {
      AtSplit(t, pos, RenderMember(members[0]), [CLOSE_OBJ]);
    } else {
      AtSplit(t, pos, RenderMember(members[0]), [COMMA] + (RenderMembers(members[1..]) + [CLOSE_OBJ]));
    }
    MemberParts(t, pos, members[0]);
  }

  // ---- whatever is read was a spelling of it ----

  lemma {:induction false} ValueFound(t: Text, pos: nat, depth: nat) returns (w: Text, s: Syntax)
    requires pos <= |t| && ValueFrom(t, pos, depth).Success?
    ensures Blank(w) && SyntaxOk(s) && At(t, pos, w) && At(t, pos + |w|, Render(s))
    ensures ValueFrom(t, pos, depth).value == (Meaning(s), pos + |w| + |Render(s)|)
    ensures depth + Depth(Meaning(s)) <= 64
    decreases |t| - pos, 1
  {
    hide Blank, SyntaxOk, Render, Meaning, StringFrom, NumberFrom, ItemsFrom, MembersFrom, LiteralFrom, SkipSpace;
    hide Depth;
    var p := SkipSpace(t, pos);
    w := t[pos..p];
    SkippedBlank(t, pos);
    BlankSkipped(t, pos);
    ValueSkips(t, pos, w, depth);
    assert p < |t| by {
      ValueNotEmpty(t, pos, depth);
    }
    if t[p] == OPEN_ARR {
      s := ArrayFound(t, p, depth);
    } else if t[p] == OPEN_OBJ {
      s := ObjectFound(t, p, depth);
    } else {
      s := ScalarFound(t, p, depth);
    }
  }

  lemma ValueNotEmpty(t: Text, pos: nat, depth: nat)
    requires pos <= |t| && ValueFrom(t, pos, depth).Success?
    ensures SkipSpace(t, pos) < |t|
  {
    hide StringFrom, NumberFrom, ItemsFrom, MembersFrom, LiteralFrom, SkipSpace;
  }

  lemma ScalarFound(t: Text, p: nat, depth: nat) returns (s: Syntax)
    requires p < |t| && t[p] != OPEN_ARR && t[p] != OPEN_OBJ && SkipSpace(t, p) == p
    requires ValueFrom(t, p, depth).Success?
    ensures SyntaxOk(s) && At(t, p, Render(s)) && depth + Depth(Meaning(s)) <= 64
    ensures ValueFrom(t, p, depth).value == (Meaning(s), p + |Render(s)|)
  {
    hide SkipSpace, StringFrom, NumberFrom, SpellingsOk, NumeralOk, Worth, Figures, WrittenAll, DenotedAll;
    if t[p] == QUOTE {
      var cs := StringFound(t, p + 1, []);
      AtJoin(t, p, [QUOTE], WrittenAll(cs) + [QUOTE]);
      assert [] + DenotedAll(cs) == DenotedAll(cs);
      s := Chars(cs);
    } else if t[p] == 116 {
      s := Word(Bool(true));
    } else if t[p] == 102 {
      s := Word(Bool(false));
    } else if t[p] == 110 {
      s := Word(Null);
    } else {
      var f := FigureFound(t, p);
      WorthFlat(f);
      s := Figure(f);
    }
  }

  lemma {:induction false} ArrayFound(t: Text, p: nat, depth: nat) returns (s: Syntax)
    requires p < |t| && t[p] == OPEN_ARR && SkipSpace(t, p) == p && ValueFrom(t, p, depth).Success?
    ensures SyntaxOk(s) && At(t, p, Render(s)) && depth + Depth(Meaning(s)) <= 64
    ensures ValueFrom(t, p, depth).value == (Meaning(s), p + |Render(s)|)
    decreases |t| - p, 0
  {
    hide SkipSpace, ItemsFrom, RenderItems, MeaningItems, ElementOk, ItemsDepth;
    var q := SkipSpace(t, p + 1);
    var inner := t[p + 1..q];
    SkippedBlank(t, p + 1);
    if q < |t| && t[q] == CLOSE_ARR {
      s := Array(inner, []);
      AtJoin(t, p + 1, inner, [CLOSE_ARR]);
      AtJoin(t, p, [OPEN_ARR], inner + [CLOSE_ARR]);
    } else {
      ItemsSkip(t, p + 1, inner, depth, []);
      var items := ItemsFound(t, p + 1, depth, []);
      s := Array([], items);
      AtJoin(t, p, [OPEN_ARR], RenderItems(items) + [CLOSE_ARR]);
      assert [] + MeaningItems(items) == MeaningItems(items);
    }
  }

  lemma {:induction false} ItemsFound(t: Text, pos: nat, depth: nat, have: seq<Json>) returns (items: seq<Element>)
    requires pos <= |t| && ItemsFrom(t, pos, depth, have).Success?
    ensures items != [] && ElementsOk(items) && At(t, pos, RenderItems(items) + [CLOSE_ARR])
    ensures ItemsFrom(t, pos, depth, have).value == (have + MeaningItems(items), pos + |RenderItems(items)| + 1)
    ensures depth + 1 + ItemsDepth(MeaningItems(items)) <= 64
    decreases |t| - pos, 2
  {
    hide ValueFrom, SkipSpace, Render, RenderElement, RenderItems, MeaningItems, Meaning, ElementOk, ItemsDepth, Depth;
    hide Blank, SyntaxOk;
    var v := ValueFrom(t, pos, depth + 1).value;
    var w, s := ValueFound(t, pos, depth + 1);
    var q := SkipSpace(t, v.1);
    var e := Element(w, s, t[v.1..q]);
    ElementFound(t, pos, e, v.1);
    if t[q] == COMMA {
      var rest := ItemsFound(t, q + 1, depth, have + [v.0]);
      items := [e] + rest;
      ElementsJoin(e, rest);
      ItemsJoined(t, pos, e, rest);
      MeaningCons(items);
      assert have + [v.0] + MeaningItems(rest) == have + MeaningItems(items);
    } else {
      items := [e];
      ElementsJoin(e, []);
      AtJoin(t, pos, RenderElement(e), [CLOSE_ARR]);
      ItemsCons(items, [CLOSE_ARR]);
      MeaningCons(items);
    }
  }

  lemma ItemsJoined(t: Text, pos: nat, e: Element, rest: seq<Element>)
    requires ElementOk(e) && ElementsOk(rest) && rest != [] && At(t, pos, RenderElement(e))
    requires var q := pos + |RenderElement(e)|;
             q < |t| && t[q] == COMMA && At(t, q + 1, RenderItems(rest) + [CLOSE_ARR])
    ensures ElementsOk([e] + rest) && At(t, pos, RenderItems([e] + rest) + [CLOSE_ARR])
    ensures |RenderItems([e] + rest)| == |RenderElement(e)| + 1 + |RenderItems(rest)|
  {
    hide RenderElement, RenderItems, ElementOk;
    var q := pos + |RenderElement(e)|;
    ElementsJoin(e, rest);
    AtJoin(t, q, [COMMA], RenderItems(rest) + [CLOSE_ARR]);
    AtJoin(t, pos, RenderElement(e), [COMMA] + (RenderItems(rest) + [CLOSE_ARR]));
    ItemsCons([e] + rest, [CLOSE_ARR]);
  }

  lemma ElementsJoin(e: Element, rest: seq<Element>)
    requires ElementOk(e) && ElementsOk(rest)
    ensures ElementsOk([e] + rest) && ([e] + rest)[1..] == rest && [e] + [] == [e]
  {
    hide ElementOk;
  }

  /** A value that was read, with the white space after it. */
  lemma ElementFound(t: Text, pos: nat, e: Element, end: nat)
    requires Blank(e.before) && SyntaxOk(e.value) && At(t, pos, e.before) && At(t, pos + |e.before|, Render(e.value))
    requires end == pos + |e.before| + |Render(e.value)| && e.after == t[end..SkipSpace(t, end)]
    ensures ElementOk(e) && At(t, pos, RenderElement(e)) && pos + |RenderElement(e)| == SkipSpace(t, end)
  {
    hide Blank, SyntaxOk, Render, SkipSpace;
    SkippedBlank(t, end);
    AtJoin(t, pos + |e.before|, Render(e.value), e.after);
    AtJoin(t, pos, e.before, Render(e.value) + e.after);
  }

  lemma {:induction false} ObjectFound(t: Text, p: nat, depth: nat) returns (s: Syntax)
    requires p < |t| && t[p] == OPEN_OBJ && SkipSpace(t, p) == p && ValueFrom(t, p, depth).Success?
    ensures SyntaxOk(s) && At(t, p, Render(s)) && depth + Depth(Meaning(s)) <= 64
    ensures ValueFrom(t, p, depth).value == (Meaning(s), p + |Render(s)|)
    decreases |t| - p, 0
  {
    hide SkipSpace, MembersFrom, RenderMembers, MeaningMembers, MemberOk, MembersDepth;
    var q := SkipSpace(t, p + 1);
    var inner := t[p + 1..q];
    SkippedBlank(t, p + 1);
    if q < |t| && t[q] == CLOSE_OBJ {
      s := Object(inner, []);
      AtJoin(t, p + 1, inner, [CLOSE_OBJ]);
      AtJoin(t, p, [OPEN_OBJ], inner + [CLOSE_OBJ]);
    } else {
      MembersSkip(t, p + 1, inner, depth, []);
      var members := MembersFound(t, p + 1, depth, []);
      s := Object([], members);
      AtJoin(t, p, [OPEN_OBJ], RenderMembers(members) + [CLOSE_OBJ]);
      assert [] + MeaningMembers(members) == MeaningMembers(members);
    }
  }

  lemma {:induction false} MembersFound(t: Text, pos: nat, depth: nat, have: seq<(Text, Json)>)
    returns (members: seq<Member>)
    requires pos <= |t| && MembersFrom(t, pos, depth, have).Success?
    ensures members != [] && MembersOk(members) && At(t, pos, RenderMembers(members) + [CLOSE_OBJ])
    ensures MembersFrom(t, pos, depth, have).value ==
            (have + MeaningMembers(members), pos + |RenderMembers(members)| + 1)
    ensures depth + 1 + MembersDepth(MeaningMembers(members)) <= 64
    decreases |t| - pos, 3
  {
    hide MemberFrom, SkipSpace, RenderMember, RenderMembers, MeaningMembers, MeaningMember, MemberOk, MembersDepth;
    hide Depth;
    var v := MemberFrom(t, pos, depth).value;
    var q := SkipSpace(t, v.1);
    var m := MemberFound(t, pos, depth);
    if t[q] == COMMA {
      var rest := MembersFound(t, q + 1, depth, have + [v.0]);
      members := [m] + rest;
      MembersJoin(m, rest);
      MembersJoined(t, pos, m, rest);
      MeaningMembersCons(members);
      assert have + [v.0] + MeaningMembers(rest) == have + MeaningMembers(members);
    } else {
      members := [m];
      MembersJoin(m, []);
      AtJoin(t, pos, RenderMember(m), [CLOSE_OBJ]);
      MembersCons(members, [CLOSE_OBJ]);
      MeaningMembersCons(members);
    }
  }

  lemma MembersJoined(t: Text, pos: nat, m: Member, rest: seq<Member>)
    requires MemberOk(m) && MembersOk(rest) && rest != [] && At(t, pos, RenderMember(m))
    requires var q := pos + |RenderMember(m)|;
             q < |t| && t[q] == COMMA && At(t, q + 1, RenderMembers(rest) + [CLOSE_OBJ])
    ensures MembersOk([m] + rest) && At(t, pos, RenderMembers([m] + rest) + [CLOSE_OBJ])
    ensures |RenderMembers([m] + rest)| == |RenderMember(m)| + 1 + |RenderMembers(rest)|
  {
    hide RenderMember, RenderMembers, MemberOk;
    var q := pos + |RenderMember(m)|;
    MembersJoin(m, rest);
    AtJoin(t, q, [COMMA], RenderMembers(rest) + [CLOSE_OBJ]);
    AtJoin(t, pos, RenderMember(m), [COMMA] + (RenderMembers(rest) + [CLOSE_OBJ]));
    MembersCons([m] + rest, [CLOSE_OBJ]);
  }

  lemma MembersJoin(m: Member, rest: seq<Member>)
    requires MemberOk(m) && MembersOk(rest)
    ensures MembersOk([m] + rest) && ([m] + rest)[1..] == rest && [m] + [] == [m]
  {
    hide MemberOk;
  }

  /** A member that was read, with the white space after it. */
  lemma {:induction false} MemberFound(t: Text, pos: nat, depth: nat) returns (m: Member)
    requires pos <= |t| && MemberFrom(t, pos, depth).Success?
    ensures MemberOk(m) && At(t, pos, RenderMember(m))
    ensures var r := MemberFrom(t, pos, depth).value;
            r.0 == MeaningMember(m) && SkipSpace(t, r.1) == pos + |RenderMember(m)|
    ensures depth + 1 + Depth(MeaningMember(m).1) <= 64
    decreases |t| - pos, 2
  {
    hide SkipSpace, StringFrom, ValueFrom, Blank, SpellingsOk, WrittenAll, DenotedAll, SyntaxOk, Render, RenderElement;
    hide Meaning, Depth, ElementOk;
    var p := SkipSpace(t, pos);
    SkippedBlank(t, pos);
    var key := StringFound(t, p + 1, []);
    assert [] + DenotedAll(key) == DenotedAll(key);
    var k := p + 2 + |WrittenAll(key)|;
    var c := SkipSpace(t, k);
    SkippedBlank(t, k);
    var w, s := ValueFound(t, c + 1, depth + 1);
    var end := c + 1 + |w| + |Render(s)|;
    var e := Element(w, s, t[end..SkipSpace(t, end)]);
    ElementFound(t, c + 1, e, end);
    m := Member(t[pos..p], key, t[k..c], e);
    var quoted := [QUOTE] + (WrittenAll(key) + [QUOTE]);
    AtJoin(t, p, [QUOTE], WrittenAll(key) + [QUOTE]);
    AtJoin(t, c, [COLON], RenderElement(e));
    AtJoin(t, k, m.mid, [COLON] + RenderElement(e));
    AtJoin(t, p, quoted, m.mid + ([COLON] + RenderElement(e)));
    AtJoin(t, pos, m.before, quoted + (m.mid + ([COLON] + RenderElement(e))));
  }

  // ---- the language of the parser ----

  /** `t` is `s` between white space. */
  ghost predicate Spells(before: Text, s: Syntax, after: Text, t: Text) {
    Blank(before) && Blank(after) && SyntaxOk(s) && t == before + (Render(s) + after)
  }

  /** A spelling is read as what it means if it nests at most 64 deep and has at most 1048576 bytes, and refused
      otherwise; so neither white space nor the choice of escapes is noticed. */
  lemma SpellingParsed(before: Text, s: Syntax, after: Text, t: Text)
    requires Spells(before, s, after, t)
    ensures Parse(t) == if Depth(Meaning(s)) <= 64 && |t| <= 1048576 then Success(Meaning(s)) else Failure
  {
    hide ValueFrom, Render, Meaning, Depth, SkipSpace, SyntaxOk;
    var e := Element(before, s, after);
    assert RenderElement(e) == t;
    assert At(t, 0, t);
    ElementParts(t, 0, e);
    ValueRead(t, |before|, s, 0);
    ValueSkips(t, 0, before, 0);
    NoSpace(t, |t|);
  }

  /** A text is accepted with a value exactly if it is a spelling of that value, at most 64 deep, of at most 1048576
      bytes. */
  lemma ParseExact(t: Text, v: Json)
    ensures Parse(t) == Success(v) <==>
              && |t| <= 1048576 && Depth(v) <= 64
              && exists before, s, after :: Spells(before, s, after, t) && Meaning(s) == v
  {
    hide ValueFrom, Render, Meaning, Depth, SkipSpace, SyntaxOk, Blank;
    if Parse(t) == Success(v) {
      var w, s := ValueFound(t, 0, 0);
      var end := |w| + |Render(s)|;
      var e := Element(w, s, t[end..SkipSpace(t, end)]);
      ElementFound(t, 0, e, end);
      assert t[0..|t|] == t;
      assert Spells(w, s, e.after, t);
    }
    forall before, s, after | Spells(before, s, after, t) && Meaning(s) == v && |t| <= 1048576 && Depth(v) <= 64
      ensures Parse(t) == Success(v)
    {
      SpellingParsed(before, s, after, t);
    }
  }
}
