/** Parsing what the writer wrote: exactly the trees of depth 64 and text of 1 MiB survive. */
module JsonRoundTrip {
  import opened Wrappers
  import opened Bytes
  import opened JsonText
  import opened JsonWriting
  import opened JsonParsing
  import opened JsonSpelling
  import opened JsonGrammar

  // ---- the compact spelling ----

  /** How the writer spells a byte: controls without a short escape by four digits. */
  function SpellByte(c: byte): (s: Spelling)
    ensures SpellingOk(s) && !s.Lone?
  {
    if c == QUOTE then Short(0)
    else if c == BACKSLASH then Short(1)
    else if c == 8 then Short(3)
    else if c == 12 then Short(4)
    else if c == 10 then Short(5)
    else if c == 13 then Short(6)
    else if c == 9 then Short(7)
    else if c < 32 then Code(c as nat, [false, false, false, false])
    else Plain(c)
  }

  function SpellAll(s: Text): (cs: seq<Spelling>)
    ensures SpellingsOk(cs)
  {
    seq(|s|, i requires 0 <= i < |s| => SpellByte(s[i]))
  }

  lemma SpelledByte(c: byte)
    ensures Written(SpellByte(c)) == EscapeByte(c) && Denoted(SpellByte(c)) == [c]
  {
    hide HexChar, HexDigit;
    if c < 32 {
      HexCharLower(0);
      HexCharLower(c / 16);
      HexCharLower(c % 16);
      assert HexDigit(0) == 48 by { HexZero(); }
    }
  }

  lemma HexCharLower(d: nat)
    requires d < 16
    ensures HexChar(d, false) == HexDigit(d)
  {
  }

  lemma HexZero()
    ensures HexDigit(0) == 48
  {
  }

  /** Unescaping one escaped byte, whatever follows it. */
  lemma CharEscaped(t: Text, pos: nat, c: byte)
    requires At(t, pos, EscapeByte(c))
    ensures t[pos] != QUOTE && CharFrom(t, pos) == Success(([c], pos + |EscapeByte(c)|))
  {
    hide CharFrom, EscapeByte, SpellByte, Written, Denoted;
    SpelledByte(c);
    SpellingRead(t, pos, SpellByte(c));
  }

  lemma {:induction false} SpelledAll(s: Text)
    ensures WrittenAll(SpellAll(s)) == Escape(s) && DenotedAll(SpellAll(s)) == s
  {
    hide SpellByte, EscapeByte, Written, Denoted;
    if s != [] {
      SpelledByte(s[0]);
      SpelledAll(s[1..]);
      assert SpellAll(s)[1..] == SpellAll(s[1..]);
    }
  }

  lemma StringEscaped(t: Text, pos: nat, s: Text, have: Text)
    requires At(t, pos, Escape(s) + [QUOTE])
    ensures StringFrom(t, pos, have) == Success((have + s, pos + |Escape(s)| + 1))
  {
    hide StringFrom, Escape, SpellAll, SpellingsOk, WrittenAll, DenotedAll;
    SpelledAll(s);
    StringRead(t, pos, SpellAll(s), have);
  }

  function DecimalNumeral(n: int): Numeral {
    Numeral(if n < 0 then [45] else [], Digits(if n < 0 then -n else n), false, [], None)
  }

  lemma DecimalSpelled(n: int)
    ensures NumeralOk(DecimalNumeral(n)) && Figures(DecimalNumeral(n)) == Decimal(n)
    ensures Worth(DecimalNumeral(n)) == Stored(Num(n))
  {
    hide Digits, DigitsValue, StoredNumber;
    DigitsRoundTrip(if n < 0 then -n else n);
  }

  /** The tree as the writer spells it, without white space. */
  function Compact(v: Json): Syntax
    decreases v
  {
    match v
    case Num(n) => Figure(DecimalNumeral(n))
    case Str(s) => Chars(SpellAll(s))
    case Arr(items) => Array([], CompactItems(items))
    case Obj(members) => Object([], CompactMembers(members))
    case _ => Word(v)
  }

  function CompactItems(items: seq<Json>): (r: seq<Element>)
    ensures |r| == |items|
    decreases items
  {
    if items == [] then [] else [Element([], Compact(items[0]), [])] + CompactItems(items[1..])
  }

  function CompactMember(m: (Text, Json)): Member
    decreases m
  {
    Member([], SpellAll(m.0), [], Element([], Compact(m.1), []))
  }

  function CompactMembers(members: seq<(Text, Json)>): (r: seq<Member>)
    ensures |r| == |members|
    decreases members
  {
    if members == [] then [] else [CompactMember(members[0])] + CompactMembers(members[1..])
  }

  /** The compact spelling is the text the writer prints, and means the tree as it is stored. */
  lemma {:induction false} CompactPrints(v: Json)
    requires IntegersOnly(v)
    ensures SyntaxOk(Compact(v)) && Render(Compact(v)) == Print(v) && Meaning(Compact(v)) == Stored(v)
    decreases v
  {
    hide WrittenAll, DenotedAll, Escape, Decimal, Figures, Worth, SpellAll, DecimalNumeral, NumeralOk;
    match v
    case Num(n) => DecimalSpelled(n);
    case Str(s) => SpelledAll(s);
    case Arr(items) => CompactItemsPrint(items);
    case Obj(members) => CompactMembersPrint(members);
    case _ =>
  }

  lemma {:induction false} CompactItemsPrint(items: seq<Json>)
    requires forall i :: 0 <= i < |items| ==> IntegersOnly(items[i])
    ensures ElementsOk(CompactItems(items))
    ensures RenderItems(CompactItems(items)) == PrintItems(items)
    ensures MeaningItems(CompactItems(items)) == StoredItems(items)
    decreases items
  {
    hide Compact, Print, Render, Meaning, Stored, SyntaxOk, IntegersOnly;
    if items != [] {
      CompactPrints(items[0]);
      CompactItemsPrint(items[1..]);
      assert CompactItems(items)[1..] == CompactItems(items[1..]);
      assert [] + (Print(items[0]) + []) == Print(items[0]);
    }
  }

  lemma {:induction false} CompactMembersPrint(members: seq<(Text, Json)>)
    requires forall i :: 0 <= i < |members| ==> IntegersOnly(members[i].1)
    ensures MembersOk(CompactMembers(members))
    ensures RenderMembers(CompactMembers(members)) == PrintMembers(members)
    ensures MeaningMembers(CompactMembers(members)) == StoredMembers(members)
    decreases members
  {
    hide CompactMember, PrintMember, RenderMember, MeaningMember, StoredMember, MemberOk, IntegersOnly;
    if members != [] {
      CompactMemberPrints(members[0]);
      CompactMembersPrint(members[1..]);
      assert CompactMembers(members)[1..] == CompactMembers(members[1..]);
    }
  }

  lemma {:induction false} CompactMemberPrints(m: (Text, Json))
    requires IntegersOnly(m.1)
    ensures MemberOk(CompactMember(m)) && RenderMember(CompactMember(m)) == PrintMember(m)
    ensures MeaningMember(CompactMember(m)) == StoredMember(m)
    decreases m
  {
    hide Compact, Print, Render, Meaning, Stored, SyntaxOk, IntegersOnly, WrittenAll, DenotedAll, SpellAll, Escape;
    CompactPrints(m.1);
    SpelledAll(m.0);
    assert [] + (Print(m.1) + []) == Print(m.1);
  }

  lemma {:induction false} StoredDepth(v: Json)
    ensures Depth(Stored(v)) == Depth(v)
    decreases v
  {
    match v
    case Arr(items) => StoredItemsDepth(items);
    case Obj(members) => StoredMembersDepth(members);
    case _ =>
  }

  lemma {:induction false} StoredItemsDepth(items: seq<Json>)
    ensures ItemsDepth(StoredItems(items)) == ItemsDepth(items)
    decreases items
  {
    hide Stored, Depth;
    if items != [] {
      StoredDepth(items[0]);
      StoredItemsDepth(items[1..]);
    }
  }

  lemma {:induction false} StoredMembersDepth(members: seq<(Text, Json)>)
    ensures MembersDepth(StoredMembers(members)) == MembersDepth(members)
    decreases members
  {
    hide StoredMember, MemberDepth;
    if members != [] {
      StoredMemberDepth(members[0]);
      StoredMembersDepth(members[1..]);
    }
  }

  lemma {:induction false} StoredMemberDepth(m: (Text, Json))
    ensures MemberDepth(StoredMember(m)) == MemberDepth(m)
    decreases m
  {
    hide Stored, Depth;
    StoredDepth(m.1);
  }

  // ---- values ----

  /** What parsing the text of `v` at nesting level `depth` must yield. */
  ghost function Expected(v: Json, pos: nat, depth: nat): Result<(Json, nat)> {
    if depth + Depth(v) <= MAX_DEPTH then Success((Stored(v), pos + |Print(v)|)) else Failure
  }

  lemma ValueParsed(t: Text, pos: nat, v: Json, depth: nat)
    requires IntegersOnly(v) && At(t, pos, Print(v)) && Delimited(t, pos + |Print(v)|)
    ensures ValueFrom(t, pos, depth) == Expected(v, pos, depth)
  {
    hide ValueFrom, Print, Stored, Depth, Compact, Render, Meaning, IntegersOnly, SyntaxOk;
    CompactPrints(v);
    StoredDepth(v);
    ValueRead(t, pos, Compact(v), depth);
  }

  // ---- white space ----

  /** A spelling without its white space. */
  function Strip(s: Syntax): Syntax
    decreases s
  {
    match s
    case Array(_, items) => Array([], StripItems(items))
    case Object(_, members) => Object([], StripMembers(members))
    case _ => s
  }

  function StripItems(items: seq<Element>): (r: seq<Element>)
    ensures |r| == |items|
    decreases items
  {
    if items == [] then [] else [Element([], Strip(items[0].value), [])] + StripItems(items[1..])
  }

  function StripMember(m: Member): Member
    decreases m
  {
    Member([], m.key, [], Element([], Strip(m.value.value), []))
  }

  function StripMembers(members: seq<Member>): (r: seq<Member>)
    ensures |r| == |members|
    decreases members
  {
    if members == [] then [] else [StripMember(members[0])] + StripMembers(members[1..])
  }

  lemma {:induction false} StripMeans(s: Syntax)
    requires SyntaxOk(s)
    ensures SyntaxOk(Strip(s)) && Meaning(Strip(s)) == Meaning(s)
    decreases s
  {
    hide NumeralOk, SpellingsOk, DenotedAll, Worth;
    match s
    case Array(_, items) => StripItemsMean(items);
    case Object(_, members) => StripMembersMean(members);
    case _ =>
  }

  lemma {:induction false} StripItemsMean(items: seq<Element>)
    requires ElementsOk(items)
    ensures ElementsOk(StripItems(items)) && MeaningItems(StripItems(items)) == MeaningItems(items)
    decreases items
  {
    hide Strip, SyntaxOk, Meaning;
    if items != [] {
      assert ElementOk(items[0]);
      StripMeans(items[0].value);
      StripItemsMean(items[1..]);
      assert StripItems(items)[1..] == StripItems(items[1..]);
    }
  }

  lemma {:induction false} StripMembersMean(members: seq<Member>)
    requires MembersOk(members)
    ensures MembersOk(StripMembers(members)) && MeaningMembers(StripMembers(members)) == MeaningMembers(members)
    decreases members
  {
    hide StripMember, MemberOk, MeaningMember;
    if members != [] {
      StripMemberMeans(members[0]);
      StripMembersMean(members[1..]);
      assert StripMembers(members)[1..] == StripMembers(members[1..]);
    }
  }

  lemma {:induction false} StripMemberMeans(m: Member)
    requires MemberOk(m)
    ensures MemberOk(StripMember(m)) && MeaningMember(StripMember(m)) == MeaningMember(m)
    decreases m
  {
    hide Strip, SyntaxOk, Meaning, SpellingsOk, DenotedAll;
    assert ElementOk(m.value);
    StripMeans(m.value.value);
  }

  /** Runs of blanks, tabs, line feeds and carriage returns before, between and after the tokens the writer would print
      are not noticed: any such text of an integer-only tree parses to the tree with its integers as doubles. */
  lemma WhiteSpaceUnnoticed(v: Json, before: Text, s: Syntax, after: Text, t: Text)
    requires IntegersOnly(v) && Spells(before, s, after, t) && Strip(s) == Compact(v)
    ensures Parse(t) == if Depth(v) <= 64 && |t| <= 1048576 then Success(Stored(v)) else Failure
  {
    hide ValueFrom, Print, Stored, Depth, Compact, Strip, Render, Meaning, IntegersOnly, SyntaxOk, Blank;
    StripMeans(s);
    CompactPrints(v);
    StoredDepth(v);
    SpellingParsed(before, s, after, t);
  }

  /** Writing any integer-only tree and parsing the text gives the tree with its integers as doubles, or fails by
      depth and size; it gives the tree itself exactly when depth and size are within limits and every integer is a
      double. */
  lemma JsonRoundTrips(v: Json)
    requires IntegersOnly(v)
    ensures var text := Writing([], [], false).Run(Calls(v)).out;
            var fits := Depth(v) <= 64 && |text| <= 1048576;
            && Parse(text) == (if fits then Success(Stored(v)) else Failure)
            && (Parse(text) == Success(v) <==> fits && Representable(v))
  {
    hide Print, ValueFrom, Calls, IntegersOnly, Depth, Stored, Representable;
    WriterPrints(v);
    StoredExact(v);
    var text := Print(v);
    assert At(text, 0, text) && Delimited(text, |text|);
    ValueParsed(text, 0, v, 0);
  }

  /** The first integer that does not come back: the writer prints 9007199254740993, and 9007199254740992 is read. */
  lemma IntegerRounds()
    ensures var v := Num(9007199254740993);
            Parse(Writing([], [], false).Run(Calls(v)).out) == Success(Num(9007199254740992)) && !Representable(v)
  {
    hide ValueFrom, Calls, Parse, Digits;
    var v := Num(9007199254740993);
    JsonRoundTrips(v);
    WriterPrints(v);
    Binary64.FirstRounded();
    assert Pow10(16) == 1_0000_0000_0000_0000 by {
      assert Pow10(4) == 1_0000 && Pow10(8) == 1_0000_0000 && Pow10(12) == 1_0000_0000_0000;
    }
    DigitsShort(9007199254740993, 16);
  }

  lemma {:induction false} DigitsShort(n: nat, k: nat)
    requires k > 0 && n < Pow10(k)
    ensures |Digits(n)| <= k
  {
    if n >= 10 {
      DigitsShort(n / 10, k - 1);
    }
  }

  function Pow10(k: nat): nat {
    if k == 0 then 1 else 10 * Pow10(k - 1)
  }
}
