/** JSON values, the compact text the writer produces for them, and string escaping (backend/src/util/json.cpp). */
module JsonText {
  import opened Wrappers
  import opened Bytes
  import Binary64

  type Text = seq<byte>

  const QUOTE: byte := 34
  const COMMA: byte := 44
  const MINUS: byte := 45
  const COLON: byte := 58
  const OPEN_ARR: byte := 91
  const BACKSLASH: byte := 92
  const CLOSE_ARR: byte := 93
  const OPEN_OBJ: byte := 123
  const CLOSE_OBJ: byte := 125
  const TRUE: Text := [116, 114, 117, 101]
  const FALSE: Text := [102, 97, 108, 115, 101]
  const NULL: Text := [110, 117, 108, 108]

  /** `Real` keeps the text of a number that is not a plain integer; its rounding is not modelled. */
  datatype Json =
    | Null
    | Bool(b: bool)
    | Num(n: int)
    | Real(text: Text)
    | Str(s: Text)
    | Arr(items: seq<Json>)
    | Obj(members: seq<(Text, Json)>)

  // ---- decimal integers ----

  function Digits(n: nat): (s: Text)
    ensures |s| > 0 && forall i :: 0 <= i < |s| ==> IsDigit(s[i])
  {
    if n < 10 then [48 + n] else Digits(n / 10) + [48 + n % 10]
  }

  function Decimal(n: int): Text {
    if n < 0 then [MINUS] + Digits(-n) else Digits(n)
  }

  predicate IsDigit(c: byte) {
    48 <= c <= 57
  }

  function DigitsValue(s: Text): int {
    if s == [] then 0 else DigitsValue(s[..|s| - 1]) * 10 + (s[|s| - 1] as int - 48)
  }

  lemma {:induction false} DigitsRoundTrip(n: nat)
    ensures DigitsValue(Digits(n)) == n
  {
    var s := Digits(n);
    if n >= 10 {
      DigitsRoundTrip(n / 10);
      assert s[..|s| - 1] == Digits(n / 10);
    } else {
      assert s[..|s| - 1] == [];
    }
  }

  // ---- escaping ----

  function HexDigit(d: nat): byte
    requires d < 16
  {
    if d < 10 then 48 + d else 87 + d
  }

  function EscapeByte(c: byte): (e: Text)
    ensures |e| > 0
  {
    if c == QUOTE then [BACKSLASH, QUOTE]
    else if c == BACKSLASH then [BACKSLASH, BACKSLASH]
    else if c == 8 then [BACKSLASH, 98]
    else if c == 12 then [BACKSLASH, 102]
    else if c == 10 then [BACKSLASH, 110]
    else if c == 13 then [BACKSLASH, 114]
    else if c == 9 then [BACKSLASH, 116]
    else if c < 32 then [BACKSLASH, 117, 48, 48, HexDigit(c / 16), HexDigit(c % 16)]
    else [c]
  }

  function Escape(s: Text): Text {
    if s == [] then [] else EscapeByte(s[0]) + Escape(s[1..])
  }

  function Quoted(s: Text): Text {
    [QUOTE] + (Escape(s) + [QUOTE])
  }

  lemma {:induction false} EscapeAppend(a: Text, c: byte)
    ensures Escape(a + [c]) == Escape(a) + EscapeByte(c)
  {
    hide EscapeByte;
    if a == [] {
      assert ([] + [c])[1..] == [];
    } else {
      EscapeAppend(a[1..], c);
      assert (a + [c])[1..] == a[1..] + [c];
    }
  }

  lemma EscapeNothing()
    ensures Escape([]) == []
  {
  }

  method JsonEscape(s: Text) returns (out: Text)
    ensures out == Quoted(s)
  {
    hide Escape, EscapeByte;
    assert Escape([]) == [] by {
      EscapeNothing();
    }
    out := [QUOTE];
    for i := 0 to |s|
      invariant out == [QUOTE] + Escape(s[..i])
    {
      EscapeAppend(s[..i], s[i]);
      assert s[..i + 1] == s[..i] + [s[i]];
      out := out + EscapeByte(s[i]);
    }
    assert s[..|s|] == s;
    out := out + [QUOTE];
  }

  // ---- the compact text of a value ----

  function Print(v: Json): Text
    decreases v
  {
    match v
    case Null => NULL
    case Bool(b) => if b then TRUE else FALSE
    case Num(n) => Decimal(n)
    case Real(text) => text
    case Str(s) => Quoted(s)
    case Arr(items) => [OPEN_ARR] + (PrintItems(items) + [CLOSE_ARR])
    case Obj(members) => [OPEN_OBJ] + (PrintMembers(members) + [CLOSE_OBJ])
  }

  function PrintItems(items: seq<Json>): Text
    decreases items
  {
    if items == [] then []
    else if |items| == 1 then Print(items[0])
    else Print(items[0]) + ([COMMA] + PrintItems(items[1..]))
  }

  function PrintMember(m: (Text, Json)): Text
    decreases m
  {
    Quoted(m.0) + ([COLON] + Print(m.1))
  }

  function PrintMembers(members: seq<(Text, Json)>): Text
    decreases members
  {
    if members == [] then []
    else if |members| == 1 then PrintMember(members[0])
    else PrintMember(members[0]) + ([COMMA] + PrintMembers(members[1..]))
  }

  /** Nesting below a value; an empty array or object adds none. */
  function Depth(v: Json): nat
    decreases v
  {
    match v
    case Arr(items) => if items == [] then 0 else 1 + ItemsDepth(items)
    case Obj(members) => if members == [] then 0 else 1 + MembersDepth(members)
    case _ => 0
  }

  function ItemsDepth(items: seq<Json>): nat
    decreases items
  {
    if items == [] then 0 else Max(Depth(items[0]), ItemsDepth(items[1..]))
  }

  function MembersDepth(members: seq<(Text, Json)>): nat
    decreases members
  {
    if members == [] then 0 else Max(MemberDepth(members[0]), MembersDepth(members[1..]))
  }

  function MemberDepth(m: (Text, Json)): nat
    decreases m
  {
    Depth(m.1)
  }

  /** No number of the tree is a fraction or has an exponent. */
  predicate IntegersOnly(v: Json)
    decreases v
  {
    match v
    case Real(_) => false
    case Arr(items) => forall i :: 0 <= i < |items| ==> IntegersOnly(items[i])
    case Obj(members) => forall i :: 0 <= i < |members| ==> IntegersOnly(members[i].1)
    case _ => true
  }

  // ---- what a parsed number keeps ----

  /** The parser keeps a double. An integer too large for one is infinite there; its text stands for it here. */
  function StoredNumber(text: Text, n: int): Json {
    if Binary64.Overflows(n) then Real(text) else Num(Binary64.Rounded(n))
  }

  /** The tree with every integer as it is stored. */
  function Stored(v: Json): Json
    decreases v
  {
    match v
    case Num(n) => StoredNumber(Decimal(n), n)
    case Arr(items) => Arr(StoredItems(items))
    case Obj(members) => Obj(StoredMembers(members))
    case _ => v
  }

  function StoredItems(items: seq<Json>): (r: seq<Json>)
    ensures |r| == |items|
    decreases items
  {
    if items == [] then [] else [Stored(items[0])] + StoredItems(items[1..])
  }

  function StoredMember(m: (Text, Json)): (Text, Json)
    decreases m
  {
    (m.0, Stored(m.1))
  }

  function StoredMembers(members: seq<(Text, Json)>): (r: seq<(Text, Json)>)
    ensures |r| == |members|
    decreases members
  {
    if members == [] then [] else [StoredMember(members[0])] + StoredMembers(members[1..])
  }

  lemma {:induction false} StoredItemsAt(items: seq<Json>)
    ensures forall i :: 0 <= i < |items| ==> StoredItems(items)[i] == Stored(items[i])
  {
    hide Stored;
    if items != [] {
      StoredItemsAt(items[1..]);
    }
  }

  lemma {:induction false} StoredMembersAt(members: seq<(Text, Json)>)
    ensures forall i :: 0 <= i < |members| ==> StoredMembers(members)[i] == StoredMember(members[i])
  {
    hide StoredMember;
    if members != [] {
      StoredMembersAt(members[1..]);
    }
  }

  /** Every integer of the tree is a double. */
  ghost predicate Representable(v: Json)
    decreases v
  {
    match v
    case Num(n) => Binary64.Representable(n)
    case Arr(items) => forall i :: 0 <= i < |items| ==> Representable(items[i])
    case Obj(members) => forall i :: 0 <= i < |members| ==> Representable(members[i].1)
    case _ => true
  }

  /** Storing changes nothing exactly when every integer of the tree is a double. */
  lemma {:induction false} StoredExact(v: Json)
    ensures Stored(v) == v <==> Representable(v)
    decreases v
  {
    match v
    case Num(n) => Binary64.RoundedExact(n);
    case Arr(items) =>
      StoredItemsAt(items);
      forall i | 0 <= i < |items|
        ensures Stored(items[i]) == items[i] <==> Representable(items[i])
      {
        StoredExact(items[i]);
      }
      assert StoredItems(items) == items <==> forall i :: 0 <= i < |items| ==> Stored(items[i]) == items[i];
    case Obj(members) =>
      StoredMembersAt(members);
      forall i | 0 <= i < |members|
        ensures StoredMember(members[i]) == members[i] <==> Representable(members[i].1)
      {
        StoredExact(members[i].1);
      }
      assert StoredMembers(members) == members <==>
             forall i :: 0 <= i < |members| ==> StoredMember(members[i]) == members[i];
    case _ =>
  }
}
