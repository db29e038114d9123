/** The recursive-descent parser (backend/src/util/json.cpp). */
module JsonParsing {
  import opened Wrappers
  import opened Bytes
  import opened JsonText

  const MAX_DEPTH := 64
  const MAX_TEXT := 1024 * 1024

  // ---- the specification: what is parsed from `pos`, and where parsing stops ----

  predicate IsSpace(c: byte) {
    c == 32 || c == 9 || c == 10 || c == 13
  }

  function SkipSpace(t: Text, pos: nat): (p: nat)
    requires pos <= |t|
    ensures pos <= p <= |t|
    decreases |t| - pos
  {
    if pos < |t| && IsSpace(t[pos]) then SkipSpace(t, pos + 1) else pos
  }

  function HexValue(c: byte): Option<nat> {
    if 48 <= c <= 57 then Some(c - 48)
    else if 97 <= c <= 102 then Some(c - 87)
    else if 65 <= c <= 70 then Some(c - 55)
    else None
  }

  /** The first `n` characters from `pos` as a hexadecimal number. */
  function HexFrom(t: Text, pos: nat, n: nat): (r: Result<nat>)
    requires pos + n <= |t|
    ensures r.Success? && n <= 4 ==>
              r.value < if n == 4 then 0x10000 else if n == 3 then 0x1000
                        else if n == 2 then 0x100 else if n == 1 then 0x10 else 1
  {
    if n == 0 then Success(0)
    else
      var high :- HexFrom(t, pos, n - 1);
      match HexValue(t[pos + n - 1])
      case None => Failure
      case Some(d) => Success(high * 16 + d)
  }

  function Hex4(t: Text, pos: nat): (r: Result<nat>)
    ensures r.Success? ==> pos + 4 <= |t| && r.value < 0x10000
  {
    if pos + 4 <= |t| then HexFrom(t, pos, 4) else Failure
  }

  function Utf8(cp: nat): Text
    requires cp < 0x110000
  {
    if cp < 0x80 then [cp]
    else if cp < 0x800 then [0xC0 + cp / 0x40, 0x80 + cp % 0x40]
    else if cp < 0x10000 then [0xE0 + cp / 0x1000, 0x80 + cp / 0x40 % 0x40, 0x80 + cp % 0x40]
    else [0xF0 + cp / 0x40000, 0x80 + cp / 0x1000 % 0x40, 0x80 + cp / 0x40 % 0x40, 0x80 + cp % 0x40]
  }

  /** What follows `\u`: a surrogate pair joins, a lone high surrogate becomes U+FFFD. */
  function UnicodeEscape(t: Text, pos: nat): (r: Result<(Text, nat)>)
    requires pos <= |t|
    ensures r.Success? ==> pos < r.value.1 <= |t|
  {
    var cp :- Hex4(t, pos);
    var p := pos + 4;
    if 0xD800 <= cp <= 0xDBFF then
      if p + 1 < |t| && t[p] == BACKSLASH && t[p + 1] == 117 then
        var lo :- Hex4(t, p + 2);
        if lo < 0xDC00 || lo > 0xDFFF then Failure
        else Success((Utf8(0x10000 + (cp - 0xD800) * 0x400 + (lo - 0xDC00)), p + 6))
      else Success((Utf8(0xFFFD), p))
    else Success((Utf8(cp), p))
  }

  function SimpleEscape(e: byte): Option<byte> {
    if e == QUOTE || e == BACKSLASH || e == 47 then Some(e)
    else if e == 98 then Some(8)
    else if e == 102 then Some(12)
    else if e == 110 then Some(10)
    else if e == 114 then Some(13)
    else if e == 116 then Some(9)
    else None
  }

  /** One possibly escaped character of a string body. */
  function CharFrom(t: Text, pos: nat): (r: Result<(Text, nat)>)
    requires pos < |t|
    ensures r.Success? ==> pos < r.value.1 <= |t|
  {
    if t[pos] != BACKSLASH then Success(([t[pos]], pos + 1))
    else if pos + 1 >= |t| then Failure
    else if t[pos + 1] == 117 then UnicodeEscape(t, pos + 2)
    else
      match SimpleEscape(t[pos + 1])
      case None => Failure
      case Some(c) => Success(([c], pos + 2))
  }

  /** The body of a string up to and including its closing quote, with `have` already read. */
  function StringFrom(t: Text, pos: nat, have: Text): (r: Result<(Text, nat)>)
    requires pos <= |t|
    ensures r.Success? ==> pos < r.value.1 <= |t|
    decreases |t| - pos
  {
    if pos == |t| then Failure
    else if t[pos] == QUOTE then Success((have, pos + 1))
    else
      var c :- CharFrom(t, pos);
      StringFrom(t, c.1, have + c.0)
  }

  predicate IsNumberChar(c: byte) {
    IsDigit(c) || c == 46 || c == 101 || c == 69 || c == 43 || c == MINUS
  }

  function RunEnd(t: Text, pos: nat): (p: nat)
    requires pos <= |t|
    ensures pos <= p <= |t|
    decreases |t| - pos
  {
    if pos < |t| && IsNumberChar(t[pos]) then RunEnd(t, pos + 1) else pos
  }

  function DigitsEnd(s: Text, i: nat): (j: nat)
    requires i <= |s|
    ensures i <= j <= |s|
    decreases |s| - i
  {
    if i < |s| && IsDigit(s[i]) then DigitsEnd(s, i + 1) else i
  }

  function SignEnd(s: Text, i: nat): (j: nat)
    requires i <= |s|
    ensures i <= j <= |s|
  {
    if i < |s| && (s[i] == MINUS || s[i] == 43) then i + 1 else i
  }

  predicate IsInteger(s: Text) {
    var i := if s != [] && s[0] == MINUS then 1 else 0;
    i < |s| && DigitsEnd(s, i) == |s|
  }

  /** `strtod` consumes the whole run: sign, digits with an optional point, optional exponent. */
  predicate IsNumeral(s: Text) {
    var i := SignEnd(s, 0);
    var j := DigitsEnd(s, i);
    var k := if j < |s| && s[j] == 46 then DigitsEnd(s, j + 1) else j;
    var mantissa := (j - i) + (if k > j then k - j - 1 else 0);
    && mantissa > 0
    && (k == |s| ||
        ((s[k] == 101 || s[k] == 69) &&
         var e := SignEnd(s, k + 1);
         e < |s| && DigitsEnd(s, e) == |s|))
  }

  /** The integer a run of digits denotes. */
  function IntegerValue(s: Text): int
    requires s != []
  {
    if s[0] == MINUS then -DigitsValue(s[1..]) else DigitsValue(s)
  }

  function NumberValue(s: Text): Result<Json> {
    if IsInteger(s) then Success(StoredNumber(s, IntegerValue(s)))
    else if IsNumeral(s) then Success(Real(s))
    else Failure
  }

  function NumberFrom(t: Text, pos: nat): (r: Result<(Json, nat)>)
    requires pos <= |t|
    ensures r.Success? ==> pos < r.value.1 <= |t|
  {
    var end := RunEnd(t, pos);
    if end == pos then Failure
    else
      var v :- NumberValue(t[pos..end]);
      Success((v, end))
  }

  function LiteralFrom(t: Text, pos: nat, word: Text, v: Json): (r: Result<(Json, nat)>)
    requires pos <= |t|
    ensures r.Success? ==> r.value.1 == pos + |word| <= |t|
  {
    if pos + |word| <= |t| && t[pos..pos + |word|] == word then Success((v, pos + |word|)) else Failure
  }

  function ValueFrom(t: Text, pos: nat, depth: nat): (r: Result<(Json, nat)>)
    requires pos <= |t|
    ensures r.Success? ==> pos < r.value.1 <= |t|
    decreases |t| - pos, 0
  {
    if depth > MAX_DEPTH then Failure
    else
      var p := SkipSpace(t, pos);
      if p == |t| then Failure
      else if t[p] == OPEN_OBJ then
        var q := SkipSpace(t, p + 1);
        if q < |t| && t[q] == CLOSE_OBJ then Success((Obj([]), q + 1))
        else
          var ms :- MembersFrom(t, q, depth, []);
          Success((Obj(ms.0), ms.1))
      else if t[p] == OPEN_ARR then
        var q := SkipSpace(t, p + 1);
        if q < |t| && t[q] == CLOSE_ARR then Success((Arr([]), q + 1))
        else
          var xs :- ItemsFrom(t, q, depth, []);
          Success((Arr(xs.0), xs.1))
      else if t[p] == QUOTE then
        var s :- StringFrom(t, p + 1, []);
        Success((Str(s.0), s.1))
      else if t[p] == 116 then LiteralFrom(t, p, TRUE, Bool(true))
      else if t[p] == 102 then LiteralFrom(t, p, FALSE, Bool(false))
      else if t[p] == 110 then LiteralFrom(t, p, NULL, Null)
      else NumberFrom(t, p)
  }

  /** The item loop of an array with `have` items already read. */
  function ItemsFrom(t: Text, pos: nat, depth: nat, have: seq<Json>): (r: Result<(seq<Json>, nat)>)
    requires pos <= |t|
    ensures r.Success? ==> pos < r.value.1 <= |t|
    decreases |t| - pos, 1
  {
    var v :- ValueFrom(t, pos, depth + 1);
    var q := SkipSpace(t, v.1);
    if q < |t| && t[q] == COMMA then ItemsFrom(t, q + 1, depth, have + [v.0])
    else if q < |t| && t[q] == CLOSE_ARR then Success((have + [v.0], q + 1))
    else Failure
  }

  /** One `"key": value` pair. */
  function MemberFrom(t: Text, pos: nat, depth: nat): (r: Result<((Text, Json), nat)>)
    requires pos <= |t|
    ensures r.Success? ==> pos < r.value.1 <= |t|
    decreases |t| - pos, 1
  {
    var p := SkipSpace(t, pos);
    if p == |t| || t[p] != QUOTE then Failure
    else
      var k :- StringFrom(t, p + 1, []);
      var q := SkipSpace(t, k.1);
      if q == |t| || t[q] != COLON then Failure
      else
        var v :- ValueFrom(t, q + 1, depth + 1);
        Success(((k.0, v.0), v.1))
  }

  /** The member loop of an object with `have` members already read. */
  function MembersFrom(t: Text, pos: nat, depth: nat, have: seq<(Text, Json)>): (r: Result<(seq<(Text, Json)>, nat)>)
    requires pos <= |t|
    ensures r.Success? ==> pos < r.value.1 <= |t|
    decreases |t| - pos, 2
  {
    var m :- MemberFrom(t, pos, depth);
    var q := SkipSpace(t, m.1);
    if q < |t| && t[q] == COMMA then MembersFrom(t, q + 1, depth, have + [m.0])
    else if q < |t| && t[q] == CLOSE_OBJ then Success((have + [m.0], q + 1))
    else Failure
  }

  function Parse(t: Text): Result<Json> {
    if |t| > MAX_TEXT then Failure
    else
      var v :- ValueFrom(t, 0, 0);
      if SkipSpace(t, v.1) < |t| then Failure else Success(v.0)
  }

  // ---- the parser itself ----

  class Parser {
    const text: Text
    var p: nat

    ghost predicate Valid()
      reads this
    {
      p <= |text|
    }

    constructor (text: Text)
      ensures Valid() && this.text == text && p == 0
    {
      this.text := text;
      p := 0;
    }

    method Ws()
      requires Valid()
      modifies `p
      ensures Valid() && p == SkipSpace(text, old(p))
    {
      while p < |text| && IsSpace(text[p])
        invariant Valid() && SkipSpace(text, old(p)) == SkipSpace(text, p)
      {
        p := p + 1;
      }
    }

    method ReadHex4() returns (r: Result<nat>)
      requires Valid()
      modifies `p
      ensures Valid() && r == Hex4(text, old(p)) && (r.Success? ==> p == old(p) + 4)
    {
      if |text| - p < 4 {
        return Failure;
      }
      var out := 0;
      for i := 0 to 4
        invariant Valid() && p == old(p) + i && HexFrom(text, old(p), i) == Success(out)
      {
        var d := HexValue(text[p]);
        p := p + 1;
        if d.None? {
          assert HexFrom(text, old(p), i + 1).Failure?;
          HexStaysBad(text, old(p), i + 1, 4);
          return Failure;
        }
        out := out * 16 + d.value;
      }
      r := Success(out);
    }

    method ReadUnicode() returns (r: Result<Text>)
      requires Valid()
      modifies `p
      ensures Valid()
      ensures match UnicodeEscape(text, old(p))
              case Failure => r.Failure?
              case Success((s, next)) => r == Success(s) && p == next
    {
      hide Utf8;
      var cp :- ReadHex4();
      if 0xD800 <= cp <= 0xDBFF {
        if p + 1 < |text| && text[p] == BACKSLASH && text[p + 1] == 117 {
          p := p + 2;
          var lo :- ReadHex4();
          if lo < 0xDC00 || lo > 0xDFFF {
            return Failure;
          }
          cp := 0x10000 + (cp - 0xD800) * 0x400 + (lo - 0xDC00);
        } else {
          cp := 0xFFFD;
        }
      }
      r := Success(Utf8(cp));
    }

    method ParseString() returns (r: Result<Text>)
      requires Valid() && p < |text|
      modifies `p
      ensures Valid()
      ensures match StringFrom(text, old(p) + 1, [])
              case Failure => r.Failure?
              case Success((s, next)) => r == Success(s) && p == next
    {
      hide UnicodeEscape;
      p := p + 1;
      ghost var start := p;
      var out: Text := [];
      while p < |text|
        invariant Valid()
        invariant StringFrom(text, start, []) == StringFrom(text, p, out)
        decreases |text| - p
      {
        var c := text[p];
        if c == QUOTE {
          p := p + 1;
          return Success(out);
        }
        if c == BACKSLASH {
          p := p + 1;
          if p >= |text| {
            return Failure;
          }
          var e := text[p];
          p := p + 1;
          if e == 117 {
            var u :- ReadUnicode();
            out := out + u;
          } else {
            var s := SimpleEscape(e);
            if s.None? {
              return Failure;
            }
            out := out + [s.value];
          }
        } else {
          out := out + [c];
          p := p + 1;
        }
      }
      r := Failure;
    }

    method ParseNumber() returns (r: Result<Json>)
      requires Valid()
      modifies `p
      ensures Valid()
      ensures match NumberFrom(text, old(p))
              case Failure => r.Failure?
              case Success((v, next)) => r == Success(v) && p == next
    {
      var start := p;
      if p < |text| && text[p] == MINUS {
        p := p + 1;
      }
      while p < |text| && IsNumberChar(text[p])
        invariant start <= p && Valid() && RunEnd(text, start) == RunEnd(text, p)
      {
        p := p + 1;
      }
      if p == start {
        return Failure;
      }
      r := NumberValue(text[start..p]);
    }

    method Lit(word: Text) returns (ok: bool)
      requires Valid()
      modifies `p
      ensures Valid()
      ensures ok <==> old(p) + |word| <= |text| && text[old(p)..old(p) + |word|] == word
      ensures p == old(p) + if ok then |word| else 0
    {
      ok := |text| - p >= |word| && text[p..p + |word|] == word;
      if ok {
        p := p + |word|;
      }
    }

    method ParseObject(depth: nat) returns (r: Result<Json>)
      requires Valid() && p < |text|
      modifies `p
      ensures Valid()
      ensures var q := SkipSpace(text, old(p) + 1);
              if q < |text| && text[q] == CLOSE_OBJ then r == Success(Obj([])) && p == q + 1
              else match MembersFrom(text, q, depth, [])
                   case Failure => r.Failure?
                   case Success((ms, next)) => r == Success(Obj(ms)) && p == next
      decreases |text| - p, 1
    {
      hide ValueFrom, StringFrom;
      p := p + 1;
      Ws();
      if p < |text| && text[p] == CLOSE_OBJ {
        p := p + 1;
        return Success(Obj([]));
      }
      ghost var start := p;
      var members := [];
      while true
        invariant Valid() && old(p) < p
        invariant MembersFrom(text, start, depth, []) == MembersFrom(text, p, depth, members)
        decreases |text| - p
      {
        var m :- ParseMember(depth);
        members := members + [m];
        Ws();
        if p < |text| && text[p] == COMMA {
          p := p + 1;
          continue;
        }
        if p < |text| && text[p] == CLOSE_OBJ {
          p := p + 1;
          return Success(Obj(members));
        }
        return Failure;
      }
    }

    /** The head of the object loop's body. */
    method ParseMember(depth: nat) returns (r: Result<(Text, Json)>)
      requires Valid()
      modifies `p
      ensures Valid()
      ensures match MemberFrom(text, old(p), depth)
              case Failure => r.Failure?
              case Success((m, next)) => r == Success(m) && p == next
      decreases |text| - p, 1
    {
      hide ValueFrom, StringFrom, SkipSpace;
      Ws();
      if p >= |text| || text[p] != QUOTE {
        return Failure;
      }
      var key :- ParseString();
      Ws();
      if p >= |text| || text[p] != COLON {
        return Failure;
      }
      p := p + 1;
      var v :- ParseValue(depth + 1);
      r := Success((key, v));
    }

    method ParseArray(depth: nat) returns (r: Result<Json>)
      requires Valid() && p < |text|
      modifies `p
      ensures Valid()
      ensures var q := SkipSpace(text, old(p) + 1);
              if q < |text| && text[q] == CLOSE_ARR then r == Success(Arr([])) && p == q + 1
              else match ItemsFrom(text, q, depth, [])
                   case Failure => r.Failure?
                   case Success((xs, next)) => r == Success(Arr(xs)) && p == next
      decreases |text| - p, 1
    {
      hide ValueFrom;
      p := p + 1;
      Ws();
      if p < |text| && text[p] == CLOSE_ARR {
        p := p + 1;
        return Success(Arr([]));
      }
      ghost var start := p;
      var items := [];
      while true
        invariant Valid() && old(p) < p
        invariant ItemsFrom(text, start, depth, []) == ItemsFrom(text, p, depth, items)
        decreases |text| - p
      {
        var v :- ParseValue(depth + 1);
        items := items + [v];
        Ws();
        if p < |text| && text[p] == COMMA {
          p := p + 1;
          continue;
        }
        if p < |text| && text[p] == CLOSE_ARR {
          p := p + 1;
          return Success(Arr(items));
        }
        return Failure;
      }
    }

    method ParseValue(depth: nat) returns (r: Result<Json>)
      requires Valid()
      modifies `p
      ensures Valid()
      ensures match ValueFrom(text, old(p), depth)
              case Failure => r.Failure?
              case Success((v, next)) => r == Success(v) && p == next
      decreases |text| - p, 2
    {
      hide MembersFrom, ItemsFrom, StringFrom, NumberFrom, SkipSpace;
      if depth > MAX_DEPTH {
        return Failure;
      }
      Ws();
      if p >= |text| {
        return Failure;
      }
      var c := text[p];
      if c == OPEN_OBJ {
        r := ParseObject(depth);
      } else if c == OPEN_ARR {
        r := ParseArray(depth);
      } else if c == QUOTE {
        var s :- ParseString();
        r := Success(Str(s));
      } else if c == 116 {
        var ok := Lit(TRUE);
        r := if ok then Success(Bool(true)) else Failure;
      } else if c == 102 {
        var ok := Lit(FALSE);
        r := if ok then Success(Bool(false)) else Failure;
      } else if c == 110 {
        var ok := Lit(NULL);
        r := if ok then Success(Null) else Failure;
      } else {
        r := ParseNumber();
      }
    }
  }

  lemma {:induction false} HexStaysBad(t: Text, pos: nat, n: nat, m: nat)
    requires n <= m && pos + m <= |t| && HexFrom(t, pos, n).Failure?
    ensures HexFrom(t, pos, m).Failure?
  {
    if n < m {
      HexStaysBad(t, pos, n, m - 1);
    }
  }

  method ParseText(text: Text) returns (r: Result<Json>)
    ensures r == Parse(text)
  {
    if |text| > MAX_TEXT {
      return Failure;
    }
    var parser := new Parser(text);
    var v := parser.ParseValue(0);
    if v.Success? {
      parser.Ws();
      if parser.p < |text| {
        return Failure;
      }
    }
    r := v;
  }
}
