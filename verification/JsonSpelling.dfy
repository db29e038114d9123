/** Spellings of strings and numbers: every escape and every numeral the parser reads, and what it denotes. */
module JsonSpelling {
  import opened Wrappers
  import opened Bytes
  import opened JsonText
  import opened JsonParsing

  // ---- code points ----

  /** The number a UTF-8 sequence of one to four bytes stands for, if it is the shortest for that number. */
  function CodePoint(u: Text): Option<nat> {
    if |u| == 1 && u[0] < 0x80 then Some(u[0] as nat)
    else if |u| == 2 && 0xC2 <= u[0] < 0xE0 && Follows(u[1]) then Some((u[0] as int - 0xC0) * 0x40 + Low(u[1]))
    else if |u| == 3 && 0xE0 <= u[0] < 0xF0 && Follows(u[1]) && Follows(u[2]) && (u[0] > 0xE0 || u[1] >= 0xA0) then
      Some((u[0] as int - 0xE0) * 0x1000 + Low(u[1]) * 0x40 + Low(u[2]))
    else if |u| == 4 && 0xF0 <= u[0] < 0xF8 && Follows(u[1]) && Follows(u[2]) && Follows(u[3])
            && (u[0] > 0xF0 || u[1] >= 0x90) then
      Some((u[0] as int - 0xF0) * 0x4_0000 + Low(u[1]) * 0x1000 + Low(u[2]) * 0x40 + Low(u[3]))
    else None
  }

  /** The six bits a following byte carries. */
  function Low(c: byte): nat
    requires Follows(c)
  {
    c as int - 0x80
  }

  predicate Follows(c: byte) {
    0x80 <= c < 0xC0
  }

  /** What is written for a code point decodes to it. */
  lemma Utf8Exact(cp: nat)
    requires cp < 0x110000
    ensures CodePoint(Utf8(cp)) == Some(cp)
  {
    assert cp / 0x40 == cp / 0x1000 * 0x40 + cp / 0x40 % 0x40;
    assert cp / 0x1000 == cp / 0x40000 * 0x40 + cp / 0x1000 % 0x40;
  }

  // ---- characters ----

  const LOWER: Text := [48, 49, 50, 51, 52, 53, 54, 55, 56, 57, 97, 98, 99, 100, 101, 102]
  const UPPER: Text := [48, 49, 50, 51, 52, 53, 54, 55, 56, 57, 65, 66, 67, 68, 69, 70]

  /** The letter after the backslash and the byte it stands for: `"`, `\`, `/`, and b, f, n, r, t. */
  const SHORT: seq<(byte, byte)> :=
    [(34, 34), (92, 92), (47, 47), (98, 8), (102, 12), (110, 10), (114, 13), (116, 9)]

  type Caps = seq<bool>

  /** Ways to write a character: as itself, by a short escape, by four digits in either case, by a surrogate pair, or,
      for U+FFFD, by a high surrogate without its other half. */
  datatype Spelling =
    | Plain(c: byte)
    | Short(i: nat)
    | Code(n: nat, caps: Caps)
    | Pair(hi: nat, hiCaps: Caps, lo: nat, loCaps: Caps)
    | Lone(hi: nat, hiCaps: Caps)

  predicate IsHigh(n: nat) {
    0xD800 <= n < 0xDC00
  }

  predicate IsLow(n: nat) {
    0xDC00 <= n < 0xE000
  }

  predicate SpellingOk(s: Spelling) {
    match s
    case Plain(c) => c != QUOTE && c != BACKSLASH
    case Short(i) => i < |SHORT|
    case Code(n, caps) => n < 0x10000 && !IsHigh(n) && |caps| == 4
    case Pair(hi, hiCaps, lo, loCaps) => IsHigh(hi) && IsLow(lo) && |hiCaps| == 4 && |loCaps| == 4
    case Lone(hi, caps) => IsHigh(hi) && |caps| == 4
  }

  function HexChar(d: nat, cap: bool): byte
    requires d < 16
  {
    if cap then UPPER[d] else LOWER[d]
  }

  function FourDigits(n: nat, caps: Caps): (t: Text)
    requires n < 0x10000 && |caps| == 4
    ensures |t| == 4
  {
    [HexChar(n / 0x1000, caps[0]), HexChar(n / 0x100 % 16, caps[1]), HexChar(n / 0x10 % 16, caps[2]),
     HexChar(n % 16, caps[3])]
  }

  function Written(s: Spelling): (t: Text)
    requires SpellingOk(s)
    ensures |t| > 0
  {
    match s
    case Plain(c) => [c]
    case Short(i) => [BACKSLASH, SHORT[i].0]
    case Code(n, caps) => [BACKSLASH, 117] + FourDigits(n, caps)
    case Pair(hi, hiCaps, lo, loCaps) =>
      [BACKSLASH, 117] + FourDigits(hi, hiCaps) + ([BACKSLASH, 117] + FourDigits(lo, loCaps))
    case Lone(hi, caps) => [BACKSLASH, 117] + FourDigits(hi, caps)
  }

  function Denoted(s: Spelling): Text
    requires SpellingOk(s)
  {
    match s
    case Plain(c) => [c]
    case Short(i) => [SHORT[i].1]
    case Code(n, _) => Utf8(n)
    case Pair(hi, _, lo, _) => Utf8(0x10000 + (hi - 0xD800) * 0x400 + (lo - 0xDC00))
    case Lone(_, _) => Utf8(0xFFFD)
  }

  /** Every character is well spelt, and no lone surrogate stands before something that would be its other half. */
  predicate SpellingsOk(cs: seq<Spelling>) {
    && (forall i :: 0 <= i < |cs| ==> SpellingOk(cs[i]))
    && forall i :: 0 <= i < |cs| - 1 && cs[i].Lone? ==> cs[i + 1].Plain? || cs[i + 1].Short?
  }

  function WrittenAll(cs: seq<Spelling>): Text
    requires SpellingsOk(cs)
  {
    if cs == [] then [] else Written(cs[0]) + WrittenAll(cs[1..])
  }

  function DenotedAll(cs: seq<Spelling>): Text
    requires SpellingsOk(cs)
  {
    if cs == [] then [] else Denoted(cs[0]) + DenotedAll(cs[1..])
  }

  lemma HexCharValue(d: nat, cap: bool)
    requires d < 16
    ensures HexValue(HexChar(d, cap)) == Some(d)
  {
  }

  lemma HexCharOf(c: byte) returns (cap: bool)
    requires HexValue(c).Some?
    ensures HexValue(c).value < 16 && HexChar(HexValue(c).value, cap) == c
  {
    cap := c < 97;
  }

  lemma HexByDigits(t: Text, pos: nat, a: nat, b: nat, c: nat, d: nat)
    requires pos + 4 <= |t| && a < 16 && b < 16 && c < 16 && d < 16
    requires HexValue(t[pos]) == Some(a) && HexValue(t[pos + 1]) == Some(b)
    requires HexValue(t[pos + 2]) == Some(c) && HexValue(t[pos + 3]) == Some(d)
    ensures Hex4(t, pos) == Success(a * 0x1000 + b * 0x100 + c * 0x10 + d)
  {
    hide HexValue;
    assert HexFrom(t, pos, 0) == Success(0);
    assert HexFrom(t, pos, 1) == Success(a);
    assert HexFrom(t, pos, 2) == Success(a * 16 + b);
    assert HexFrom(t, pos, 3) == Success((a * 16 + b) * 16 + c);
  }

  lemma DigitsSplit(n: nat)
    requires n < 0x10000
    ensures n == n / 0x1000 * 0x1000 + n / 0x100 % 16 * 0x100 + n / 0x10 % 16 * 0x10 + n % 16
    ensures n / 0x1000 < 16
  {
    assert n / 0x100 == n / 0x1000 * 16 + n / 0x100 % 16;
    assert n / 0x10 == n / 0x100 * 16 + n / 0x10 % 16;
  }

  lemma HexWritten(t: Text, pos: nat, n: nat, caps: Caps)
    requires n < 0x10000 && |caps| == 4 && At(t, pos, FourDigits(n, caps))
    ensures Hex4(t, pos) == Success(n)
  {
    hide HexChar, HexValue;
    var w := FourDigits(n, caps);
    assert t[pos..pos + 4] == w;
    assert t[pos] == w[0] && t[pos + 1] == w[1] && t[pos + 2] == w[2] && t[pos + 3] == w[3];
    HexCharValue(n / 0x1000, caps[0]);
    HexCharValue(n / 0x100 % 16, caps[1]);
    HexCharValue(n / 0x10 % 16, caps[2]);
    HexCharValue(n % 16, caps[3]);
    HexByDigits(t, pos, n / 0x1000, n / 0x100 % 16, n / 0x10 % 16, n % 16);
    DigitsSplit(n);
  }

  /** Four digits that are read were written in some case. */
  lemma HexFound(t: Text, pos: nat) returns (caps: Caps)
    requires Hex4(t, pos).Success?
    ensures |caps| == 4 && At(t, pos, FourDigits(Hex4(t, pos).value, caps))
  {
    hide HexChar, HexValue;
    assert HexFrom(t, pos, 4).Success?;
    assert HexFrom(t, pos, 3).Success?;
    assert HexFrom(t, pos, 2).Success?;
    assert HexFrom(t, pos, 1).Success?;
    var a, b, c, d := HexValue(t[pos]), HexValue(t[pos + 1]), HexValue(t[pos + 2]), HexValue(t[pos + 3]);
    var p := HexCharOf(t[pos]);
    var q := HexCharOf(t[pos + 1]);
    var r := HexCharOf(t[pos + 2]);
    var s := HexCharOf(t[pos + 3]);
    HexByDigits(t, pos, a.value, b.value, c.value, d.value);
    var n := Hex4(t, pos).value;
    DigitsSplit(n);
    DigitsUnique(n, a.value, b.value, c.value, d.value);
    caps := [p, q, r, s];
    assert t[pos..pos + 4] == [t[pos], t[pos + 1], t[pos + 2], t[pos + 3]];
  }

  lemma DigitsUnique(n: nat, a: nat, b: nat, c: nat, d: nat)
    requires a < 16 && b < 16 && c < 16 && d < 16 && n == a * 0x1000 + b * 0x100 + c * 0x10 + d
    ensures n / 0x1000 == a && n / 0x100 % 16 == b && n / 0x10 % 16 == c && n % 16 == d
  {
    assert n / 0x10 == a * 0x100 + b * 0x10 + c;
    assert n / 0x100 == a * 0x10 + b;
  }

  lemma AtTwo(t: Text, pos: nat, a: byte, b: byte)
    requires At(t, pos, [a, b])
    ensures t[pos] == a && t[pos + 1] == b
  {
    assert t[pos..pos + 2][0] == a && t[pos..pos + 2][1] == b;
  }

  lemma TwoAt(t: Text, pos: nat)
    requires pos + 2 <= |t|
    ensures At(t, pos, [t[pos], t[pos + 1]])
  {
  }

  lemma AtJoin(t: Text, pos: nat, a: Text, b: Text)
    requires At(t, pos, a) && At(t, pos + |a|, b)
    ensures At(t, pos, a + b)
  {
    assert t[pos..pos + |a + b|] == t[pos..pos + |a|] + t[pos + |a|..pos + |a| + |b|];
  }

  /** No `\u` stands here. */
  predicate NoHalf(t: Text, pos: nat) {
    pos + 1 < |t| ==> !(t[pos] == BACKSLASH && t[pos + 1] == 117)
  }

  /** A written character is read as what it denotes; a lone surrogate only where no other half follows. */
  lemma SpellingRead(t: Text, pos: nat, s: Spelling)
    requires SpellingOk(s) && At(t, pos, Written(s)) && (s.Lone? ==> NoHalf(t, pos + 6))
    ensures t[pos] != QUOTE && CharFrom(t, pos) == Success((Denoted(s), pos + |Written(s)|))
  {
    hide Utf8, Hex4, FourDigits;
    match s
    case Plain(c) => AtByte(t, pos, c);
    case Short(i) => AtTwo(t, pos, BACKSLASH, SHORT[i].0);
    case Code(n, caps) =>
      EscapeRead(t, pos, n, caps);
    case Pair(hi, hiCaps, lo, loCaps) =>
      AtSplit(t, pos, [BACKSLASH, 117] + FourDigits(hi, hiCaps), [BACKSLASH, 117] + FourDigits(lo, loCaps));
      EscapeRead(t, pos, hi, hiCaps);
      EscapeRead(t, pos + 6, lo, loCaps);
    case Lone(hi, caps) =>
      EscapeRead(t, pos, hi, caps);
  }

  lemma EscapeRead(t: Text, pos: nat, n: nat, caps: Caps)
    requires n < 0x10000 && |caps| == 4 && At(t, pos, [BACKSLASH, 117] + FourDigits(n, caps))
    ensures t[pos] == BACKSLASH && t[pos + 1] == 117 && Hex4(t, pos + 2) == Success(n)
  {
    hide Hex4, FourDigits;
    AtSplit(t, pos, [BACKSLASH, 117], FourDigits(n, caps));
    AtTwo(t, pos, BACKSLASH, 117);
    HexWritten(t, pos + 2, n, caps);
  }

  lemma SpellingsTail(cs: seq<Spelling>)
    requires SpellingsOk(cs) && cs != []
    ensures SpellingOk(cs[0]) && SpellingsOk(cs[1..])
  {
    forall i | 0 <= i < |cs[1..]| - 1 && cs[1..][i].Lone?
      ensures cs[1..][i + 1].Plain? || cs[1..][i + 1].Short?
    {
      assert cs[i + 1].Lone?;
    }
  }

  /** After a lone surrogate comes the closing quote or something that is no `\u`. */
  lemma AfterLone(t: Text, pos: nat, cs: seq<Spelling>)
    requires SpellingsOk(cs) && cs != [] && cs[0].Lone?
    requires At(t, pos, Written(cs[0])) && At(t, pos + |Written(cs[0])|, WrittenAll(cs[1..]) + [QUOTE])
    ensures NoHalf(t, pos + 6)
  {
    hide FourDigits;
    var p := pos + 6;
    if |cs| == 1 {
      assert WrittenAll(cs[1..]) + [QUOTE] == [QUOTE];
      AtByte(t, p, QUOTE);
    } else {
      SpellingsTail(cs);
      var next, rest := cs[1], WrittenAll(cs[1..][1..]) + [QUOTE];
      assert next.Plain? || next.Short?;
      assert WrittenAll(cs[1..]) + [QUOTE] == Written(next) + rest;
      AtSplit(t, p, Written(next), rest);
      if next.Plain? {
        AtByte(t, p, next.c);
      } else {
        AtTwo(t, p, BACKSLASH, SHORT[next.i].0);
      }
    }
  }

  lemma {:induction false} StringRead(t: Text, pos: nat, cs: seq<Spelling>, have: Text)
    requires SpellingsOk(cs) && At(t, pos, WrittenAll(cs) + [QUOTE])
    ensures StringFrom(t, pos, have) == Success((have + DenotedAll(cs), pos + |WrittenAll(cs)| + 1))
    decreases |cs|
  {
    hide CharFrom, SpellingOk, Written, Denoted;
    if cs == [] {
      AtByte(t, pos, QUOTE);
      assert have + [] == have;
    } else {
      SpellingsTail(cs);
      var w, rest := Written(cs[0]), WrittenAll(cs[1..]) + [QUOTE];
      assert WrittenAll(cs) + [QUOTE] == w + rest;
      AtSplit(t, pos, w, rest);
      if cs[0].Lone? {
        AfterLone(t, pos, cs);
      }
      SpellingRead(t, pos, cs[0]);
      StringRead(t, pos + |w|, cs[1..], have + Denoted(cs[0]));
      assert have + Denoted(cs[0]) + DenotedAll(cs[1..]) == have + DenotedAll(cs);
    }
  }

  /** Whatever is read as a character was written as one. */
  lemma SpellingFound(t: Text, pos: nat) returns (s: Spelling)
    requires pos < |t| && t[pos] != QUOTE && CharFrom(t, pos).Success?
    ensures SpellingOk(s) && At(t, pos, Written(s)) && (s.Lone? ==> NoHalf(t, pos + 6))
    ensures CharFrom(t, pos).value == (Denoted(s), pos + |Written(s)|)
  {
    hide Utf8, Hex4, FourDigits;
    if t[pos] != BACKSLASH {
      s := Plain(t[pos]);
    } else if t[pos + 1] != 117 {
      var e := t[pos + 1];
      s := Short(if e == 34 then 0 else if e == 92 then 1 else if e == 47 then 2 else if e == 98 then 3
                 else if e == 102 then 4 else if e == 110 then 5 else if e == 114 then 6 else 7);
      TwoAt(t, pos);
    } else {
      s := EscapeFound(t, pos);
    }
  }

  lemma EscapeFound(t: Text, pos: nat) returns (s: Spelling)
    requires pos + 1 < |t| && t[pos] == BACKSLASH && t[pos + 1] == 117 && UnicodeEscape(t, pos + 2).Success?
    ensures SpellingOk(s) && At(t, pos, Written(s)) && (s.Lone? ==> NoHalf(t, pos + 6))
    ensures UnicodeEscape(t, pos + 2).value == (Denoted(s), pos + |Written(s)|)
  {
    hide Utf8, Hex4, FourDigits;
    var n := Hex4(t, pos + 2).value;
    var caps := HexFound(t, pos + 2);
    TwoAt(t, pos);
    AtJoin(t, pos, [BACKSLASH, 117], FourDigits(n, caps));
    if !IsHigh(n) {
      s := Code(n, caps);
    } else if NoHalf(t, pos + 6) {
      s := Lone(n, caps);
    } else {
      var lo := Hex4(t, pos + 8).value;
      var loCaps := HexFound(t, pos + 8);
      s := Pair(n, caps, lo, loCaps);
      TwoAt(t, pos + 6);
      AtJoin(t, pos + 6, [BACKSLASH, 117], FourDigits(lo, loCaps));
      AtJoin(t, pos, [BACKSLASH, 117] + FourDigits(n, caps), [BACKSLASH, 117] + FourDigits(lo, loCaps));
    }
  }

  lemma {:induction false} StringFound(t: Text, pos: nat, have: Text) returns (cs: seq<Spelling>)
    requires pos <= |t| && StringFrom(t, pos, have).Success?
    ensures SpellingsOk(cs) && At(t, pos, WrittenAll(cs) + [QUOTE])
    ensures StringFrom(t, pos, have).value == (have + DenotedAll(cs), pos + |WrittenAll(cs)| + 1)
    decreases |t| - pos
  {
    hide CharFrom, SpellingOk, Written, Denoted;
    if t[pos] == QUOTE {
      cs := [];
      assert have + [] == have;
      assert t[pos..pos + 1] == [QUOTE];
    } else {
      var c := CharFrom(t, pos).value;
      var s := SpellingFound(t, pos);
      var rest := StringFound(t, c.1, have + c.0);
      cs := [s] + rest;
      assert cs[1..] == rest;
      AtJoin(t, pos, Written(s), WrittenAll(rest) + [QUOTE]);
      if s.Lone? && rest != [] {
        NoHalfNext(t, c.1, rest);
        LoneLength(s);
      }
      SpellingsCons(s, rest);
      assert WrittenAll(cs) + [QUOTE] == Written(s) + (WrittenAll(rest) + [QUOTE]);
      assert have + c.0 + DenotedAll(rest) == have + DenotedAll(cs);
    }
  }

  lemma LoneLength(s: Spelling)
    requires SpellingOk(s) && s.Lone?
    ensures |Written(s)| == 6
  {
  }

  lemma SpellingsCons(s: Spelling, rest: seq<Spelling>)
    requires SpellingOk(s) && SpellingsOk(rest)
    requires s.Lone? && rest != [] ==> rest[0].Plain? || rest[0].Short?
    ensures SpellingsOk([s] + rest)
  {
    hide SpellingOk;
  }

  lemma NoHalfNext(t: Text, pos: nat, cs: seq<Spelling>)
    requires SpellingsOk(cs) && cs != [] && At(t, pos, WrittenAll(cs) + [QUOTE])
    ensures NoHalf(t, pos) ==> cs[0].Plain? || cs[0].Short?
  {
    hide FourDigits;
    SpellingsTail(cs);
    var w, rest := Written(cs[0]), WrittenAll(cs[1..]) + [QUOTE];
    assert WrittenAll(cs) + [QUOTE] == w + rest;
    AtSplit(t, pos, w, rest);
    if !cs[0].Plain? && !cs[0].Short? {
      assert t[pos] == t[pos..pos + |w|][0] == w[0] && t[pos + 1] == t[pos..pos + |w|][1] == w[1];
    }
  }

  // ---- numbers ----

  /** A sign, digits, a fraction, an exponent; a fraction or the digits before it may be missing, not both. */
  datatype Numeral = Numeral(sign: Text, whole: Text, point: bool, frac: Text, exp: Option<Exponent>)
  datatype Exponent = Exponent(letter: byte, sign: Text, digits: Text)

  predicate AllDigits(s: Text) {
    forall i :: 0 <= i < |s| ==> 48 <= s[i] <= 57
  }

  predicate SignOk(s: Text) {
    s == [] || s == [45] || s == [43]
  }

  predicate NumeralOk(f: Numeral) {
    && SignOk(f.sign) && AllDigits(f.whole) && AllDigits(f.frac) && |f.whole| + |f.frac| > 0
    && (!f.point ==> f.frac == [])
    && (f.exp.Some? ==>
          var e := f.exp.value;
          (e.letter == 101 || e.letter == 69) && SignOk(e.sign) && e.digits != [] && AllDigits(e.digits))
  }

  function Fraction(f: Numeral): Text {
    if f.point then [46] + f.frac else []
  }

  function Power(f: Numeral): Text {
    match f.exp case None => [] case Some(e) => [e.letter] + (e.sign + e.digits)
  }

  function Figures(f: Numeral): Text {
    f.sign + (f.whole + (Fraction(f) + Power(f)))
  }

  /** A plain integer is stored as a double; anything else is kept as its text. */
  function Worth(f: Numeral): Json {
    if f.point || f.exp.Some? || f.sign == [43] then Real(Figures(f))
    else StoredNumber(Figures(f), if f.sign == [45] then -DigitsValue(f.whole) else DigitsValue(f.whole))
  }

  lemma {:induction false} DigitsStop(s: Text, i: nat, j: nat)
    requires i <= j <= |s| && AllDigits(s[i..j]) && (j == |s| || !IsDigit(s[j]))
    ensures DigitsEnd(s, i) == j
    decreases j - i
  {
    if i < j {
      assert IsDigit(s[i..j][0]);
      assert s[i..j][1..] == s[i + 1..j];
      DigitsStop(s, i + 1, j);
    }
  }

  lemma HeadDigit(s: Text)
    ensures AllDigits(s) && s != [] ==> IsDigit(s[0])
    ensures AllDigits([])
  {
  }

  lemma FourParts(a: Text, b: Text, c: Text, d: Text)
    ensures var s := a + (b + (c + d)); var i := |a|; var j := i + |b|; var k := j + |c|;
            && s[..i] == a && s[i..j] == b && s[j..k] == c && s[k..] == d && |s| == k + |d|
            && (b != [] ==> s[i] == b[0]) && (c != [] ==> s[j] == c[0]) && (d != [] ==> s[k] == d[0])
            && (a != [] ==> s[0] == a[0])
  {
    var s, u, v := a + (b + (c + d)), b + (c + d), c + d;
    assert s[..|a|] == a && s[|a|..] == u;
    assert u[..|b|] == b && u[|b|..] == v;
    assert v[..|c|] == c && v[|c|..] == d;
    assert s[|a|..][..|b|] == s[|a|..|a| + |b|];
    assert s[|a|..][|b|..] == s[|a| + |b|..];
    assert s[|a| + |b|..][..|c|] == s[|a| + |b|..|a| + |b| + |c|];
    assert s[|a| + |b|..][|c|..] == s[|a| + |b| + |c|..];
  }

  lemma SignStop(s: Text, i: nat, j: nat)
    requires i <= j <= |s| && SignOk(s[i..j]) && (i == j < |s| ==> s[i] != 43 && s[i] != 45)
    ensures SignEnd(s, i) == j
  {
    assert i < j ==> s[i..j][0] == s[i];
  }

  /** Where the whole part, the fraction and the exponent of a numeral begin. */
  function WholeAt(f: Numeral): nat {
    |f.sign|
  }

  function FractionAt(f: Numeral): nat {
    |f.sign| + |f.whole|
  }

  function PowerAt(f: Numeral): nat {
    |f.sign| + |f.whole| + |Fraction(f)|
  }

  lemma Parts(f: Numeral)
    ensures var s := Figures(f);
            && |s| == PowerAt(f) + |Power(f)|
            && s[0..WholeAt(f)] == f.sign && s[WholeAt(f)..FractionAt(f)] == f.whole
            && s[FractionAt(f)..PowerAt(f)] == Fraction(f) && s[PowerAt(f)..] == Power(f)
    ensures f.whole != [] ==> Figures(f)[WholeAt(f)] == f.whole[0]
    ensures Fraction(f) != [] ==> Figures(f)[FractionAt(f)] == Fraction(f)[0]
    ensures Power(f) != [] ==> Figures(f)[PowerAt(f)] == Power(f)[0]
    ensures f.sign != [] ==> Figures(f)[0] == f.sign[0]
  {
    hide Fraction, Power;
    FourParts(f.sign, f.whole, Fraction(f), Power(f));
  }

  lemma Ends(f: Numeral)
    requires NumeralOk(f)
    ensures |Figures(f)| == PowerAt(f) + |Power(f)|
    ensures PowerAt(f) < |Figures(f)| <==> f.exp.Some?
    ensures f.exp.Some? ==> Figures(f)[PowerAt(f)] == f.exp.value.letter
    ensures f.point ==> FractionAt(f) < |Figures(f)| && Figures(f)[FractionAt(f)] == 46
    ensures !f.point ==> FractionAt(f) == PowerAt(f)
  {
    hide Figures, AllDigits, SignOk;
    Parts(f);
  }

  lemma SignScanned(f: Numeral)
    requires NumeralOk(f)
    ensures SignEnd(Figures(f), 0) == WholeAt(f)
  {
    hide AllDigits, Figures, SignEnd;
    Parts(f);
    Ends(f);
    HeadDigit(f.whole);
    SignStop(Figures(f), 0, WholeAt(f));
  }

  lemma WholeScanned(f: Numeral)
    requires NumeralOk(f)
    ensures DigitsEnd(Figures(f), WholeAt(f)) == FractionAt(f)
  {
    hide AllDigits, DigitsEnd, Figures, SignOk;
    Parts(f);
    Ends(f);
    DigitsStop(Figures(f), WholeAt(f), FractionAt(f));
  }

  lemma FractionScanned(f: Numeral)
    requires NumeralOk(f) && f.point
    ensures FractionAt(f) < |Figures(f)| && DigitsEnd(Figures(f), FractionAt(f) + 1) == PowerAt(f)
  {
    hide AllDigits, DigitsEnd, Figures, SignOk;
    Parts(f);
    Ends(f);
    assert Figures(f)[FractionAt(f)..PowerAt(f)][1..] == Fraction(f)[1..] == f.frac;
    DigitsStop(Figures(f), FractionAt(f) + 1, PowerAt(f));
  }

  /** The same from a position `k` in a text. */
  lemma SuffixParts(s: Text, k: nat, letter: byte, sign: Text, digits: Text)
    requires k <= |s| && s[k..] == [letter] + (sign + digits)
    ensures var e := k + 1 + |sign|;
            && |s| == e + |digits| && s[k] == letter && s[k + 1..e] == sign && s[e..|s|] == digits
            && (digits != [] ==> s[e] == digits[0])
  {
    var t := s[k..];
    assert t[0] == s[k];
    assert s[k + 1..] == t[1..] == sign + digits;
    var u := s[k + 1..];
    assert u[..|sign|] == sign && u[|sign|..] == digits;
  }

  lemma PowerScanned(f: Numeral)
    requires NumeralOk(f) && f.exp.Some?
    ensures var s := Figures(f); var e := PowerAt(f) + 1 + |f.exp.value.sign|;
            SignEnd(s, PowerAt(f) + 1) == e < |s| && DigitsEnd(s, e) == |s|
  {
    hide AllDigits, DigitsEnd, SignEnd, Figures;
    Parts(f);
    var s, k, p := Figures(f), PowerAt(f), f.exp.value;
    var e := k + 1 + |p.sign|;
    SuffixParts(s, k, p.letter, p.sign, p.digits);
    HeadDigit(p.digits);
    SignStop(s, k + 1, e);
    DigitsStop(s, e, |s|);
  }

  lemma NumeralAccepted(f: Numeral)
    requires NumeralOk(f)
    ensures IsNumeral(Figures(f))
  {
    hide DigitsEnd, SignEnd, Figures, AllDigits, SignOk;
    Ends(f);
    SignScanned(f);
    WholeScanned(f);
    if f.point {
      FractionScanned(f);
    }
    if f.exp.Some? {
      PowerScanned(f);
    }
    assert !f.point && FractionAt(f) < |Figures(f)| ==> Figures(f)[FractionAt(f)] != 46;
  }

  /** The text of a plain integer is its minus sign, if any, and its digits; nothing else is taken for one. */
  lemma IntegerExact(f: Numeral)
    requires NumeralOk(f)
    ensures var s := Figures(f);
            && s != [] && (IsInteger(s) <==> !f.point && f.exp.None? && f.sign != [43])
            && (IsInteger(s) ==>
                  IntegerValue(s) == if f.sign == [45] then -DigitsValue(f.whole) else DigitsValue(f.whole))
  {
    hide DigitsEnd, Figures, AllDigits, DigitsValue;
    Ends(f);
    WholeScanned(f);
    FiguresHead(f);
    var s := Figures(f);
    if f.sign == [43] {
      assert s[0..0] == [];
      HeadDigit(s[0..0]);
      DigitsStop(s, 0, 0);
    }
  }

  lemma FiguresHead(f: Numeral)
    requires NumeralOk(f)
    ensures var s := Figures(f);
            && s != [] && (s[0] == 45 <==> f.sign == [45]) && (f.sign == [43] ==> s[0] == 43)
            && (!f.point && f.exp.None? ==> s[WholeAt(f)..] == f.whole && s[0..] == s)
  {
    hide Figures, AllDigits;
    Parts(f);
    Ends(f);
    HeadDigit(f.whole);
    var s := Figures(f);
    assert s[0..] == s;
  }

  predicate NumberChars(s: Text) {
    forall i :: 0 <= i < |s| ==> IsNumberChar(s[i])
  }

  lemma NumberCharsJoin(a: Text, b: Text)
    requires NumberChars(a) && NumberChars(b)
    ensures NumberChars(a + b)
  {
  }

  lemma PartChars(digits: Text, sign: Text)
    ensures AllDigits(digits) ==> NumberChars(digits)
    ensures SignOk(sign) ==> NumberChars(sign)
    ensures NumberChars([46]) && NumberChars([101]) && NumberChars([69])
  {
  }

  lemma FiguresChars(f: Numeral)
    requires NumeralOk(f)
    ensures Figures(f) != [] && forall i :: 0 <= i < |Figures(f)| ==> IsNumberChar(Figures(f)[i])
  {
    hide AllDigits, SignOk, NumberChars, IsNumberChar;
    PartChars(f.whole, f.sign);
    PartChars(f.frac, []);
    if f.point {
      NumberCharsJoin([46], f.frac);
    }
    if f.exp.Some? {
      PartChars(f.exp.value.digits, f.exp.value.sign);
      NumberCharsJoin(f.exp.value.sign, f.exp.value.digits);
      NumberCharsJoin([f.exp.value.letter], f.exp.value.sign + f.exp.value.digits);
    }
    NoChars();
    NumberCharsJoin(Fraction(f), Power(f));
    NumberCharsJoin(f.whole, Fraction(f) + Power(f));
    NumberCharsJoin(f.sign, f.whole + (Fraction(f) + Power(f)));
    AllNumberChars(Figures(f));
  }

  lemma NoChars()
    ensures NumberChars([])
  {
  }

  lemma AllNumberChars(s: Text)
    ensures NumberChars(s) <==> forall i :: 0 <= i < |s| ==> IsNumberChar(s[i])
  {
  }

  /** The numeral the scanner accepts, taken apart. */
  lemma NumeralFound(s: Text) returns (f: Numeral)
    requires IsNumeral(s)
    ensures NumeralOk(f) && Figures(f) == s
  {
    hide AllDigits, DigitsEnd, Figures;
    var i := SignEnd(s, 0);
    var j := DigitsEnd(s, i);
    DigitsPassed(s, i);
    HeadDigit([]);
    var point := j < |s| && s[j] == 46;
    var k := if point then DigitsEnd(s, j + 1) else j;
    var frac := [];
    if point {
      DigitsPassed(s, j + 1);
      frac := s[j + 1..k];
    }
    var exp := None;
    if k < |s| {
      exp := Some(ExponentFound(s, k));
    }
    f := Numeral(s[..i], s[i..j], point, frac, exp);
    Recomposed(s, i, j, k, f);
  }

  lemma Recomposed(s: Text, i: nat, j: nat, k: nat, f: Numeral)
    requires i <= j <= k <= |s| && f.sign == s[..i] && f.whole == s[i..j] && s[k..] == Power(f)
    requires f.point ==> j < k && s[j] == 46 && f.frac == s[j + 1..k]
    requires !f.point ==> j == k
    ensures Figures(f) == s
  {
    hide Power;
    assert s[j..k] == Fraction(f);
    assert s[j..] == s[j..k] + s[k..];
    assert s[i..] == s[i..j] + s[j..];
    assert s == s[..i] + s[i..];
  }

  lemma FiguresFound(s: Text) returns (f: Numeral)
    requires NumberValue(s).Success?
    ensures NumeralOk(f) && Figures(f) == s && NumberValue(s).value == Worth(f)
  {
    hide IsInteger, IsNumeral, NumeralOk, Figures, DigitsValue, StoredNumber;
    IntegerIsNumeral(s);
    f := NumeralFound(s);
    IntegerExact(f);
  }

  function ExponentFound(s: Text, k: nat): (e: Exponent)
    requires k < |s| && (s[k] == 101 || s[k] == 69)
    requires var d := SignEnd(s, k + 1); d < |s| && DigitsEnd(s, d) == |s|
    ensures s[k..] == [e.letter] + (e.sign + e.digits) && e.letter == s[k]
    ensures SignOk(e.sign) && e.digits != [] && AllDigits(e.digits)
  {
    var d := SignEnd(s, k + 1);
    DigitsPassed(s, d);
    assert s[d..|s|] == s[d..];
    Exponent(s[k], s[k + 1..d], s[d..])
  }

  lemma {:induction false} DigitsPassed(s: Text, i: nat)
    requires i <= |s|
    ensures AllDigits(s[i..DigitsEnd(s, i)])
    decreases |s| - i
  {
    if i < |s| && IsDigit(s[i]) {
      DigitsPassed(s, i + 1);
      assert s[i..DigitsEnd(s, i)] == [s[i]] + s[i + 1..DigitsEnd(s, i)];
    }
  }

  lemma IntegerIsNumeral(s: Text)
    ensures IsInteger(s) ==> IsNumeral(s)
  {
    if IsInteger(s) {
      var i := if s[0] == MINUS then 1 else 0;
      DigitsPassed(s, i);
      assert s[i..|s|][0] == s[i];
    }
  }

  /** The text after a value does not run on into a number. */
  predicate Delimited(t: Text, pos: nat) {
    pos >= |t| || !IsNumberChar(t[pos])
  }

  lemma {:induction false} RunEndExact(t: Text, pos: nat, end: nat)
    requires pos <= end <= |t| && Delimited(t, end)
    requires forall i :: pos <= i < end ==> IsNumberChar(t[i])
    ensures RunEnd(t, pos) == end
    decreases end - pos
  {
    if pos < end {
      RunEndExact(t, pos + 1, end);
    }
  }

  lemma FigureRead(t: Text, pos: nat, f: Numeral)
    requires NumeralOk(f) && At(t, pos, Figures(f)) && Delimited(t, pos + |Figures(f)|)
    ensures NumberFrom(t, pos) == Success((Worth(f), pos + |Figures(f)|))
    ensures IsNumberChar(t[pos])
  {
    hide NumeralOk, Figures, IsNumeral, IsInteger, DigitsValue, StoredNumber, IsNumberChar;
    var w := t[pos..pos + |Figures(f)|];
    FiguresChars(f);
    NumeralAccepted(f);
    IntegerExact(f);
    forall i | pos <= i < pos + |w|
      ensures IsNumberChar(t[i])
    {
      assert t[i] == w[i - pos];
    }
    RunEndExact(t, pos, pos + |w|);
  }

  lemma FigureFound(t: Text, pos: nat) returns (f: Numeral)
    requires pos <= |t| && NumberFrom(t, pos).Success?
    ensures NumeralOk(f) && At(t, pos, Figures(f)) && NumberFrom(t, pos).value == (Worth(f), pos + |Figures(f)|)
  {
    hide NumberValue, NumeralOk, Figures, Worth;
    f := FiguresFound(t[pos..RunEnd(t, pos)]);
  }
}
