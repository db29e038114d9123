/** The streaming writer with automatic commas (backend/src/util/json.h). */
module JsonWriting {
  import opened Bytes
  import opened JsonText

  /** The calls a client makes. */
  datatype Call =
    | BeginObj | EndObj | BeginArr | EndArr
    | Key(k: Text)
    | PutStr(s: Text) | PutBool(b: bool) | PutInt(n: int) | PutNull
    | Raw(text: Text)

  datatype Writing = Writing(out: Text, needComma: seq<bool>, pendingKey: bool) {
    function Append(text: Text): Writing {
      this.(out := out + text)
    }

    /** The separator in front of the next item. */
    function Separator(): Text {
      if !pendingKey && needComma != [] && needComma[|needComma| - 1] then [COMMA] else []
    }

    function MarkTop(): seq<bool> {
      if needComma == [] then [] else needComma[..|needComma| - 1] + [true]
    }

    function Comma(): Writing {
      Writing(out + Separator(), if pendingKey then needComma else MarkTop(), false)
    }

    function Pop(): Writing {
      if needComma == [] then this
      else this.(needComma := needComma[..|needComma| - 1]).Marked()
    }

    function Marked(): Writing {
      this.(needComma := MarkTop())
    }

    function Apply(call: Call): Writing {
      match call
      case BeginObj => var w := Comma().Append([OPEN_OBJ]); w.(needComma := w.needComma + [false])
      case BeginArr => var w := Comma().Append([OPEN_ARR]); w.(needComma := w.needComma + [false])
      case EndObj => Append([CLOSE_OBJ]).Pop()
      case EndArr => Append([CLOSE_ARR]).Pop()
      case Key(k) => Comma().Append(Quoted(k)).Append([COLON]).(pendingKey := true)
      case PutStr(s) => Comma().Append(Quoted(s))
      case PutBool(b) => Comma().Append(if b then TRUE else FALSE)
      case PutInt(n) => Comma().Append(Decimal(n))
      case PutNull => Comma().Append(NULL)
      case Raw(text) => Comma().Append(text)
    }

    function Run(calls: seq<Call>): Writing
      decreases |calls|
    {
      if calls == [] then this else Apply(calls[0]).Run(calls[1..])
    }
  }

  class JsonWriter {
    var out: Text
    var needComma: seq<bool>
    var pendingKey: bool

    function State(): Writing
      reads this
    {
      Writing(out, needComma, pendingKey)
    }

    constructor ()
      ensures State() == Writing([], [], false)
    {
      out, needComma, pendingKey := [], [], false;
    }

    method Comma()
      modifies this
      ensures State() == old(State()).Comma()
    {
      if pendingKey {
        pendingKey := false;
        return;
      }
      if needComma != [] && needComma[|needComma| - 1] {
        out := out + [COMMA];
      }
      if needComma != [] {
        needComma := needComma[..|needComma| - 1] + [true];
      }
    }

    method Push()
      modifies this
      ensures State() == old(State()).(needComma := old(needComma) + [false])
    {
      needComma := needComma + [false];
    }

    method Pop()
      modifies this
      ensures State() == old(State()).Pop()
    {
      if needComma != [] {
        needComma := needComma[..|needComma| - 1];
      }
      if needComma != [] {
        needComma := needComma[..|needComma| - 1] + [true];
      }
    }

    method BeginObject()
      modifies this
      ensures State() == old(State()).Apply(BeginObj)
    {
      Comma();
      out := out + [OPEN_OBJ];
      Push();
    }

    method EndObject()
      modifies this
      ensures State() == old(State()).Apply(EndObj)
    {
      out := out + [CLOSE_OBJ];
      Pop();
    }

    method BeginArray()
      modifies this
      ensures State() == old(State()).Apply(BeginArr)
    {
      Comma();
      out := out + [OPEN_ARR];
      Push();
    }

    method EndArray()
      modifies this
      ensures State() == old(State()).Apply(EndArr)
    {
      out := out + [CLOSE_ARR];
      Pop();
    }

    method PutKey(k: Text)
      modifies this
      ensures State() == old(State()).Apply(Key(k))
    {
      Comma();
      var escaped := JsonEscape(k);
      out := out + escaped;
      out := out + [COLON];
      pendingKey := true;
    }

    method PutString(s: Text)
      modifies this
      ensures State() == old(State()).Apply(PutStr(s))
    {
      Comma();
      var escaped := JsonEscape(s);
      out := out + escaped;
    }

    method PutBoolean(b: bool)
      modifies this
      ensures State() == old(State()).Apply(PutBool(b))
    {
      Comma();
      out := out + if b then TRUE else FALSE;
    }

    /** Both integer widths: `std::to_string`. */
    method PutInteger(n: int)
      modifies this
      ensures State() == old(State()).Apply(PutInt(n))
    {
      Comma();
      out := out + Decimal(n);
    }

    method PutNullValue()
      modifies this
      ensures State() == old(State()).Apply(PutNull)
    {
      Comma();
      out := out + NULL;
    }

    method PutRaw(text: Text)
      modifies this
      ensures State() == old(State()).Apply(Raw(text))
    {
      Comma();
      out := out + text;
    }

    method Put(call: Call)
      modifies this
      ensures State() == old(State()).Apply(call)
    {
      match call
      case BeginObj => BeginObject();
      case BeginArr => BeginArray();
      case EndObj => EndObject();
      case EndArr => EndArray();
      case Key(k) => PutKey(k);
      case PutStr(s) => PutString(s);
      case PutBool(b) => PutBoolean(b);
      case PutInt(n) => PutInteger(n);
      case PutNull => PutNullValue();
      case Raw(text) => PutRaw(text);
    }

    /** What clients do: write a tree call by call. On a fresh writer that leaves the tree's text. */
    method WriteTree(v: Json)
      modifies this
      ensures State() == old(State()).Run(Calls(v))
      ensures old(State()) == Writing([], [], false) ==> State() == Writing(Print(v), [], false)
    {
      hide Calls, Print, Writing.Apply;
      var calls := Calls(v);
      for i := 0 to |calls|
        invariant State().Run(calls[i..]) == old(State()).Run(calls)
      {
        assert calls[i..][1..] == calls[i + 1..];
        Put(calls[i]);
      }
      WriterPrints(v);
    }
  }

  // ---- driving the writer over a tree ----

  function Calls(v: Json): seq<Call>
    decreases v
  {
    match v
    case Null => [PutNull]
    case Bool(b) => [PutBool(b)]
    case Num(n) => [PutInt(n)]
    case Real(text) => [Raw(text)]
    case Str(s) => [PutStr(s)]
    case Arr(items) => [BeginArr] + (ItemCalls(items) + [EndArr])
    case Obj(members) => [BeginObj] + (MemberCalls(members) + [EndObj])
  }

  function ItemCalls(items: seq<Json>): seq<Call>
    decreases items
  {
    if items == [] then [] else Calls(items[0]) + ItemCalls(items[1..])
  }

  function MemberCalls(members: seq<(Text, Json)>): seq<Call>
    decreases members
  {
    if members == [] then [] else CallsForMember(members[0]) + MemberCalls(members[1..])
  }

  function CallsForMember(m: (Text, Json)): seq<Call>
    decreases m
  {
    [Key(m.0)] + Calls(m.1)
  }

  lemma {:induction false} RunAppend(w: Writing, a: seq<Call>, b: seq<Call>)
    ensures w.Run(a + b) == w.Run(a).Run(b)
    decreases |a|
  {
    hide w.Apply;
    if a == [] {
      assert [] + b == b;
    } else {
      assert (a + b)[0] == a[0] && (a + b)[1..] == a[1..] + b;
      RunAppend(w.Apply(a[0]), a[1..], b);
    }
  }

  lemma RunOne(w: Writing, call: Call)
    ensures w.Run([call]) == w.Apply(call)
  {
    hide w.Apply;
    assert [call][1..] == [];
  }

  /** A key is only pending once its separator has been settled. */
  predicate Sound(w: Writing) {
    w.pendingKey && w.needComma != [] ==> w.needComma[|w.needComma| - 1]
  }

  /** What writing one item of text `text` does to any writer. */
  function Wrote(w: Writing, text: Text): Writing {
    Writing(w.out + (w.Separator() + text), w.MarkTop(), false)
  }

  lemma WroteScalar(w: Writing, call: Call, text: Text)
    requires Sound(w) && w.Apply(call) == w.Comma().Append(text)
    ensures w.Run([call]) == Wrote(w, text)
  {
    RunOne(w, call);
    assert w.out + w.Separator() + text == w.out + (w.Separator() + text);
    assert w.pendingKey ==> w.needComma == w.MarkTop();
  }

  /** Opening and closing brackets around content leave the enclosing level marked. */
  lemma WroteBracketed(
      w: Writing, open: Call, opening: byte, content: Text, inside: Writing, close: Call, closing: byte)
    requires Sound(w)
    requires w.Apply(open) == var c := w.Comma().Append([opening]); c.(needComma := c.needComma + [false])
    requires inside.out == w.Apply(open).out + content && !inside.pendingKey
    requires |inside.needComma| == |w.needComma| + 1
    requires inside.needComma[..|w.needComma|] == w.Apply(open).needComma[..|w.needComma|]
    requires inside.Apply(close) == inside.Append([closing]).Pop()
    ensures inside.Apply(close) == Wrote(w, [opening] + (content + [closing]))
  {
    var t := w.out + w.Separator();
    assert t + [opening] + content + [closing] == w.out + (w.Separator() + ([opening] + (content + [closing])));
    var level := if w.pendingKey then w.needComma else w.MarkTop();
    assert level == w.MarkTop();
    assert (level + [false])[..|w.needComma|] == level;
    assert inside.needComma[..|inside.needComma| - 1] == level;
    assert inside.Apply(close).needComma == level;
  }

  lemma DriveScalar(w: Writing, v: Json)
    requires Sound(w) && !v.Arr? && !v.Obj?
    ensures w.Run(Calls(v)) == Wrote(w, Print(v))
  {
    hide Quoted, Decimal;
    match v
    case Null => WroteScalar(w, PutNull, NULL);
    case Bool(b) => WroteScalar(w, PutBool(b), if b then TRUE else FALSE);
    case Num(n) => WroteScalar(w, PutInt(n), Decimal(n));
    case Real(text) => WroteScalar(w, Raw(text), text);
    case Str(s) => WroteScalar(w, PutStr(s), Quoted(s));
  }

  /** A container, given what writing its content does to the level its opening bracket starts. */
  lemma DriveContainer(w: Writing, open: Call, opening: byte, inner: seq<Call>, none: bool, content: Text,
                       close: Call, closing: byte)
    requires Sound(w) && (none ==> content == [])
    requires (open == BeginArr && opening == OPEN_ARR && close == EndArr && closing == CLOSE_ARR)
          || (open == BeginObj && opening == OPEN_OBJ && close == EndObj && closing == CLOSE_OBJ)
    requires w.Apply(open).Run(inner) == WroteAll(w.Apply(open), none, content)
    ensures w.Run([open] + (inner + [close])) == Wrote(w, [opening] + (content + [closing]))
  {
    hide w.Run;
    var level := w.Apply(open);
    var inside := level.Run(inner);
    DriveBracketed(w, open, inner, close);
    assert level.Separator() == [] && level.out + ([] + content) == level.out + content;
    assert level.MarkTop()[..|w.needComma|] == level.needComma[..|w.needComma|];
    WroteBracketed(w, open, opening, content, inside, close, closing);
  }

  lemma {:induction false} DriveValue(w: Writing, v: Json)
    requires Sound(w)
    ensures w.Run(Calls(v)) == Wrote(w, Print(v))
    decreases v
  {
    hide w.Run, Wrote, WroteAll;
    match v
    case Arr(items) =>
      LevelOpened(w, BeginArr);
      DriveItems(w.Apply(BeginArr), items);
      DriveContainer(w, BeginArr, OPEN_ARR, ItemCalls(items), items == [], PrintItems(items), EndArr, CLOSE_ARR);
    case Obj(members) =>
      LevelOpened(w, BeginObj);
      DriveMembers(w.Apply(BeginObj), members);
      DriveContainer(
        w, BeginObj, OPEN_OBJ, MemberCalls(members), members == [], PrintMembers(members), EndObj, CLOSE_OBJ);
    case _ => DriveScalar(w, v);
  }

  lemma LevelOpened(w: Writing, open: Call)
    requires open == BeginArr || open == BeginObj
    ensures InLevel(w.Apply(open))
  {
  }

  lemma DriveBracketed(w: Writing, open: Call, inner: seq<Call>, close: Call)
    ensures w.Run([open] + (inner + [close])) == w.Apply(open).Run(inner).Apply(close)
  {
    RunAppend(w, [open], inner + [close]);
    RunOne(w, open);
    RunAppend(w.Apply(open), inner, [close]);
    RunOne(w.Apply(open).Run(inner), close);
  }

  /** A level that has just been opened, or has items already. */
  predicate InLevel(w: Writing) {
    w.needComma != [] && !w.pendingKey
  }

  function WroteAll(w: Writing, none: bool, text: Text): Writing {
    if none then w else Wrote(w, text)
  }

  lemma {:induction false} DriveItems(w: Writing, items: seq<Json>)
    requires InLevel(w)
    ensures w.Run(ItemCalls(items)) == WroteAll(w, items == [], PrintItems(items))
    decreases items
  {
    if items != [] {
      DriveValue(w, items[0]);
      var w' := Wrote(w, Print(items[0]));
      RunAppend(w, Calls(items[0]), ItemCalls(items[1..]));
      DriveItems(w', items[1..]);
      WroteTwo(w, Print(items[0]), PrintItems(items[1..]));
    }
  }

  lemma WroteTwo(w: Writing, first: Text, rest: Text)
    requires InLevel(w)
    ensures Wrote(Wrote(w, first), rest) == Wrote(w, first + ([COMMA] + rest))
  {
    var w' := Wrote(w, first);
    assert w'.Separator() == [COMMA];
    assert w'.MarkTop() == w.MarkTop();
    Regroup(w.out, w.Separator(), first, [COMMA] + rest);
  }

  lemma Regroup(a: Text, b: Text, c: Text, d: Text)
    ensures a + (b + c) + d == a + (b + (c + d))
  {
  }

  lemma DriveMember(w: Writing, m: (Text, Json))
    requires InLevel(w)
    ensures w.Run(CallsForMember(m)) == Wrote(w, PrintMember(m))
    decreases m
  {
    var keyed := w.Apply(Key(m.0));
    RunAppend(w, [Key(m.0)], Calls(m.1));
    RunOne(w, Key(m.0));
    DriveValue(keyed, m.1);
    WroteKeyed(w, m.0, Print(m.1));
  }

  lemma WroteKeyed(w: Writing, k: Text, text: Text)
    requires InLevel(w)
    ensures Sound(w.Apply(Key(k)))
    ensures Wrote(w.Apply(Key(k)), text) == Wrote(w, Quoted(k) + ([COLON] + text))
  {
    hide Quoted;
    var keyed, q := w.Apply(Key(k)), Quoted(k);
    assert keyed.out == w.out + w.Separator() + q + [COLON];
    assert keyed.Separator() == [] && keyed.MarkTop() == w.MarkTop();
    assert w.out + w.Separator() + q + [COLON] + ([] + text) == w.out + (w.Separator() + (q + ([COLON] + text)));
  }

  lemma {:induction false} DriveMembers(w: Writing, members: seq<(Text, Json)>)
    requires InLevel(w)
    ensures w.Run(MemberCalls(members)) == WroteAll(w, members == [], PrintMembers(members))
    decreases members
  {
    if members != [] {
      DriveMember(w, members[0]);
      var w' := Wrote(w, PrintMember(members[0]));
      RunAppend(w, CallsForMember(members[0]), MemberCalls(members[1..]));
      DriveMembers(w', members[1..]);
      WroteTwo(w, PrintMember(members[0]), PrintMembers(members[1..]));
    }
  }

  /** Whatever the tree, the calls for it on a fresh writer yield its compact text and no stray separator. */
  lemma WriterPrints(v: Json)
    ensures Writing([], [], false).Run(Calls(v)) == Writing(Print(v), [], false)
  {
    DriveValue(Writing([], [], false), v);
    assert [] + ([] + Print(v)) == Print(v);
  }
}
