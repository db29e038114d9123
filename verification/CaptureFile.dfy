/** Classic capture files as any writer may produce them, in either byte order and resolution and with either link type,
    and what the reader makes of them. */
module CaptureFile {
  import opened Wrappers
  import opened Bytes
  import opened Pcap

  /** A packet of a capture; its captured length is the number of its bytes. */
  datatype Packet = Packet(ts: nat, origlen: nat, bytes: seq<byte>)

  datatype Style = Style(big: bool, nanos: bool, mPacket: bool)

  /** The fields of one record as its writer gives them; only 32 bits of each are stored. */
  datatype Raw = Raw(sec: nat, frac: nat, origlen: nat, data: seq<byte>)

  function PutBe32(n: nat): (s: seq<byte>)
    ensures |s| == 4
  {
    var n1 := n / 256;
    var n2 := n1 / 256;
    var n3 := n2 / 256;
    [n3 % 256, n2 % 256, n1 % 256, n % 256]
  }

  function Put32(n: nat, big: bool): (s: seq<byte>)
    ensures |s| == 4
  {
    if big then PutBe32(n) else PutLe32(n)
  }

  function RawHead(style: Style, r: Raw): (s: seq<byte>)
    ensures |s| == 16
  {
    Put32(r.sec, style.big) +
    (Put32(r.frac, style.big) + (Put32(|r.data|, style.big) + Put32(r.origlen, style.big)))
  }

  function RawAll(style: Style, rs: seq<Raw>): seq<byte> {
    if rs == [] then []
    else RawAll(style, rs[..|rs| - 1]) + (RawHead(style, rs[|rs| - 1]) + rs[|rs| - 1].data)
  }

  /** The magic number, in the writer's byte order, tells the resolution; sixteen bytes of versions, zone, accuracy and
      snapshot length follow, and a link field of which the upper half is free. */
  function Header(style: Style, middle: seq<byte>, upper: nat): (s: seq<byte>)
    ensures |s| == 8 + |middle|
  {
    Put32(if style.nanos then 0xa1b23c4d else 0xa1b2c3d4, style.big) +
    (middle + Put32((if style.mPacket then 274 else 1) + 0x1_0000 * upper, style.big))
  }

  function FileOf(style: Style, middle: seq<byte>, upper: nat, rs: seq<Raw>): seq<byte> {
    Header(style, middle, upper) + RawAll(style, rs)
  }

  lemma Put32RoundTrip(d: seq<byte>, pos: nat, n: nat, big: bool)
    requires At(d, pos, Put32(n, big))
    ensures U32At(d, pos, big) == n % U32
  {
    if big {
      var s := d[pos..pos + 4];
      assert s[0] == d[pos] && s[1] == d[pos + 1] && s[2] == d[pos + 2] && s[3] == d[pos + 3];
      Le32Digits(n);
    } else {
      Le32RoundTrip(d, pos, n);
    }
  }

  // ---- reading it back, record by record ----

  function FormatFor(style: Style): Format {
    Format(style.big, style.nanos, style.mPacket)
  }

  /** What the reader takes a record at `pos` for. */
  function ReadRaw(style: Style, r: Raw, pos: nat): (p: PcapPacket)
    ensures p.caplen == |r.data| && p.offset == pos + 16
  {
    PcapPacket(r.sec % U32 * 1_000_000_000 + r.frac % U32 * (if style.nanos then 1 else 1000),
               |r.data|, r.origlen % U32, pos + 16)
  }

  lemma HeadRead(d: seq<byte>, pos: nat, style: Style, r: Raw)
    requires At(d, pos, RawHead(style, r)) && |r.data| < U32
    ensures RecordAt(d, pos, FormatFor(style)) == ReadRaw(style, r, pos)
  {
    hide Put32, U32At;
    var big := style.big;
    var sec, frac, cap, orig := Put32(r.sec, big), Put32(r.frac, big), Put32(|r.data|, big), Put32(r.origlen, big);
    AtSplit(d, pos, sec, frac + (cap + orig));
    AtSplit(d, pos + 4, frac, cap + orig);
    AtSplit(d, pos + 8, cap, orig);
    Put32RoundTrip(d, pos, r.sec, big);
    Put32RoundTrip(d, pos + 4, r.frac, big);
    Put32RoundTrip(d, pos + 8, |r.data|, big);
    Put32RoundTrip(d, pos + 12, r.origlen, big);
  }

  lemma HeaderRead(d: seq<byte>, style: Style, middle: seq<byte>, upper: nat)
    requires |middle| == 16 && upper < 0x1_0000 && At(d, 0, Header(style, middle, upper))
    ensures IsClassic(d) && FormatOf(d) == Success(FormatFor(style))
  {
    hide Put32, U32At;
    var big := style.big;
    var magic := if style.nanos then 0xa1b23c4d else 0xa1b2c3d4;
    var link := (if style.mPacket then 274 else 1) + 0x1_0000 * upper;
    AtSplit(d, 0, Put32(magic, big), middle + Put32(link, big));
    AtSplit(d, 4, middle, Put32(link, big));
    Put32RoundTrip(d, 0, magic, big);
    Put32RoundTrip(d, 20, link, big);
    assert link % U32 == link && link % 0x1_0000 == if style.mPacket then 274 else 1;
    MagicSwapped(d, big);
  }

  /** A magic number read in the other order is its swapped form. */
  lemma MagicSwapped(d: seq<byte>, big: bool)
    requires |d| >= 4
    ensures !big ==> U32At(d, 0, false) == U32At(d, 0, big)
    ensures big && U32At(d, 0, true) == 0xa1b23c4d ==> U32At(d, 0, false) == 0x4d3cb2a1
    ensures big && U32At(d, 0, true) == 0xa1b2c3d4 ==> U32At(d, 0, false) == 0xd4c3b2a1
  {
    if big {
      var a, b, c, e := d[0] as int, d[1] as int, d[2] as int, d[3] as int;
      FourBytes(a, b, c, e);
    }
  }

  lemma FourBytes(a: nat, b: nat, c: nat, e: nat)
    requires a < 256 && b < 256 && c < 256 && e < 256
    ensures a * 0x100_0000 + b * 0x1_0000 + c * 256 + e == 0xa1b23c4d ==>
              a == 0xa1 && b == 0xb2 && c == 0x3c && e == 0x4d
    ensures a * 0x100_0000 + b * 0x1_0000 + c * 256 + e == 0xa1b2c3d4 ==>
              a == 0xa1 && b == 0xb2 && c == 0xc3 && e == 0xd4
  {
  }

  function RawOffset(style: Style, rs: seq<Raw>, k: nat): nat
    requires k <= |rs|
  {
    24 + |RawAll(style, rs[..k])|
  }

  ghost predicate Storable(rs: seq<Raw>) {
    forall r :: r in rs ==> |r.data| < U32
  }

  /** The record as loaded: behind its preamble, if the link type has one. */
  function AsLoaded(d: seq<byte>, style: Style, r: Raw, pos: nat): (p: PcapPacket)
    requires pos + 16 + |r.data| <= |d|
  {
    if style.mPacket then StripFrom(d, ReadRaw(style, r, pos), 0) else ReadRaw(style, r, pos)
  }

  lemma RawSnoc(style: Style, rs: seq<Raw>, k: nat)
    requires k < |rs|
    ensures RawAll(style, rs[..k + 1]) == RawAll(style, rs[..k]) + (RawHead(style, rs[k]) + rs[k].data)
  {
    hide RawHead;
    assert rs[..k + 1][..k] == rs[..k];
  }

  lemma {:induction false} RawPrefix(style: Style, rs: seq<Raw>, k: nat)
    requires k <= |rs|
    ensures RawAll(style, rs[..k]) <= RawAll(style, rs)
    decreases |rs| - k
  {
    hide RawAll;
    if k == |rs| {
      assert rs[..k] == rs;
    } else {
      RawSnoc(style, rs, k);
      RawPrefix(style, rs, k + 1);
    }
  }

  /** Where the k-th record stands in a file. */
  lemma RecordStands(d: seq<byte>, style: Style, rs: seq<Raw>, k: nat)
    requires k < |rs| && At(d, 24, RawAll(style, rs))
    ensures At(d, RawOffset(style, rs, k), RawHead(style, rs[k]))
    ensures At(d, RawOffset(style, rs, k) + 16, rs[k].data)
    ensures RawOffset(style, rs, k + 1) == RawOffset(style, rs, k) + 16 + |rs[k].data| <= |d|
  {
    hide RawHead, RawAll;
    RawSnoc(style, rs, k);
    RawPrefix(style, rs, k + 1);
    var all, upTo, one := RawAll(style, rs), RawAll(style, rs[..k]), RawHead(style, rs[k]) + rs[k].data;
    var rest := all[|upTo| + |one|..];
    assert all == upTo + (one + rest);
    AtSplit(d, 24, upTo, one + rest);
    AtSplit(d, 24 + |upTo|, one, rest);
    AtSplit(d, 24 + |upTo|, RawHead(style, rs[k]), rs[k].data);
  }

  /** The records a file holds, as loaded. */
  ghost predicate LoadsAs(d: seq<byte>, style: Style, rs: seq<Raw>, ps: seq<PcapPacket>, k: nat)
    requires k <= |rs| && At(d, 24, RawAll(style, rs))
  {
    && |ps| == k
    && forall i :: 0 <= i < k ==>
         && RawOffset(style, rs, i) + 16 + |rs[i].data| <= |d|
         && ps[i] == AsLoaded(d, style, rs[i], RawOffset(style, rs, i))
  }

  lemma {:induction false} RecordsRead(d: seq<byte>, style: Style, rs: seq<Raw>, k: nat, have: seq<PcapPacket>)
    returns (ps: seq<PcapPacket>)
    requires Storable(rs) && k <= |rs| && At(d, 24, RawAll(style, rs)) && |d| < 24 + |RawAll(style, rs)| + 16
    requires LoadsAs(d, style, rs, have, k)
    ensures RawOffset(style, rs, k) <= |d|
    ensures RecordsFrom(d, RawOffset(style, rs, k), FormatFor(style), have) == Success(ps)
    ensures LoadsAs(d, style, rs, ps, |rs|)
    decreases |rs| - k
  {
    hide RecordAt, ReadRaw, RawAll, RawHead, StripFrom;
    if k == |rs| {
      assert rs[..k] == rs;
      ps := have;
    } else {
      RecordStands(d, style, rs, k);
      var pos := RawOffset(style, rs, k);
      HeadRead(d, pos, style, rs[k]);
      ps := RecordsRead(d, style, rs, k + 1, have + [AsLoaded(d, style, rs[k], pos)]);
    }
  }

  /** Any file loads record by record, whatever fewer than sixteen bytes follow the last one. */
  lemma FileLoads(style: Style, middle: seq<byte>, upper: nat, rs: seq<Raw>, tail: seq<byte>)
    returns (ps: seq<PcapPacket>)
    requires |middle| == 16 && upper < 0x1_0000 && rs != [] && Storable(rs) && |tail| < 16
    ensures var d := FileOf(style, middle, upper, rs) + tail;
            && IsClassic(d) && At(d, 24, RawAll(style, rs))
            && ParseFile(d) == Success(ps) && LoadsAs(d, style, rs, ps, |rs|)
  {
    hide RawAll, Header, RecordsFrom, FormatOf, AsLoaded;
    var d := FileOf(style, middle, upper, rs) + tail;
    var header := Header(style, middle, upper);
    assert At(d, 0, header);
    assert At(d, 24, RawAll(style, rs));
    HeaderRead(d, style, middle, upper);
    assert RawOffset(style, rs, 0) == 24 by {
      NoRecords(style, rs);
    }
    ps := RecordsRead(d, style, rs, 0, []);
  }

  lemma NoRecords(style: Style, rs: seq<Raw>)
    ensures RawAll(style, rs[..0]) == []
  {
  }

  // ---- nothing else loads ----

  lemma Put32Found(d: seq<byte>, pos: nat, big: bool)
    requires pos + 4 <= |d|
    ensures At(d, pos, Put32(U32At(d, pos, big), big))
  {
    var a, b, c, e := d[pos] as int, d[pos + 1] as int, d[pos + 2] as int, d[pos + 3] as int;
    assert d[pos..pos + 4] == [d[pos], d[pos + 1], d[pos + 2], d[pos + 3]];
    if big {
      DigitsOf(a, b, c, e);
    } else {
      DigitsOf(e, c, b, a);
    }
  }

  lemma DigitsOf(a: nat, b: nat, c: nat, e: nat)
    requires a < 256 && b < 256 && c < 256 && e < 256
    ensures var n := a * 0x100_0000 + b * 0x1_0000 + c * 256 + e;
            n % 256 == e && n / 256 % 256 == c && n / 256 / 256 % 256 == b && n / 256 / 256 / 256 % 256 == a
  {
    var n := a * 0x100_0000 + b * 0x1_0000 + c * 256 + e;
    assert n / 256 == a * 0x1_0000 + b * 256 + c;
    assert n / 256 / 256 == a * 256 + b;
  }

  lemma AtJoin(d: seq<byte>, pos: nat, a: seq<byte>, b: seq<byte>)
    requires At(d, pos, a) && At(d, pos + |a|, b)
    ensures At(d, pos, a + b)
  {
    assert d[pos..pos + |a + b|] == d[pos..pos + |a|] + d[pos + |a|..pos + |a| + |b|];
  }

  /** The record that stands at a position. */
  function RawAt(d: seq<byte>, pos: nat, style: Style): (r: Raw)
    requires pos + 16 <= |d| && pos + 16 + U32At(d, pos + 8, style.big) <= |d|
  {
    Raw(U32At(d, pos, style.big), U32At(d, pos + 4, style.big), U32At(d, pos + 12, style.big),
        d[pos + 16..pos + 16 + U32At(d, pos + 8, style.big)])
  }

  lemma RawFound(d: seq<byte>, pos: nat, style: Style)
    requires pos + 16 <= |d| && pos + 16 + U32At(d, pos + 8, style.big) <= |d|
    ensures var r := RawAt(d, pos, style); At(d, pos, RawHead(style, r) + r.data) && |r.data| < U32
  {
    hide Put32, U32At;
    var big, r := style.big, RawAt(d, pos, style);
    Put32Found(d, pos, big);
    Put32Found(d, pos + 4, big);
    Put32Found(d, pos + 8, big);
    Put32Found(d, pos + 12, big);
    var cap, orig := Put32(|r.data|, big), Put32(r.origlen, big);
    AtJoin(d, pos + 8, cap, orig);
    AtJoin(d, pos + 4, Put32(r.frac, big), cap + orig);
    AtJoin(d, pos, Put32(r.sec, big), Put32(r.frac, big) + (cap + orig));
    AtJoin(d, pos, RawHead(style, r), r.data);
  }

  lemma {:induction false} RecordsFound(d: seq<byte>, style: Style, rs: seq<Raw>, have: seq<PcapPacket>)
    returns (all: seq<Raw>)
    requires Storable(rs) && At(d, 24, RawAll(style, rs)) && |rs| == |have|
    requires RecordsFrom(d, 24 + |RawAll(style, rs)|, FormatFor(style), have).Success?
    ensures Storable(all) && At(d, 24, RawAll(style, all)) && |d| < 24 + |RawAll(style, all)| + 16
    ensures |all| == |RecordsFrom(d, 24 + |RawAll(style, rs)|, FormatFor(style), have).value|
    decreases |d| - |RawAll(style, rs)|
  {
    hide U32At, RawHead, StripFrom;
    var pos := 24 + |RawAll(style, rs)|;
    if pos + 16 > |d| {
      all := rs;
    } else {
      RawFound(d, pos, style);
      var r := RawAt(d, pos, style);
      var more := rs + [r];
      assert more[..|rs|] == rs;
      AtJoin(d, 24, RawAll(style, rs), RawHead(style, r) + r.data);
      var p := RecordAt(d, pos, FormatFor(style));
      all := RecordsFound(d, style, more, have + [if style.mPacket then StripFrom(d, p, 0) else p]);
    }
  }

  /** On any bytes: a classic file loads exactly if it is a header and at least one record, in one of the four magics
      and with one of the two link types, and less than sixteen bytes more. */
  lemma LoadsExact(d: seq<byte>)
    ensures IsClassic(d) && ParseFile(d).Success? <==>
              exists style, middle, upper, rs, tail :: IsFile(d, style, middle, upper, rs, tail)
  {
    hide FileOf, ParseFile;
    forall style, middle, upper, rs, tail | IsFile(d, style, middle, upper, rs, tail)
      ensures IsClassic(d) && ParseFile(d).Success?
    {
      var ps := FileLoads(style, middle, upper, rs, tail);
    }
    if IsClassic(d) && ParseFile(d).Success? {
      FileFound(d);
    }
  }

  ghost predicate IsFile(d: seq<byte>, style: Style, middle: seq<byte>, upper: nat, rs: seq<Raw>, tail: seq<byte>) {
    && |middle| == 16 && upper < 0x1_0000 && rs != [] && Storable(rs) && |tail| < 16
    && d == FileOf(style, middle, upper, rs) + tail
  }

  lemma FileFound(d: seq<byte>)
    requires IsClassic(d) && ParseFile(d).Success?
    ensures exists style, middle, upper, rs, tail :: IsFile(d, style, middle, upper, rs, tail)
  {
    hide RecordsFrom, Put32, RawAll, Storable, U32At;
    var style := StyleFound(d);
    var big, f := style.big, FormatFor(style);
    var middle, upper := d[4..20], U32At(d, 20, big) / 0x1_0000;
    assert RawAll(style, []) == [] && Storable([]) by { NothingRaw(style); }
    var rs := RecordsFound(d, style, [], []);
    Put32Found(d, 20, big);
    Put32Found(d, 0, big);
    AtJoin(d, 4, middle, Put32(U32At(d, 20, big), big));
    AtJoin(d, 0, Put32(U32At(d, 0, big), big), middle + Put32(U32At(d, 20, big), big));
    var tail := d[24 + |RawAll(style, rs)|..];
    AtJoin(d, 0, Header(style, middle, upper), RawAll(style, rs));
    assert d == FileOf(style, middle, upper, rs) + tail;
    assert IsFile(d, style, middle, upper, rs, tail);
  }

  lemma NothingRaw(style: Style)
    ensures RawAll(style, []) == [] && Storable([])
  {
  }

  /** The style an accepted header tells. */
  lemma StyleFound(d: seq<byte>) returns (style: Style)
    requires IsClassic(d) && FormatOf(d).Success?
    ensures FormatOf(d) == Success(FormatFor(style)) && |d| >= 24
    ensures U32At(d, 0, style.big) == if style.nanos then 0xa1b23c4d else 0xa1b2c3d4
    ensures U32At(d, 20, style.big) ==
            (if style.mPacket then 274 else 1) + 0x1_0000 * (U32At(d, 20, style.big) / 0x1_0000)
    ensures U32At(d, 20, style.big) / 0x1_0000 < 0x1_0000
  {
    var f := FormatOf(d).value;
    style := Style(f.swap, f.nanos, f.mPacket);
    var a, b, c, e := d[0] as int, d[1] as int, d[2] as int, d[3] as int;
    SwappedBytes(a, b, c, e);
  }

  lemma SwappedBytes(a: nat, b: nat, c: nat, e: nat)
    requires a < 256 && b < 256 && c < 256 && e < 256
    ensures e * 0x100_0000 + c * 0x1_0000 + b * 256 + a == 0xd4c3b2a1 ==>
              a * 0x100_0000 + b * 0x1_0000 + c * 256 + e == 0xa1b2c3d4
    ensures e * 0x100_0000 + c * 0x1_0000 + b * 256 + a == 0x4d3cb2a1 ==>
              a * 0x100_0000 + b * 0x1_0000 + c * 256 + e == 0xa1b23c4d
  {
    var n := e * 0x100_0000 + c * 0x1_0000 + b * 256 + a;
    DigitsOf(e, c, b, a);
    if n == 0xd4c3b2a1 {
      assert a == 0xa1 && b == 0xb2 && c == 0xc3 && e == 0xd4;
    } else if n == 0x4d3cb2a1 {
      assert a == 0xa1 && b == 0xb2 && c == 0x3c && e == 0x4d;
    }
  }

  // ---- preambles ----

  /** The first `n` bytes are preamble and the next is the start of an express frame; at most sixteen are looked at. */
  predicate Leads(bytes: seq<byte>, n: nat) {
    n < |bytes| && n < 16 && bytes[n] == 0xD5 && forall i :: 0 <= i < n ==> bytes[i] == 0x55
  }

  /** Behind such a preamble the frame begins, and the original length is less by as much; anything else stays. */
  lemma StripExact(d: seq<byte>, p: PcapPacket)
    requires p.offset + p.caplen <= |d|
    ensures var bytes := d[p.offset..p.offset + p.caplen];
            && (forall n: nat :: Leads(bytes, n) ==>
                  StripFrom(d, p, 0) ==
                  PcapPacket(p.tsNanos, p.caplen - (n + 1), if p.origlen > n then p.origlen - (n + 1) else p.origlen,
                             p.offset + n + 1))
            && ((forall n: nat :: !Leads(bytes, n)) ==> StripFrom(d, p, 0) == p)
  {
    StripFromExact(d, p, 0);
  }

  lemma {:induction false} StripFromExact(d: seq<byte>, p: PcapPacket, i: nat)
    requires p.offset + p.caplen <= |d| && i <= p.caplen && i <= 16
    requires var bytes := d[p.offset..p.offset + p.caplen]; forall j :: 0 <= j < i ==> bytes[j] == 0x55
    ensures var bytes := d[p.offset..p.offset + p.caplen];
            && (forall n: nat :: Leads(bytes, n) ==>
                  StripFrom(d, p, i) ==
                  PcapPacket(p.tsNanos, p.caplen - (n + 1), if p.origlen > n then p.origlen - (n + 1) else p.origlen,
                             p.offset + n + 1))
            && ((forall n: nat :: !Leads(bytes, n)) ==> StripFrom(d, p, i) == p)
    decreases p.caplen - i
  {
    var bytes := d[p.offset..p.offset + p.caplen];
    assert i < p.caplen ==> bytes[i] == d[p.offset + i];
    if i < p.caplen && i < 16 {
      if bytes[i] == 0xD5 {
        assert Leads(bytes, i);
      } else if bytes[i] == 0x55 {
        StripFromExact(d, p, i + 1);
      }
    }
  }

  // ---- frames ----

  function Shown(d: seq<byte>, r: PcapPacket): Packet
    requires r.offset + r.caplen <= |d|
  {
    Packet(r.tsNanos, r.origlen, d[r.offset..r.offset + r.caplen])
  }

  function Preamble(n: nat): seq<byte> {
    seq(n, _ => 0x55) + [0xD5]
  }

  /** A frame as a record: its time in the file's resolution, and with `lead` bytes of preamble where there are any. */
  function RecordOf(style: Style, lead: nat, p: Packet): Raw {
    var ticks := if style.nanos then p.ts % 1_000_000_000 else p.ts % 1_000_000_000 / 1000;
    if style.mPacket then Raw(p.ts / 1_000_000_000, ticks, p.origlen + lead + 1, Preamble(lead) + p.bytes)
    else Raw(p.ts / 1_000_000_000, ticks, p.origlen, p.bytes)
  }

  /** The time rounded down to the file's resolution. */
  function Resolved(style: Style, ts: nat): nat {
    if style.nanos then ts else ts - ts % 1000
  }

  /** What one record can hold, with a preamble of at most sixteen bytes. */
  predicate Holds(style: Style, lead: nat, p: Packet) {
    && p.ts / 1_000_000_000 < U32 && |p.bytes| + lead + 1 < U32 && p.origlen + lead + 1 < U32 && lead < 16
  }

  lemma TimeRead(style: Style, ts: nat)
    requires ts / 1_000_000_000 < U32
    ensures var ticks := if style.nanos then ts % 1_000_000_000 else ts % 1_000_000_000 / 1000;
            ts / 1_000_000_000 % U32 * 1_000_000_000 + ticks % U32 * (if style.nanos then 1 else 1000) ==
              Resolved(style, ts)
  {
    var frac := ts % 1_000_000_000;
    assert ts == ts / 1_000_000_000 * 1_000_000_000 + frac;
    ThousandsSplit(ts / 1_000_000_000, frac);
  }

  lemma ThousandsSplit(sec: nat, frac: nat)
    requires frac < 1_000_000_000
    ensures (sec * 1_000_000_000 + frac) % 1000 == frac % 1000 && frac / 1000 * 1000 == frac - frac % 1000
    ensures frac / 1000 < U32
  {
    DivModUnique(sec * 1_000_000_000 + frac, 1000, sec * 1_000_000 + frac / 1000, frac % 1000);
  }

  lemma FrameShown(d: seq<byte>, style: Style, lead: nat, p: Packet, pos: nat)
    requires Holds(style, lead, p) && At(d, pos + 16, RecordOf(style, lead, p).data)
    ensures var r := AsLoaded(d, style, RecordOf(style, lead, p), pos);
            r.offset + r.caplen <= |d| && Shown(d, r) == Packet(Resolved(style, p.ts), p.origlen, p.bytes)
  {
    hide Resolved;
    TimeRead(style, p.ts);
    if style.mPacket {
      var raw := RecordOf(style, lead, p);
      var r := ReadRaw(style, raw, pos);
      AtSplit(d, pos + 16, Preamble(lead), p.bytes);
      assert d[r.offset..r.offset + r.caplen] == raw.data;
      assert Leads(raw.data, lead);
      StripExact(d, r);
    }
  }

  /** A file written from any packets, in either byte order, at either resolution, for either link type, gives them back
      one for one: bytes, original length, and the time rounded down to the resolution, so exact if and only if it is a
      multiple of that. */
  lemma CaptureReadsBack(style: Style, middle: seq<byte>, upper: nat, leads: seq<nat>, ps: seq<Packet>, tail: seq<byte>)
    requires |middle| == 16 && upper < 0x1_0000 && |tail| < 16 && ps != [] && |leads| == |ps|
    requires forall k :: 0 <= k < |ps| ==> Holds(style, leads[k], ps[k])
    ensures var rs := seq(|ps|, k requires 0 <= k < |ps| => RecordOf(style, leads[k], ps[k]));
            var d := FileOf(style, middle, upper, rs) + tail;
            && IsClassic(d) && ParseFile(d).Success? && |ParseFile(d).value| == |ps| && InFile(d, ParseFile(d).value)
            && forall k :: 0 <= k < |ps| ==>
                 && Shown(d, ParseFile(d).value[k]) == Packet(Resolved(style, ps[k].ts), ps[k].origlen, ps[k].bytes)
                 && (ParseFile(d).value[k].tsNanos == ps[k].ts <==> style.nanos || ps[k].ts % 1000 == 0)
  {
    hide FileOf, ParseFile, AsLoaded, RecordOf, Resolved, RawAll, RawHead, Holds;
    var rs := seq(|ps|, k requires 0 <= k < |ps| => RecordOf(style, leads[k], ps[k]));
    var d := FileOf(style, middle, upper, rs) + tail;
    forall r | r in rs
      ensures |r.data| < U32
    {
      var k :| 0 <= k < |rs| && r == rs[k];
      RecordStorable(style, leads[k], ps[k]);
    }
    var loaded := FileLoads(style, middle, upper, rs, tail);
    forall k | 0 <= k < |ps|
      ensures loaded[k].offset + loaded[k].caplen <= |d|
      ensures Shown(d, loaded[k]) == Packet(Resolved(style, ps[k].ts), ps[k].origlen, ps[k].bytes)
      ensures loaded[k].tsNanos == ps[k].ts <==> style.nanos || ps[k].ts % 1000 == 0
    {
      RecordStands(d, style, rs, k);
      FrameShown(d, style, leads[k], ps[k], RawOffset(style, rs, k));
      ResolvedExactly(style, ps[k].ts);
    }
    forall p | p in loaded
      ensures p.offset + p.caplen <= |d|
    {
      var k :| 0 <= k < |loaded| && p == loaded[k];
    }
  }

  lemma RecordStorable(style: Style, lead: nat, p: Packet)
    requires Holds(style, lead, p)
    ensures |RecordOf(style, lead, p).data| < U32
  {
  }

  lemma ResolvedExactly(style: Style, ts: nat)
    ensures Resolved(style, ts) == ts <==> style.nanos || ts % 1000 == 0
  {
  }
}
