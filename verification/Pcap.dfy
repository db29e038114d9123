/** Classic capture files: the reader (all four magics, both link types) and the merge writer's records. */
module Pcap {
  import opened Wrappers
  import opened Bytes

  const U32 := 0x1_0000_0000
  const SECOND := 1_000_000_000

  const MAGIC_US := 0xa1b2c3d4
  const MAGIC_US_SWAP := 0xd4c3b2a1
  const MAGIC_NS := 0xa1b23c4d
  const MAGIC_NS_SWAP := 0x4d3cb2a1
  const LINK_ETHERNET := 1
  const LINK_MPACKET := 274

  /** A record of a loaded file: `offset` points into the file's bytes. */
  datatype PcapPacket = PcapPacket(tsNanos: nat, caplen: nat, origlen: nat, offset: nat)

  /** The low 32 bits, least significant byte first. */
  function PutLe32(n: nat): (s: seq<byte>)
    ensures |s| == 4
  {
    var n1 := n / 256;
    var n2 := n1 / 256;
    var n3 := n2 / 256;
    [n % 256, n1 % 256, n2 % 256, n3 % 256]
  }

  function PutLe16(n: nat): (s: seq<byte>)
    ensures |s| == 2
  {
    [n % 256, n / 256 % 256]
  }

  /** A 32-bit field: host order, or byte-swapped. */
  function U32At(d: seq<byte>, pos: nat, swap: bool): (n: nat)
    requires pos + 4 <= |d|
    ensures n < U32
  {
    var a, b, c, e := d[pos] as int, d[pos + 1] as int, d[pos + 2] as int, d[pos + 3] as int;
    if swap then a * 0x100_0000 + b * 0x1_0000 + c * 256 + e else e * 0x100_0000 + c * 0x1_0000 + b * 256 + a
  }

  lemma Le32RoundTrip(d: seq<byte>, pos: nat, n: nat)
    requires At(d, pos, PutLe32(n))
    ensures U32At(d, pos, false) == n % U32
  {
    var s := d[pos..pos + 4];
    assert s[0] == d[pos] && s[1] == d[pos + 1] && s[2] == d[pos + 2] && s[3] == d[pos + 3];
    Le32Digits(n);
  }

  lemma Le32Digits(n: nat)
    ensures var n1 := n / 256; var n2 := n1 / 256; var n3 := n2 / 256;
            n3 % 256 * 0x100_0000 + n2 % 256 * 0x1_0000 + n1 % 256 * 256 + n % 256 == n % U32
  {
    var n1 := n / 256;
    var n2 := n1 / 256;
    var n3 := n2 / 256;
    DivModUnique(n, U32, n3 / 256, n3 % 256 * 0x100_0000 + n2 % 256 * 0x1_0000 + n1 % 256 * 256 + n % 256);
  }

  // ---- reading: the specification ----

  /** Preamble stripping of an 802.3br record: at most 16 bytes are looked at. */
  function StripFrom(d: seq<byte>, p: PcapPacket, i: nat): PcapPacket
    requires p.offset + p.caplen <= |d| && i <= p.caplen
    decreases p.caplen - i
  {
    if i >= p.caplen || i >= 16 then p
    else if d[p.offset + i] == 0xD5 then
      PcapPacket(p.tsNanos, p.caplen - (i + 1), if p.origlen > i then p.origlen - (i + 1) else p.origlen,
                 p.offset + i + 1)
    else if d[p.offset + i] != 0x55 then p
    else StripFrom(d, p, i + 1)
  }

  datatype Format = Format(swap: bool, nanos: bool, mPacket: bool)

  function RecordAt(d: seq<byte>, pos: nat, f: Format): (p: PcapPacket)
    requires pos + 16 <= |d|
    ensures p.caplen < U32 && p.offset == pos + 16
  {
    var frac := U32At(d, pos + 4, f.swap);
    PcapPacket(U32At(d, pos, f.swap) * SECOND + if f.nanos then frac else frac * 1000,
               U32At(d, pos + 8, f.swap), U32At(d, pos + 12, f.swap), pos + 16)
  }

  /** The record loop with `have` packets already read. */
  function RecordsFrom(d: seq<byte>, pos: nat, f: Format, have: seq<PcapPacket>): Result<seq<PcapPacket>>
    requires pos <= |d|
    decreases |d| - pos
  {
    if pos + 16 > |d| then Success(have)
    else
      var p := RecordAt(d, pos, f);
      if p.offset + p.caplen > |d| then Failure
      else RecordsFrom(d, p.offset + p.caplen, f, have + [if f.mPacket then StripFrom(d, p, 0) else p])
  }

  function FormatOf(d: seq<byte>): Result<Format>
    requires |d| >= 4
  {
    var magic := U32At(d, 0, false);
    var swap := magic == MAGIC_US_SWAP || magic == MAGIC_NS_SWAP;
    if |d| < 24 then Failure
    else
      var link := U32At(d, 20, swap) % 0x1_0000;
      if link != LINK_ETHERNET && link != LINK_MPACKET then Failure
      else Success(Format(swap, magic == MAGIC_NS || magic == MAGIC_NS_SWAP, link == LINK_MPACKET))
  }

  predicate IsClassic(d: seq<byte>) {
    |d| >= 4 && U32At(d, 0, false) in {MAGIC_US, MAGIC_US_SWAP, MAGIC_NS, MAGIC_NS_SWAP}
  }

  function ParseFile(d: seq<byte>): Result<seq<PcapPacket>>
    requires |d| >= 4
  {
    var f :- FormatOf(d);
    var packets :- RecordsFrom(d, 24, f, []);
    if packets == [] then Failure else Success(packets)
  }

  ghost predicate InFile(d: seq<byte>, ps: seq<PcapPacket>) {
    forall p :: p in ps ==> p.offset + p.caplen <= |d|
  }

  // ---- the reader ----

  class Cursor {
    const data: seq<byte>
    var pos: nat

    constructor (data: seq<byte>)
      ensures this.data == data && pos == 0
    {
      this.data := data;
      pos := 0;
    }

    predicate Need(n: nat)
      reads this
    {
      pos + n <= |data|
    }

    method Seek(p: nat)
      modifies `pos
      ensures pos == p
    {
      pos := p;
    }

    method Skip(n: nat) returns (ok: bool)
      modifies `pos
      ensures ok == old(Need(n)) && pos == if ok then old(pos) + n else old(pos)
    {
      ok := Need(n);
      if ok {
        pos := pos + n;
      }
    }

    method ReadU32(swap: bool) returns (v: Option<nat>)
      modifies `pos
      ensures v == if old(Need(4)) then Some(U32At(data, old(pos), swap)) else None
      ensures pos == if v.Some? then old(pos) + 4 else old(pos)
    {
      if !Need(4) {
        return None;
      }
      v := Some(U32At(data, pos, swap));
      pos := pos + 4;
    }
  }

  method StripMPacketPreamble(p: PcapPacket, d: seq<byte>) returns (q: PcapPacket)
    requires p.offset + p.caplen <= |d|
    ensures q == StripFrom(d, p, 0) && q.offset + q.caplen == p.offset + p.caplen
  {
    var lim := if p.caplen < 16 then p.caplen else 16;
    for i := 0 to lim
      invariant StripFrom(d, p, 0) == StripFrom(d, p, i)
    {
      if d[p.offset + i] == 0xD5 {
        return PcapPacket(p.tsNanos, p.caplen - (i + 1), if p.origlen > i then p.origlen - (i + 1) else p.origlen,
                          p.offset + i + 1);
      }
      if d[p.offset + i] != 0x55 {
        return p;
      }
    }
    q := p;
  }

  method ReadHeader(c: Cursor) returns (r: Result<Format>)
    requires IsClassic(c.data) && c.pos == 0
    modifies c`pos
    ensures r == FormatOf(c.data) && (r.Success? ==> c.pos == 24 <= |c.data|)
  {
    hide U32At;
    var magic := U32At(c.data, 0, false);
    var swap := magic == MAGIC_US_SWAP || magic == MAGIC_NS_SWAP;
    var nanos := magic == MAGIC_NS || magic == MAGIC_NS_SWAP;
    c.Seek(4);
    var versions := c.ReadU32(swap); // two 16-bit version fields
    var thiszone := c.ReadU32(swap);
    var sigfigs := c.ReadU32(swap);
    var snaplen := c.ReadU32(swap);
    var network := c.ReadU32(swap);
    if network.None? {
      return Failure;
    }
    var link := network.value % 0x1_0000;
    if link != LINK_ETHERNET && link != LINK_MPACKET {
      return Failure;
    }
    r := Success(Format(swap, nanos, link == LINK_MPACKET));
  }

  method ReadRecord(c: Cursor, f: Format) returns (p: PcapPacket)
    requires c.Need(16)
    modifies c`pos
    ensures p == RecordAt(c.data, old(c.pos), f) && c.pos == old(c.pos) + 16
  {
    hide U32At;
    var tsSec := c.ReadU32(f.swap);
    var tsFrac := c.ReadU32(f.swap);
    var caplen := c.ReadU32(f.swap);
    var origlen := c.ReadU32(f.swap);
    p := PcapPacket(tsSec.value * SECOND + if f.nanos then tsFrac.value else tsFrac.value * 1000,
                    caplen.value, origlen.value, c.pos);
  }

  /** Every packet of an accepted file lies inside it. */
  method ParseClassic(d: seq<byte>) returns (r: Result<seq<PcapPacket>>)
    requires IsClassic(d)
    ensures r == ParseFile(d)
    ensures r.Success? ==> r.value != [] && InFile(d, r.value)
  {
    hide U32At, RecordAt, FormatOf, StripFrom;
    var c := new Cursor(d);
    var f :- ReadHeader(c);
    var packets: seq<PcapPacket> := [];
    while c.Need(16)
      invariant 24 <= c.pos <= |d| && InFile(d, packets)
      invariant RecordsFrom(d, 24, f, []) == RecordsFrom(d, c.pos, f, packets)
      decreases |d| - c.pos
    {
      var p := ReadRecord(c, f);
      if !c.Need(p.caplen) {
        return Failure;
      }
      var skipped := c.Skip(p.caplen);
      if f.mPacket {
        p := StripMPacketPreamble(p, d);
      }
      packets := packets + [p];
    }
    r := if packets == [] then Failure else Success(packets);
  }
}
