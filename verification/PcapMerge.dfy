/** Merging captures into one file, reading it back, and tracing every packet to its source. */
module PcapMerge {
  import opened Wrappers
  import opened Bytes
  import opened StableSort
  import opened Pcap
  import opened CaptureFile

  const MAX_SOURCES := 0x1_0000

  predicate Fits(p: Packet) {
    p.origlen < U32 && |p.bytes| < U32
  }

  datatype Place = Place(file: nat, pkt: nat)
  type Ref = Timed<Place>
  type Sources = seq<seq<Packet>>

  /** What opening a source guarantees: it has packets, with 32-bit lengths. */
  ghost predicate Loaded(files: Sources) {
    && files != []
    && forall f :: 0 <= f < |files| ==> files[f] != [] && forall p :: p in files[f] ==> Fits(p)
  }

  // ---- collecting and ordering references ----

  function FileRefs(pkts: seq<Packet>, f: nat, n: nat): (s: seq<Ref>)
    requires n <= |pkts|
    ensures |s| == n && forall i :: 0 <= i < n ==> s[i] == Timed(pkts[i].ts, Place(f, i))
  {
    if n == 0 then [] else FileRefs(pkts, f, n - 1) + [Timed(pkts[n - 1].ts, Place(f, n - 1))]
  }

  function AllRefs(files: Sources, n: nat): seq<Ref>
    requires n <= |files|
  {
    if n == 0 then [] else AllRefs(files, n - 1) + FileRefs(files[n - 1], n - 1, |files[n - 1]|)
  }

  function Merged(files: Sources): seq<Ref> {
    Sort(AllRefs(files, |files|))
  }

  function OfFile(f: nat): Ref -> bool {
    (r: Ref) => r.item.file == f
  }

  predicate Resolves(files: Sources, r: Ref) {
    r.item.file < |files| && r.item.pkt < |files[r.item.file]| && files[r.item.file][r.item.pkt].ts == r.ts
  }

  lemma {:induction false} AllRefsResolve(files: Sources, n: nat)
    requires n <= |files|
    ensures forall r :: r in AllRefs(files, n) ==> Resolves(files, r)
  {
    if n > 0 {
      AllRefsResolve(files, n - 1);
    }
  }

  lemma MergedResolves(files: Sources)
    ensures forall r :: r in Merged(files) ==> Resolves(files, r)
  {
    var s := AllRefs(files, |files|);
    AllRefsResolve(files, |files|);
    SortSorts(s);
    forall r | r in Merged(files)
      ensures r in s
    {
      assert r in multiset(Merged(files));
    }
  }

  lemma {:induction false} FilterOwn(pkts: seq<Packet>, f: nat, n: nat, g: nat)
    requires n <= |pkts|
    ensures Filter(FileRefs(pkts, f, n), OfFile(g)) == if f == g then FileRefs(pkts, f, n) else []
  {
    if n > 0 {
      FilterOwn(pkts, f, n - 1, g);
      var last := [Timed(pkts[n - 1].ts, Place(f, n - 1))];
      FilterAppend(FileRefs(pkts, f, n - 1), last, OfFile(g));
      assert last[1..] == [];
    }
  }

  lemma {:induction false} FilterAll(files: Sources, n: nat, f: nat)
    requires n <= |files|
    ensures Filter(AllRefs(files, n), OfFile(f)) == if f < n then FileRefs(files[f], f, |files[f]|) else []
  {
    hide FileRefs, Filter, OfFile;
    if n == 0 {
      FilterNothing(OfFile(f));
    } else {
      FilterAll(files, n - 1, f);
      var last := FileRefs(files[n - 1], n - 1, |files[n - 1]|);
      FilterAppend(AllRefs(files, n - 1), last, OfFile(f));
      FilterOwn(files[n - 1], n - 1, |files[n - 1]|, f);
    }
  }

  lemma FilterNothing(p: Ref -> bool)
    ensures Filter([], p) == []
  {
  }

  /** The merge holds each source's packets, sorted among themselves exactly as a stable sort sorts that source. */
  lemma SourceInMerge(files: Sources, f: nat)
    requires f < |files|
    ensures Filter(Merged(files), OfFile(f)) == Sort(FileRefs(files[f], f, |files[f]|))
  {
    FilterSort(AllRefs(files, |files|), OfFile(f));
    FilterAll(files, |files|, f);
  }

  // ---- the merged file ----

  function RecordHead(p: Packet): (s: seq<byte>)
    ensures |s| == 16
  {
    PutLe32(p.ts / SECOND) + (PutLe32(p.ts % SECOND) + (PutLe32(|p.bytes|) + PutLe32(Max(p.origlen, |p.bytes|))))
  }

  function RecordBytes(p: Packet): seq<byte> {
    RecordHead(p) + p.bytes
  }

  function AllRecords(ps: seq<Packet>): seq<byte> {
    if ps == [] then [] else AllRecords(ps[..|ps| - 1]) + RecordBytes(ps[|ps| - 1])
  }

  function FileHeader(): (s: seq<byte>)
    ensures |s| == 24
  {
    PutLe32(MAGIC_NS) + (PutLe16(2) + PutLe16(4) + PutLe32(0) + PutLe32(0) + PutLe32(262144) + PutLe32(LINK_ETHERNET))
  }

  function MergedFile(ps: seq<Packet>): seq<byte> {
    FileHeader() + AllRecords(ps)
  }

  function SourceMap(refs: seq<Ref>): seq<byte> {
    if refs == [] then [] else SourceMap(refs[..|refs| - 1]) + PutLe16(refs[|refs| - 1].item.file % 0x1_0000)
  }

  function PacketOf(files: Sources, r: Ref): Packet
    requires Resolves(files, r)
  {
    files[r.item.file][r.item.pkt]
  }

  function PacketsOf(files: Sources, refs: seq<Ref>): (ps: seq<Packet>)
    requires forall r :: r in refs ==> Resolves(files, r)
    ensures |ps| == |refs| && forall k :: 0 <= k < |refs| ==> ps[k] == PacketOf(files, refs[k])
  {
    if refs == [] then []
    else
      assert forall r :: r in refs[..|refs| - 1] ==> r in refs;
      PacketsOf(files, refs[..|refs| - 1]) + [PacketOf(files, refs[|refs| - 1])]
  }

  datatype MergeResult = MergeResult(firstTs: nat, lastTs: nat, packets: nat, sources: nat)
  datatype Merge = Merge(capture: seq<byte>, srcMap: seq<byte>, summary: MergeResult)

  method CollectRefs(files: Sources) returns (refs: seq<Ref>)
    ensures refs == AllRefs(files, |files|)
  {
    refs := [];
    for fi := 0 to |files|
      invariant refs == AllRefs(files, fi)
    {
      ghost var before := refs;
      for pi := 0 to |files[fi]|
        invariant refs == before + FileRefs(files[fi], fi, pi)
      {
        refs := refs + [Timed(files[fi][pi].ts, Place(fi, pi))];
      }
    }
  }

  /** The merge of loaded sources: capture file, sidecar and summary. */
  function MergeOf(files: Sources): Merge
    requires files != [] && files[0] != []
  {
    var refs := Merged(files);
    MergedNonEmpty(files);
    MergedResolves(files);
    Merge(MergedFile(PacketsOf(files, refs)), SourceMap(refs),
          MergeResult(refs[0].ts, refs[|refs| - 1].ts, |refs|, |files|))
  }

  function Opened(sources: seq<Option<seq<Packet>>>): Sources
    requires forall i :: 0 <= i < |sources| ==> sources[i].Some?
  {
    seq(|sources|, i requires 0 <= i < |sources| => sources[i].value)
  }

  /** What a merge leaves on disk; the sidecar only where the caller names a file for it. */
  datatype Written = Written(capture: seq<byte>, srcMap: Option<seq<byte>>, summary: MergeResult)

  /** The only failures are an empty list, a source that cannot be loaded, and a file that cannot be written: the
      capture, or the sidecar where one is wanted. */
  method MergePcaps(sources: seq<Option<seq<Packet>>>, wantMap: bool, captureOk: bool, mapOk: bool)
      returns (r: Result<Written>)
    requires forall i :: 0 <= i < |sources| && sources[i].Some? ==> sources[i].value != []
    ensures r.Failure? <==>
            || sources == []
            || (exists i :: 0 <= i < |sources| && sources[i].None?)
            || !captureOk
            || (wantMap && !mapOk)
    ensures r.Success? ==>
              var m := MergeOf(Opened(sources));
              r.value == Written(m.capture, if wantMap then Some(m.srcMap) else None, m.summary)
  {
    hide Sort, Filter, PutLe32, PutLe16;
    if sources == [] {
      return Failure;
    }
    var files: Sources := [];
    for i := 0 to |sources|
      invariant |files| == i && forall j :: 0 <= j < i ==> sources[j] == Some(files[j])
    {
      if sources[i].None? {
        return Failure;
      }
      files := files + [sources[i].value];
    }
    assert files == Opened(sources);
    var collected := CollectRefs(files);
    var refs := Sort(collected);
    MergedNonEmpty(files);
    MergedResolves(files);
    if !captureOk {
      return Failure;
    }
    var out := WriteCapture(files, refs);
    var summary := MergeResult(refs[0].ts, refs[|refs| - 1].ts, |refs|, |files|);
    if !wantMap {
      return Success(Written(out, None, summary));
    }
    if !mapOk {
      return Failure;
    }
    var srcMap := WriteSourceMap(refs);
    r := Success(Written(out, Some(srcMap), summary));
  }

  method WriteCapture(files: Sources, refs: seq<Ref>) returns (out: seq<byte>)
    requires forall r :: r in refs ==> Resolves(files, r)
    ensures out == MergedFile(PacketsOf(files, refs))
  {
    hide PutLe32, PutLe16, MergedFile, PacketsOf;
    ghost var packets := PacketsOf(files, refs);
    out := FileHeader();
    assert out == MergedFile(packets[..0]) by {
      NothingMerged(packets);
    }
    for k := 0 to |refs|
      invariant out == MergedFile(packets[..k])
    {
      RecordsSnoc(packets, k);
      assert refs[k] in refs;
      var p := files[refs[k].item.file][refs[k].item.pkt];
      out := out + (PutLe32(p.ts / SECOND) +
                    (PutLe32(p.ts % SECOND) + (PutLe32(|p.bytes|) + PutLe32(Max(p.origlen, |p.bytes|)))));
      out := out + p.bytes;
    }
    assert packets[..|refs|] == packets;
  }

  lemma NothingMerged(ps: seq<Packet>)
    ensures MergedFile(ps[..0]) == FileHeader()
  {
    hide FileHeader;
  }

  /** Two bytes per packet. */
  method WriteSourceMap(refs: seq<Ref>) returns (srcMap: seq<byte>)
    ensures srcMap == SourceMap(refs)
  {
    hide PutLe16;
    srcMap := [];
    for k := 0 to |refs|
      invariant srcMap == SourceMap(refs[..k])
    {
      assert refs[..k + 1][..k] == refs[..k];
      srcMap := srcMap + PutLe16(refs[k].item.file % 0x1_0000);
    }
    assert refs[..|refs|] == refs;
  }

  lemma {:induction false} RefOfPacket(files: Sources, n: nat, f: nat, i: nat)
    requires f < n <= |files| && i < |files[f]|
    ensures Timed(files[f][i].ts, Place(f, i)) in AllRefs(files, n)
  {
    hide FileRefs;
    if f == n - 1 {
      assert FileRefs(files[f], f, |files[f]|)[i] == Timed(files[f][i].ts, Place(f, i));
    } else {
      RefOfPacket(files, n - 1, f, i);
    }
  }

  /** The summary's times are the least and the greatest of all packets, each of some packet. */
  lemma SummaryExact(files: Sources)
    requires Loaded(files)
    ensures var s := MergeOf(files).summary;
            && (forall f, i :: 0 <= f < |files| && 0 <= i < |files[f]| ==> s.firstTs <= files[f][i].ts <= s.lastTs)
            && (exists f, i :: 0 <= f < |files| && 0 <= i < |files[f]| && files[f][i].ts == s.firstTs)
            && (exists f, i :: 0 <= f < |files| && 0 <= i < |files[f]| && files[f][i].ts == s.lastTs)
            && s.packets == |AllRefs(files, |files|)| && s.sources == |files|
  {
    hide AllRefs, MergedFile, SourceMap, PacketsOf;
    var refs := Merged(files);
    MergedNonEmpty(files);
    MergedResolves(files);
    SortSorts(AllRefs(files, |files|));
    forall f, i | 0 <= f < |files| && 0 <= i < |files[f]|
      ensures refs[0].ts <= files[f][i].ts <= refs[|refs| - 1].ts
    {
      var r := Timed(files[f][i].ts, Place(f, i));
      RefOfPacket(files, |files|, f, i);
      assert r in multiset(AllRefs(files, |files|));
      var k :| 0 <= k < |refs| && refs[k] == r;
    }
    assert refs[0] in refs && refs[|refs| - 1] in refs;
    assert |multiset(refs)| == |refs| && |multiset(AllRefs(files, |files|))| == |AllRefs(files, |files|)|;
  }

  lemma MergedNonEmpty(files: Sources)
    requires files != [] && files[0] != []
    ensures Merged(files) != []
  {
    SourceInMerge(files, 0);
    SortSorts(FileRefs(files[0], 0, |files[0]|));
  }

  lemma RecordsSnoc(ps: seq<Packet>, k: nat)
    requires k < |ps|
    ensures MergedFile(ps[..k + 1]) == MergedFile(ps[..k]) + RecordHead(ps[k]) + ps[k].bytes
  {
    hide RecordHead, FileHeader;
    assert ps[..k + 1][..k] == ps[..k];
  }

  // ---- reading the merged file back ----

  ghost predicate AllFit(ps: seq<Packet>) {
    forall p :: p in ps ==> Fits(p)
  }

  /** The timestamp a 32-bit seconds field can carry. */
  function CarriedTs(ts: nat): nat {
    ts / SECOND % U32 * SECOND + ts % SECOND
  }

  lemma CarriedExactly(ts: nat)
    ensures CarriedTs(ts) == ts <==> ts / SECOND < U32
  {
  }

  const MERGE_STYLE := Style(false, true, false)

  /** The merge writes a packet's time in full seconds and nanoseconds, and never an original length below the
      captured. */
  function MergeRaw(p: Packet): Raw {
    Raw(p.ts / SECOND, p.ts % SECOND, Max(p.origlen, |p.bytes|), p.bytes)
  }

  function MergeRaws(ps: seq<Packet>): seq<Raw> {
    seq(|ps|, k requires 0 <= k < |ps| => MergeRaw(ps[k]))
  }

  lemma {:induction false} RecordsAreRaw(ps: seq<Packet>)
    ensures AllRecords(ps) == RawAll(MERGE_STYLE, MergeRaws(ps))
  {
    if ps != [] {
      var n := |ps| - 1;
      RecordsAreRaw(ps[..n]);
      assert MergeRaws(ps)[..n] == MergeRaws(ps[..n]);
    }
  }

  /** The merged file is one a capture writer may produce. */
  lemma MergedIsCapture(ps: seq<Packet>) returns (middle: seq<byte>)
    ensures |middle| == 16 && MergedFile(ps) == FileOf(MERGE_STYLE, middle, 0, MergeRaws(ps))
  {
    hide AllRecords, RawAll, PutLe32, PutLe16;
    middle := PutLe16(2) + PutLe16(4) + PutLe32(0) + PutLe32(0) + PutLe32(262144);
    assert FileHeader() == PutLe32(MAGIC_NS) + (middle + PutLe32(LINK_ETHERNET));
    RecordsAreRaw(ps);
  }

  /** The reader gives back the merged packets one for one: same bytes and captured length, the original length never
      below the captured one, the timestamp exact iff its seconds fit 32 bits. */
  lemma MergedFileReadsBack(ps: seq<Packet>)
    requires AllFit(ps) && ps != []
    ensures var d := MergedFile(ps); var r := ParseFile(d);
            && IsClassic(d) && r.Success? && |r.value| == |ps| && InFile(d, r.value)
            && forall k :: 0 <= k < |ps| ==>
                 && Shown(d, r.value[k]) == Packet(CarriedTs(ps[k].ts), Max(ps[k].origlen, |ps[k].bytes|), ps[k].bytes)
                 && (r.value[k].tsNanos == ps[k].ts <==> ps[k].ts / SECOND < U32)
  {
    hide MergedFile, FileOf, ParseFile, AsLoaded, RawAll, RawHead, CarriedTs;
    var d, rs := MergedFile(ps), MergeRaws(ps);
    var middle := MergedIsCapture(ps);
    assert d + [] == d;
    forall r | r in rs
      ensures |r.data| < U32
    {
      var k :| 0 <= k < |rs| && r == rs[k];
      assert Fits(ps[k]);
    }
    var loaded := FileLoads(MERGE_STYLE, middle, 0, rs, []);
    forall k | 0 <= k < |ps|
      ensures loaded[k].offset + loaded[k].caplen <= |d|
      ensures Shown(d, loaded[k]) == Packet(CarriedTs(ps[k].ts), Max(ps[k].origlen, |ps[k].bytes|), ps[k].bytes)
      ensures loaded[k].tsNanos == ps[k].ts <==> ps[k].ts / SECOND < U32
    {
      RecordStands(d, MERGE_STYLE, rs, k);
      MergeRawShown(d, ps[k], RawOffset(MERGE_STYLE, rs, k));
      CarriedExactly(ps[k].ts);
    }
    forall p | p in loaded
      ensures p.offset + p.caplen <= |d|
    {
      var k :| 0 <= k < |loaded| && p == loaded[k];
    }
  }

  lemma MergeRawShown(d: seq<byte>, p: Packet, pos: nat)
    requires Fits(p) && At(d, pos + 16, p.bytes)
    ensures var r := AsLoaded(d, MERGE_STYLE, MergeRaw(p), pos);
            && r.offset + r.caplen <= |d|
            && Shown(d, r) == Packet(CarriedTs(p.ts), Max(p.origlen, |p.bytes|), p.bytes)
  {
  }

  /** The whole merge: the file on disk reads back as the unique stable time order of all source packets. */
  lemma MergeReadsBack(files: Sources)
    requires Loaded(files)
    ensures var m := MergeOf(files); var refs := Merged(files); var r := ParseFile(m.capture);
            && IsStableSortOf(refs, AllRefs(files, |files|))
            && IsClassic(m.capture) && r.Success? && |r.value| == |refs| && InFile(m.capture, r.value)
            && (forall k :: 0 <= k < |refs| ==> Resolves(files, refs[k]))
            && forall k :: 0 <= k < |refs| ==>
                 var p := PacketOf(files, refs[k]);
                 && Shown(m.capture, r.value[k]) == Packet(CarriedTs(p.ts), Max(p.origlen, |p.bytes|), p.bytes)
                 && (r.value[k].tsNanos == p.ts <==> p.ts / SECOND < U32)
  {
    hide Merged, AllRefs, MergedFile, ParseFile, SourceMap, CarriedTs, Shown;
    var refs := Merged(files);
    assert IsStableSortOf(refs, AllRefs(files, |files|)) by {
      MergedStable(files);
    }
    MergedNonEmpty(files);
    MergedResolves(files);
    var ps := PacketsOf(files, refs);
    forall p | p in ps
      ensures Fits(p)
    {
      var k :| 0 <= k < |ps| && p == ps[k];
      assert refs[k] in refs;
    }
    MergedFileReadsBack(ps);
  }

  lemma MergedStable(files: Sources)
    ensures IsStableSortOf(Merged(files), AllRefs(files, |files|))
  {
    SortIsStable(AllRefs(files, |files|));
  }

  // ---- the sidecar and the front end's position counters ----

  /** Two bytes per packet, little-endian, as the front end's 16-bit array reads them. */
  function SourceAt(sidecar: seq<byte>, k: nat): nat
    requires 2 * k + 2 <= |sidecar|
  {
    sidecar[2 * k] as int + 256 * sidecar[2 * k + 1] as int
  }

  lemma {:induction false} SourceMapReads(refs: seq<Ref>)
    ensures |SourceMap(refs)| == 2 * |refs|
    ensures forall k :: 0 <= k < |refs| ==> SourceAt(SourceMap(refs), k) == refs[k].item.file % 0x1_0000
  {
    if refs != [] {
      var n := |refs| - 1;
      SourceMapReads(refs[..n]);
      var m := SourceMap(refs);
      forall k | 0 <= k < |refs|
        ensures SourceAt(m, k) == refs[k].item.file % 0x1_0000
      {
        if k < n {
          assert m[2 * k] == SourceMap(refs[..n])[2 * k] && m[2 * k + 1] == SourceMap(refs[..n])[2 * k + 1];
          assert SourceAt(SourceMap(refs[..n]), k) == refs[..n][k].item.file % 0x1_0000;
        }
      }
    }
  }

  function Occurrences(m: seq<nat>, s: nat): nat {
    if m == [] then 0 else Occurrences(m[..|m| - 1], s) + if m[|m| - 1] == s then 1 else 0
  }

  /** `loadSrcMap`: one running counter per source. An odd buffer is refused by the 16-bit array. */
  method LoadSrcMap(buffer: seq<byte>) returns (srcMap: seq<nat>, pos: seq<nat>)
    requires |buffer| % 2 == 0
    ensures |srcMap| == |pos| == |buffer| / 2
    ensures forall k :: 0 <= k < |srcMap| ==> srcMap[k] == SourceAt(buffer, k)
    ensures forall k :: 0 <= k < |srcMap| ==> pos[k] == Occurrences(srcMap[..k + 1], srcMap[k])
  {
    hide SourceAt;
    srcMap := seq(|buffer| / 2, k requires 0 <= k < |buffer| / 2 => SourceAt(buffer, k));
    pos := RunningCounts(srcMap);
  }

  method RunningCounts(srcMap: seq<nat>) returns (pos: seq<nat>)
    ensures |pos| == |srcMap| && forall k :: 0 <= k < |srcMap| ==> pos[k] == Occurrences(srcMap[..k + 1], srcMap[k])
  {
    pos := [];
    var counters: map<nat, nat> := map[];
    for k := 0 to |srcMap|
      invariant |pos| == k
      invariant forall s :: s in counters ==> counters[s] == Occurrences(srcMap[..k], s)
      invariant forall s :: s !in counters ==> Occurrences(srcMap[..k], s) == 0
      invariant forall j :: 0 <= j < k ==> pos[j] == Occurrences(srcMap[..j + 1], srcMap[j])
    {
      var s := srcMap[k];
      assert srcMap[..k + 1][..k] == srcMap[..k];
      counters := counters[s := (if s in counters then counters[s] else 0) + 1];
      pos := pos + [counters[s]];
    }
  }

  /** The k-th sidecar entry and the front end's position for it, as functions of the merge. */
  function SourceOf(refs: seq<Ref>, k: nat): nat
    requires k < |refs|
  {
    refs[k].item.file % 0x1_0000
  }

  function Sources16(refs: seq<Ref>): (m: seq<nat>)
    ensures |m| == |refs| && forall k :: 0 <= k < |refs| ==> m[k] == SourceOf(refs, k)
  {
    seq(|refs|, k requires 0 <= k < |refs| => SourceOf(refs, k))
  }

  function OrigPos(refs: seq<Ref>, k: nat): nat
    requires k < |refs|
  {
    Occurrences(Sources16(refs)[..k + 1], SourceOf(refs, k))
  }

  /** Loading the sidecar of a merge yields these two columns. */
  lemma SidecarLoads(refs: seq<Ref>, srcMap: seq<nat>, pos: seq<nat>)
    requires |srcMap| == |pos| == |SourceMap(refs)| / 2
    requires |SourceMap(refs)| == 2 * |refs|
    requires forall k :: 0 <= k < |srcMap| ==> srcMap[k] == SourceAt(SourceMap(refs), k)
    requires forall k :: 0 <= k < |srcMap| ==> pos[k] == Occurrences(srcMap[..k + 1], srcMap[k])
    ensures srcMap == Sources16(refs) && forall k :: 0 <= k < |refs| ==> pos[k] == OrigPos(refs, k)
  {
    hide SourceMap, SourceAt;
    SourceMapReads(refs);
    assert srcMap == Sources16(refs);
  }

  lemma {:induction false} CountsFilter(refs: seq<Ref>, k: nat, f: nat)
    requires k <= |refs| && forall r :: r in refs ==> r.item.file < MAX_SOURCES
    ensures Occurrences(Sources16(refs)[..k], f) == |Filter(refs[..k], OfFile(f))|
  {
    if k > 0 {
      CountsFilter(refs, k - 1, f);
      assert Sources16(refs)[..k][..k - 1] == Sources16(refs)[..k - 1];
      assert refs[..k] == refs[..k - 1] + [refs[k - 1]];
      FilterAppend(refs[..k - 1], [refs[k - 1]], OfFile(f));
      assert [refs[k - 1]][1..] == [];
      assert refs[k - 1] in refs;
    }
  }

  ghost predicate SourceOrdered(pkts: seq<Packet>) {
    forall i, j :: 0 <= i < j < |pkts| ==> pkts[i].ts <= pkts[j].ts
  }

  /** Packet k of the merge is packet `OrigPos - 1` of source `SourceOf`. */
  ghost predicate Traced(refs: seq<Ref>, k: nat)
    requires k < |refs|
  {
    refs[k].item == Place(SourceOf(refs, k), OrigPos(refs, k) - 1)
  }

  lemma FewFiles(files: Sources)
    requires |files| <= MAX_SOURCES
    ensures forall r :: r in Merged(files) ==> r.item.file < MAX_SOURCES
  {
    MergedResolves(files);
  }

  lemma OrderedSourceKept(files: Sources, f: nat)
    requires f < |files| && SourceOrdered(files[f])
    ensures Filter(Merged(files), OfFile(f)) == FileRefs(files[f], f, |files[f]|)
  {
    SourceInMerge(files, f);
    SortOfSorted(FileRefs(files[f], f, |files[f]|));
  }

  lemma TracedWhenOrdered(files: Sources, k: nat)
    requires |files| <= MAX_SOURCES && forall f :: 0 <= f < |files| ==> SourceOrdered(files[f])
    requires k < |Merged(files)|
    ensures Traced(Merged(files), k)
  {
    hide Sort, Filter;
    var refs := Merged(files);
    var f := refs[k].item.file;
    FewFiles(files);
    MergedResolves(files);
    assert refs[k] in refs;
    CountsFilter(refs, k + 1, f);
    FilterPosition(refs, OfFile(f), k);
    OrderedSourceKept(files, f);
  }

  lemma OrderedWhenTraced(files: Sources, f: nat)
    requires |files| <= MAX_SOURCES && f < |files|
    requires forall k :: 0 <= k < |Merged(files)| ==> Traced(Merged(files), k)
    ensures SourceOrdered(files[f])
  {
    hide Sort, Filter;
    var refs := Merged(files);
    var own := FileRefs(files[f], f, |files[f]|);
    SourceInMerge(files, f);
    SortSorts(own);
    var s := Sort(own);
    forall j | 0 <= j < |s|
      ensures s[j].ts == files[f][j].ts
    {
      var k := FilterSource(refs, OfFile(f), j);
      FewFiles(files);
      MergedResolves(files);
      assert refs[k] in refs;
      CountsFilter(refs, k + 1, f);
      assert Traced(refs, k);
    }
  }

  /** The 65537th source is recorded as source 0. */
  lemma UntracedFile(files: Sources) returns (k: nat)
    requires |files| > MAX_SOURCES && files[MAX_SOURCES] != []
    ensures k < |Merged(files)| && !Traced(Merged(files), k)
  {
    SourceInMerge(files, MAX_SOURCES);
    SortSorts(FileRefs(files[MAX_SOURCES], MAX_SOURCES, |files[MAX_SOURCES]|));
    k := FilterSource(Merged(files), OfFile(MAX_SOURCES), 0);
  }

  /** Sidecar and counters identify every merged packet's origin if and only if there are at most 65536 sources and each
      is ordered in time. */
  lemma ProvenanceExact(files: Sources)
    requires forall f :: 0 <= f < |files| ==> files[f] != []
    ensures (forall k :: 0 <= k < |Merged(files)| ==> Traced(Merged(files), k))
       <==> |files| <= MAX_SOURCES && forall f :: 0 <= f < |files| ==> SourceOrdered(files[f])
  {
    hide Merged, Traced, SourceOrdered;
    if forall k :: 0 <= k < |Merged(files)| ==> Traced(Merged(files), k) {
      if |files| > MAX_SOURCES {
        var k := UntracedFile(files);
      }
      forall f | 0 <= f < |files|
        ensures SourceOrdered(files[f])
      {
        OrderedWhenTraced(files, f);
      }
    } else if |files| <= MAX_SOURCES && forall f :: 0 <= f < |files| ==> SourceOrdered(files[f]) {
      forall k | 0 <= k < |Merged(files)|
        ensures Traced(Merged(files), k)
      {
        TracedWhenOrdered(files, k);
      }
    }
  }
}
