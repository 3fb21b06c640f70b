/**
  Where CreateShaderBinary puts things: the sizing pass, the cursor of the two
  placement passes, and how the two relate.
 */
module ShaderLayout {
  import opened Alignment
  import opened Bytes

  datatype SectionType = GpuCode | AsmDump | PerfStats | Reflection | DebugInfo

  /** One section header of a GLSLCoutput; the offsets are into the whole output. */
  datatype Section = Section(
    kind: SectionType, size: u32, base: u32,
    controlOffset: u32, controlSize: u32,
    codeOffset: u32, codeSize: u32)
  {
    predicate Gpu() { kind.GpuCode? }
    /** What glslc promises of a GPU-code section. */
    predicate WellSized() { Gpu() ==> controlSize + codeSize <= size }
  }

  const HEADER_SIZE: nat := 0x10

  ghost predicate WellSized(ss: seq<Section>) {
    forall i :: 0 <= i < |ss| ==> ss[i].WellSized()
  }

  /** The sizing loop after `i` sections. */
  function SizeFold(ss: seq<Section>, i: nat): nat
    requires i <= |ss|
  {
    if i == 0 then 0
    else if ss[i - 1].Gpu() then Sector(SizeFold(ss, i - 1) + ss[i - 1].size)
    else SizeFold(ss, i - 1)
  }

  function BinarySize(ss: seq<Section>): nat {
    Page(SizeFold(ss, |ss|) + 0x1000)
  }

  /** The cursor, on unbounded integers, when the control loop reaches section `i`. */
  function ControlPos(ss: seq<Section>, i: nat): nat
    requires i <= |ss|
  {
    if i == 0 then HEADER_SIZE
    else if ss[i - 1].Gpu() then Sector(ControlPos(ss, i - 1) + ss[i - 1].controlSize)
    else ControlPos(ss, i - 1)
  }

  /** The cursor, on unbounded integers, when the data loop reaches section `i`. */
  function DataPos(ss: seq<Section>, i: nat): nat
    requires i <= |ss|
  {
    if i == 0 then ControlPos(ss, |ss|)
    else if ss[i - 1].Gpu() then Sector(DataPos(ss, i - 1) + ss[i - 1].codeSize)
    else DataPos(ss, i - 1)
  }

  function EndPos(ss: seq<Section>): nat {
    DataPos(ss, |ss|)
  }

  function GpuCount(ss: seq<Section>): (n: nat)
    ensures n <= |ss|
  {
    if ss == [] then 0
    else GpuCount(ss[..|ss| - 1]) + (if ss[|ss| - 1].Gpu() then 1 else 0)
  }

  // ---- The sizing pass ------------------------------------------------------

  function AlignedSize(s: Section): nat {
    if s.Gpu() then Sector(s.size) else 0
  }

  function SumAligned(ss: seq<Section>): nat {
    if ss == [] then 0 else SumAligned(ss[..|ss| - 1]) + AlignedSize(ss[|ss| - 1])
  }

  /** The running align-up is the sum of the individually aligned sizes. */
  lemma {:induction false} SizeFoldIsSum(ss: seq<Section>, i: nat)
    requires i <= |ss|
    ensures SizeFold(ss, i) == SumAligned(ss[..i]) && SizeFold(ss, i) % 0x100 == 0
  {
    if i > 0 {
      SizeFoldIsSum(ss, i - 1);
      assert ss[..i][..i - 1] == ss[..i - 1];
      SectorAfterAligned(SizeFold(ss, i - 1), ss[i - 1].size);
    }
  }

  lemma {:induction false} SumAlignedConcat(a: seq<Section>, b: seq<Section>)
    ensures SumAligned(a + b) == SumAligned(a) + SumAligned(b)
  {
    if b == [] {
      assert a + b == a;
    } else {
      var n := |a + b|;
      assert (a + b)[..n - 1] == a + b[..|b| - 1] && (a + b)[n - 1] == b[|b| - 1];
      SumAlignedConcat(a, b[..|b| - 1]);
    }
  }

  lemma SumAlignedSnoc(a: seq<Section>, s: Section)
    ensures SumAligned(a + [s]) == SumAligned(a) + AlignedSize(s)
  {
    assert (a + [s])[..|a|] == a;
  }

  lemma SumAlignedAround(a: seq<Section>, s: Section, c: seq<Section>)
    ensures SumAligned(a + [s] + c) == SumAligned(a + c) + AlignedSize(s)
  {
    SumAlignedConcat(a, c);
    SumAlignedSnoc(a, s);
    SumAlignedConcat(a + [s], c);
  }

  /** Where `s` sits in a permutation of `rest` and `s`; taking it out leaves a permutation of `rest`. */
  lemma Around(rest: seq<Section>, s: Section, b: seq<Section>) returns (front: seq<Section>, back: seq<Section>)
    requires multiset(rest + [s]) == multiset(b)
    ensures b == front + [s] + back && multiset(front + back) == multiset(rest)
  {
    assert s in multiset(rest + [s]);
    var j :| 0 <= j < |b| && b[j] == s;
    front, back := b[..j], b[j + 1..];
    assert b == front + [s] + back;
    assert multiset(b) == multiset(front + back) + multiset{s};
    assert multiset(rest + [s]) == multiset(rest) + multiset{s};
    assert multiset(front + back) == multiset(b) - multiset{s};
  }

  lemma PermutedStep(rest: seq<Section>, s: Section, front: seq<Section>, back: seq<Section>)
    requires SumAligned(rest) == SumAligned(front + back)
    ensures SumAligned(rest + [s]) == SumAligned(front + [s] + back)
  {
    SumAlignedSnoc(rest, s);
    SumAlignedAround(front, s, back);
  }

  lemma {:induction false} SumAlignedPermuted(a: seq<Section>, b: seq<Section>)
    requires multiset(a) == multiset(b)
    ensures SumAligned(a) == SumAligned(b)
    decreases |a|
  {
    if a == [] {
      assert |b| == |multiset(b)| == 0;
    } else {
      var rest, s := a[..|a| - 1], a[|a| - 1];
      assert a == rest + [s];
      var front, back := Around(rest, s, b);
      SumAlignedPermuted(rest, front + back);
      PermutedStep(rest, s, front, back);
    }
  }

  lemma BinarySizeIsSum(ss: seq<Section>)
    ensures BinarySize(ss) == Page(SumAligned(ss) + 0x1000)
  {
    SizeFoldIsSum(ss, |ss|);
    assert ss[..|ss|] == ss;
  }

  /** The allocation does not depend on the order in which glslc lists the sections. */
  lemma BinarySizeOrderIndependent(ss: seq<Section>, tt: seq<Section>)
    requires multiset(ss) == multiset(tt)
    ensures BinarySize(ss) == BinarySize(tt)
  {
    BinarySizeIsSum(ss);
    BinarySizeIsSum(tt);
    SumAlignedPermuted(ss, tt);
  }

  function OnlyGpu(ss: seq<Section>): (r: seq<Section>) {
    if ss == [] then []
    else OnlyGpu(ss[..|ss| - 1]) + (if ss[|ss| - 1].Gpu() then [ss[|ss| - 1]] else [])
  }

  lemma {:induction false} OnlyGpuSameSum(ss: seq<Section>)
    ensures SumAligned(OnlyGpu(ss)) == SumAligned(ss)
  {
    if ss != [] {
      var last := ss[|ss| - 1];
      OnlyGpuSameSum(ss[..|ss| - 1]);
      SumAlignedConcat(OnlyGpu(ss[..|ss| - 1]), if last.Gpu() then [last] else []);
      assert SumAligned([last]) == AlignedSize(last) by { assert [last][..0] == []; }
    }
  }

  /** Sections that are not GPU code cost nothing, and the size is whole pages, at least one. */
  lemma BinarySizeShape(ss: seq<Section>)
    ensures BinarySize(ss) == BinarySize(OnlyGpu(ss))
    ensures BinarySize(ss) % 0x1000 == 0 && BinarySize(ss) >= 0x1000
  {
    BinarySizeIsSum(ss);
    BinarySizeIsSum(OnlyGpu(ss));
    OnlyGpuSameSum(ss);
  }

  /** The sizes that the GPU-code headers declare, as they are. */
  function DeclaredSize(ss: seq<Section>): nat {
    if ss == [] then 0
    else DeclaredSize(ss[..|ss| - 1]) + (if ss[|ss| - 1].Gpu() then ss[|ss| - 1].size else 0)
  }

  lemma {:induction false} SumAlignedBounds(ss: seq<Section>)
    ensures DeclaredSize(ss) <= SumAligned(ss) <= DeclaredSize(ss) + 0xFF * GpuCount(ss)
  {
    if ss != [] { SumAlignedBounds(ss[..|ss| - 1]); }
  }

  /** The allocation holds all declared sizes and a page; it wastes less than a sector per section and a page. */
  lemma BinarySizeBounds(ss: seq<Section>)
    ensures DeclaredSize(ss) + 0x1000 <= BinarySize(ss) < DeclaredSize(ss) + 0xFF * GpuCount(ss) + 0x2000
  {
    BinarySizeIsSum(ss);
    SumAlignedBounds(ss);
  }

  // ---- Order of the cursor --------------------------------------------------

  lemma {:induction false} ControlPosMonotone(ss: seq<Section>, i: nat, j: nat)
    requires i <= j <= |ss|
    ensures HEADER_SIZE <= ControlPos(ss, i) <= ControlPos(ss, j)
    decreases j
  {
    if i < j {
      ControlPosMonotone(ss, i, j - 1);
    } else if i > 0 {
      ControlPosMonotone(ss, i - 1, i - 1);
    }
  }

  lemma {:induction false} DataPosMonotone(ss: seq<Section>, i: nat, j: nat)
    requires i <= j <= |ss|
    ensures ControlPos(ss, |ss|) <= DataPos(ss, i) <= DataPos(ss, j)
    decreases j
  {
    if i < j {
      DataPosMonotone(ss, i, j - 1);
    } else if i > 0 {
      DataPosMonotone(ss, i - 1, i - 1);
    }
  }

  // ---- Segments ---------------------------------------------------------------

  /** A placed segment: the control or the data of section `i`. */
  datatype Segment = Control(i: nat) | Data(i: nat)

  predicate IsSegment(ss: seq<Section>, g: Segment) {
    g.i < |ss| && ss[g.i].Gpu()
  }

  function Start(ss: seq<Section>, g: Segment): nat
    requires IsSegment(ss, g)
  {
    match g
    case Control(i) => ControlPos(ss, i)
    case Data(i) => DataPos(ss, i)
  }

  function Length(ss: seq<Section>, g: Segment): nat
    requires IsSegment(ss, g)
  {
    match g
    case Control(i) => ss[i].controlSize
    case Data(i) => ss[i].codeSize
  }

  function Stop(ss: seq<Section>, g: Segment): nat
    requires IsSegment(ss, g)
  {
    Start(ss, g) + Length(ss, g)
  }

  /** Placement order: all control segments by section, then all data segments by section. */
  predicate Before(g: Segment, h: Segment) {
    match (g, h)
    case (Control(i), Control(j)) => i < j
    case (Data(i), Data(j)) => i < j
    case (Control(_), Data(_)) => true
    case (Data(_), Control(_)) => false
  }

  /**
    An earlier segment ends where a later one starts or before; so segments never
    overlap, none touches the header, and starts grow strictly past a non-empty one.
   */
  lemma SegmentsInOrder(ss: seq<Section>, g: Segment, h: Segment)
    requires IsSegment(ss, g) && IsSegment(ss, h) && Before(g, h)
    ensures HEADER_SIZE <= Start(ss, g) && Stop(ss, g) <= Start(ss, h)
    ensures Length(ss, g) > 0 ==> Start(ss, g) < Start(ss, h)
  {
    SegmentAfterHeader(ss, g);
    match (g, h)
    case (Control(i), Control(j)) => ControlPosMonotone(ss, i + 1, j);
    case (Data(i), Data(j)) => DataPosMonotone(ss, i + 1, j);
    case (Control(i), Data(j)) =>
      ControlPosMonotone(ss, i + 1, |ss|);
      DataPosMonotone(ss, 0, j);
  }

  lemma SegmentAfterHeader(ss: seq<Section>, g: Segment)
    requires IsSegment(ss, g)
    ensures HEADER_SIZE <= Start(ss, g)
  {
    ControlPosMonotone(ss, 0, if g.Control? then g.i else |ss|);
    DataPosMonotone(ss, 0, if g.Data? then g.i else 0);
  }

  /** No segment is placed between the two. */
  ghost predicate Adjacent(ss: seq<Section>, g: Segment, h: Segment) {
    && IsSegment(ss, g) && IsSegment(ss, h) && Before(g, h)
    && forall k | IsSegment(ss, k) :: !(Before(g, k) && Before(k, h))
  }

  lemma {:induction false} ControlPosStays(ss: seq<Section>, i: nat, j: nat)
    requires i <= j <= |ss| && forall k | i <= k < j :: !ss[k].Gpu()
    ensures ControlPos(ss, j) == ControlPos(ss, i)
  {
    if i < j { ControlPosStays(ss, i, j - 1); }
  }

  lemma {:induction false} DataPosStays(ss: seq<Section>, i: nat, j: nat)
    requires i <= j <= |ss| && forall k | i <= k < j :: !ss[k].Gpu()
    ensures DataPos(ss, j) == DataPos(ss, i)
  {
    if i < j { DataPosStays(ss, i, j - 1); }
  }

  /** A segment starts less than 0x100 bytes behind the one before it. */
  lemma NoSectorWasted(ss: seq<Section>, g: Segment, h: Segment)
    requires Adjacent(ss, g, h)
    ensures Stop(ss, g) <= Start(ss, h) < Stop(ss, g) + 0x100
  {
    match (g, h)
    case (Control(i), Control(j)) =>
      forall k | i < k < j ensures !ss[k].Gpu() { assert Before(g, Control(k)) && Before(Control(k), h); }
      ControlPosStays(ss, i + 1, j);
    case (Data(i), Data(j)) =>
      forall k | i < k < j ensures !ss[k].Gpu() { assert Before(g, Data(k)) && Before(Data(k), h); }
      DataPosStays(ss, i + 1, j);
    case (Control(i), Data(j)) =>
      forall k | i < k < |ss| ensures !ss[k].Gpu() { assert Before(g, Control(k)) && Before(Control(k), h); }
      forall k | 0 <= k < j ensures !ss[k].Gpu() { assert Before(g, Data(k)) && Before(Data(k), h); }
      ControlPosStays(ss, i + 1, |ss|);
      DataPosStays(ss, 0, j);
  }

  lemma {:induction false} ControlPosAligned(ss: seq<Section>, i: nat)
    requires i <= |ss|
    ensures ControlPos(ss, i) % 0x100 == 0 || (ControlPos(ss, i) == HEADER_SIZE && GpuCount(ss[..i]) == 0)
  {
    if i > 0 {
      ControlPosAligned(ss, i - 1);
      assert ss[..i][..i - 1] == ss[..i - 1];
    }
  }

  lemma {:induction false} GpuCountPositive(ss: seq<Section>, i: nat)
    requires i < |ss| && ss[i].Gpu()
    ensures GpuCount(ss) > 0
  {
    if i < |ss| - 1 { GpuCountPositive(ss[..|ss| - 1], i); }
  }

  lemma {:induction false} DataPosAligned(ss: seq<Section>, i: nat)
    requires i <= |ss| && GpuCount(ss) > 0
    ensures DataPos(ss, i) % 0x100 == 0
  {
    if i == 0 {
      ControlPosAligned(ss, |ss|);
      assert ss[..|ss|] == ss;
    } else {
      DataPosAligned(ss, i - 1);
    }
  }

  /** Every segment starts on a 0x100 boundary, except the first control segment, which starts at 0x10. */
  lemma SegmentAlignment(ss: seq<Section>, g: Segment)
    requires IsSegment(ss, g)
    ensures Start(ss, g) % 0x100 == 0 <==> g.Data? || GpuCount(ss[..g.i]) > 0
    ensures g.Control? && GpuCount(ss[..g.i]) == 0 ==> Start(ss, g) == HEADER_SIZE
  {
    GpuCountPositive(ss, g.i);
    DataPosAligned(ss, g.i);
    ControlPosAligned(ss, g.i);
    if g.Control? && GpuCount(ss[..g.i]) == 0 { NoGpuNoMove(ss, g.i); }
  }

  lemma {:induction false} NoGpuNoMove(ss: seq<Section>, i: nat)
    requires i <= |ss| && GpuCount(ss[..i]) == 0
    ensures ControlPos(ss, i) == HEADER_SIZE
  {
    if i > 0 {
      assert ss[..i][..i - 1] == ss[..i - 1];
      NoGpuNoMove(ss, i - 1);
    }
  }

  // ---- The packer fits ----------------------------------------------------------

  /** Aligned control bytes, aligned data bytes, of the first `i` sections. */
  function ControlSum(ss: seq<Section>, i: nat): nat
    requires i <= |ss|
  {
    if i == 0 then 0
    else ControlSum(ss, i - 1) + (if ss[i - 1].Gpu() then Sector(ss[i - 1].controlSize) else 0)
  }

  function DataSum(ss: seq<Section>, i: nat): nat
    requires i <= |ss|
  {
    if i == 0 then 0
    else DataSum(ss, i - 1) + (if ss[i - 1].Gpu() then Sector(ss[i - 1].codeSize) else 0)
  }

  /** One step of the cursor, measured in sectors. */
  lemma AdvanceBound(pos: nat, size: nat)
    ensures Sector(Sector(pos + size)) <= Sector(pos) + Sector(size)
  {
    SectorSubadditive(pos, size);
    SectorAfterAligned(Sector(pos + size), 0);
  }

  lemma {:induction false} ControlPosBound(ss: seq<Section>, i: nat)
    requires i <= |ss|
    ensures Sector(ControlPos(ss, i)) <= 0x100 + ControlSum(ss, i)
  {
    if i > 0 {
      ControlPosBound(ss, i - 1);
      AdvanceBound(ControlPos(ss, i - 1), ss[i - 1].controlSize);
    }
  }

  lemma {:induction false} DataPosBound(ss: seq<Section>, i: nat)
    requires i <= |ss|
    ensures Sector(DataPos(ss, i)) <= 0x100 + ControlSum(ss, |ss|) + DataSum(ss, i)
  {
    if i == 0 {
      ControlPosBound(ss, |ss|);
    } else {
      DataPosBound(ss, i - 1);
      AdvanceBound(DataPos(ss, i - 1), ss[i - 1].codeSize);
    }
  }

  lemma SplitCostOne(control: nat, code: nat, size: nat)
    requires control + code <= size
    ensures Sector(control) + Sector(code) <= Sector(size) + 0x100
  {
    SectorSubadditive(control, code);
    SectorLeast(control + code, Sector(size));
  }

  /** Splitting a section in two costs at most one sector. */
  lemma {:induction false} SplitCost(ss: seq<Section>, i: nat)
    requires i <= |ss| && WellSized(ss)
    ensures ControlSum(ss, i) + DataSum(ss, i) <= SumAligned(ss[..i]) + 0x100 * GpuCount(ss[..i])
  {
    if i > 0 {
      SplitCost(ss, i - 1);
      assert ss[..i][..i - 1] == ss[..i - 1];
      var s := ss[i - 1];
      assert s.WellSized();
      if s.Gpu() {
        SplitCostOne(s.controlSize, s.codeSize, s.size);
      }
    }
  }

  lemma EndPosBound(ss: seq<Section>)
    requires WellSized(ss)
    ensures EndPos(ss) <= SizeFold(ss, |ss|) + 0x100 * (GpuCount(ss) + 1)
  {
    DataPosBound(ss, |ss|);
    SplitCost(ss, |ss|);
    SizeFoldIsSum(ss, |ss|);
    assert ss[..|ss|] == ss;
  }

  /** With up to 15 GPU-code sections the cursor stays inside the allocation throughout. */
  lemma PackerFits(ss: seq<Section>)
    requires WellSized(ss) && GpuCount(ss) <= 15
    ensures EndPos(ss) <= BinarySize(ss)
    ensures forall g | IsSegment(ss, g) :: Stop(ss, g) <= EndPos(ss)
  {
    EndPosBound(ss);
    forall g | IsSegment(ss, g) ensures Stop(ss, g) <= EndPos(ss) {
      SegmentWithinEnd(ss, g);
    }
  }

  lemma SegmentWithinEnd(ss: seq<Section>, g: Segment)
    requires IsSegment(ss, g)
    ensures Stop(ss, g) <= EndPos(ss)
  {
    if g.Control? { ControlPosMonotone(ss, g.i + 1, |ss|); }
    DataPosMonotone(ss, if g.Data? then g.i + 1 else 0, |ss|);
  }

  lemma {:induction false} GpuCountBefore(ss: seq<Section>, i: nat)
    requires i < |ss| && ss[i].Gpu()
    ensures GpuCount(ss[..i]) + 1 <= GpuCount(ss)
  {
    var n := |ss| - 1;
    if i < n {
      GpuCountBefore(ss[..n], i);
      assert ss[..n][..i] == ss[..i];
    }
  }

  /** With the data of the first `i` sections only, just those pay for being split. */
  lemma {:induction false} SplitCostUpTo(ss: seq<Section>, i: nat, n: nat)
    requires i <= n <= |ss| && WellSized(ss)
    ensures ControlSum(ss, n) + DataSum(ss, i) <= SumAligned(ss[..n]) + 0x100 * GpuCount(ss[..i])
    decreases n
  {
    if i == n {
      SplitCost(ss, n);
    } else {
      SplitCostUpTo(ss, i, n - 1);
      assert ss[..n][..n - 1] == ss[..n - 1];
      var s := ss[n - 1];
      assert s.WellSized();
      if s.Gpu() { SectorLeast(s.controlSize, Sector(s.size)); }
    }
  }

  /** Every data segment starts strictly inside the allocation, even an empty one. */
  lemma DataStartsInside(ss: seq<Section>, i: nat)
    requires WellSized(ss) && GpuCount(ss) <= 15 && i < |ss| && ss[i].Gpu()
    ensures DataPos(ss, i) < BinarySize(ss)
  {
    DataPosBound(ss, i);
    SplitCostUpTo(ss, i, |ss|);
    GpuCountBefore(ss, i);
    BinarySizeIsSum(ss);
    assert ss[..|ss|] == ss;
  }

  ghost predicate WritesFit(ss: seq<Section>) {
    forall g | IsSegment(ss, g) :: Stop(ss, g) <= BinarySize(ss)
  }

  ghost predicate AlwaysFits(n: nat) {
    forall ss | GpuCount(ss) == n && WellSized(ss) :: WritesFit(ss)
  }

  /** Fifteen is the exact limit: from sixteen sections on, some well-formed output is written past the end. */
  lemma AlwaysFitsIff(n: nat)
    ensures AlwaysFits(n) <==> n <= 15
  {
    if n <= 15 {
      forall ss | GpuCount(ss) == n && WellSized(ss) ensures WritesFit(ss) {
        PackerFits(ss);
      }
    } else {
      OverfullOverflows(n);
    }
  }

  /** Sixteen or more sections: one pays for the header and its own split, the others for their split. */
  ghost predicate Overfull(ss: seq<Section>, k: nat) {
    && |ss| >= 16
    && ss[0].kind == GpuCode && ss[0].controlSize == 0xF8
    && ss[0].codeSize == 0x100 * k + 0x108 && ss[0].size == 0x100 * k + 0x200
    && forall j :: 1 <= j < |ss| ==> IsFiller(ss[j])
  }

  ghost predicate IsFiller(s: Section) {
    s.kind == GpuCode && s.controlSize == 1 && s.codeSize == 0xFF && s.size == 0x100
  }

  lemma OverfullOverflows(n: nat)
    requires n >= 16
    ensures !AlwaysFits(n)
  {
    var k := (15 * (n + 1)) % 16;
    var ss := OverfullExists(n, k);
    OverfullBinarySize(ss, k, (k + n + 1) / 16);
    var last := OverfullLastStop(ss, k);
    assert Stop(ss, last) > BinarySize(ss);
  }

  lemma OverfullExists(n: nat, k: nat) returns (ss: seq<Section>)
    requires n >= 16 && k < 16
    ensures Overfull(ss, k) && |ss| == n && WellSized(ss)
  {
    var filler := Section(GpuCode, 0x100, 0, 0, 1, 0, 0xFF);
    var fillers := seq(n - 1, _ => filler);
    ss := [Section(GpuCode, 0x100 * k + 0x200, 0, 0, 0xF8, 0, 0x100 * k + 0x108)] + fillers;
    forall j | 1 <= j < |ss| ensures ss[j] == filler {
      assert ss[j] == fillers[j - 1];
    }
  }

  lemma OverfullBinarySize(ss: seq<Section>, k: nat, pages: nat)
    requires Overfull(ss, k) && k + |ss| + 1 == 16 * pages
    ensures GpuCount(ss) == |ss| && BinarySize(ss) == 0x1000 * pages + 0x1000
  {
    OverfullSizes(ss, k, |ss|);
    assert ss[..|ss|] == ss;
    PageOfPages(pages);
  }

  lemma OverfullLastStop(ss: seq<Section>, k: nat) returns (last: Segment)
    requires Overfull(ss, k)
    ensures IsSegment(ss, last) && Stop(ss, last) == 0x100 * (k + 1 + 2 * |ss|) + 0xFF
  {
    var i := |ss| - 1;
    last := Data(i);
    OverfullCodes(ss, k, i);
  }

  lemma {:induction false} OverfullSizes(ss: seq<Section>, k: nat, i: nat)
    requires Overfull(ss, k) && 1 <= i <= |ss|
    ensures SizeFold(ss, i) == 0x100 * (k + 1 + i)
    ensures GpuCount(ss[..i]) == i
  {
    assert ss[..i][..i - 1] == ss[..i - 1];
    if i > 1 {
      OverfullSizes(ss, k, i - 1);
      assert IsFiller(ss[i - 1]);
      SectorOfPartial(k + i, 0x100);
    } else {
      assert ss[..0] == [] && SizeFold(ss, 0) == 0;
      SectorOfPartial(k + 1, 0x100);
    }
  }

  lemma {:induction false} OverfullControls(ss: seq<Section>, k: nat, i: nat)
    requires Overfull(ss, k) && 1 <= i <= |ss|
    ensures ControlPos(ss, i) == 0x100 * (i + 1)
  {
    if i > 1 {
      OverfullControls(ss, k, i - 1);
      assert IsFiller(ss[i - 1]);
      SectorOfPartial(i, 1);
    } else {
      assert ControlPos(ss, 0) == HEADER_SIZE;
      SectorOfPartial(1, 0x08);
    }
  }

  lemma {:induction false} OverfullCodes(ss: seq<Section>, k: nat, i: nat)
    requires Overfull(ss, k) && 1 <= i <= |ss|
    ensures DataPos(ss, i) == 0x100 * (k + 2 + |ss| + i)
  {
    if i > 1 {
      OverfullCodes(ss, k, i - 1);
      assert IsFiller(ss[i - 1]);
      SectorOfPartial(k + 1 + |ss| + i, 0xFF);
    } else {
      OverfullControls(ss, k, |ss|);
      assert DataPos(ss, 0) == ControlPos(ss, |ss|);
      SectorOfPartial(k + 2 + |ss|, 0x08);
    }
  }
}
