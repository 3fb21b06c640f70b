/**
  CreateShaderBinary: control and data of every GPU-code section are copied into one
  zeroed allocation behind a header of four u32 offsets, which BinaryHeader reads back.
 */
module ShaderPacker {
  import opened Alignment
  import opened Arithmetic
  import opened Bytes
  import opened ShaderLayout

  /** `common.dataOffset + controlOffset`, a u32 sum. */
  function ControlSource(s: Section): nat { (s.base + s.controlOffset) % U32 }
  function DataSource(s: Section): nat { (s.base + s.codeOffset) % U32 }

  /** glslc's promise: the bytes a GPU-code header points at belong to the output. */
  ghost predicate SourcesInBounds(ss: seq<Section>, output: seq<u8>) {
    forall i :: 0 <= i < |ss| && ss[i].Gpu() ==>
      && ControlSource(ss[i]) + ss[i].controlSize <= |output|
      && DataSource(ss[i]) + ss[i].codeSize <= |output|
  }

  /** `headerInfo[i]` and `headerInfo[numSections + i]` stay inside the table of four. */
  ghost predicate HeaderIndicesInBounds(ss: seq<Section>) {
    forall i :: 0 <= i < |ss| && ss[i].Gpu() ==> |ss| + i < 4
  }

  /** No offset of the layout is lost by the u32 cursor. */
  ghost predicate Exact(ss: seq<Section>) {
    forall i :: 0 <= i < |ss| && ss[i].Gpu() ==> DataPos(ss, i) < U32
  }

  function SegmentBytes(ss: seq<Section>, output: seq<u8>, g: Segment): (b: seq<u8>)
    requires SourcesInBounds(ss, output) && IsSegment(ss, g)
    ensures |b| == Length(ss, g)
  {
    var s := ss[g.i];
    var from := if g.Control? then ControlSource(s) else DataSource(s);
    output[from..from + Length(ss, g)]
  }

  /** `n` bytes of `a` from `at` on are the bytes of `b` from `from` on. */
  ghost predicate SameBytes(a: seq<u8>, at: nat, b: seq<u8>, from: nat, n: nat) {
    at + n <= |a| && from + n <= |b| && a[at..at + n] == b[from..from + n]
  }

  /** Section `s`'s control bytes, as its header finds them in the output, lie at `at`. */
  ghost predicate ControlCopied(s: Section, output: seq<u8>, bin: seq<u8>, at: nat) {
    SameBytes(bin, at, output, (s.base + s.controlOffset) % 0x1_0000_0000, s.controlSize)
  }

  ghost predicate DataCopied(s: Section, output: seq<u8>, bin: seq<u8>, at: nat) {
    SameBytes(bin, at, output, (s.base + s.codeOffset) % 0x1_0000_0000, s.codeSize)
  }

  /** The segment, of either kind, is in place. */
  ghost predicate Copied(ss: seq<Section>, output: seq<u8>, bin: seq<u8>, g: Segment)
    requires IsSegment(ss, g)
  {
    match g
    case Control(i) => ControlCopied(ss[i], output, bin, ControlPos(ss, i))
    case Data(i) => DataCopied(ss[i], output, bin, DataPos(ss, i))
  }

  /** Every control has been copied to its place, and every segment of either kind. */
  ghost predicate ControlsInPlace(ss: seq<Section>, output: seq<u8>, bin: seq<u8>) {
    forall i | 0 <= i < |ss| && ss[i].Gpu() :: ControlCopied(ss[i], output, bin, ControlPos(ss, i))
  }

  ghost predicate SegmentsInPlace(ss: seq<Section>, output: seq<u8>, bin: seq<u8>) {
    forall g | IsSegment(ss, g) :: Copied(ss, output, bin, g)
  }

  lemma CopiedIsSegmentBytes(ss: seq<Section>, output: seq<u8>, bin: seq<u8>, g: Segment)
    requires SourcesInBounds(ss, output) && IsSegment(ss, g)
    ensures Copied(ss, output, bin, g) <==>
      Stop(ss, g) <= |bin| && bin[Start(ss, g)..Stop(ss, g)] == SegmentBytes(ss, output, g)
  {
  }

  /** What the header should say in slot `k`: the controls by section, then the data by section. */
  function HeaderEntry(ss: seq<Section>, k: nat): nat {
    if k < |ss| && ss[k].Gpu() then ControlPos(ss, k)
    else if |ss| <= k < 2 * |ss| && ss[k - |ss|].Gpu() then DataPos(ss, k - |ss|)
    else 0
  }

  /** Section `i`'s truncated offsets, in the slots i and numSections + i. */
  ghost predicate HasSlots(ss: seq<Section>, bin: seq<u8>, i: nat)
    requires i < |ss|
  {
    && 4 * (|ss| + i) + 4 <= |bin|
    && ReadLe32(bin, 4 * i) == ControlPos(ss, i) % 0x1_0000_0000
    && ReadLe32(bin, 4 * (|ss| + i)) == DataPos(ss, i) % 0x1_0000_0000
  }

  ghost predicate InSomeSegment(ss: seq<Section>, k: nat) {
    exists g | IsSegment(ss, g) :: Start(ss, g) <= k < Stop(ss, g)
  }

  /** A finished binary, described by what can be read out of it. */
  ghost predicate Packed(ss: seq<Section>, output: seq<u8>, bin: seq<u8>)
    requires SourcesInBounds(ss, output)
  {
    && |bin| == BinarySize(ss)
    && HEADER_SIZE <= |bin|
    && (forall k | 0 <= k < 4 :: ReadLe32(bin, 4 * k) == HeaderEntry(ss, k))
    && SegmentsInPlace(ss, output, bin)
    && (forall k | HEADER_SIZE <= k < |bin| && !InSomeSegment(ss, k) :: bin[k] == 0)
  }

  // ---- BinaryHeader ---------------------------------------------------------

  datatype BinaryHeader = BinaryHeader(
    vertexControl: u32, vertexData: u32, fragmentControl: u32, fragmentData: u32)

  function ReadHeader(bin: seq<u8>): BinaryHeader
    requires HEADER_SIZE <= |bin|
  {
    BinaryHeader(
      fragmentControl := ReadLe32(bin, 0),
      vertexControl := ReadLe32(bin, 4),
      fragmentData := ReadLe32(bin, 8),
      vertexData := ReadLe32(bin, 12))
  }

  /** The header that the table of a layout amounts to. */
  function HeaderOf(ss: seq<Section>): BinaryHeader
    requires forall k: nat | k < 4 :: HeaderEntry(ss, k) < U32
  {
    BinaryHeader(
      fragmentControl := HeaderEntry(ss, 0),
      vertexControl := HeaderEntry(ss, 1),
      fragmentData := HeaderEntry(ss, 2),
      vertexData := HeaderEntry(ss, 3))
  }

  lemma HeaderReads(ss: seq<Section>, output: seq<u8>, bin: seq<u8>)
    requires SourcesInBounds(ss, output) && Packed(ss, output, bin)
    ensures forall k: nat | k < 4 :: HeaderEntry(ss, k) < U32
    ensures ReadHeader(bin) == HeaderOf(ss)
  {
    forall k: nat | k < 4 ensures HeaderEntry(ss, k) < U32 {
      assert ReadLe32(bin, 4 * k) == HeaderEntry(ss, k);
    }
    assert ReadLe32(bin, 4 * 0) == HeaderEntry(ss, 0) && ReadLe32(bin, 4 * 1) == HeaderEntry(ss, 1);
    assert ReadLe32(bin, 4 * 2) == HeaderEntry(ss, 2) && ReadLe32(bin, 4 * 3) == HeaderEntry(ss, 3);
  }

  /** From these two offsets the binary has the bytes that the section's header finds in glslc's output. */
  ghost predicate StageComesBack(bin: seq<u8>, control: nat, code: nat, output: seq<u8>, s: Section) {
    && SameBytes(bin, control, output, (s.base + s.controlOffset) % 0x1_0000_0000, s.controlSize)
    && SameBytes(bin, code, output, (s.base + s.codeOffset) % 0x1_0000_0000, s.codeSize)
  }

  lemma SegmentReads(ss: seq<Section>, output: seq<u8>, bin: seq<u8>, i: nat)
    requires SourcesInBounds(ss, output) && Packed(ss, output, bin) && i < |ss| && ss[i].Gpu()
    ensures StageComesBack(bin, ControlPos(ss, i), DataPos(ss, i), output, ss[i])
  {
    assert IsSegment(ss, Control(i)) && IsSegment(ss, Data(i));
    assert Copied(ss, output, bin, Control(i)) && Copied(ss, output, bin, Data(i));
  }

  lemma EveryStageComesBack(ss: seq<Section>, output: seq<u8>, bin: seq<u8>)
    requires SourcesInBounds(ss, output) && Packed(ss, output, bin)
    ensures forall i | 0 <= i < |ss| && ss[i].Gpu() ::
      StageComesBack(bin, ControlPos(ss, i), DataPos(ss, i), output, ss[i])
  {
    forall i | 0 <= i < |ss| && ss[i].Gpu()
      ensures StageComesBack(bin, ControlPos(ss, i), DataPos(ss, i), output, ss[i])
    {
      SegmentReads(ss, output, bin, i);
    }
  }

  /**
    Pack, then unpack: for two GPU-code sections, the bytes that section 0's header found in
    glslc's output come back through the fragment offsets, and section 1's through the vertex
    offsets.
   */
  lemma PackThenUnpack(ss: seq<Section>, output: seq<u8>, bin: seq<u8>)
    requires SourcesInBounds(ss, output) && Packed(ss, output, bin)
    requires |ss| == 2 && ss[0].Gpu() && ss[1].Gpu()
    ensures var h := ReadHeader(bin);
      && StageComesBack(bin, h.fragmentControl, h.fragmentData, output, ss[0])
      && StageComesBack(bin, h.vertexControl, h.vertexData, output, ss[1])
  {
    HeaderReads(ss, output, bin);
    SegmentReads(ss, output, bin, 0);
    SegmentReads(ss, output, bin, 1);
  }

  /** The offsets BinaryHeader hands out for section i, read as (control, data). */
  function DecodedOffsets(h: BinaryHeader, i: nat): (nat, nat)
    requires i < 2
  {
    if i == 0 then (h.fragmentControl, h.fragmentData) else (h.vertexControl, h.vertexData)
  }

  ghost predicate DecodesEverySection(ss: seq<Section>, h: BinaryHeader) {
    forall i | 0 <= i < |ss| && ss[i].Gpu() ::
      i < 2 && DecodedOffsets(h, i) == (ControlPos(ss, i), DataPos(ss, i))
  }

  /**
    The header table is laid out by the number of sections glslc returned, GPU code or not,
    while BinaryHeader assumes two: it decodes the offsets exactly when there are two.
   */
  lemma HeaderDecodesIffTwoSections(ss: seq<Section>, output: seq<u8>, bin: seq<u8>)
    requires SourcesInBounds(ss, output) && Packed(ss, output, bin)
    requires exists i :: 0 <= i < |ss| && ss[i].Gpu()
    ensures DecodesEverySection(ss, ReadHeader(bin)) <==> |ss| == 2
  {
    HeaderReads(ss, output, bin);
    if |ss| != 2 {
      var i :| 0 <= i < |ss| && ss[i].Gpu();
      WrongCountMisdecodes(ss, i);
    }
  }

  /** With any other number of sections, a GPU section is out of reach or its data slot is unused. */
  lemma WrongCountMisdecodes(ss: seq<Section>, i: nat)
    requires forall k: nat | k < 4 :: HeaderEntry(ss, k) < U32
    requires i < |ss| && ss[i].Gpu() && |ss| != 2
    ensures !DecodesEverySection(ss, HeaderOf(ss))
  {
    if j: nat :| 2 <= j < |ss| && ss[j].Gpu() {
      assert !DecodesEverySection(ss, HeaderOf(ss));
    } else {
      var first := if ss[0].Gpu() then 0 else i;
      assert HeaderEntry(ss, first + 2) == 0;
      SegmentAfterHeader(ss, Data(first));
    }
  }

  /** Where the header table ends: which outputs keep every index below four. */
  lemma HeaderIndicesIff(ss: seq<Section>)
    ensures HeaderIndicesInBounds(ss) <==>
      || |ss| <= 2
      || (|ss| == 3 && !ss[1].Gpu() && !ss[2].Gpu())
      || forall i :: 0 <= i < |ss| ==> !ss[i].Gpu()
  {
    if |ss| == 3 && (ss[1].Gpu() || ss[2].Gpu()) {
      assert !HeaderIndicesInBounds(ss);
    }
  }

  /** Both stages of a shader fit the table exactly when glslc returned nothing but them. */
  lemma TwoStagesFitIff(ss: seq<Section>, i: nat, j: nat)
    requires i < j < |ss| && ss[i].Gpu() && ss[j].Gpu()
    ensures HeaderIndicesInBounds(ss) <==> |ss| == 2
  {
    HeaderIndicesIff(ss);
  }

  /** Two stages and a reflection section: one data offset has no slot, the other is read from an unused one. */
  lemma ReflectionSectionBreaksHeader() returns (ss: seq<Section>, output: seq<u8>)
    ensures |ss| == 3 && ss[0].Gpu() && ss[1].Gpu() && ss[2].kind == Reflection
    ensures WellSized(ss) && SourcesInBounds(ss, output) && Exact(ss)
    ensures !HeaderIndicesInBounds(ss)
    ensures (forall k: nat | k < 4 :: HeaderEntry(ss, k) < U32) && !DecodesEverySection(ss, HeaderOf(ss))
  {
    var stage := Section(GpuCode, 2, 0, 0, 1, 1, 1);
    ss, output := [stage, stage, Section(Reflection, 0, 0, 0, 0, 0, 0)], [1, 2];
    TwoStagesFitIff(ss, 0, 1);
    assert ControlPos(ss, 0) == 0x10 && ControlPos(ss, 1) == 0x100;
    assert ControlPos(ss, 2) == 0x200 == ControlPos(ss, 3);
    assert DataPos(ss, 0) == 0x200 && DataPos(ss, 1) == 0x300;
    HeaderEntriesExact(ss);
    WrongCountMisdecodes(ss, 0);
  }

  /** The description pins down every byte. */
  lemma PackedUnique(ss: seq<Section>, output: seq<u8>, a: seq<u8>, b: seq<u8>)
    requires SourcesInBounds(ss, output) && Packed(ss, output, a) && Packed(ss, output, b)
    ensures a == b
  {
    forall k | 0 <= k < |a| ensures a[k] == b[k] {
      if k < HEADER_SIZE {
        var w := k / 4;
        assert ReadLe32(a, 4 * w) == ReadLe32(b, 4 * w);
        Le32Digits(a, b, 4 * w, k - 4 * w);
      } else if InSomeSegment(ss, k) {
        var g :| IsSegment(ss, g) && Start(ss, g) <= k < Stop(ss, g);
        CopiedByte(ss, output, a, g, k);
        CopiedByte(ss, output, b, g, k);
      }
    }
  }

  lemma CopiedByte(ss: seq<Section>, output: seq<u8>, bin: seq<u8>, g: Segment, k: nat)
    requires SourcesInBounds(ss, output) && IsSegment(ss, g) && Copied(ss, output, bin, g)
    requires Start(ss, g) <= k < Stop(ss, g)
    ensures k < |bin| && bin[k] == SegmentBytes(ss, output, g)[k - Start(ss, g)]
  {
    CopiedIsSegmentBytes(ss, output, bin, g);
    assert bin[k] == bin[Start(ss, g)..Stop(ss, g)][k - Start(ss, g)];
  }

  // ---- The bytes while they are being placed --------------------------------

  /** One segment placed after `img`, zeros up to the next cursor position. */
  function Next(img: seq<u8>, src: seq<u8>): (r: seq<u8>)
    ensures |r| == Sector(|img| + |src|)
  {
    img + src + Zeros(Sector(|img| + |src|) - |img| - |src|)
  }

  /** The allocation up to the cursor once the control loop has done `i` sections. */
  function ControlImage(ss: seq<Section>, output: seq<u8>, i: nat): (img: seq<u8>)
    requires SourcesInBounds(ss, output) && i <= |ss|
    ensures |img| == ControlPos(ss, i)
  {
    if i == 0 then Zeros(HEADER_SIZE)
    else if ss[i - 1].Gpu() then
      Next(ControlImage(ss, output, i - 1), SegmentBytes(ss, output, Control(i - 1)))
    else ControlImage(ss, output, i - 1)
  }

  function DataImage(ss: seq<Section>, output: seq<u8>, i: nat): (img: seq<u8>)
    requires SourcesInBounds(ss, output) && i <= |ss|
    ensures |img| == DataPos(ss, i)
  {
    if i == 0 then ControlImage(ss, output, |ss|)
    else if ss[i - 1].Gpu() then
      Next(DataImage(ss, output, i - 1), SegmentBytes(ss, output, Data(i - 1)))
    else DataImage(ss, output, i - 1)
  }

  /** `img` at the front of `size` bytes that are otherwise zero. */
  function Padded(img: seq<u8>, size: nat): seq<u8>
    requires |img| <= size
  {
    img + Zeros(size - |img|)
  }

  lemma PlaceIntoZeros(img: seq<u8>, size: nat, src: seq<u8>)
    requires Sector(|img| + |src|) <= size
    ensures Patched(Padded(img, size), |img|, src) == Padded(Next(img, src), size)
  {
  }

  lemma {:induction false} ControlImagePrefix(ss: seq<Section>, output: seq<u8>, i: nat, j: nat)
    requires SourcesInBounds(ss, output) && i <= j <= |ss|
    ensures ControlImage(ss, output, i) <= ControlImage(ss, output, j)
    decreases j
  {
    if i < j { ControlImagePrefix(ss, output, i, j - 1); }
  }

  lemma {:induction false} DataImagePrefix(ss: seq<Section>, output: seq<u8>, i: nat, j: nat)
    requires SourcesInBounds(ss, output) && i <= j <= |ss|
    ensures DataImage(ss, output, i) <= DataImage(ss, output, j)
    decreases j
  {
    if i < j { DataImagePrefix(ss, output, i, j - 1); }
  }

  lemma SliceOfPrefix(part: seq<u8>, whole: seq<u8>, from: nat, src: seq<u8>)
    requires part <= whole && from + |src| <= |part| && part[from..from + |src|] == src
    ensures whole[from..from + |src|] == src
  {
    assert whole[..|part|] == part;
    assert whole[..|part|][from..from + |src|] == whole[from..from + |src|];
  }

  lemma PrefixTransitive(a: seq<u8>, b: seq<u8>, c: seq<u8>)
    requires a <= b <= c
    ensures a <= c
  {
  }

  lemma ControlSurvives(ss: seq<Section>, output: seq<u8>, i: nat)
    requires SourcesInBounds(ss, output) && i < |ss| && ss[i].Gpu()
    ensures Next(ControlImage(ss, output, i), SegmentBytes(ss, output, Control(i))) <= DataImage(ss, output, |ss|)
  {
    ControlImagePrefix(ss, output, i + 1, |ss|);
    DataImagePrefix(ss, output, 0, |ss|);
    PrefixTransitive(ControlImage(ss, output, i + 1), ControlImage(ss, output, |ss|), DataImage(ss, output, |ss|));
  }

  lemma PlacedSurvives(img: seq<u8>, src: seq<u8>, whole: seq<u8>)
    requires Next(img, src) <= whole
    ensures |img| + |src| <= |whole| && whole[|img|..|img| + |src|] == src
  {
    SliceOfPrefix(Next(img, src), whole, |img|, src);
  }

  lemma DataSurvives(ss: seq<Section>, output: seq<u8>, i: nat)
    requires SourcesInBounds(ss, output) && i < |ss| && ss[i].Gpu()
    ensures Next(DataImage(ss, output, i), SegmentBytes(ss, output, Data(i))) <= DataImage(ss, output, |ss|)
  {
    DataImagePrefix(ss, output, i + 1, |ss|);
  }

  /** Later copies leave an earlier segment alone: it still holds the bytes its header points at. */
  lemma SegmentSurvives(ss: seq<Section>, output: seq<u8>, g: Segment)
    requires SourcesInBounds(ss, output) && IsSegment(ss, g)
    ensures Copied(ss, output, DataImage(ss, output, |ss|), g)
  {
    CopiedIsSegmentBytes(ss, output, DataImage(ss, output, |ss|), g);
    match g
    case Control(i) =>
      ControlSurvives(ss, output, i);
      PlacedSurvives(ControlImage(ss, output, i), SegmentBytes(ss, output, g), DataImage(ss, output, |ss|));
    case Data(i) =>
      DataSurvives(ss, output, i);
      PlacedSurvives(DataImage(ss, output, i), SegmentBytes(ss, output, g), DataImage(ss, output, |ss|));
  }

  /** A segment in place stays in place behind more bytes. */
  lemma CopiedInPrefix(ss: seq<Section>, output: seq<u8>, part: seq<u8>, whole: seq<u8>, g: Segment)
    requires SourcesInBounds(ss, output) && IsSegment(ss, g)
    requires part <= whole && Copied(ss, output, part, g)
    ensures Copied(ss, output, whole, g)
  {
    CopiedIsSegmentBytes(ss, output, part, g);
    CopiedIsSegmentBytes(ss, output, whole, g);
    SliceOfPrefix(part, whole, Start(ss, g), SegmentBytes(ss, output, g));
  }

  lemma ControlCopiedOne(ss: seq<Section>, output: seq<u8>, size: nat, i: nat)
    requires SourcesInBounds(ss, output) && ControlPos(ss, |ss|) <= size && i < |ss| && ss[i].Gpu()
    ensures ControlCopied(ss[i], output, Padded(ControlImage(ss, output, |ss|), size), ControlPos(ss, i))
  {
    var img, src := ControlImage(ss, output, i), SegmentBytes(ss, output, Control(i));
    var whole := ControlImage(ss, output, |ss|);
    ControlImagePrefix(ss, output, i + 1, |ss|);
    PlacedSurvives(img, src, whole);
    CopiedIsSegmentBytes(ss, output, whole, Control(i));
    CopiedInPrefix(ss, output, whole, Padded(whole, size), Control(i));
  }

  /** After the control pass every control is in place. */
  lemma ControlsCopied(ss: seq<Section>, output: seq<u8>, size: nat)
    requires SourcesInBounds(ss, output) && ControlPos(ss, |ss|) <= size
    ensures ControlsInPlace(ss, output, Padded(ControlImage(ss, output, |ss|), size))
  {
    forall i | 0 <= i < |ss| && ss[i].Gpu()
      ensures ControlCopied(ss[i], output, Padded(ControlImage(ss, output, |ss|), size), ControlPos(ss, i))
    {
      ControlCopiedOne(ss, output, size, i);
    }
  }

  lemma SegmentCopiedOne(ss: seq<Section>, output: seq<u8>, size: nat, g: Segment)
    requires SourcesInBounds(ss, output) && EndPos(ss) <= size && IsSegment(ss, g)
    ensures Copied(ss, output, Padded(DataImage(ss, output, |ss|), size), g)
  {
    var whole := DataImage(ss, output, |ss|);
    SegmentSurvives(ss, output, g);
    CopiedInPrefix(ss, output, whole, Padded(whole, size), g);
  }

  /** After both passes every segment is. */
  lemma SegmentsCopied(ss: seq<Section>, output: seq<u8>, size: nat)
    requires SourcesInBounds(ss, output) && EndPos(ss) <= size
    ensures SegmentsInPlace(ss, output, Padded(DataImage(ss, output, |ss|), size))
  {
    forall g | IsSegment(ss, g) ensures Copied(ss, output, Padded(DataImage(ss, output, |ss|), size), g) {
      SegmentCopiedOne(ss, output, size, g);
    }
  }

  lemma {:induction false} ControlImageZeroOutside(ss: seq<Section>, output: seq<u8>, i: nat, k: nat)
    requires SourcesInBounds(ss, output) && i <= |ss|
    requires k < ControlPos(ss, i) && !InSomeSegment(ss, k)
    ensures ControlImage(ss, output, i)[k] == 0
  {
    if i > 0 {
      if k < ControlPos(ss, i - 1) {
        ControlImageZeroOutside(ss, output, i - 1, k);
      } else if ss[i - 1].Gpu() {
        var g := Control(i - 1);
        assert IsSegment(ss, g) && !(Start(ss, g) <= k < Stop(ss, g));
      }
    }
  }

  lemma {:induction false} DataImageZeroOutside(ss: seq<Section>, output: seq<u8>, i: nat, k: nat)
    requires SourcesInBounds(ss, output) && i <= |ss|
    requires k < DataPos(ss, i) && !InSomeSegment(ss, k)
    ensures DataImage(ss, output, i)[k] == 0
  {
    if i == 0 {
      ControlImageZeroOutside(ss, output, |ss|, k);
    } else if k < DataPos(ss, i - 1) {
      DataImageZeroOutside(ss, output, i - 1, k);
    } else if ss[i - 1].Gpu() {
      var g := Data(i - 1);
      assert IsSegment(ss, g) && !(Start(ss, g) <= k < Stop(ss, g));
    }
  }

  /** The four u32 entries as memcpy copies them. */
  function HeaderBytes(entries: seq<u32>): (b: seq<u8>)
    requires |entries| == 4
    ensures |b| == HEADER_SIZE
  {
    Le32(entries[0]) + Le32(entries[1]) + Le32(entries[2]) + Le32(entries[3])
  }

  lemma HeaderBytesRoundTrip(entries: seq<u32>, bin: seq<u8>)
    requires |entries| == 4 && HEADER_SIZE <= |bin| && bin[..HEADER_SIZE] == HeaderBytes(entries)
    ensures forall k | 0 <= k < 4 :: ReadLe32(bin, 4 * k) == entries[k]
  {
    var rest := bin[HEADER_SIZE..];
    var a, b, c, d := Le32(entries[0]), Le32(entries[1]), Le32(entries[2]), Le32(entries[3]);
    assert bin == [] + a + (b + c + d + rest);
    assert bin == a + b + (c + d + rest);
    assert bin == a + b + c + (d + rest);
    assert bin == a + b + c + d + rest;
    Le32RoundTrip(entries[0], [], b + c + d + rest);
    Le32RoundTrip(entries[1], a, c + d + rest);
    Le32RoundTrip(entries[2], a + b, d + rest);
    Le32RoundTrip(entries[3], a + b + c, rest);
  }

  lemma PatchedAfter(s: seq<u8>, src: seq<u8>, from: nat, to: nat)
    requires |src| <= from <= to <= |s|
    ensures Patched(s, 0, src)[from..to] == s[from..to]
  {
  }

  lemma FinishedSegment(ss: seq<Section>, output: seq<u8>, g: Segment, header: seq<u8>, size: nat)
    requires SourcesInBounds(ss, output) && IsSegment(ss, g) && |header| == HEADER_SIZE <= size
    requires EndPos(ss) <= size
    ensures Copied(ss, output, Patched(Padded(DataImage(ss, output, |ss|), size), 0, header), g)
  {
    var before := Padded(DataImage(ss, output, |ss|), size);
    SegmentCopiedOne(ss, output, size, g);
    SegmentAfterHeader(ss, g);
    CopiedIsSegmentBytes(ss, output, before, g);
    PatchedAfter(before, header, Start(ss, g), Stop(ss, g));
    CopiedIsSegmentBytes(ss, output, Patched(before, 0, header), g);
  }

  lemma FinishedZero(ss: seq<Section>, output: seq<u8>, k: nat, size: nat, header: seq<u8>)
    requires SourcesInBounds(ss, output) && EndPos(ss) <= size && |header| == HEADER_SIZE
    requires HEADER_SIZE <= k < size && !InSomeSegment(ss, k)
    ensures Patched(Padded(DataImage(ss, output, |ss|), size), 0, header)[k] == 0
  {
    if k < EndPos(ss) { DataImageZeroOutside(ss, output, |ss|, k); }
  }

  /** Writing the header over the finished image touches nothing behind it. */
  lemma FinishedImageIsPacked(ss: seq<Section>, output: seq<u8>, entries: seq<u32>, before: seq<u8>, bin: seq<u8>)
    requires SourcesInBounds(ss, output) && EndPos(ss) <= BinarySize(ss) && |entries| == 4
    requires forall k | 0 <= k < 4 :: entries[k] == HeaderEntry(ss, k)
    requires before == Padded(DataImage(ss, output, |ss|), BinarySize(ss))
    requires bin == Patched(before, 0, HeaderBytes(entries))
    ensures Packed(ss, output, bin)
  {
    HeaderBytesRoundTrip(entries, bin);
    forall g | IsSegment(ss, g) ensures Copied(ss, output, bin, g) {
      FinishedSegment(ss, output, g, HeaderBytes(entries), BinarySize(ss));
    }
    forall k | HEADER_SIZE <= k < |bin| && !InSomeSegment(ss, k) ensures bin[k] == 0 {
      FinishedZero(ss, output, k, BinarySize(ss), HeaderBytes(entries));
    }
  }

  // ---- The u32 cursor ---------------------------------------------------------

  /** Truncating the cursor to 32 bits after every step is truncating the true cursor. */
  lemma CursorStep(pos: nat, size: nat)
    ensures Sector(pos % U32 + size) % U32 == Sector(pos + size) % U32
  {
    var q, r := pos / 0x1_0000_0000, pos % 0x1_0000_0000;
    assert pos == 0x1_0000_0000 * q + r;
    SectorAfterWords(q, r + size);
    AddMultiple(Sector(r + size), q);
  }

  /** The u32 cursor in front of `img`: never past the true one, and equal to it below 2^32. */
  lemma CursorBefore(cursor: u32, pos: nat, size: nat)
    requires cursor == pos % U32
    ensures cursor <= pos && (pos < U32 ==> cursor == pos)
    ensures Sector(cursor + size) % U32 == Sector(pos + size) % U32
  {
    CursorStep(pos, size);
  }

  lemma FewGpuSections(ss: seq<Section>)
    requires HeaderIndicesInBounds(ss)
    ensures GpuCount(ss) <= 3
  {
    if |ss| >= 4 { NoGpuCount(ss); }
  }

  lemma {:induction false} NoGpuCount(ss: seq<Section>)
    requires forall i :: 0 <= i < |ss| ==> !ss[i].Gpu()
    ensures GpuCount(ss) == 0
  {
    if ss != [] { NoGpuCount(ss[..|ss| - 1]); }
  }

  lemma SegmentStartsExact(ss: seq<Section>, g: Segment)
    requires IsSegment(ss, g)
    ensures Exact(ss) ==> Start(ss, g) < U32
  {
    ControlPosMonotone(ss, g.i, |ss|);
    DataPosMonotone(ss, 0, g.i);
  }

  /** The u32 cursor reports every segment's true start exactly when each data segment starts below 2^32. */
  lemma OffsetsExactIff(ss: seq<Section>)
    ensures Exact(ss) <==>
      forall g | IsSegment(ss, g) :: Start(ss, g) % U32 == Start(ss, g)
  {
    if Exact(ss) {
      forall g | IsSegment(ss, g) ensures Start(ss, g) % U32 == Start(ss, g) {
        SegmentStartsExact(ss, g);
      }
    } else {
      var i :| 0 <= i < |ss| && ss[i].Gpu() && DataPos(ss, i) >= U32;
      assert IsSegment(ss, Data(i)) && Start(ss, Data(i)) % U32 != Start(ss, Data(i));
    }
  }

  /** Declared sizes that guarantee it: an allocation of at most 2^32 bytes for up to 15 GPU-code sections. */
  lemma SmallSectionsExact(ss: seq<Section>)
    requires WellSized(ss) && GpuCount(ss) <= 15 && BinarySize(ss) <= U32
    ensures Exact(ss)
  {
    forall i | 0 <= i < |ss| && ss[i].Gpu() ensures DataPos(ss, i) < U32 {
      DataStartsInside(ss, i);
    }
  }

  /**
    Two stages whose controls fill 4 GiB: everything CreateShaderBinary asks for holds, and
    section 0's data would be written into section 0's control.
   */
  lemma CursorWraps(output: seq<u8>) returns (ss: seq<Section>)
    requires |output| == 0x8000_0000
    ensures |ss| == 2 && ss[0].Gpu() && ss[1].Gpu() && ss[0].codeSize > 0
    ensures WellSized(ss) && SourcesInBounds(ss, output) && HeaderIndicesInBounds(ss)
    ensures !Exact(ss)
    ensures Start(ss, Control(0)) <= Start(ss, Data(0)) % U32 < Stop(ss, Control(0))
  {
    var stage := Section(GpuCode, 0x8000_0010, 0, 0, 0x8000_0000, 0, 0x10);
    ss := [stage, stage];
    assert ControlPos(ss, 0) == 0x10;
    assert ControlPos(ss, 1) == Sector(0x8000_0010) == 0x8000_0100;
    assert ControlPos(ss, 2) == Sector(0x1_0000_0100) == 0x1_0000_0100;
    assert DataPos(ss, 0) == 0x1_0000_0100;
  }

  // ---- CreateShaderBinary ----------------------------------------------------

  method ComputeBinarySize(ss: seq<Section>) returns (binarySize: nat)
    ensures binarySize == Page(SumAligned(ss) + 0x1000)
  {
    binarySize := 0;
    for i := 0 to |ss|
      invariant binarySize == SizeFold(ss, i)
    {
      if ss[i].kind == GpuCode {
        binarySize := Sector(binarySize + ss[i].size);
      }
    }
    SizeFoldIsSum(ss, |ss|);
    assert ss[..|ss|] == ss;
    binarySize := Page(binarySize + 0x1000);
  }

  /** The u32 cursor has passed `img`, which the allocation starts with if no offset is lost; the rest is zero. */
  ghost predicate Placed(bytes: seq<u8>, cursor: u32, img: seq<u8>, exact: bool) {
    cursor == |img| % U32 && |img| <= |bytes| && (exact ==> bytes == Padded(img, |bytes|))
  }

  /** One memcpy and one step of the u32 cursor; `img` is what the true cursor has passed. */
  method PlaceSegment(binaryBuffer: array<u8>, curBinaryPos: u32, output: seq<u8>, from: nat, size: nat,
                      ghost img: seq<u8>, ghost exact: bool)
      returns (next: u32)
    requires from + size <= |output| && |Next(img, output[from..from + size])| <= binaryBuffer.Length
    requires Placed(binaryBuffer[..], curBinaryPos, img, exact) && (exact ==> |img| < U32)
    modifies binaryBuffer
    ensures Placed(binaryBuffer[..], next, Next(img, output[from..from + size]), exact)
  {
    var src := output[from..from + size];
    CursorBefore(curBinaryPos, |img|, |src|);
    if exact {
      PlaceIntoZeros(img, binaryBuffer.Length, src);
    }
    MemCpy(binaryBuffer, curBinaryPos, src);
    next := Sector(curBinaryPos + |src|) % 0x1_0000_0000;
  }

  /** `headerInfo` after `i` steps of the control loop. */
  function ControlTable(ss: seq<Section>, i: nat): (t: seq<u32>)
    requires HeaderIndicesInBounds(ss) && i <= |ss|
    ensures |t| == 4
  {
    if i == 0 then [0, 0, 0, 0]
    else if ss[i - 1].Gpu() then ControlTable(ss, i - 1)[i - 1 := ControlPos(ss, i - 1) % 0x1_0000_0000]
    else ControlTable(ss, i - 1)
  }

  function DataTable(ss: seq<Section>, i: nat): (t: seq<u32>)
    requires HeaderIndicesInBounds(ss) && i <= |ss|
    ensures |t| == 4
  {
    if i == 0 then ControlTable(ss, |ss|)
    else if ss[i - 1].Gpu() then DataTable(ss, i - 1)[|ss| + i - 1 := DataPos(ss, i - 1) % 0x1_0000_0000]
    else DataTable(ss, i - 1)
  }

  lemma {:induction false} ControlTableEntries(ss: seq<Section>, i: nat, k: nat)
    requires HeaderIndicesInBounds(ss) && i <= |ss| && k < 4
    ensures ControlTable(ss, i)[k] == if k < i && ss[k].Gpu() then ControlPos(ss, k) % U32 else 0
  {
    if i > 0 { ControlTableEntries(ss, i - 1, k); }
  }

  lemma {:induction false} DataTableEntries(ss: seq<Section>, i: nat, k: nat)
    requires HeaderIndicesInBounds(ss) && i <= |ss| && k < 4
    ensures DataTable(ss, i)[k] == if k < |ss| + i then HeaderEntry(ss, k) % U32 else 0
  {
    if i > 0 { DataTableEntries(ss, i - 1, k); } else { ControlTableEntries(ss, |ss|, k); }
  }

  lemma ControlImageStep(ss: seq<Section>, output: seq<u8>, i: nat)
    requires SourcesInBounds(ss, output) && i < |ss| && ss[i].Gpu()
    ensures var from, n := ControlSource(ss[i]), ss[i].controlSize;
      && from + n <= |output|
      && ControlImage(ss, output, i + 1) == Next(ControlImage(ss, output, i), output[from..from + n])
  {
    assert SegmentBytes(ss, output, Control(i))
        == output[ControlSource(ss[i])..ControlSource(ss[i]) + ss[i].controlSize];
  }

  lemma DataImageStep(ss: seq<Section>, output: seq<u8>, i: nat)
    requires SourcesInBounds(ss, output) && i < |ss| && ss[i].Gpu()
    ensures var from, n := DataSource(ss[i]), ss[i].codeSize;
      && from + n <= |output|
      && DataImage(ss, output, i + 1) == Next(DataImage(ss, output, i), output[from..from + n])
  {
    assert SegmentBytes(ss, output, Data(i)) == output[DataSource(ss[i])..DataSource(ss[i]) + ss[i].codeSize];
  }

  /** What one step of the control loop does to the image and the table. */
  lemma ControlStep(ss: seq<Section>, output: seq<u8>, i: nat)
    requires SourcesInBounds(ss, output) && HeaderIndicesInBounds(ss) && i < |ss| && ss[i].Gpu()
    ensures var from, n := ControlSource(ss[i]), ss[i].controlSize;
      && from + n <= |output|
      && ControlImage(ss, output, i + 1) == Next(ControlImage(ss, output, i), output[from..from + n])
    ensures ControlTable(ss, i + 1) == ControlTable(ss, i)[i := |ControlImage(ss, output, i)| % 0x1_0000_0000]
    ensures |ControlImage(ss, output, i + 1)| <= EndPos(ss)
    ensures Exact(ss) ==> |ControlImage(ss, output, i)| < U32
  {
    ControlImageStep(ss, output, i);
    ControlPosMonotone(ss, i + 1, |ss|);
    DataPosMonotone(ss, 0, |ss|);
    SegmentStartsExact(ss, Control(i));
  }

  lemma DataStep(ss: seq<Section>, output: seq<u8>, i: nat)
    requires SourcesInBounds(ss, output) && HeaderIndicesInBounds(ss) && i < |ss| && ss[i].Gpu()
    ensures var from, n := DataSource(ss[i]), ss[i].codeSize;
      && from + n <= |output|
      && DataImage(ss, output, i + 1) == Next(DataImage(ss, output, i), output[from..from + n])
    ensures DataTable(ss, i + 1) == DataTable(ss, i)[|ss| + i := |DataImage(ss, output, i)| % 0x1_0000_0000]
    ensures |DataImage(ss, output, i + 1)| <= EndPos(ss)
    ensures Exact(ss) ==> |DataImage(ss, output, i)| < U32
  {
    DataImageStep(ss, output, i);
    DataPosMonotone(ss, i + 1, |ss|);
    SegmentStartsExact(ss, Data(i));
  }

  /** The control pass has done `i` sections. */
  ghost predicate ControlsDone(ss: seq<Section>, output: seq<u8>, i: nat,
                               bytes: seq<u8>, cursor: u32, headerInfo: seq<u32>)
    requires SourcesInBounds(ss, output) && HeaderIndicesInBounds(ss) && i <= |ss|
  {
    headerInfo == ControlTable(ss, i) && Placed(bytes, cursor, ControlImage(ss, output, i), Exact(ss))
  }

  lemma ControlSkipped(ss: seq<Section>, output: seq<u8>, i: nat, bytes: seq<u8>, cursor: u32, headerInfo: seq<u32>)
    requires SourcesInBounds(ss, output) && HeaderIndicesInBounds(ss) && i < |ss| && !ss[i].Gpu()
    requires ControlsDone(ss, output, i, bytes, cursor, headerInfo)
    ensures ControlsDone(ss, output, i + 1, bytes, cursor, headerInfo)
  {
  }

  /** The control of one section. */
  method PlaceControl(ss: seq<Section>, output: seq<u8>, i: nat, binaryBuffer: array<u8>,
                      curBinaryPos: u32, headerInfo: seq<u32>)
      returns (next: u32, table: seq<u32>)
    requires SourcesInBounds(ss, output) && HeaderIndicesInBounds(ss) && i < |ss| && ss[i].Gpu()
    requires EndPos(ss) <= binaryBuffer.Length
    requires ControlsDone(ss, output, i, binaryBuffer[..], curBinaryPos, headerInfo)
    modifies binaryBuffer
    ensures ControlsDone(ss, output, i + 1, binaryBuffer[..], next, table)
  {
    ControlStep(ss, output, i);
    table := headerInfo[i := curBinaryPos];
    next := PlaceSegment(binaryBuffer, curBinaryPos, output, ControlSource(ss[i]), ss[i].controlSize,
                         ControlImage(ss, output, i), Exact(ss));
  }

  method PlaceControlSections(ss: seq<Section>, output: seq<u8>, binaryBuffer: array<u8>)
      returns (curBinaryPos: u32, headerInfo: seq<u32>)
    requires SourcesInBounds(ss, output) && HeaderIndicesInBounds(ss)
    requires EndPos(ss) <= binaryBuffer.Length && HEADER_SIZE <= binaryBuffer.Length
    requires binaryBuffer[..] == Zeros(binaryBuffer.Length)
    modifies binaryBuffer
    ensures ControlsDone(ss, output, |ss|, binaryBuffer[..], curBinaryPos, headerInfo)
    ensures Exact(ss) ==> ControlsInPlace(ss, output, binaryBuffer[..])
  {
    curBinaryPos := 0x10;
    headerInfo := [0, 0, 0, 0];
    assert binaryBuffer[..] == Padded(Zeros(HEADER_SIZE), binaryBuffer.Length);
    for i := 0 to |ss|
      invariant ControlsDone(ss, output, i, binaryBuffer[..], curBinaryPos, headerInfo)
    {
      if ss[i].kind != GpuCode {
        ControlSkipped(ss, output, i, binaryBuffer[..], curBinaryPos, headerInfo);
        continue;
      }
      curBinaryPos, headerInfo := PlaceControl(ss, output, i, binaryBuffer, curBinaryPos, headerInfo);
    }
    ControlsCopied(ss, output, binaryBuffer.Length);
  }

  /** The data pass has done `i` sections. */
  ghost predicate DataDone(ss: seq<Section>, output: seq<u8>, i: nat,
                           bytes: seq<u8>, cursor: u32, headerInfo: seq<u32>)
    requires SourcesInBounds(ss, output) && HeaderIndicesInBounds(ss) && i <= |ss|
  {
    headerInfo == DataTable(ss, i) && Placed(bytes, cursor, DataImage(ss, output, i), Exact(ss))
  }

  lemma DataSkipped(ss: seq<Section>, output: seq<u8>, i: nat, bytes: seq<u8>, cursor: u32, headerInfo: seq<u32>)
    requires SourcesInBounds(ss, output) && HeaderIndicesInBounds(ss) && i < |ss| && !ss[i].Gpu()
    requires DataDone(ss, output, i, bytes, cursor, headerInfo)
    ensures DataDone(ss, output, i + 1, bytes, cursor, headerInfo)
  {
  }

  /** The data of one section. */
  method PlaceData(ss: seq<Section>, output: seq<u8>, i: nat, binaryBuffer: array<u8>,
                   curBinaryPos: u32, headerInfo: seq<u32>)
      returns (next: u32, table: seq<u32>)
    requires SourcesInBounds(ss, output) && HeaderIndicesInBounds(ss) && i < |ss| && ss[i].Gpu()
    requires EndPos(ss) <= binaryBuffer.Length
    requires DataDone(ss, output, i, binaryBuffer[..], curBinaryPos, headerInfo)
    modifies binaryBuffer
    ensures DataDone(ss, output, i + 1, binaryBuffer[..], next, table)
  {
    DataStep(ss, output, i);
    table := headerInfo[|ss| + i := curBinaryPos];
    next := PlaceSegment(binaryBuffer, curBinaryPos, output, DataSource(ss[i]), ss[i].codeSize,
                         DataImage(ss, output, i), Exact(ss));
  }

  method PlaceDataSections(ss: seq<Section>, output: seq<u8>, start: u32, controls: seq<u32>, binaryBuffer: array<u8>)
      returns (headerInfo: seq<u32>)
    requires SourcesInBounds(ss, output) && HeaderIndicesInBounds(ss)
    requires EndPos(ss) <= binaryBuffer.Length
    requires ControlsDone(ss, output, |ss|, binaryBuffer[..], start, controls)
    modifies binaryBuffer
    ensures headerInfo == DataTable(ss, |ss|)
    ensures Exact(ss) ==> binaryBuffer[..] == Padded(DataImage(ss, output, |ss|), binaryBuffer.Length)
    ensures Exact(ss) ==> SegmentsInPlace(ss, output, binaryBuffer[..])
  {
    var curBinaryPos := start;
    headerInfo := controls;
    for i := 0 to |ss|
      invariant DataDone(ss, output, i, binaryBuffer[..], curBinaryPos, headerInfo)
    {
      if ss[i].kind != GpuCode {
        DataSkipped(ss, output, i, binaryBuffer[..], curBinaryPos, headerInfo);
        continue;
      }
      curBinaryPos, headerInfo := PlaceData(ss, output, i, binaryBuffer, curBinaryPos, headerInfo);
    }
    SegmentsCopied(ss, output, binaryBuffer.Length);
  }

  /** A header of u32 entries cannot describe a layout whose data starts at 2^32 or beyond. */
  lemma PackedOnlyIfExact(ss: seq<Section>, output: seq<u8>, bin: seq<u8>)
    requires SourcesInBounds(ss, output) && HeaderIndicesInBounds(ss) && Packed(ss, output, bin)
    ensures Exact(ss)
  {
    forall i | 0 <= i < |ss| && ss[i].Gpu() ensures DataPos(ss, i) < U32 {
      assert ReadLe32(bin, 4 * (|ss| + i)) == HeaderEntry(ss, |ss| + i);
    }
  }

  /**
    Every copy lands inside the allocation, wrapped cursor or not; and the result is the
    packed binary exactly when no offset is lost to the wrap.
   */
  method CreateShaderBinary(ss: seq<Section>, output: seq<u8>) returns (binaryBuffer: array<u8>)
    requires WellSized(ss) && SourcesInBounds(ss, output) && HeaderIndicesInBounds(ss)
    ensures fresh(binaryBuffer) && binaryBuffer.Length == BinarySize(ss)
    ensures forall k | 0 <= k < 4 :: ReadLe32(binaryBuffer[..], 4 * k) == HeaderEntry(ss, k) % U32
    ensures forall i: nat | i < |ss| && ss[i].Gpu() :: HasSlots(ss, binaryBuffer[..], i)
    ensures Exact(ss) <==> Packed(ss, output, binaryBuffer[..])
    ensures Exact(ss) ==> forall i | 0 <= i < |ss| && ss[i].Gpu() ::
      StageComesBack(binaryBuffer[..], ControlPos(ss, i), DataPos(ss, i), output, ss[i])
  {
    LayoutFits(ss);
    var binarySize := ComputeBinarySize(ss);
    binaryBuffer := new u8[binarySize](_ => 0);
    assert binaryBuffer[..] == Zeros(binarySize);
    var curBinaryPos, headerInfo := PlaceControlSections(ss, output, binaryBuffer);
    headerInfo := PlaceDataSections(ss, output, curBinaryPos, headerInfo, binaryBuffer);
    ghost var before := binaryBuffer[..];
    MemCpy(binaryBuffer, 0, HeaderBytes(headerInfo));
    Finished(ss, output, headerInfo, before, binaryBuffer[..]);
  }

  lemma TableComplete(ss: seq<Section>)
    requires HeaderIndicesInBounds(ss)
    ensures forall k | 0 <= k < 4 :: DataTable(ss, |ss|)[k] == HeaderEntry(ss, k) % U32
  {
    forall k | 0 <= k < 4 ensures DataTable(ss, |ss|)[k] == HeaderEntry(ss, k) % U32 {
      DataTableEntries(ss, |ss|, k);
    }
  }

  lemma FinishedSlots(ss: seq<Section>, bin: seq<u8>, i: nat)
    requires HeaderIndicesInBounds(ss) && HEADER_SIZE <= |bin| && i < |ss| && ss[i].Gpu()
    requires forall k | 0 <= k < 4 :: ReadLe32(bin, 4 * k) == HeaderEntry(ss, k) % U32
    ensures HasSlots(ss, bin, i)
  {
    assert ReadLe32(bin, 4 * i) == HeaderEntry(ss, i) % U32;
    assert ReadLe32(bin, 4 * (|ss| + i)) == HeaderEntry(ss, |ss| + i) % U32;
  }

  /** The finished binary, once the header has been written over what the two passes left. */
  lemma Finished(ss: seq<Section>, output: seq<u8>, entries: seq<u32>, before: seq<u8>, bin: seq<u8>)
    requires SourcesInBounds(ss, output) && HeaderIndicesInBounds(ss) && entries == DataTable(ss, |ss|)
    requires HEADER_SIZE <= |before| == BinarySize(ss) && EndPos(ss) <= |before|
    requires Exact(ss) ==> before == Padded(DataImage(ss, output, |ss|), |before|)
    requires bin == Patched(before, 0, HeaderBytes(entries))
    ensures forall k | 0 <= k < 4 :: ReadLe32(bin, 4 * k) == HeaderEntry(ss, k) % U32
    ensures forall i: nat | i < |ss| && ss[i].Gpu() :: HasSlots(ss, bin, i)
    ensures Exact(ss) <==> Packed(ss, output, bin)
    ensures Exact(ss) ==> forall i | 0 <= i < |ss| && ss[i].Gpu() ::
      StageComesBack(bin, ControlPos(ss, i), DataPos(ss, i), output, ss[i])
  {
    assert bin[..HEADER_SIZE] == HeaderBytes(entries);
    TableComplete(ss);
    HeaderBytesRoundTrip(entries, bin);
    forall i: nat | i < |ss| && ss[i].Gpu() ensures HasSlots(ss, bin, i) {
      FinishedSlots(ss, bin, i);
    }
    if Exact(ss) {
      HeaderEntriesExact(ss);
      FinishedImageIsPacked(ss, output, entries, before, bin);
      EveryStageComesBack(ss, output, bin);
    } else if Packed(ss, output, bin) {
      PackedOnlyIfExact(ss, output, bin);
    }
  }

  lemma LayoutFits(ss: seq<Section>)
    requires WellSized(ss) && HeaderIndicesInBounds(ss)
    ensures EndPos(ss) <= BinarySize(ss) == Page(SumAligned(ss) + 0x1000)
    ensures HEADER_SIZE <= BinarySize(ss)
  {
    SizeFoldIsSum(ss, |ss|);
    assert ss[..|ss|] == ss;
    FewGpuSections(ss);
    PackerFits(ss);
  }

  lemma HeaderEntriesExact(ss: seq<Section>)
    requires Exact(ss)
    ensures forall k: nat :: HeaderEntry(ss, k) % U32 == HeaderEntry(ss, k)
  {
    forall k: nat ensures HeaderEntry(ss, k) % U32 == HeaderEntry(ss, k) {
      if k < |ss| && ss[k].Gpu() { SegmentStartsExact(ss, Control(k)); }
      if |ss| <= k < 2 * |ss| && ss[k - |ss|].Gpu() { SegmentStartsExact(ss, Data(k - |ss|)); }
    }
  }
}
