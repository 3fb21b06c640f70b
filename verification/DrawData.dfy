/** ImGui's draw data: command lists with their own vertex and index buffers. */
module DrawData {
  import opened Bytes
  import opened Scissor

  /** An ImDrawVert as it lies in memory: two floats of position, two of texture coordinate, four colour bytes. */
  type Vertex = v: seq<u8> | |v| == 20 witness Zeros(20)

  datatype DrawCmd = DrawCmd(clip: Rect, texture: nat, elemCount: nat, idxOffset: nat, vtxOffset: nat)

  datatype DrawList = DrawList(vtx: seq<Vertex>, idx: seq<u16>, cmds: seq<DrawCmd>) {
    /** ImGui's promise: a command's indices are in its list, and name vertices of its list. */
    ghost predicate WellFormed() {
      forall j :: 0 <= j < |cmds| ==> InList(cmds[j])
    }

    ghost predicate InList(c: DrawCmd) {
      && c.idxOffset + c.elemCount <= |idx|
      && forall i :: c.idxOffset <= i < c.idxOffset + c.elemCount ==> c.vtxOffset + idx[i] < |vtx|
    }
  }

  datatype DrawData = DrawData(valid: bool, totalVtxCount: nat, totalIdxCount: nat, lists: seq<DrawList>) {
    /** ImGui's promise: the totals are the sums over the lists. */
    ghost predicate TotalsMatch() {
      && totalVtxCount == VtxCount(lists, |lists|)
      && totalIdxCount == IdxCount(lists, |lists|)
    }
  }

  function VtxCount(lists: seq<DrawList>, n: nat): nat
    requires n <= |lists|
  {
    if n == 0 then 0 else VtxCount(lists, n - 1) + |lists[n - 1].vtx|
  }

  function IdxCount(lists: seq<DrawList>, n: nat): nat
    requires n <= |lists|
  {
    if n == 0 then 0 else IdxCount(lists, n - 1) + |lists[n - 1].idx|
  }

  /** Where list `i` starts in the shared vertex and index buffers: the prefix sums of the sizes in bytes. */
  function VtxStart(lists: seq<DrawList>, i: nat): nat
    requires i <= |lists|
  {
    20 * VtxCount(lists, i)
  }

  function IdxStart(lists: seq<DrawList>, i: nat): nat
    requires i <= |lists|
  {
    2 * IdxCount(lists, i)
  }

  // ---- Bytes ------------------------------------------------------------------

  function VtxBytes(vs: seq<Vertex>): (b: seq<u8>)
    ensures |b| == 20 * |vs|
  {
    seq(20 * |vs|, i requires 0 <= i < 20 * |vs| => vs[i / 20][i % 20])
  }

  function IdxBytes(ix: seq<u16>): (b: seq<u8>)
    ensures |b| == 2 * |ix|
  {
    seq(2 * |ix|, i requires 0 <= i < 2 * |ix| => if i % 2 == 0 then ix[i / 2] % 0x100 else ix[i / 2] / 0x100)
  }

  /** Index `k` lies in bytes 2k and 2k + 1, the low byte first. */
  lemma IndexLittleEndian(ix: seq<u16>, k: nat)
    requires k < |ix|
    ensures var b := IdxBytes(ix); ix[k] == b[2 * k] + 0x100 * (b[2 * k + 1] as int)
  {
  }

  /** The vertex bytes of the first `n` lists, one after the other. */
  function FlatVtx(lists: seq<DrawList>, n: nat): (b: seq<u8>)
    requires n <= |lists|
    ensures |b| == VtxStart(lists, n)
  {
    if n == 0 then [] else FlatVtx(lists, n - 1) + VtxBytes(lists[n - 1].vtx)
  }

  function FlatIdx(lists: seq<DrawList>, n: nat): (b: seq<u8>)
    requires n <= |lists|
    ensures |b| == IdxStart(lists, n)
  {
    if n == 0 then [] else FlatIdx(lists, n - 1) + IdxBytes(lists[n - 1].idx)
  }

  lemma {:induction false} CountsMonotone(lists: seq<DrawList>, i: nat, n: nat)
    requires i <= n <= |lists|
    ensures VtxCount(lists, i) <= VtxCount(lists, n) && IdxCount(lists, i) <= IdxCount(lists, n)
    decreases n
  {
    if i < n { CountsMonotone(lists, i, n - 1); }
  }

  /** Each list lies at its prefix sum in the finished buffers, untouched by the later copies. */
  lemma {:induction false} ListInFlat(lists: seq<DrawList>, i: nat, n: nat)
    requires i < n <= |lists|
    ensures VtxStart(lists, i) + 20 * |lists[i].vtx| <= |FlatVtx(lists, n)|
    ensures FlatVtx(lists, n)[VtxStart(lists, i)..][..20 * |lists[i].vtx|] == VtxBytes(lists[i].vtx)
    ensures IdxStart(lists, i) + 2 * |lists[i].idx| <= |FlatIdx(lists, n)|
    ensures FlatIdx(lists, n)[IdxStart(lists, i)..][..2 * |lists[i].idx|] == IdxBytes(lists[i].idx)
    decreases n
  {
    if i < n - 1 {
      ListInFlat(lists, i, n - 1);
      ExtendSlice(FlatVtx(lists, n - 1), VtxBytes(lists[n - 1].vtx), VtxStart(lists, i), 20 * |lists[i].vtx|);
      ExtendSlice(FlatIdx(lists, n - 1), IdxBytes(lists[n - 1].idx), IdxStart(lists, i), 2 * |lists[i].idx|);
    }
  }

  lemma ExtendSlice(a: seq<u8>, b: seq<u8>, from: nat, length: nat)
    requires from + length <= |a|
    ensures (a + b)[from..][..length] == a[from..][..length]
  {
  }
}
