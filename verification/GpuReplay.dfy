/**
  What a recorded command stream draws when the GPU runs it against vertex and index
  memory, and what ImGui's lists ask to be drawn.
 */
module GpuReplay {
  import opened Bytes
  import opened DrawData
  import opened Scissor
  import opened Signals

  /** Offsets are relative to the vertex pool and the index pool. */
  datatype GpuCommand =
    | BindVertexBuffer(offset: nat, size: nat)
    | SetScissor(box: Box)
    | BindTexture(handle: nat)
    | DrawElements(count: nat, idxAddress: nat, baseVertex: nat)

  /** One draw call as it reaches the screen. */
  datatype Draw = Draw(texture: nat, scissor: Box, vertices: seq<seq<u8>>)

  datatype Gpu = Gpu(vtxOffset: nat, vtxSize: nat, scissor: Box, texture: nat, draws: seq<Draw>)

  /** Before the frame: nothing is known of the GPU but the texture that happens to be bound. */
  function GpuAtStart(texture: nat): Gpu {
    Gpu(0, 0, Box(0, 0, 0, 0), texture, [])
  }

  /** A 16-bit index in index memory; out of range reads nothing useful. */
  function FetchIndex(im: seq<u8>, address: nat): nat {
    if address + 2 <= |im| then im[address] + 0x100 * (im[address + 1] as int) else 0
  }

  /** A vertex of the bound vertex buffer; empty outside the bound range or the pool. */
  function FetchVertex(g: Gpu, vm: seq<u8>, i: nat): seq<u8> {
    if 20 * i + 20 <= g.vtxSize && g.vtxOffset + 20 * i + 20 <= |vm|
    then vm[g.vtxOffset + 20 * i..g.vtxOffset + 20 * i + 20]
    else []
  }

  /** The k-th vertex of a draw call: through the index buffer, rebased by the base vertex. */
  function FetchedBy(g: Gpu, c: GpuCommand, vm: seq<u8>, im: seq<u8>, k: nat): seq<u8>
    requires c.DrawElements?
  {
    FetchVertex(g, vm, c.baseVertex + FetchIndex(im, c.idxAddress + 2 * k))
  }

  function Fetch(g: Gpu, c: GpuCommand, vm: seq<u8>, im: seq<u8>): seq<seq<u8>>
    requires c.DrawElements?
  {
    seq(c.count, k requires 0 <= k => FetchedBy(g, c, vm, im, k))
  }

  function Exec1(g: Gpu, c: GpuCommand, vm: seq<u8>, im: seq<u8>): Gpu {
    match c
    case BindVertexBuffer(offset, size) => g.(vtxOffset := offset, vtxSize := size)
    case SetScissor(box) => g.(scissor := box)
    case BindTexture(handle) => g.(texture := handle)
    case DrawElements(_, _, _) => g.(draws := g.draws + [Draw(g.texture, g.scissor, Fetch(g, c, vm, im))])
  }

  function Exec(g: Gpu, cmds: seq<GpuCommand>, vm: seq<u8>, im: seq<u8>): Gpu {
    if cmds == [] then g
    else Exec1(Exec(g, cmds[..|cmds| - 1], vm, im), cmds[|cmds| - 1], vm, im)
  }

  lemma ExecSnoc(g: Gpu, cmds: seq<GpuCommand>, c: GpuCommand, vm: seq<u8>, im: seq<u8>)
    ensures Exec(g, cmds + [c], vm, im) == Exec1(Exec(g, cmds, vm, im), c, vm, im)
  {
    assert (cmds + [c])[..|cmds|] == cmds;
  }

  // ---- What is asked for --------------------------------------------------------

  /** The triangles' vertices, straight out of the command's own list. */
  function Vertices(list: DrawList, c: DrawCmd): seq<seq<u8>>
    requires list.InList(c)
  {
    seq(c.elemCount, k requires 0 <= k < c.elemCount => VertexAsked(list, c, k))
  }

  function VertexAsked(list: DrawList, c: DrawCmd, k: nat): seq<u8>
    requires list.InList(c) && k < c.elemCount
  {
    list.vtx[c.vtxOffset + list.idx[c.idxOffset + k]]
  }

  /** The first `n` commands of a list, those with an empty clip left out. */
  function ListDraws(list: DrawList, n: nat, clip: Clipper): seq<Draw>
    requires n <= |list.cmds| && list.WellFormed()
  {
    if n == 0 then []
    else
      var c := list.cmds[n - 1];
      ListDraws(list, n - 1, clip)
      + (if clip(c.clip).Dropped? then [] else [Draw(c.texture, clip(c.clip).box, Vertices(list, c))])
  }

  ghost predicate AllWellFormed(lists: seq<DrawList>) {
    forall i :: 0 <= i < |lists| ==> lists[i].WellFormed()
  }

  function AllDraws(lists: seq<DrawList>, n: nat, clip: Clipper): seq<Draw>
    requires n <= |lists| && AllWellFormed(lists)
  {
    if n == 0 then []
    else AllDraws(lists, n - 1, clip) + ListDraws(lists[n - 1], |lists[n - 1].cmds|, clip)
  }

  // ---- The texture cache ----------------------------------------------------------

  predicate AllZero(ds: seq<Draw>) {
    forall i :: 0 <= i < |ds| ==> ds[i].texture == 0
  }

  /** `ds` with its leading handles of 0 replaced by the texture that was bound before the frame. */
  function WithAmbient(ds: seq<Draw>, texture: nat): (r: seq<Draw>)
    ensures |r| == |ds|
  {
    if ds == [] then []
    else
      var n := |ds| - 1;
      WithAmbient(ds[..n], texture) + [if AllZero(ds) then ds[n].(texture := texture) else ds[n]]
  }

  /** The frame shows what was asked for exactly when it does not open with an unbound handle of 0. */
  lemma {:induction false} AmbientHarmlessIff(ds: seq<Draw>, texture: nat)
    ensures WithAmbient(ds, texture) == ds <==> ds == [] || ds[0].texture != 0 || texture == 0
  {
    if ds != [] {
      var n := |ds| - 1;
      AmbientHarmlessIff(ds[..n], texture);
      var r := WithAmbient(ds, texture);
      assert r[..n] == WithAmbient(ds[..n], texture);
      if n == 0 {
        assert AllZero(ds) <==> ds[0].texture == 0;
      } else {
        assert ds[..n][0] == ds[0];
        if r == ds { assert r[..n] == ds[..n]; }
        if ds[0].texture != 0 { assert !AllZero(ds); }
        if WithAmbient(ds[..n], texture) == ds[..n] { assert ds == ds[..n] + [ds[n]]; }
      }
    }
  }

  function LastTexture(ds: seq<Draw>): nat {
    if ds == [] then 0 else ds[|ds| - 1].texture
  }

  /** How often the handle changes along the draws, counting from 0. */
  function Changes(ds: seq<Draw>): nat {
    if ds == [] then 0
    else
      var n := |ds| - 1;
      Changes(ds[..n]) + One(ds[n].texture != LastTexture(ds[..n]))
  }

  function Binds(cmds: seq<GpuCommand>): nat {
    if cmds == [] then 0
    else Binds(cmds[..|cmds| - 1]) + One(cmds[|cmds| - 1].BindTexture?)
  }

  lemma BindsSnoc(cmds: seq<GpuCommand>, c: GpuCommand)
    ensures Binds(cmds + [c]) == Binds(cmds) + One(c.BindTexture?)
  {
    assert (cmds + [c])[..|cmds|] == cmds;
  }

  // ---- The recorder ---------------------------------------------------------------

  /** The command buffer and the cached handle. */
  datatype Recorder = Recorder(cmds: seq<GpuCommand>, bound: nat)

  /** The draw call of a command, with its offsets rebased into the shared index buffer. */
  function DrawOf(c: DrawCmd, idxOffset: nat): GpuCommand {
    DrawElements(c.elemCount, c.idxOffset * 2 + idxOffset, c.vtxOffset)
  }

  /** Everything a drawn command records. */
  function Block(bind: bool, c: DrawCmd, box: Box, idxOffset: nat): seq<GpuCommand> {
    [SetScissor(box)] + (if bind then [BindTexture(c.texture)] else []) + [DrawOf(c, idxOffset)]
  }

  function RecordCmd(r: Recorder, c: DrawCmd, idxOffset: nat, clip: Clipper): Recorder {
    if clip(c.clip).Dropped? then r
    else Recorder(r.cmds + Block(r.bound != c.texture, c, clip(c.clip).box, idxOffset), c.texture)
  }

  function RecordCmds(r: Recorder, list: DrawList, n: nat, idxOffset: nat, clip: Clipper): Recorder
    requires n <= |list.cmds|
  {
    if n == 0 then r else RecordCmd(RecordCmds(r, list, n - 1, idxOffset, clip), list.cmds[n - 1], idxOffset, clip)
  }

  function BindVertices(list: DrawList, vtxOffset: nat): GpuCommand {
    BindVertexBuffer(vtxOffset, 20 * |list.vtx|)
  }

  function BindList(r: Recorder, list: DrawList, vtxOffset: nat): Recorder {
    r.(cmds := r.cmds + [BindVertices(list, vtxOffset)])
  }

  function RecordList(r: Recorder, list: DrawList, vtxOffset: nat, idxOffset: nat, clip: Clipper): Recorder {
    RecordCmds(BindList(r, list, vtxOffset), list, |list.cmds|, idxOffset, clip)
  }

  function RecordLists(lists: seq<DrawList>, n: nat, clip: Clipper): Recorder
    requires n <= |lists|
  {
    if n == 0 then Recorder([], 0)
    else
      RecordList(RecordLists(lists, n - 1, clip), lists[n - 1],
                 VtxStart(lists, n - 1), IdxStart(lists, n - 1), clip)
  }

  // ---- Recording and running agree --------------------------------------------------

  /** The memory at submission starts with every list's bytes. */
  ghost predicate Loaded(lists: seq<DrawList>, vm: seq<u8>, im: seq<u8>) {
    FlatVtx(lists, |lists|) <= vm && FlatIdx(lists, |lists|) <= im
  }

  /** A list's bytes are found at the given offsets. */
  ghost predicate ListAt(list: DrawList, vtxOffset: nat, idxOffset: nat, vm: seq<u8>, im: seq<u8>) {
    && vtxOffset + 20 * |list.vtx| <= |vm|
    && vm[vtxOffset..][..20 * |list.vtx|] == VtxBytes(list.vtx)
    && idxOffset + 2 * |list.idx| <= |im|
    && im[idxOffset..][..2 * |list.idx|] == IdxBytes(list.idx)
  }

  lemma LoadedListAt(lists: seq<DrawList>, i: nat, vm: seq<u8>, im: seq<u8>)
    requires Loaded(lists, vm, im) && i < |lists|
    ensures ListAt(lists[i], VtxStart(lists, i), IdxStart(lists, i), vm, im)
  {
    ListInFlat(lists, i, |lists|);
    PrefixSlice(FlatVtx(lists, |lists|), vm, VtxStart(lists, i), 20 * |lists[i].vtx|);
    PrefixSlice(FlatIdx(lists, |lists|), im, IdxStart(lists, i), 2 * |lists[i].idx|);
  }

  lemma PrefixSlice(a: seq<u8>, b: seq<u8>, from: nat, length: nat)
    requires a <= b && from + length <= |a|
    ensures b[from..][..length] == a[from..][..length]
  {
    assert b == a + b[|a|..];
    ExtendSlice(a, b[|a|..], from, length);
  }

  lemma FetchedIndex(list: DrawList, vtxOffset: nat, idxOffset: nat, vm: seq<u8>, im: seq<u8>, k: nat)
    requires ListAt(list, vtxOffset, idxOffset, vm, im) && k < |list.idx|
    ensures FetchIndex(im, idxOffset + 2 * k) == list.idx[k]
  {
    var slice := im[idxOffset..][..2 * |list.idx|];
    assert slice[2 * k] == im[idxOffset + 2 * k] && slice[2 * k + 1] == im[idxOffset + 2 * k + 1];
    assert slice[2 * k] == list.idx[k] % 0x100 && slice[2 * k + 1] == list.idx[k] / 0x100;
  }

  lemma FetchedVertex(list: DrawList, g: Gpu, idxOffset: nat, vm: seq<u8>, im: seq<u8>, i: nat)
    requires ListAt(list, g.vtxOffset, idxOffset, vm, im) && g.vtxSize == 20 * |list.vtx| && i < |list.vtx|
    ensures FetchVertex(g, vm, i) == list.vtx[i]
  {
    var slice := vm[g.vtxOffset..][..20 * |list.vtx|];
    var v := FetchVertex(g, vm, i);
    forall b | 0 <= b < 20 ensures v[b] == list.vtx[i][b] {
      assert v[b] == vm[g.vtxOffset + (20 * i + b)] == slice[20 * i + b];
      assert (20 * i + b) / 20 == i && (20 * i + b) % 20 == b;
    }
  }

  lemma FetchedAt(list: DrawList, c: DrawCmd, g: Gpu, idxOffset: nat, vm: seq<u8>, im: seq<u8>, k: nat)
    requires ListAt(list, g.vtxOffset, idxOffset, vm, im) && g.vtxSize == 20 * |list.vtx| && list.InList(c)
    requires k < c.elemCount
    ensures FetchedBy(g, DrawOf(c, idxOffset), vm, im, k) == VertexAsked(list, c, k)
  {
    var i := c.idxOffset + k;
    assert c.idxOffset * 2 + idxOffset + 2 * k == idxOffset + 2 * i;
    FetchedIndex(list, g.vtxOffset, idxOffset, vm, im, i);
    FetchedVertex(list, g, idxOffset, vm, im, c.vtxOffset + list.idx[i]);
  }

  lemma SameVertices(list: DrawList, c: DrawCmd, g: Gpu, d: GpuCommand, vm: seq<u8>, im: seq<u8>)
    requires list.InList(c) && d.DrawElements? && d.count == c.elemCount
    requires forall k: nat | k < c.elemCount :: FetchedBy(g, d, vm, im, k) == VertexAsked(list, c, k)
    ensures Fetch(g, d, vm, im) == Vertices(list, c)
  {
  }

  /** The rebased draw fetches the command's own vertices. */
  lemma FetchedVertices(list: DrawList, c: DrawCmd, g: Gpu, idxOffset: nat, vm: seq<u8>, im: seq<u8>)
    requires ListAt(list, g.vtxOffset, idxOffset, vm, im) && g.vtxSize == 20 * |list.vtx| && list.InList(c)
    ensures Fetch(g, DrawOf(c, idxOffset), vm, im) == Vertices(list, c)
  {
    forall k: nat | k < c.elemCount
      ensures FetchedBy(g, DrawOf(c, idxOffset), vm, im, k) == VertexAsked(list, c, k)
    {
      FetchedAt(list, c, g, idxOffset, vm, im, k);
    }
    SameVertices(list, c, g, DrawOf(c, idxOffset), vm, im);
  }

  ghost predicate Bound(g: Gpu, list: DrawList, vtxOffset: nat) {
    g.vtxOffset == vtxOffset && g.vtxSize == 20 * |list.vtx|
  }

  /** Whenever the list's vertices are bound, every rebased draw of the list fetches its own vertices. */
  ghost predicate Fetches(list: DrawList, vtxOffset: nat, idxOffset: nat, vm: seq<u8>, im: seq<u8>) {
    forall g, c | Bound(g, list, vtxOffset) && list.InList(c) ::
      Fetch(g, DrawOf(c, idxOffset), vm, im) == Vertices(list, c)
  }

  lemma LoadedListFetches(lists: seq<DrawList>, i: nat, vm: seq<u8>, im: seq<u8>)
    requires Loaded(lists, vm, im) && i < |lists|
    ensures Fetches(lists[i], VtxStart(lists, i), IdxStart(lists, i), vm, im)
  {
    LoadedListAt(lists, i, vm, im);
    var list, vtxOffset, idxOffset := lists[i], VtxStart(lists, i), IdxStart(lists, i);
    forall g, c | Bound(g, list, vtxOffset) && list.InList(c)
      ensures Fetch(g, DrawOf(c, idxOffset), vm, im) == Vertices(list, c)
    {
      FetchedVertices(list, c, g, idxOffset, vm, im);
    }
  }

  ghost predicate AllFetch(lists: seq<DrawList>, vm: seq<u8>, im: seq<u8>) {
    forall i | 0 <= i < |lists| :: Fetches(lists[i], VtxStart(lists, i), IdxStart(lists, i), vm, im)
  }

  lemma LoadedAllFetch(lists: seq<DrawList>, vm: seq<u8>, im: seq<u8>)
    requires Loaded(lists, vm, im)
    ensures AllFetch(lists, vm, im)
  {
    forall i | 0 <= i < |lists|
      ensures Fetches(lists[i], VtxStart(lists, i), IdxStart(lists, i), vm, im)
    {
      LoadedListFetches(lists, i, vm, im);
    }
  }

  lemma {:induction false} ExecConcat(g: Gpu, a: seq<GpuCommand>, b: seq<GpuCommand>, vm: seq<u8>, im: seq<u8>)
    ensures Exec(g, a + b, vm, im) == Exec(Exec(g, a, vm, im), b, vm, im)
  {
    if b == [] {
      assert a + b == a;
    } else {
      var rest, last := b[..|b| - 1], b[|b| - 1];
      assert a + b == a + rest + [last];
      ExecConcat(g, a, rest, vm, im);
      ExecSnoc(g, a + rest, last, vm, im);
    }
  }

  lemma {:induction false} BindsConcat(a: seq<GpuCommand>, b: seq<GpuCommand>)
    ensures Binds(a + b) == Binds(a) + Binds(b)
  {
    if b == [] {
      assert a + b == a;
    } else {
      var rest, last := b[..|b| - 1], b[|b| - 1];
      assert a + b == a + rest + [last];
      BindsConcat(a, rest);
      BindsSnoc(a + rest, last);
    }
  }

  /** What one drawn command does to the GPU. */
  function Shown(g: Gpu, bind: bool, c: DrawCmd, box: Box, vertices: seq<seq<u8>>): Gpu {
    var texture := if bind then c.texture else g.texture;
    g.(scissor := box, texture := texture, draws := g.draws + [Draw(texture, box, vertices)])
  }

  lemma BlockEffect(g: Gpu, bind: bool, c: DrawCmd, box: Box, idxOffset: nat, vm: seq<u8>, im: seq<u8>)
    ensures var g' := g.(scissor := box, texture := if bind then c.texture else g.texture);
      Exec(g, Block(bind, c, box, idxOffset), vm, im)
        == Shown(g, bind, c, box, Fetch(g', DrawOf(c, idxOffset), vm, im))
    ensures Binds(Block(bind, c, box, idxOffset)) == One(bind)
  {
    var scissor, texture, draw := SetScissor(box), BindTexture(c.texture), DrawOf(c, idxOffset);
    ExecSnoc(g, [], scissor, vm, im);
    BindsSnoc([], scissor);
    assert [] + [scissor] == [scissor];
    if bind {
      ExecSnoc(g, [scissor], texture, vm, im);
      BindsSnoc([scissor], texture);
      ExecSnoc(g, [scissor] + [texture], draw, vm, im);
      BindsSnoc([scissor] + [texture], draw);
    } else {
      assert Block(bind, c, box, idxOffset) == [scissor] + [draw];
      ExecSnoc(g, [scissor], draw, vm, im);
      BindsSnoc([scissor], draw);
    }
  }

  /** A drawn command of a list whose vertices are bound shows its own vertices. */
  lemma BlockShows(g0: Gpu, cmds: seq<GpuCommand>, bind: bool, list: DrawList, c: DrawCmd, box: Box,
                   vtxOffset: nat, idxOffset: nat, vm: seq<u8>, im: seq<u8>)
    requires Fetches(list, vtxOffset, idxOffset, vm, im) && list.InList(c)
    requires Bound(Exec(g0, cmds, vm, im), list, vtxOffset)
    ensures var cmds' := cmds + Block(bind, c, box, idxOffset);
      && Exec(g0, cmds', vm, im) == Shown(Exec(g0, cmds, vm, im), bind, c, box, Vertices(list, c))
      && Binds(cmds') == Binds(cmds) + One(bind)
  {
    var g := Exec(g0, cmds, vm, im);
    var block := Block(bind, c, box, idxOffset);
    ExecConcat(g0, cmds, block, vm, im);
    BindsConcat(cmds, block);
    BlockEffect(g, bind, c, box, idxOffset, vm, im);
    assert Bound(g.(scissor := box, texture := if bind then c.texture else g.texture), list, vtxOffset);
  }

  /**
    The recorder, the GPU that runs its commands, and the draws asked for so far, in step:
    `ambient` is the texture bound before the frame.
   */
  ghost predicate InStep(r: Recorder, g: Gpu, ds: seq<Draw>, ambient: nat) {
    && g.draws == WithAmbient(ds, ambient)
    && r.bound == LastTexture(ds)
    && g.texture == (if AllZero(ds) then ambient else LastTexture(ds))
    && Binds(r.cmds) == Changes(ds)
  }

  /** One more draw keeps everything in step: the cache decides the bind as the draws demand. */
  lemma ShownInStep(r: Recorder, g: Gpu, ds: seq<Draw>, ambient: nat,
                    c: DrawCmd, box: Box, vertices: seq<seq<u8>>, cmds: seq<GpuCommand>)
    requires InStep(r, g, ds, ambient)
    requires Binds(cmds) == Binds(r.cmds) + One(r.bound != c.texture)
    ensures InStep(Recorder(cmds, c.texture), Shown(g, r.bound != c.texture, c, box, vertices),
                   ds + [Draw(c.texture, box, vertices)], ambient)
  {
    DrawsSnoc(ds, Draw(c.texture, box, vertices), ambient);
  }

  lemma CmdInStep(r: Recorder, g0: Gpu, ds: seq<Draw>, ambient: nat, list: DrawList, c: DrawCmd,
                  vtxOffset: nat, idxOffset: nat, clip: Clipper, vm: seq<u8>, im: seq<u8>)
    requires InStep(r, Exec(g0, r.cmds, vm, im), ds, ambient) && Bound(Exec(g0, r.cmds, vm, im), list, vtxOffset)
    requires Fetches(list, vtxOffset, idxOffset, vm, im)
    requires list.InList(c) && clip(c.clip).Drawn?
    ensures var r' := RecordCmd(r, c, idxOffset, clip);
      && InStep(r', Exec(g0, r'.cmds, vm, im), ds + [Draw(c.texture, clip(c.clip).box, Vertices(list, c))], ambient)
      && Bound(Exec(g0, r'.cmds, vm, im), list, vtxOffset)
  {
    var box, bind := clip(c.clip).box, r.bound != c.texture;
    BlockShows(g0, r.cmds, bind, list, c, box, vtxOffset, idxOffset, vm, im);
    ShownInStep(r, Exec(g0, r.cmds, vm, im), ds, ambient, c, box, Vertices(list, c),
                r.cmds + Block(bind, c, box, idxOffset));
  }

  lemma DrawsSnoc(ds: seq<Draw>, d: Draw, ambient: nat)
    ensures AllZero(ds + [d]) <==> AllZero(ds) && d.texture == 0
    ensures WithAmbient(ds + [d], ambient)
      == WithAmbient(ds, ambient) + [if AllZero(ds + [d]) then d.(texture := ambient) else d]
    ensures Changes(ds + [d]) == Changes(ds) + One(d.texture != LastTexture(ds))
    ensures LastTexture(ds + [d]) == d.texture
  {
    var all := ds + [d];
    assert all[..|ds|] == ds && all[|ds|] == d;
    if AllZero(all) {
      forall i | 0 <= i < |ds| ensures ds[i].texture == 0 { assert all[i] == ds[i]; }
    }
  }

  lemma ListDrawsSnoc(ds: seq<Draw>, list: DrawList, n: nat, clip: Clipper)
    requires 0 < n <= |list.cmds| && list.WellFormed()
    ensures var c, earlier := list.cmds[n - 1], ListDraws(list, n - 1, clip);
      ds + ListDraws(list, n, clip)
        == if clip(c.clip).Dropped? then ds + earlier
           else ds + earlier + [Draw(c.texture, clip(c.clip).box, Vertices(list, c))]
  {
    var c, earlier := list.cmds[n - 1], ListDraws(list, n - 1, clip);
    if clip(c.clip).Dropped? {
      assert ListDraws(list, n, clip) == earlier;
    } else {
      var d := Draw(c.texture, clip(c.clip).box, Vertices(list, c));
      assert ds + (earlier + [d]) == ds + earlier + [d];
    }
  }

  lemma {:induction false} CmdsInStep(r: Recorder, g0: Gpu, ds: seq<Draw>, ambient: nat, list: DrawList, n: nat,
                                      vtxOffset: nat, idxOffset: nat, clip: Clipper, vm: seq<u8>, im: seq<u8>)
    requires InStep(r, Exec(g0, r.cmds, vm, im), ds, ambient) && Bound(Exec(g0, r.cmds, vm, im), list, vtxOffset)
    requires Fetches(list, vtxOffset, idxOffset, vm, im)
    requires n <= |list.cmds| && list.WellFormed()
    ensures var r' := RecordCmds(r, list, n, idxOffset, clip);
      && InStep(r', Exec(g0, r'.cmds, vm, im), ds + ListDraws(list, n, clip), ambient)
      && Bound(Exec(g0, r'.cmds, vm, im), list, vtxOffset)
  {
    if n == 0 {
      assert ds + [] == ds;
    } else {
      var earlier, c := ListDraws(list, n - 1, clip), list.cmds[n - 1];
      CmdsInStep(r, g0, ds, ambient, list, n - 1, vtxOffset, idxOffset, clip, vm, im);
      if clip(c.clip).Drawn? {
        CmdInStep(RecordCmds(r, list, n - 1, idxOffset, clip), g0, ds + earlier, ambient, list, c,
                  vtxOffset, idxOffset, clip, vm, im);
      }
      ListDrawsSnoc(ds, list, n, clip);
    }
  }

  /** Binding the next list's vertices changes nothing on screen. */
  lemma BindListEffect(g0: Gpu, cmds: seq<GpuCommand>, list: DrawList, vtxOffset: nat, vm: seq<u8>, im: seq<u8>)
    ensures var g, g' := Exec(g0, cmds, vm, im), Exec(g0, cmds + [BindVertices(list, vtxOffset)], vm, im);
      Bound(g', list, vtxOffset) && g'.draws == g.draws && g'.texture == g.texture
    ensures Binds(cmds + [BindVertices(list, vtxOffset)]) == Binds(cmds)
  {
    ExecSnoc(g0, cmds, BindVertices(list, vtxOffset), vm, im);
    BindsSnoc(cmds, BindVertices(list, vtxOffset));
  }

  lemma ListInStep(r: Recorder, g0: Gpu, ds: seq<Draw>, ambient: nat, list: DrawList,
                   vtxOffset: nat, idxOffset: nat, clip: Clipper, vm: seq<u8>, im: seq<u8>)
    requires InStep(r, Exec(g0, r.cmds, vm, im), ds, ambient)
    requires Fetches(list, vtxOffset, idxOffset, vm, im) && list.WellFormed()
    ensures var r' := RecordList(r, list, vtxOffset, idxOffset, clip);
      InStep(r', Exec(g0, r'.cmds, vm, im), ds + ListDraws(list, |list.cmds|, clip), ambient)
  {
    BindListEffect(g0, r.cmds, list, vtxOffset, vm, im);
    CmdsInStep(BindList(r, list, vtxOffset), g0, ds, ambient, list, |list.cmds|, vtxOffset, idxOffset, clip, vm, im);
  }

  lemma {:induction false} ListsInStep(
    lists: seq<DrawList>, n: nat, clip: Clipper, ambient: nat, vm: seq<u8>, im: seq<u8>)
    requires n <= |lists| && AllWellFormed(lists) && AllFetch(lists, vm, im)
    ensures var r := RecordLists(lists, n, clip);
      InStep(r, Exec(GpuAtStart(ambient), r.cmds, vm, im), AllDraws(lists, n, clip), ambient)
  {
    if n > 0 {
      ListsInStep(lists, n - 1, clip, ambient, vm, im);
      ListInStep(RecordLists(lists, n - 1, clip), GpuAtStart(ambient), AllDraws(lists, n - 1, clip), ambient,
                 lists[n - 1], VtxStart(lists, n - 1), IdxStart(lists, n - 1), clip, vm, im);
    }
  }

  /**
    Flattening preserves meaning. Run against any memory that starts with the lists' bytes,
    the recorded stream draws what the lists ask for, in order, each vertex from its own
    list, except that leading draws with handle 0 show whatever texture was bound before;
    so it draws exactly what was asked if and only if there are no such draws, or 0 was bound.
    Textures are bound as often as the handle changes.
   */
  lemma FlatteningPreservesMeaning(lists: seq<DrawList>, clip: Clipper, ambient: nat, vm: seq<u8>, im: seq<u8>)
    requires AllWellFormed(lists) && Loaded(lists, vm, im)
    ensures var asked := AllDraws(lists, |lists|, clip);
      var cmds := RecordLists(lists, |lists|, clip).cmds;
      var drawn := Exec(GpuAtStart(ambient), cmds, vm, im).draws;
      && drawn == WithAmbient(asked, ambient)
      && (drawn == asked <==> asked == [] || asked[0].texture != 0 || ambient == 0)
      && Binds(cmds) == Changes(asked)
  {
    LoadedAllFetch(lists, vm, im);
    ListsInStep(lists, |lists|, clip, ambient, vm, im);
    AmbientHarmlessIff(AllDraws(lists, |lists|, clip), ambient);
  }

  // ---- Against the stream without a cache ---------------------------------------------

  /** The same commands, binding every texture. */
  function NaiveCmd(cmds: seq<GpuCommand>, c: DrawCmd, idxOffset: nat, clip: Clipper): seq<GpuCommand> {
    if clip(c.clip).Dropped? then cmds else cmds + Block(true, c, clip(c.clip).box, idxOffset)
  }

  function NaiveCmds(cmds: seq<GpuCommand>, list: DrawList, n: nat, idxOffset: nat, clip: Clipper): seq<GpuCommand>
    requires n <= |list.cmds|
  {
    if n == 0 then cmds else NaiveCmd(NaiveCmds(cmds, list, n - 1, idxOffset, clip), list.cmds[n - 1], idxOffset, clip)
  }

  function NaiveList(cmds: seq<GpuCommand>, list: DrawList, vtxOffset: nat, idxOffset: nat, clip: Clipper)
    : seq<GpuCommand>
  {
    NaiveCmds(cmds + [BindVertices(list, vtxOffset)], list, |list.cmds|, idxOffset, clip)
  }

  function NaiveLists(lists: seq<DrawList>, n: nat, clip: Clipper): seq<GpuCommand>
    requires n <= |lists|
  {
    if n == 0 then []
    else
      NaiveList(NaiveLists(lists, n - 1, clip), lists[n - 1],
                VtxStart(lists, n - 1), IdxStart(lists, n - 1), clip)
  }

  lemma {:induction false} NaiveCmdsDraw(cmds: seq<GpuCommand>, g0: Gpu, list: DrawList, n: nat,
                                         vtxOffset: nat, idxOffset: nat, clip: Clipper, vm: seq<u8>, im: seq<u8>)
    requires Bound(Exec(g0, cmds, vm, im), list, vtxOffset) && Fetches(list, vtxOffset, idxOffset, vm, im)
    requires n <= |list.cmds| && list.WellFormed()
    ensures var g, g' := Exec(g0, cmds, vm, im), Exec(g0, NaiveCmds(cmds, list, n, idxOffset, clip), vm, im);
      g'.draws == g.draws + ListDraws(list, n, clip) && Bound(g', list, vtxOffset)
  {
    if n > 0 {
      var c := list.cmds[n - 1];
      NaiveCmdsDraw(cmds, g0, list, n - 1, vtxOffset, idxOffset, clip, vm, im);
      if clip(c.clip).Drawn? {
        BlockShows(g0, NaiveCmds(cmds, list, n - 1, idxOffset, clip), true, list, c, clip(c.clip).box,
                   vtxOffset, idxOffset, vm, im);
      }
      ListDrawsSnoc(Exec(g0, cmds, vm, im).draws, list, n, clip);
    }
  }

  lemma NaiveListDraws(cmds: seq<GpuCommand>, g0: Gpu, list: DrawList,
                       vtxOffset: nat, idxOffset: nat, clip: Clipper, vm: seq<u8>, im: seq<u8>)
    requires Fetches(list, vtxOffset, idxOffset, vm, im) && list.WellFormed()
    ensures Exec(g0, NaiveList(cmds, list, vtxOffset, idxOffset, clip), vm, im).draws
         == Exec(g0, cmds, vm, im).draws + ListDraws(list, |list.cmds|, clip)
  {
    BindListEffect(g0, cmds, list, vtxOffset, vm, im);
    NaiveCmdsDraw(cmds + [BindVertices(list, vtxOffset)], g0, list, |list.cmds|, vtxOffset, idxOffset, clip, vm, im);
  }

  lemma NaiveListsStep(lists: seq<DrawList>, n: nat, g0: Gpu, clip: Clipper, vm: seq<u8>, im: seq<u8>)
    requires 0 < n <= |lists| && AllWellFormed(lists)
    requires Fetches(lists[n - 1], VtxStart(lists, n - 1), IdxStart(lists, n - 1), vm, im)
    ensures Exec(g0, NaiveLists(lists, n, clip), vm, im).draws
         == Exec(g0, NaiveLists(lists, n - 1, clip), vm, im).draws
            + ListDraws(lists[n - 1], |lists[n - 1].cmds|, clip)
  {
    NaiveListDraws(NaiveLists(lists, n - 1, clip), g0, lists[n - 1],
                   VtxStart(lists, n - 1), IdxStart(lists, n - 1), clip, vm, im);
  }

  /** Binding every texture draws exactly what is asked, whatever was bound before. */
  lemma {:induction false} NaiveStreamDraws(
    lists: seq<DrawList>, n: nat, clip: Clipper, ambient: nat, vm: seq<u8>, im: seq<u8>)
    requires n <= |lists| && AllWellFormed(lists) && AllFetch(lists, vm, im)
    ensures Exec(GpuAtStart(ambient), NaiveLists(lists, n, clip), vm, im).draws == AllDraws(lists, n, clip)
  {
    if n > 0 {
      NaiveStreamDraws(lists, n - 1, clip, ambient, vm, im);
      NaiveListsStep(lists, n, GpuAtStart(ambient), clip, vm, im);
    }
  }

  /** Leaving out redundant binds changes nothing on screen, unless the frame opens with an unbound handle of 0. */
  lemma ElisionRefinesNaive(lists: seq<DrawList>, clip: Clipper, ambient: nat, vm: seq<u8>, im: seq<u8>)
    requires AllWellFormed(lists) && Loaded(lists, vm, im)
    ensures var asked := AllDraws(lists, |lists|, clip);
      Exec(GpuAtStart(ambient), RecordLists(lists, |lists|, clip).cmds, vm, im).draws
        == Exec(GpuAtStart(ambient), NaiveLists(lists, |lists|, clip), vm, im).draws
      <==> asked == [] || asked[0].texture != 0 || ambient == 0
  {
    FlatteningPreservesMeaning(lists, clip, ambient, vm, im);
    LoadedAllFetch(lists, vm, im);
    NaiveStreamDraws(lists, |lists|, clip, ambient, vm, im);
  }

  /** A frame that does not show what was asked: one draw with handle 0, over any other texture left bound. */
  lemma OpeningZeroShowsOldTexture(clip: Clipper, r: Rect, ambient: nat)
      returns (lists: seq<DrawList>, vm: seq<u8>, im: seq<u8>)
    requires clip(r).Drawn? && ambient != 0
    ensures AllWellFormed(lists) && Loaded(lists, vm, im)
    ensures var asked := AllDraws(lists, |lists|, clip);
      && |asked| == 1 && asked[0].texture == 0
      && Exec(GpuAtStart(ambient), RecordLists(lists, |lists|, clip).cmds, vm, im).draws
        == [asked[0].(texture := ambient)]
  {
    var list := DrawList([Zeros(20)], [0], [DrawCmd(r, 0, 1, 0, 0)]);
    lists := [list];
    vm, im := FlatVtx(lists, 1), FlatIdx(lists, 1);
    FlatteningPreservesMeaning(lists, clip, ambient, vm, im);
    OneDraw(lists, list, clip);
  }

  lemma OneDraw(lists: seq<DrawList>, list: DrawList, clip: Clipper)
    requires lists == [list] && |list.cmds| == 1 && list.WellFormed() && clip(list.cmds[0].clip).Drawn?
    ensures AllDraws(lists, 1, clip)
      == [Draw(list.cmds[0].texture, clip(list.cmds[0].clip).box, Vertices(list, list.cmds[0]))]
  {
    assert ListDraws(list, 0, clip) == [];
    assert AllDraws(lists, 0, clip) == [];
  }
}
