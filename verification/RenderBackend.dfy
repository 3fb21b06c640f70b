/** renderDrawData: every command list into one vertex and one index buffer, and one submission. */
module RenderBackend {
  import opened Buffers
  import opened Bytes
  import opened DrawData
  import opened GpuReplay
  import opened Pools
  import opened Scissor
  import opened VisibleDraws

  /** One submission to the queue: the recorded commands, and memory as the GPU will read it. */
  datatype Submission = Submission(cmds: seq<GpuCommand>, vtxMem: seq<u8>, idxMem: seq<u8>)

  /** The submission draws what was asked, up to what its leading handles of 0 leave bound. */
  ghost predicate DrawsWhatWasAsked(sub: Submission, lists: seq<DrawList>, clip: Clipper)
    requires AllWellFormed(lists)
  {
    var asked := AllDraws(lists, |lists|, clip);
    && Binds(sub.cmds) == Changes(asked)
    && forall ambient: nat ::
      var drawn := Exec(GpuAtStart(ambient), sub.cmds, sub.vtxMem, sub.idxMem).draws;
      && drawn == WithAmbient(asked, ambient)
      && (drawn == asked <==> asked == [] || asked[0].texture != 0 || ambient == 0)
  }

  lemma SubmissionDrawsWhatWasAsked(sub: Submission, lists: seq<DrawList>, clip: Clipper)
    requires AllWellFormed(lists) && Loaded(lists, sub.vtxMem, sub.idxMem)
    requires sub.cmds == RecordLists(lists, |lists|, clip).cmds
    ensures DrawsWhatWasAsked(sub, lists, clip)
  {
    forall ambient: nat
      ensures var asked := AllDraws(lists, |lists|, clip);
        var drawn := Exec(GpuAtStart(ambient), sub.cmds, sub.vtxMem, sub.idxMem).draws;
        && drawn == WithAmbient(asked, ambient)
        && (drawn == asked <==> asked == [] || asked[0].texture != 0 || ambient == 0)
    {
      FlatteningPreservesMeaning(lists, clip, ambient, sub.vtxMem, sub.idxMem);
    }
    FlatteningPreservesMeaning(lists, clip, 0, sub.vtxMem, sub.idxMem);
  }

  /** Run over any earlier texture, the submission shows one draw for every command with a non-empty rectangle. */
  ghost predicate ShowsTheVisible(sub: Submission, lists: seq<DrawList>, res: Size) {
    forall ambient: nat ::
      ShowsAll(Exec(GpuAtStart(ambient), sub.cmds, sub.vtxMem, sub.idxMem).draws,
               Visible(lists, |lists|), ambient, res)
  }

  lemma SubmissionShowsTheVisible(sub: Submission, lists: seq<DrawList>, res: Size)
    requires Loaded(lists, sub.vtxMem, sub.idxMem)
    requires sub.cmds == RecordLists(lists, |lists|, ClipTo(res)).cmds
    ensures AllWellFormed(lists) && res.x > 0.0 && res.y > 0.0 ==> ShowsTheVisible(sub, lists, res)
  {
    if AllWellFormed(lists) && res.x > 0.0 && res.y > 0.0 {
      forall ambient: nat
        ensures ShowsAll(Exec(GpuAtStart(ambient), sub.cmds, sub.vtxMem, sub.idxMem).draws,
                         Visible(lists, |lists|), ambient, res)
      {
        ReplayShowsVisible(lists, res, ambient, sub.vtxMem, sub.idxMem);
      }
    }
  }

  /** `flat` at the front of a buffer that is otherwise as it was. */
  function Overlay(flat: seq<u8>, before: seq<u8>): (r: seq<u8>)
    requires |flat| <= |before|
    ensures |r| == |before| && flat <= r
  {
    flat + before[|flat|..]
  }

  lemma OverlayGrows(flat: seq<u8>, before: seq<u8>, src: seq<u8>)
    requires |flat| + |src| <= |before|
    ensures Patched(Overlay(flat, before), |flat|, src) == Overlay(flat + src, before)
  {
  }

  class Backend {
    var isInitialized: bool
    const vtx: GrowingBuffer
    const idx: GrowingBuffer
    /** The command buffer being recorded, and the queue. */
    var cmdBuf: seq<GpuCommand>
    var submitted: seq<Submission>

    ghost function Repr(): set<object>
      reads this, vtx, idx
    {
      {this} + vtx.Repr + idx.Repr
    }

    ghost predicate Valid()
      reads this, vtx, idx, Repr()
    {
      vtx.Valid() && idx.Valid() && vtx.Repr !! idx.Repr && this !in vtx.Repr && this !in idx.Repr
    }

    constructor (initialized: bool)
      ensures Valid() && fresh(Repr())
      ensures isInitialized == initialized && submitted == [] && vtx.requests == idx.requests == []
    {
      isInitialized, cmdBuf, submitted := initialized, [], [];
      vtx := new GrowingBuffer();
      idx := new GrowingBuffer();
    }

    /** The draw commands of one list. */
    method RecordCommands(list: DrawList, idxOffset: nat, boundTextureHandle: nat, clip: Clipper) returns (bound: nat)
      modifies this`cmdBuf
      ensures Recorder(cmdBuf, bound)
        == RecordCmds(Recorder(old(cmdBuf), boundTextureHandle), list, |list.cmds|, idxOffset, clip)
    {
      bound := boundTextureHandle;
      for j := 0 to |list.cmds|
        invariant Recorder(cmdBuf, bound)
          == RecordCmds(Recorder(old(cmdBuf), boundTextureHandle), list, j, idxOffset, clip)
      {
        var cmd := list.cmds[j];
        var clipped := clip(cmd.clip);
        if clipped.Dropped? {
          continue;
        }
        ghost var before, bind := cmdBuf, bound != cmd.texture;
        cmdBuf := cmdBuf + [SetScissor(clipped.box)];
        if bound != cmd.texture {
          bound := cmd.texture;
          cmdBuf := cmdBuf + [BindTexture(cmd.texture)];
        }
        cmdBuf := cmdBuf + [DrawElements(cmd.elemCount, cmd.idxOffset * 2 + idxOffset, cmd.vtxOffset)];
        assert cmdBuf == before + Block(bind, cmd, clipped.box, idxOffset);
      }
    }

    /** The loop over the command lists. */
    method FlattenLists(lists: seq<DrawList>, clip: Clipper, vtxMem: array<u8>, idxMem: array<u8>)
      requires vtxMem != idxMem && cmdBuf == []
      requires VtxStart(lists, |lists|) <= vtxMem.Length && IdxStart(lists, |lists|) <= idxMem.Length
      modifies this`cmdBuf, vtxMem, idxMem
      ensures cmdBuf == RecordLists(lists, |lists|, clip).cmds
      ensures vtxMem[..] == Overlay(FlatVtx(lists, |lists|), old(vtxMem[..]))
      ensures idxMem[..] == Overlay(FlatIdx(lists, |lists|), old(idxMem[..]))
    {
      var vtxOffset, idxOffset, boundTextureHandle := 0, 0, 0;
      for i := 0 to |lists|
        invariant vtxOffset == VtxStart(lists, i) && idxOffset == IdxStart(lists, i)
        invariant VtxCount(lists, i) <= VtxCount(lists, |lists|) && IdxCount(lists, i) <= IdxCount(lists, |lists|)
        invariant Recorder(cmdBuf, boundTextureHandle) == RecordLists(lists, i, clip)
        invariant vtxMem[..] == Overlay(FlatVtx(lists, i), old(vtxMem[..]))
        invariant idxMem[..] == Overlay(FlatIdx(lists, i), old(idxMem[..]))
      {
        var list := lists[i];
        var vtxSize, idxSize := 20 * |list.vtx|, 2 * |list.idx|;
        CountsMonotone(lists, i + 1, |lists|);
        cmdBuf := cmdBuf + [BindVertexBuffer(vtxOffset, vtxSize)];
        OverlayGrows(FlatVtx(lists, i), old(vtxMem[..]), VtxBytes(list.vtx));
        OverlayGrows(FlatIdx(lists, i), old(idxMem[..]), IdxBytes(list.idx));
        MemCpy(vtxMem, vtxOffset, VtxBytes(list.vtx));
        MemCpy(idxMem, idxOffset, IdxBytes(list.idx));
        boundTextureHandle := RecordCommands(list, idxOffset, boundTextureHandle, clip);
        vtxOffset := vtxOffset + vtxSize;
        idxOffset := idxOffset + idxSize;
      }
    }

    /** Both buffers, large enough for the frame; `ready` if they can be used. */
    method ResizeBuffers(vtxRequest: Request, idxRequest: Request) returns (ready: bool)
      requires Valid()
      modifies Repr()
      ensures Valid() && fresh(Repr() - old(Repr()))
      ensures vtx.requests == old(vtx.requests) + [vtxRequest] && idx.requests == old(idx.requests) + [idxRequest]
      ensures isInitialized == old(isInitialized) && submitted == old(submitted)
      ensures ready == (Usable(vtx.requests) && Usable(idx.requests))
      ensures ready ==> BuffersHold(vtxRequest.bytes, idxRequest.bytes)
    {
      vtx.Resize(vtxRequest.bytes, vtxRequest.setup);
      assert idx.Valid() && vtx.Repr !! idx.Repr;
      idx.Resize(idxRequest.bytes, idxRequest.setup);
      ready := vtx.buffer.mIsReady && idx.buffer.mIsReady;
    }

    ghost predicate BuffersHold(vtxBytes: nat, idxBytes: nat)
      reads this, vtx, idx, Repr()
      requires Valid()
    {
      && vtx.buffer != null && vtxBytes <= vtx.buffer.memBuffer.Length
      && idx.buffer != null && idxBytes <= idx.buffer.memBuffer.Length
    }

    /** A frame that passes every test on the way adds one submission, which draws what was asked. */
    ghost predicate FrameSubmitted(before: seq<Submission>, lists: seq<DrawList>, clip: Clipper)
      reads this
    {
      && |submitted| == |before| + 1 && submitted[..|before|] == before
      && submitted[|before|].cmds == RecordLists(lists, |lists|, clip).cmds
      && Loaded(lists, submitted[|before|].vtxMem, submitted[|before|].idxMem)
      && (AllWellFormed(lists) ==> DrawsWhatWasAsked(submitted[|before|], lists, clip))
    }

    /** Record, copy and submit. */
    method DrawFrame(lists: seq<DrawList>, clip: Clipper)
      requires Valid() && BuffersHold(VtxStart(lists, |lists|), IdxStart(lists, |lists|))
      modifies this`cmdBuf, this`submitted, vtx.buffer.memBuffer, idx.buffer.memBuffer
      ensures Valid()
      ensures FrameSubmitted(old(submitted), lists, clip)
    {
      var vtxMem, idxMem := vtx.buffer.memBuffer, idx.buffer.memBuffer;
      cmdBuf := [];
      FlattenLists(lists, clip, vtxMem, idxMem);
      var sub := Submission(cmdBuf, vtxMem[..], idxMem[..]);
      submitted := submitted + [sub];
      if AllWellFormed(lists) {
        SubmissionDrawsWhatWasAsked(sub, lists, clip);
      }
    }

    /** A frame that is not turned away at the door. */
    method RenderAccepted(drawData: DrawData, clip: Clipper, vtxRequest: Request, idxRequest: Request)
      requires Valid() && drawData.TotalsMatch()
      requires vtxRequest.bytes == 20 * drawData.totalVtxCount && idxRequest.bytes == 2 * drawData.totalIdxCount
      modifies Repr()
      ensures Valid() && fresh(Repr() - old(Repr()))
      ensures isInitialized == old(isInitialized)
      ensures vtx.requests == old(vtx.requests) + [vtxRequest] && idx.requests == old(idx.requests) + [idxRequest]
      ensures if Usable(vtx.requests) && Usable(idx.requests)
        then FrameSubmitted(old(submitted), drawData.lists, clip)
        else submitted == old(submitted)
    {
      var ready := ResizeBuffers(vtxRequest, idxRequest);
      if ready {
        DrawFrame(drawData.lists, clip);
      }
    }

    method RenderDrawData(drawData: DrawData, displaySize: Size, vtxSetup: Setup, idxSetup: Setup)
      requires Valid() && drawData.TotalsMatch()
      modifies Repr()
      ensures Valid() && fresh(Repr() - old(Repr()))
      ensures isInitialized == old(isInitialized)
      ensures var accepted := drawData.valid && |drawData.lists| > 0 && old(isInitialized);
        var ready := accepted && Usable(vtx.requests) && Usable(idx.requests);
        && vtx.requests == old(vtx.requests)
          + (if accepted then [Request(20 * drawData.totalVtxCount, vtxSetup)] else [])
        && idx.requests == old(idx.requests)
          + (if accepted then [Request(2 * drawData.totalIdxCount, idxSetup)] else [])
        && |submitted| == |old(submitted)| + (if ready then 1 else 0)
        && old(submitted) <= submitted
        && (ready ==> FrameSubmitted(old(submitted), drawData.lists, ClipTo(displaySize)))
        && (ready && AllWellFormed(drawData.lists) && displaySize.x > 0.0 && displaySize.y > 0.0 ==>
          ShowsTheVisible(submitted[|old(submitted)|], drawData.lists, displaySize))
    {
      if !drawData.valid || |drawData.lists| == 0 || !isInitialized {
        return;
      }
      ghost var before := submitted;
      RenderAccepted(drawData, ClipTo(displaySize),
                     Request(drawData.totalVtxCount * 20, vtxSetup), Request(drawData.totalIdxCount * 2, idxSetup));
      if Usable(vtx.requests) && Usable(idx.requests) {
        SubmissionShowsTheVisible(submitted[|before|], drawData.lists, displaySize);
      }
    }
  }
}
