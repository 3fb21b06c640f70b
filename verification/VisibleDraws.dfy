/**
  What a frame should show, said of the draw data alone: the commands whose own clip
  rectangle is not empty, in order, each with the vertices of its list.
 */
module VisibleDraws {
  import opened Bytes
  import opened DrawData
  import opened GpuReplay
  import opened Scissor

  /** A command together with the list it belongs to. */
  datatype Listed = Listed(list: DrawList, cmd: DrawCmd)

  function VisibleIn(list: DrawList, n: nat): seq<Listed>
    requires n <= |list.cmds|
  {
    if n == 0 then []
    else
      var c := list.cmds[n - 1];
      VisibleIn(list, n - 1) + (if c.clip.z <= c.clip.x || c.clip.w <= c.clip.y then [] else [Listed(list, c)])
  }

  /** The visible commands of the first `n` lists. */
  function Visible(lists: seq<DrawList>, n: nat): seq<Listed>
    requires n <= |lists|
  {
    if n == 0 then [] else Visible(lists, n - 1) + VisibleIn(lists[n - 1], |lists[n - 1].cmds|)
  }

  /** The draw shows this command with this texture: its box on the display, its list's vertices by its indices. */
  ghost predicate Shows(d: Draw, v: Listed, texture: nat, res: Size) {
    && d.texture == texture
    && IsPixelBox(v.cmd.clip, res, d.scissor)
    && |d.vertices| == v.cmd.elemCount
    && v.list.InList(v.cmd)
    && forall j | 0 <= j < v.cmd.elemCount ::
      d.vertices[j] == v.list.vtx[v.cmd.vtxOffset + v.list.idx[v.cmd.idxOffset + j]]
  }

  /** Up to and including command `k`, every handle is 0. */
  predicate OpensWithZero(vs: seq<Listed>, k: nat) {
    forall i | 0 <= i <= k && i < |vs| :: vs[i].cmd.texture == 0
  }

  /** One draw for every visible command, with the command's texture, or `ambient` while all handles are 0. */
  ghost predicate ShowsAll(ds: seq<Draw>, vs: seq<Listed>, ambient: nat, res: Size) {
    && |ds| == |vs|
    && forall k | 0 <= k < |vs| ::
      Shows(ds[k], vs[k], if OpensWithZero(vs, k) then ambient else vs[k].cmd.texture, res)
  }

  ghost predicate Asks(ds: seq<Draw>, vs: seq<Listed>, res: Size) {
    |ds| == |vs| && forall k | 0 <= k < |vs| :: Shows(ds[k], vs[k], vs[k].cmd.texture, res)
  }

  lemma AsksConcat(ds: seq<Draw>, vs: seq<Listed>, ds': seq<Draw>, vs': seq<Listed>, res: Size)
    requires Asks(ds, vs, res) && Asks(ds', vs', res)
    ensures Asks(ds + ds', vs + vs', res)
  {
  }

  lemma CommandShown(list: DrawList, c: DrawCmd, res: Size)
    requires list.InList(c) && ClipTo(res)(c.clip).Drawn?
    ensures Shows(Draw(c.texture, ClipTo(res)(c.clip).box, Vertices(list, c)), Listed(list, c), c.texture, res)
  {
    DrawnBox(c.clip, res);
  }

  lemma {:induction false} ListAsksForVisible(list: DrawList, n: nat, res: Size)
    requires res.x > 0.0 && res.y > 0.0
    requires n <= |list.cmds| && list.WellFormed()
    ensures Asks(ListDraws(list, n, ClipTo(res)), VisibleIn(list, n), res)
  {
    if n > 0 {
      var c := list.cmds[n - 1];
      ListAsksForVisible(list, n - 1, res);
      DroppedIffEmpty(c.clip, res);
      if ClipTo(res)(c.clip).Drawn? {
        CommandShown(list, c, res);
        AsksConcat(ListDraws(list, n - 1, ClipTo(res)), VisibleIn(list, n - 1),
                   [Draw(c.texture, ClipTo(res)(c.clip).box, Vertices(list, c))], [Listed(list, c)], res);
      }
    }
  }

  /** On a display with an area, what is asked for is the visible commands, no more and no fewer. */
  lemma {:induction false} AskedIsVisible(lists: seq<DrawList>, n: nat, res: Size)
    requires res.x > 0.0 && res.y > 0.0
    requires n <= |lists| && AllWellFormed(lists)
    ensures Asks(AllDraws(lists, n, ClipTo(res)), Visible(lists, n), res)
  {
    if n > 0 {
      var list := lists[n - 1];
      AskedIsVisible(lists, n - 1, res);
      ListAsksForVisible(list, |list.cmds|, res);
      AsksConcat(AllDraws(lists, n - 1, ClipTo(res)), Visible(lists, n - 1),
                 ListDraws(list, |list.cmds|, ClipTo(res)), VisibleIn(list, |list.cmds|), res);
    }
  }

  /** Draw by draw: the ambient texture shows while all handles so far are 0. */
  lemma {:induction false} WithAmbientAt(ds: seq<Draw>, texture: nat, k: nat)
    requires k < |ds|
    ensures WithAmbient(ds, texture)[k] == if AllZero(ds[..k + 1]) then ds[k].(texture := texture) else ds[k]
  {
    var n := |ds| - 1;
    if k < n {
      WithAmbientAt(ds[..n], texture, k);
      assert ds[..n][..k + 1] == ds[..k + 1];
    } else {
      assert ds[..k + 1] == ds;
    }
  }

  lemma AmbientShowsAll(ds: seq<Draw>, vs: seq<Listed>, ambient: nat, res: Size)
    requires Asks(ds, vs, res)
    ensures ShowsAll(WithAmbient(ds, ambient), vs, ambient, res)
  {
    forall k | 0 <= k < |vs|
      ensures Shows(WithAmbient(ds, ambient)[k], vs[k],
                    if OpensWithZero(vs, k) then ambient else vs[k].cmd.texture, res)
    {
      WithAmbientAt(ds, ambient, k);
      SameOpening(ds, vs, k, res);
      assert Shows(ds[k], vs[k], vs[k].cmd.texture, res);
    }
  }

  lemma SameOpening(ds: seq<Draw>, vs: seq<Listed>, k: nat, res: Size)
    requires Asks(ds, vs, res) && k < |vs|
    ensures AllZero(ds[..k + 1]) <==> OpensWithZero(vs, k)
  {
    forall i | 0 <= i <= k ensures ds[..k + 1][i].texture == vs[i].cmd.texture {
      assert Shows(ds[i], vs[i], vs[i].cmd.texture, res);
    }
    if AllZero(ds[..k + 1]) {
      forall i | 0 <= i <= k ensures vs[i].cmd.texture == 0 {
        assert ds[..k + 1][i].texture == 0;
      }
    }
  }

  /**
    A recorded frame on a display with an area, replayed over memory that starts with the
    lists' bytes: one draw for every command with a non-empty rectangle, in order, each with
    its list's vertices and its box, and with its texture unless every handle so far is 0.
   */
  lemma ReplayShowsVisible(lists: seq<DrawList>, res: Size, ambient: nat, vm: seq<u8>, im: seq<u8>)
    requires res.x > 0.0 && res.y > 0.0
    requires AllWellFormed(lists) && Loaded(lists, vm, im)
    ensures ShowsAll(Exec(GpuAtStart(ambient), RecordLists(lists, |lists|, ClipTo(res)).cmds, vm, im).draws,
                     Visible(lists, |lists|), ambient, res)
  {
    FlatteningPreservesMeaning(lists, ClipTo(res), ambient, vm, im);
    AskedIsVisible(lists, |lists|, res);
    AmbientShowsAll(AllDraws(lists, |lists|, ClipTo(res)), Visible(lists, |lists|), ambient, res);
  }
}
