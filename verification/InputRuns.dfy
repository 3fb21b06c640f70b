/** What holds of InputHelper over whole runs of updatePadState. */
module InputRuns {
  import opened Input
  import opened Signals

  /** The state after sampling every frame in turn. */
  function Run(h: Helper, frames: seq<Sample>): Helper {
    if frames == [] then h
    else Updated(Run(h, frames[..|frames| - 1]), frames[|frames| - 1])
  }

  lemma RunSnoc(h: Helper, frames: seq<Sample>, s: Sample)
    ensures Run(h, frames + [s]) == Updated(Run(h, frames), s)
  {
    assert (frames + [s])[..|frames|] == frames;
  }

  /** After an update the previous level is the one that was current, whatever was sampled. */
  lemma PreviousIsLast(h: Helper, s: Sample, c: Channel)
    ensures HeldBefore(Updated(h, s), c) == Hold(h, c)
  {
  }

  /** The level after an update is the hardware's, or the old one for an unreadable controller. */
  lemma CurrentIsSampled(h: Helper, s: Sample, c: Channel)
    ensures Hold(Updated(h, s), c) <==>
      match c
      case Pad(b) => if s.Recognised() then b in s.Pad(s.Chosen()).buttons else Hold(h, c)
      case Key(k) => k in s.keyboard.keys
      case Mouse(m) => m in s.mouse.buttons
  {
  }

  lemma NothingHeldInitially(c: Channel)
    ensures !Hold(Init(), c) && !HeldBefore(Init(), c)
  {
  }

  // ---- Edges ------------------------------------------------------------------

  /** The levels a channel takes: before the first frame, then after each frame. */
  function Levels(h: Helper, frames: seq<Sample>, c: Channel): (l: seq<bool>)
    ensures |l| == |frames| + 1 && l[0] == Hold(h, c) && l[|frames|] == Hold(Run(h, frames), c)
  {
    (if frames == [] then [] else Levels(h, frames[..|frames| - 1], c)) + [Hold(Run(h, frames), c)]
  }

  /** What isButtonPress and isButtonRelease report of one channel after an update. */
  function EdgeEvents(h: Helper, c: Channel): seq<bool> {
    (if Press(h, c) then [true] else []) + (if Release(h, c) then [false] else [])
  }

  /** The reported edges of one channel along a run. */
  function Edges(h: Helper, frames: seq<Sample>, c: Channel): seq<bool> {
    if frames == [] then []
    else Edges(h, frames[..|frames| - 1], c) + EdgeEvents(Run(h, frames), c)
  }

  lemma EdgeEventsAreChange(h: Helper, s: Sample, c: Channel)
    ensures EdgeEvents(Updated(h, s), c) == Change(Hold(h, c), Hold(Updated(h, s), c))
  {
    PreviousIsLast(h, s, c);
  }

  lemma {:induction false} EdgesAreLevelChanges(h: Helper, frames: seq<Sample>, c: Channel)
    ensures Edges(h, frames, c) == EdgesOf(Levels(h, frames, c))
  {
    if frames != [] {
      var n := |frames| - 1;
      EdgesAreLevelChanges(h, frames[..n], c);
      EdgeEventsAreChange(Run(h, frames[..n]), frames[n], c);
      assert Levels(h, frames, c)[..n + 1] == Levels(h, frames[..n], c);
    }
  }

  /**
    From any starting state the reported edges alternate, the level at the end is the level
    at the start flipped once per edge, and hold is the telescoped sum of presses and releases.
   */
  lemma EdgeLaw(h: Helper, frames: seq<Sample>, c: Channel)
    ensures var e := Edges(h, frames, c);
      && AlternatesFrom(e, Hold(h, c))
      && Hold(Run(h, frames), c) == ((|e| % 2 == 1) != Hold(h, c))
      && One(Hold(Run(h, frames), c)) == One(Hold(h, c)) + Count(e, true) - Count(e, false)
      && |e| <= |frames|
  {
    EdgesAreLevelChanges(h, frames, c);
    EdgesAlternate(Levels(h, frames, c));
    LevelIsSumOfEdges(Levels(h, frames, c));
  }

  /** From the zeroed statics: press first, strict alternation, and presses lead releases by the hold. */
  lemma EdgesFromStart(frames: seq<Sample>, c: Channel)
    ensures var e := Edges(Init(), frames, c);
      && (forall i | 0 <= i < |e| :: e[i] == (i % 2 == 0))
      && Count(e, true) - Count(e, false) == One(Hold(Run(Init(), frames), c))
      && (Hold(Run(Init(), frames), c) <==> |e| % 2 == 1)
  {
    NothingHeldInitially(c);
    EdgeLaw(Init(), frames, c);
  }

  // ---- Frames whose controller style is not recognised --------------------------

  function Readable(frames: seq<Sample>): seq<Sample> {
    if frames == [] then []
    else
      var kept, last := Readable(frames[..|frames| - 1]), frames[|frames| - 1];
      if last.Recognised() then kept + [last] else kept
  }

  /** An unreadable frame repeats the last controller sample: no edge, no toggle. */
  lemma UnreadableFrame(h: Helper, s: Sample, b: NpadButton)
    requires !s.Recognised()
    ensures var h' := Updated(h, s);
      && h'.curPad == h'.prevPad == h.curPad && h'.toggle == h.toggle
      && EdgeEvents(h', Pad(b)) == []
  {
  }

  lemma EdgesSnoc(h: Helper, frames: seq<Sample>, s: Sample, c: Channel)
    ensures Edges(h, frames + [s], c) == Edges(h, frames, c) + EdgeEvents(Updated(Run(h, frames), s), c)
  {
    RunSnoc(h, frames, s);
    assert (frames + [s])[..|frames|] == frames;
  }

  /** Deleting every unreadable frame changes neither the controller events nor the toggle. */
  lemma {:induction false} StutteringInvariance(h: Helper, frames: seq<Sample>, b: NpadButton)
    ensures Edges(h, frames, Pad(b)) == Edges(h, Readable(frames), Pad(b))
    ensures Run(h, frames).toggle == Run(h, Readable(frames)).toggle
    ensures Run(h, frames).curPad == Run(h, Readable(frames)).curPad
  {
    if frames != [] {
      var n := |frames| - 1;
      var earlier, last := frames[..n], frames[n];
      var kept := Readable(earlier);
      StutteringInvariance(h, earlier, b);
      assert frames == earlier + [last];
      StutteringStep(h, earlier, kept, last, b);
    }
  }

  lemma StutteringStep(h: Helper, earlier: seq<Sample>, kept: seq<Sample>, s: Sample, b: NpadButton)
    requires Edges(h, earlier, Pad(b)) == Edges(h, kept, Pad(b))
    requires Run(h, earlier).toggle == Run(h, kept).toggle
    requires Run(h, earlier).curPad == Run(h, kept).curPad
    ensures var kept' := if s.Recognised() then kept + [s] else kept;
      && Edges(h, earlier + [s], Pad(b)) == Edges(h, kept', Pad(b))
      && Run(h, earlier + [s]).toggle == Run(h, kept').toggle
      && Run(h, earlier + [s]).curPad == Run(h, kept').curPad
  {
    RunSnoc(h, earlier, s);
    EdgesSnoc(h, earlier, s, Pad(b));
    if s.Recognised() {
      RunSnoc(h, kept, s);
      EdgesSnoc(h, kept, s, Pad(b));
      SamePadSameEdges(Run(h, earlier), Run(h, kept), s, b);
    } else {
      UnreadableFrame(Run(h, earlier), s, b);
    }
  }

  lemma SamePadSameEdges(g: Helper, h: Helper, s: Sample, b: NpadButton)
    requires g.curPad == h.curPad && g.toggle == h.toggle && s.Recognised()
    ensures var g', h' := Updated(g, s), Updated(h, s);
      && g'.curPad == h'.curPad && g'.prevPad == h'.prevPad && g'.toggle == h'.toggle
      && EdgeEvents(g', Pad(b)) == EdgeEvents(h', Pad(b))
  {
  }

  // ---- What the statics hold -------------------------------------------------------

  /** The pad, keyboard and mouse that were read last. */
  function LastPad(h: Helper, frames: seq<Sample>): NpadState {
    var readable := Readable(frames);
    if readable == [] then h.curPad
    else
      var s := readable[|readable| - 1];
      if s.Recognised() then s.Pad(s.Chosen()) else h.curPad
  }

  function LastKeys(h: Helper, frames: seq<Sample>): KeyboardState {
    if frames == [] then h.curKeys else frames[|frames| - 1].keyboard
  }

  function LastMouse(h: Helper, frames: seq<Sample>): MouseState {
    if frames == [] then h.curMouse else frames[|frames| - 1].mouse
  }

  /**
    The statics after a run, whole: the current states are those read last, the previous
    ones those read last before the last frame.
   */
  lemma {:induction false} RunHoldsLastSamples(h: Helper, frames: seq<Sample>)
    ensures var now := Run(h, frames);
      && now.curPad == LastPad(h, frames) && now.curKeys == LastKeys(h, frames) && now.curMouse == LastMouse(h, frames)
      && (frames != [] ==>
        var earlier := frames[..|frames| - 1];
        && now.prevPad == LastPad(h, earlier) && now.prevKeys == LastKeys(h, earlier)
        && now.prevMouse == LastMouse(h, earlier) && !now.isReadInput)
  {
    if frames != [] { RunHoldsLastSamples(h, frames[..|frames| - 1]); }
  }

  // ---- The toggle -----------------------------------------------------------------

  /** How many frames of a run show ZL held and a rising edge on ZR. */
  function Flips(h: Helper, frames: seq<Sample>): nat {
    GatedRises(Levels(h, frames, Pad(ZL)), Levels(h, frames, Pad(ZR)))
  }

  /** The toggle is the parity of the flips. */
  lemma {:induction false} ToggleIsParity(h: Helper, frames: seq<Sample>)
    ensures Run(h, frames).toggle == ((Flips(h, frames) % 2 == 1) != h.toggle)
  {
    if frames != [] {
      var n := |frames| - 1;
      ToggleIsParity(h, frames[..n]);
      ToggleStep(Run(h, frames[..n]), frames[n]);
      FlipsStep(h, frames);
    }
  }

  lemma FlipsStep(h: Helper, frames: seq<Sample>)
    requires frames != []
    ensures var before, after := Run(h, frames[..|frames| - 1]), Run(h, frames);
      Flips(h, frames) == Flips(h, frames[..|frames| - 1])
        + One(Hold(after, Pad(ZL)) && Hold(after, Pad(ZR)) && !Hold(before, Pad(ZR)))
  {
    var n := |frames| - 1;
    forall c ensures Levels(h, frames, c)[..n + 1] == Levels(h, frames[..n], c) {}
  }

  lemma ToggleStep(h: Helper, s: Sample)
    ensures var h' := Updated(h, s);
      h'.toggle == ((Hold(h', Pad(ZL)) && Hold(h', Pad(ZR)) && !Hold(h, Pad(ZR))) != h.toggle)
  {
  }

  /** n frames toggle at most (n + 1) / 2 times. */
  lemma ToggleBound(h: Helper, frames: seq<Sample>)
    ensures Flips(h, frames) <= (|frames| + 1) / 2
  {
    GatedRisesApart(Levels(h, frames, Pad(ZL)), Levels(h, frames, Pad(ZR)));
  }

  /** Two frames in a row never both toggle. */
  lemma TogglesNotAdjacent(h: Helper, s: Sample, s': Sample)
    ensures var h1 := Updated(h, s);
      Updated(h1, s').toggle == h1.toggle || h1.toggle == h.toggle
  {
    ToggleStep(h, s);
    ToggleStep(Updated(h, s), s');
  }

  /** ZL held throughout, ZR tapped on every other frame. */
  function Tapping(n: nat): (frames: seq<Sample>)
    ensures |frames| == n
  {
    if n == 0 then [] else Tapping(n - 1) + [Tap(n % 2 == 1)]
  }

  function Tap(zr: bool): Sample {
    var h := Init();
    var pad := NpadState(0, if zr then {ZL, ZR} else {ZL});
    Sample({0}, pad, pad, pad, pad, pad, h.curKeys, h.curMouse)
  }

  /** The bound on toggles is attained by runs of every length. */
  lemma {:induction false} ToggleBoundAttained(n: nat)
    ensures Flips(Init(), Tapping(n)) == (n + 1) / 2
    ensures Hold(Run(Init(), Tapping(n)), Pad(ZR)) <==> n % 2 == 1
  {
    if n == 0 {
      NothingHeldInitially(Pad(ZR));
    } else {
      ToggleBoundAttained(n - 1);
      RunSnoc(Init(), Tapping(n - 1), Tap(n % 2 == 1));
      assert Tapping(n)[..n - 1] == Tapping(n - 1);
      FlipsStep(Init(), Tapping(n));
    }
  }
}
