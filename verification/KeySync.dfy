/**
  When ImGui's idea of a key agrees with the hardware. updatePadState is called from two
  places: by newFrame, which forwards the edges, and by the controller hook in Camera.cpp,
  which does not. An edge seen by the hook is swallowed.
 */
module KeySync {
  import opened EventLaw
  import opened Input
  import opened ImGuiInput
  import opened ImGuiKeys
  import opened InputRuns
  import opened KeyMeaning

  /** What can happen: the game's controller update, or the presentation of a frame. */
  datatype Tick = LayerCalc(s: Sample) | Present(s: Sample)

  datatype System = System(helper: Helper, events: seq<IoEvent>)

  /** procDraw does nothing while input is toggled off; newFrame samples and then forwards. */
  function Step(y: System, tick: Tick, m: Tables): System {
    match tick
    case LayerCalc(s) => y.(helper := Updated(y.helper, s))
    case Present(s) =>
      if !y.helper.toggle then y
      else
        var h := Updated(y.helper, s);
        System(h, y.events + InputEvents(h, m))
  }

  function Steps(y: System, ticks: seq<Tick>, m: Tables): System {
    if ticks == [] then y
    else Step(Steps(y, ticks[..|ticks| - 1], m), ticks[|ticks| - 1], m)
  }

  /** ImGui's level for `t`, if it was `down` before any of the events. */
  function ImGuiDown(y: System, t: Target, down: bool): bool {
    DownAfter(y.events, t, down)
  }

  /** ImGui and the hardware agree. */
  predicate InSync(y: System, c: Channel, t: Target, down: bool) {
    ImGuiDown(y, t, down) == Hold(y.helper, c)
  }

  predicate EdgeAt(y: System, tick: Tick, c: Channel, m: Tables) {
    Hold(y.helper, c) != Hold(Step(y, tick, m).helper, c)
  }

  /** The tick forwards what it sees: a frame presented while toggled on, before and after sampling. */
  predicate Forwards(y: System, tick: Tick, m: Tables) {
    tick.Present? && y.helper.toggle && Step(y, tick, m).helper.toggle
  }

  /** What one tick does to the count of edges not forwarded since the last one that was. */
  function SwallowedAfter(count: nat, edge: bool, forwards: bool): nat {
    if !edge then count else if forwards then 0 else count + 1
  }

  /** Edges of `c` not forwarded, counted from the last one that was, or from `start` before any was. */
  function Swallowed(y: System, ticks: seq<Tick>, c: Channel, m: Tables, start: nat): nat {
    if ticks == [] then start
    else
      var before, tick := Steps(y, ticks[..|ticks| - 1], m), ticks[|ticks| - 1];
      var count := Swallowed(y, ticks[..|ticks| - 1], c, m, start);
      SwallowedAfter(count, EdgeAt(before, tick, c, m), Forwards(before, tick, m))
  }

  /** One tick: a forwarded edge restores agreement, a swallowed one inverts it. */
  lemma SyncStep(y: System, tick: Tick, c: Channel, t: Target, m: Tables, down: bool)
    requires Feeds(m, c, t)
    ensures InSync(Step(y, tick, m), c, t, down) ==
      if !EdgeAt(y, tick, c, m) then InSync(y, c, t, down)
      else if Forwards(y, tick, m) then true
      else !InSync(y, c, t, down)
  {
    if tick.Present? && y.helper.toggle {
      var h := Updated(y.helper, tick.s);
      PreviousIsLast(y.helper, tick.s, c);
      FrameOutcome(h, m, c, t, ImGuiDown(y, t, down));
      DownAfterConcat(y.events, InputEvents(h, m), t, down);
    }
  }

  lemma SwallowedParity(count: nat, edge: bool, forwards: bool)
    ensures SwallowedAfter(count, edge, forwards) % 2 == 0 <==>
      if !edge then count % 2 == 0 else forwards || count % 2 == 1
  {
  }

  /** The same step, as arithmetic on the count. */
  lemma ParityStep(y: System, tick: Tick, c: Channel, t: Target, m: Tables, down: bool, count: nat)
    requires Feeds(m, c, t)
    requires InSync(y, c, t, down) <==> count % 2 == 0
    ensures InSync(Step(y, tick, m), c, t, down) <==>
      SwallowedAfter(count, EdgeAt(y, tick, c, m), Forwards(y, tick, m)) % 2 == 0
  {
    SwallowedParity(count, EdgeAt(y, tick, c, m), Forwards(y, tick, m));
    SyncStep(y, tick, c, t, m, down);
  }

  /**
    Over any run of the two callers: ImGui agrees with the hardware on a key exactly when
    the edges swallowed since the last forwarded one are even in number.
   */
  lemma {:induction false} InSyncIffSwallowedEven(
    y: System, ticks: seq<Tick>, c: Channel, t: Target, m: Tables, down: bool)
    requires Feeds(m, c, t)
    ensures InSync(Steps(y, ticks, m), c, t, down) <==>
      Swallowed(y, ticks, c, m, if InSync(y, c, t, down) then 0 else 1) % 2 == 0
  {
    if ticks != [] {
      var earlier, start := ticks[..|ticks| - 1], if InSync(y, c, t, down) then 0 else 1;
      InSyncIffSwallowedEven(y, earlier, c, t, m, down);
      ParityStep(Steps(y, earlier, m), ticks[|ticks| - 1], c, t, m, down, Swallowed(y, earlier, c, m, start));
    }
  }

  /**
    The same with the tables in use, for each of the 126 keys and buttons that have a flag of
    their own, and that flag; ImGuiKey_None, which stands for none, never moves.
   */
  lemma EveryMappedKey(y: System, ticks: seq<Tick>, t: Target, down: bool)
    requires Named(t)
    ensures if IsKey(t) then
        InSync(Steps(y, ticks, Mappings()), FlagOf(t), t, down) <==>
          Swallowed(y, ticks, FlagOf(t), Mappings(), if InSync(y, FlagOf(t), t, down) then 0 else 1) % 2 == 0
      else ImGuiDown(Steps(y, ticks, Mappings()), t, down) == down
  {
    if IsKey(t) {
      NamedKeyFeeds(t);
      InSyncIffSwallowedEven(y, ticks, FlagOf(t), t, Mappings(), down);
    } else {
      NoKeyNeverMoves(Steps(y, ticks, Mappings()).events, down);
    }
  }

  /** A forwarded frame tells ImGui of just those named keys whose own flag has changed since the last sample. */
  lemma PresentSendsChanges(y: System, s: Sample, t: Target, down: bool)
    requires Forwards(y, Present(s), Mappings())
    ensures var after := Step(y, Present(s), Mappings());
      && y.events <= after.events
      && (Level(t, down) in after.events[|y.events|..] <==>
        Named(t) && Hold(after.helper, FlagOf(t)) == down && Hold(y.helper, FlagOf(t)) != down)
  {
    var h := Updated(y.helper, s);
    FrameSends(h);
    assert (y.events + InputEvents(h, Mappings()))[|y.events|..] == InputEvents(h, Mappings());
    if Named(t) { PreviousIsLast(y.helper, s, FlagOf(t)); }
  }

  /** Every tick of the run is a frame presented and forwarded: input stays toggled on throughout. */
  predicate Stretch(y: System, ticks: seq<Tick>, m: Tables) {
    ticks == []
    || (Stretch(y, ticks[..|ticks| - 1], m) && Forwards(Steps(y, ticks[..|ticks| - 1], m), ticks[|ticks| - 1], m))
  }

  /** Somewhere in the run, an edge of `c`. */
  predicate EdgeWithin(y: System, ticks: seq<Tick>, c: Channel, m: Tables) {
    && ticks != []
    && var earlier, last := ticks[..|ticks| - 1], ticks[|ticks| - 1];
       EdgeWithin(y, earlier, c, m) || EdgeAt(Steps(y, earlier, m), last, c, m)
  }

  /** Within a stretch, agreement holds at the end exactly if it held before or an edge came by. */
  lemma {:induction false} StretchSync(y: System, ticks: seq<Tick>, c: Channel, t: Target, m: Tables, down: bool)
    requires Feeds(m, c, t) && Stretch(y, ticks, m)
    ensures InSync(Steps(y, ticks, m), c, t, down) <==> InSync(y, c, t, down) || EdgeWithin(y, ticks, c, m)
  {
    if ticks != [] {
      var earlier, last := ticks[..|ticks| - 1], ticks[|ticks| - 1];
      StretchSync(y, earlier, c, t, m, down);
      SyncStep(Steps(y, earlier, m), last, c, t, m, down);
    }
  }

  // ---- Sampling twice ---------------------------------------------------------

  /** The controller hook and the frame after it see the same hardware, round after round. */
  function Doubled(samples: seq<Sample>): seq<Tick> {
    if samples == [] then []
    else
      var n := |samples| - 1;
      Doubled(samples[..n]) + [LayerCalc(samples[n]), Present(samples[n])]
  }

  lemma StepsConcat(y: System, ticks: seq<Tick>, a: Tick, b: Tick, m: Tables)
    ensures Steps(y, ticks + [a, b], m) == Step(Step(Steps(y, ticks, m), a, m), b, m)
  {
    assert (ticks + [a, b])[..|ticks| + 1] == ticks + [a];
    assert (ticks + [a])[..|ticks|] == ticks;
  }

  /** The second of two equal samples shows no edge on any device. */
  lemma SecondSampleIsQuiet(h: Helper, s: Sample)
    ensures NoEdges(Updated(Updated(h, s), s))
  {
  }

  /** `later` extends `earlier` by wheel events only. */
  predicate OnlyWheelSince(earlier: seq<IoEvent>, later: seq<IoEvent>) {
    earlier <= later && OnlyWheel(later[|earlier|..])
  }

  lemma DoubledRoundIsDeaf(y: System, s: Sample, m: Tables)
    ensures OnlyWheelSince(y.events, Step(Step(y, LayerCalc(s), m), Present(s), m).events)
  {
    var h := Updated(Updated(y.helper, s), s);
    SecondSampleIsQuiet(y.helper, s);
    NoEdgesOnlyWheel(h, m);
    assert (y.events + InputEvents(h, m))[|y.events|..] == InputEvents(h, m);
  }

  lemma OnlyWheelChains(a: seq<IoEvent>, b: seq<IoEvent>, c: seq<IoEvent>)
    requires OnlyWheelSince(a, b) && OnlyWheelSince(b, c)
    ensures OnlyWheelSince(a, c)
  {
    forall i | |a| <= i < |c| ensures c[i].Wheel? {
      if i < |b| {
        assert c[i] == b[i] == b[|a|..][i - |a|];
      } else {
        assert c[i] == c[|b|..][i - |b|];
      }
    }
  }

  /** If every presented frame repeats the sample the hook has just taken, no key event is ever sent. */
  lemma {:induction false} DoubledSamplingIsDeaf(y: System, samples: seq<Sample>, m: Tables)
    ensures OnlyWheelSince(y.events, Steps(y, Doubled(samples), m).events)
  {
    if samples != [] {
      var n := |samples| - 1;
      var s, earlier := samples[n], Doubled(samples[..n]);
      DoubledSamplingIsDeaf(y, samples[..n], m);
      StepsConcat(y, earlier, LayerCalc(s), Present(s), m);
      DoubledRoundIsDeaf(Steps(y, earlier, m), s, m);
      OnlyWheelChains(y.events, Steps(y, earlier, m).events, Steps(y, Doubled(samples), m).events);
    }
  }

  /** So every level stays what it was, whatever is pressed. */
  lemma DoubledSamplingKeepsLevels(y: System, samples: seq<Sample>, t: Target, m: Tables, down: bool)
    ensures ImGuiDown(Steps(y, Doubled(samples), m), t, down) == ImGuiDown(y, t, down)
  {
    var later := Steps(y, Doubled(samples), m).events;
    DoubledSamplingIsDeaf(y, samples, m);
    assert later == y.events + later[|y.events|..];
    DownAfterConcat(y.events, later[|y.events|..], t, down);
    OnlyWheelKeepsKeys(later[|y.events|..], t, ImGuiDown(y, t, down));
  }

  /** A key that drifts: button A goes down under the hook, and the frame after it tells ImGui nothing. */
  lemma PressUnderTheHookIsLost() returns (y: System, s: Sample)
    ensures var row0 := Mappings().Rows()[0];
      && row0 == Mapping(KeyTarget(Gamepad(FaceDown)), Pad(0)) && y.helper.toggle
      && InSync(y, row0.channel, row0.target, false)
      && !InSync(Steps(y, Doubled([s]), Mappings()), row0.channel, row0.target, false)
  {
    var off := Init();
    var pad := NpadState(0, {0});
    y := System(off.(toggle := true), []);
    s := Sample({0}, pad, pad, pad, pad, pad, off.curKeys, off.curMouse);
    DoubledSamplingKeepsLevels(y, [s], KeyTarget(Gamepad(FaceDown)), Mappings(), false);
    StepsConcat(y, [], LayerCalc(s), Present(s), Mappings());
    assert Doubled([s]) == [] + [LayerCalc(s), Present(s)];
    CurrentIsSampled(y.helper, s, Pad(0));
    CurrentIsSampled(Updated(y.helper, s), s, Pad(0));
  }

  // ---- The helper behind the system --------------------------------------------

  /** The samples that reach the helper: all of the hook's, and a frame's while toggled on. */
  function Sampled(y: System, ticks: seq<Tick>, m: Tables): seq<Sample> {
    if ticks == [] then []
    else
      var before, tick := Steps(y, ticks[..|ticks| - 1], m), ticks[|ticks| - 1];
      var earlier := Sampled(y, ticks[..|ticks| - 1], m);
      if tick.LayerCalc? || before.helper.toggle then earlier + [tick.s] else earlier
  }

  /** However the two callers interleave, the helper goes through a run of InputRuns. */
  lemma {:induction false} HelperFollowsRun(y: System, ticks: seq<Tick>, m: Tables)
    ensures Steps(y, ticks, m).helper == Run(y.helper, Sampled(y, ticks, m))
  {
    if ticks != [] {
      var earlier, tick := ticks[..|ticks| - 1], ticks[|ticks| - 1];
      HelperFollowsRun(y, earlier, m);
      RunSnoc(y.helper, Sampled(y, earlier, m), tick.s);
    }
  }

  /** Of n ticks, at most (n + 1) / 2 change the toggle, whichever callers they belong to. */
  lemma SystemToggleLaw(y: System, ticks: seq<Tick>, m: Tables)
    ensures var flips := Flips(y.helper, Sampled(y, ticks, m));
      && Steps(y, ticks, m).helper.toggle == ((flips % 2 == 1) != y.helper.toggle)
      && flips <= (|ticks| + 1) / 2
  {
    HelperFollowsRun(y, ticks, m);
    ToggleIsParity(y.helper, Sampled(y, ticks, m));
    ToggleBound(y.helper, Sampled(y, ticks, m));
    SampledAtMost(y, ticks, m);
  }

  lemma {:induction false} SampledAtMost(y: System, ticks: seq<Tick>, m: Tables)
    ensures |Sampled(y, ticks, m)| <= |ticks|
  {
    if ticks != [] { SampledAtMost(y, ticks[..|ticks| - 1], m); }
  }

  // ---- What the game reads ---------------------------------------------------------

  lemma {:induction false} NotReadingBetweenSamples(h: Helper, frames: seq<Sample>)
    ensures Run(h, frames).isReadInput == (frames == [] && h.isReadInput)
  {
    if frames != [] { NotReadingBetweenSamples(h, frames[..|frames| - 1]); }
  }

  /**
    Between ticks, after any run of both callers from the start: the game's own read of a pad
    loses its buttons exactly when the toggle has been flipped an odd number of times.
   */
  lemma GameReadsBlankIff(ticks: seq<Tick>, m: Tables, raw: NpadState)
    ensures var y := System(Init(), []);
      DisableButtons(Steps(y, ticks, m).helper, raw)
        == if Flips(Init(), Sampled(y, ticks, m)) % 2 == 1 then raw.(buttons := NO_FLAGS) else raw
  {
    var y := System(Init(), []);
    HelperFollowsRun(y, ticks, m);
    ToggleIsParity(Init(), Sampled(y, ticks, m));
    NotReadingBetweenSamples(Init(), Sampled(y, ticks, m));
  }

  // ---- The code ---------------------------------------------------------------

  method NewFrame(helper: InputHelper, io: ImGuiIO, s: Sample)
    modifies helper, io
    ensures helper.State() == Updated(old(helper.State()), s)
    ensures io.events == old(io.events) + InputEvents(helper.State(), Mappings())
    ensures helper.toggleInput ==> io.mouseX == s.mouse.x && io.mouseY == s.mouse.y
    ensures !helper.toggleInput ==> unchanged(io)
  {
    helper.UpdatePadState(s);
    io.UpdateInput(helper);
  }

  /** The input half of procDraw; drawing itself is RenderBackend.Backend.RenderDrawData. */
  method ProcDraw(helper: InputHelper, io: ImGuiIO, s: Sample)
    modifies helper, io
    ensures System(helper.State(), io.events)
      == Step(System(old(helper.State()), old(io.events)), Present(s), Mappings())
    ensures old(helper.toggleInput) && helper.toggleInput ==> io.mouseX == s.mouse.x && io.mouseY == s.mouse.y
    ensures !old(helper.toggleInput) || !helper.toggleInput ==> unchanged(io)
  {
    if !helper.toggleInput {
      return;
    }
    NewFrame(helper, io, s);
  }

  /** The controller hook: it samples and forwards nothing. */
  method LayerCalcCallback(helper: InputHelper, s: Sample)
    modifies helper
    ensures forall events, m ::
      System(helper.State(), events) == Step(System(old(helper.State()), events), LayerCalc(s), m)
  {
    helper.UpdatePadState(s);
  }
}
