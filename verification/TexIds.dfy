/** texIDSelector: step the texture id with Left and Right, repeating after thirty held frames. */
module TexIds {
  import opened Input
  import opened InputRuns
  import opened Signals

  /** The function's static variables. */
  datatype Selector = Selector(curId: int, downCounter: int, upCounter: int)

  const FRESH := Selector(256, 0, 0)

  function StepLeft(s: Selector, h: Helper): Selector {
    if Press(h, Pad(LEFT)) then s.(curId := s.curId - 1)
    else if Hold(h, Pad(LEFT)) then
      s.(downCounter := s.downCounter + 1, curId := if s.downCounter + 1 > 30 then s.curId - 1 else s.curId)
    else s.(downCounter := 0)
  }

  function StepRight(s: Selector, h: Helper): Selector {
    if Press(h, Pad(RIGHT)) then s.(curId := s.curId + 1)
    else if Hold(h, Pad(RIGHT)) then
      s.(upCounter := s.upCounter + 1, curId := if s.upCounter + 1 > 30 then s.curId + 1 else s.curId)
    else s.(upCounter := 0)
  }

  /** The selector after being called once behind every update of the run. */
  function Select(s: Selector, h: Helper, frames: seq<Sample>): Selector {
    if frames == [] then s
    else
      var now := Run(h, frames);
      StepRight(StepLeft(Select(s, h, frames[..|frames| - 1]), now), now)
  }

  // ---- Holds --------------------------------------------------------------------

  /** How many samples the hold in progress at the end has lasted; 0 when not held. */
  function HoldLength(levels: seq<bool>): nat {
    if levels == [] || !levels[|levels| - 1] then 0 else 1 + HoldLength(levels[..|levels| - 1])
  }

  /** A hold of this length steps the id: at the press, and from the thirty-second frame on. */
  predicate StepsAt(length: nat) {
    length == 1 || length > 31
  }

  /** The steps a flag earns along its levels. */
  function StepCount(levels: seq<bool>): nat {
    if levels == [] then 0
    else StepCount(levels[..|levels| - 1]) + One(StepsAt(HoldLength(levels)))
  }

  /** The levels of a pad button after each frame of a run that starts with nothing held. */
  function ButtonLevels(frames: seq<Sample>, b: NpadButton): (l: seq<bool>)
    ensures |l| == |frames|
  {
    if frames == [] then []
    else ButtonLevels(frames[..|frames| - 1], b) + [Hold(Run(Init(), frames), Pad(b))]
  }

  lemma ButtonLevelsSnoc(frames: seq<Sample>, b: NpadButton)
    requires frames != []
    ensures var n := |frames| - 1; var l := ButtonLevels(frames, b); var l' := ButtonLevels(frames[..n], b);
      && l[..n] == l' && l[n] == Hold(Run(Init(), frames), Pad(b))
      && HoldLength(l) == (if l[n] then 1 + HoldLength(l') else 0)
      && StepCount(l) == StepCount(l') + One(StepsAt(HoldLength(l)))
  {
  }

  /** A counter is the length of the current hold minus one, or zero. */
  function CounterFor(length: nat): nat {
    if length == 0 then 0 else length - 1
  }

  lemma {:induction false} HeldIffLength(frames: seq<Sample>, b: NpadButton)
    ensures Hold(Run(Init(), frames), Pad(b)) <==> HoldLength(ButtonLevels(frames, b)) > 0
  {
    if frames == [] { NothingHeldInitially(Pad(b)); } else { ButtonLevelsSnoc(frames, b); }
  }

  /** The selector in closed form, for every run from the start. */
  lemma {:induction false} SelectorClosedForm(frames: seq<Sample>)
    ensures var left, right := ButtonLevels(frames, LEFT), ButtonLevels(frames, RIGHT);
      Select(FRESH, Init(), frames) == Selector(
        256 - StepCount(left) + StepCount(right),
        CounterFor(HoldLength(left)), CounterFor(HoldLength(right)))
  {
    if frames != [] {
      var n := |frames| - 1;
      SelectorClosedForm(frames[..n]);
      SelectorStep(frames, LEFT);
      SelectorStep(frames, RIGHT);
    }
  }

  /** The steps a button has earned in a run of the helper. */
  function Earned(frames: seq<Sample>, b: NpadButton): nat {
    StepCount(ButtonLevels(frames, b))
  }

  lemma IdClosedForm(frames: seq<Sample>)
    ensures Select(FRESH, Init(), frames).curId == 256 - Earned(frames, LEFT) + Earned(frames, RIGHT)
  {
    SelectorClosedForm(frames);
  }

  /** What one frame shows of a button, in terms of the hold before it. */
  lemma SelectorStep(frames: seq<Sample>, b: NpadButton)
    requires frames != []
    ensures var before := HoldLength(ButtonLevels(frames[..|frames| - 1], b));
      var after := HoldLength(ButtonLevels(frames, b));
      var h := Run(Init(), frames);
      && (after == 0 || after == before + 1)
      && (Hold(h, Pad(b)) <==> after > 0)
      && (Press(h, Pad(b)) <==> after == 1)
      && StepCount(ButtonLevels(frames, b)) == StepCount(ButtonLevels(frames[..|frames| - 1], b)) + One(StepsAt(after))
  {
    var n := |frames| - 1;
    ButtonLevelsSnoc(frames, b);
    HeldIffLength(frames[..n], b);
    PreviousIsLast(Run(Init(), frames[..n]), frames[n], Pad(b));
  }

  // ---- One hold -------------------------------------------------------------------

  /** A run in which `b` is released, then held for the last `n` frames. */
  ghost predicate HeldForLast(levels: seq<bool>, n: nat) {
    && n <= |levels|
    && (forall i | |levels| - n <= i < |levels| :: levels[i])
    && (|levels| > n ==> !levels[|levels| - n - 1])
  }

  function HoldSteps(n: nat): nat {
    if n == 0 then 0 else 1 + (if n > 31 then n - 31 else 0)
  }

  /** Holding for n frames from a fresh press earns 1 + max(0, n - 31) steps. */
  lemma {:induction false} OneHold(levels: seq<bool>, n: nat)
    requires HeldForLast(levels, n)
    ensures HoldLength(levels) == n
    ensures StepCount(levels) == StepCount(levels[..|levels| - n]) + HoldSteps(n)
  {
    var m := |levels| - 1;
    if n > 0 {
      assert HeldForLast(levels[..m], n - 1) by {
        assert levels[..m][..m - (n - 1)] == levels[..|levels| - n];
      }
      OneHold(levels[..m], n - 1);
      assert levels[..m][..m - (n - 1)] == levels[..|levels| - n];
    } else {
      assert levels[..|levels|] == levels;
    }
  }

  /**
    Left held alone for the last n frames of a run moves the id down by 1 + max(0, n - 31),
    Right alone moves it up by as much, and holding both from the same frame moves it not at all.
   */
  lemma AutoRepeat(frames: seq<Sample>, n: nat)
    requires n <= |frames|
    ensures var left, right := ButtonLevels(frames, LEFT), ButtonLevels(frames, RIGHT);
      var start := Select(FRESH, Init(), frames[..|frames| - n]).curId;
      var now := Select(FRESH, Init(), frames).curId;
      && (HeldForLast(left, n) && Idle(right, n) ==> now == start - HoldSteps(n))
      && (HeldForLast(right, n) && Idle(left, n) ==> now == start + HoldSteps(n))
      && (HeldForLast(left, n) && HeldForLast(right, n) ==> now == start)
  {
    var before := frames[..|frames| - n];
    IdClosedForm(frames);
    IdClosedForm(before);
    StepsEarned(frames, n, LEFT);
    StepsEarned(frames, n, RIGHT);
  }

  /** What the last n frames earn a button that was held, or untouched, throughout. */
  lemma StepsEarned(frames: seq<Sample>, n: nat, b: NpadButton)
    requires n <= |frames|
    ensures var l := ButtonLevels(frames, b);
      var before := Earned(frames[..|frames| - n], b);
      && (HeldForLast(l, n) ==> Earned(frames, b) == before + HoldSteps(n))
      && (Idle(l, n) ==> Earned(frames, b) == before)
  {
    var l := ButtonLevels(frames, b);
    ButtonLevelsPrefix(frames, |frames| - n, b);
    if HeldForLast(l, n) { OneHold(l, n); }
    if Idle(l, n) { IdleEarnsNothing(l, n); }
  }

  ghost predicate Idle(levels: seq<bool>, n: nat) {
    n <= |levels| && forall i | |levels| - n <= i < |levels| :: !levels[i]
  }

  lemma {:induction false} IdleEarnsNothing(levels: seq<bool>, n: nat)
    requires Idle(levels, n)
    ensures StepCount(levels) == StepCount(levels[..|levels| - n])
  {
    if n > 0 {
      var m := |levels| - 1;
      IdleEarnsNothing(levels[..m], n - 1);
      assert levels[..m][..m - (n - 1)] == levels[..|levels| - n];
    } else {
      assert levels[..|levels|] == levels;
    }
  }

  lemma {:induction false} ButtonLevelsPrefix(frames: seq<Sample>, m: nat, b: NpadButton)
    requires m <= |frames|
    ensures ButtonLevels(frames, b)[..m] == ButtonLevels(frames[..m], b)
  {
    if m < |frames| {
      var n := |frames| - 1;
      ButtonLevelsPrefix(frames[..n], m, b);
      assert frames[..n][..m] == frames[..m];
    } else {
      assert frames[..m] == frames;
    }
  }

  // ---- The code ---------------------------------------------------------------

  class TexIdSelector {
    var curId: int
    var downCounter: int
    var upCounter: int

    function State(): Selector
      reads this
    {
      Selector(curId, downCounter, upCounter)
    }

    constructor ()
      ensures State() == FRESH
    {
      curId, downCounter, upCounter := 256, 0, 0;
    }

    method Next(helper: InputHelper) returns (id: int)
      modifies this
      ensures State() == StepRight(StepLeft(old(State()), helper.State()), helper.State())
      ensures id == State().curId
    {
      if Press(helper.State(), Pad(LEFT)) {
        curId := curId - 1;
      } else if Hold(helper.State(), Pad(LEFT)) {
        downCounter := downCounter + 1;
        if downCounter > 30 {
          curId := curId - 1;
        }
      } else {
        downCounter := 0;
      }

      if Press(helper.State(), Pad(RIGHT)) {
        curId := curId + 1;
      } else if Hold(helper.State(), Pad(RIGHT)) {
        upCounter := upCounter + 1;
        if upCounter > 30 {
          curId := curId + 1;
        }
      } else {
        upCounter := 0;
      }
      id := curId;
    }
  }
}
