/**
  InputHelper: previous and current samples of controller, keyboard and mouse,
  the edges between them, and the ZL + ZR toggle.
 */
module Input {
  import opened Hid

  type NpadButton = b: nat | b < 35
  type KeyboardKey = k: nat | k < 256
  type MouseButton = m: nat | m < 5

  const ZL: NpadButton := 8
  const ZR: NpadButton := 9
  const LEFT: NpadButton := 12
  const RIGHT: NpadButton := 14

  /**
    The flags of a device, as the set of naturals that its BitFlagSet stands for
    (BitFlags.BitFlagSet.Members): `i in flags` is `isBitSet(i)`.
   */
  type Flags = set<nat>

  const NO_FLAGS: Flags := {}

  datatype NpadState = NpadState(samplingNumber: nat, buttons: Flags)
  datatype KeyboardState = KeyboardState(samplingNumber: nat, keys: Flags)
  datatype MouseState = MouseState(
    samplingNumber: nat, x: int, y: int, wheelDeltaX: int, wheelDeltaY: int, buttons: Flags)

  /** Style tags in the order in which tryGetContState asks for them. */
  datatype Style = FullKey | Handheld | JoyDual | JoyLeft | JoyRight

  function Tag(style: Style): nat {
    match style
    case FullKey => 0
    case Handheld => 1
    case JoyDual => 2
    case JoyLeft => 3
    case JoyRight => 4
  }

  /** What the hardware would answer during one call of updatePadState. */
  datatype Sample = Sample(
    styles: Flags,
    fullKey: NpadState, handheld: NpadState, joyDual: NpadState, joyLeft: NpadState, joyRight: NpadState,
    keyboard: KeyboardState, mouse: MouseState)
  {
    function Pad(style: Style): NpadState {
      match style
      case FullKey => fullKey
      case Handheld => handheld
      case JoyDual => joyDual
      case JoyLeft => joyLeft
      case JoyRight => joyRight
    }

    predicate Recognised() {
      0 in styles || 1 in styles || 2 in styles || 3 in styles || 4 in styles
    }

    /** The first recognised tag that is set. */
    function Chosen(): (style: Style)
      requires Recognised()
      ensures Tag(style) in styles && forall t: nat :: t < Tag(style) ==> t !in styles
    {
      if 0 in styles then FullKey
      else if 1 in styles then Handheld
      else if 2 in styles then JoyDual
      else if 3 in styles then JoyLeft
      else JoyRight
    }
  }

  /** The static fields of InputHelper. */
  datatype Helper = Helper(
    prevPad: NpadState, curPad: NpadState,
    prevKeys: KeyboardState, curKeys: KeyboardState,
    prevMouse: MouseState, curMouse: MouseState,
    isReadInput: bool, toggle: bool)

  function Init(): Helper {
    var pad := NpadState(0, NO_FLAGS);
    var keys := KeyboardState(0, NO_FLAGS);
    var mouse := MouseState(0, 0, 0, 0, 0, NO_FLAGS);
    Helper(pad, pad, keys, keys, mouse, mouse, true, false)
  }

  /** One flag of one of the three devices. */
  datatype Channel = Pad(button: NpadButton) | Key(key: KeyboardKey) | Mouse(mouse: MouseButton)

  /** isButtonHold, isKeyHold, isMouseHold. */
  predicate Hold(h: Helper, c: Channel) {
    match c
    case Pad(b) => b in h.curPad.buttons
    case Key(k) => k in h.curKeys.keys
    case Mouse(m) => m in h.curMouse.buttons
  }

  predicate HeldBefore(h: Helper, c: Channel) {
    match c
    case Pad(b) => b in h.prevPad.buttons
    case Key(k) => k in h.prevKeys.keys
    case Mouse(m) => m in h.prevMouse.buttons
  }

  /** isButtonPress and its keyboard and mouse versions. */
  predicate Press(h: Helper, c: Channel) {
    Hold(h, c) && !HeldBefore(h, c)
  }

  predicate Release(h: Helper, c: Channel) {
    !Hold(h, c) && HeldBefore(h, c)
  }

  /** The trampoline around GetNpadStates: reads made by the game come back blank while toggled on. */
  function DisableButtons(h: Helper, raw: NpadState): NpadState {
    if !h.isReadInput && h.toggle then raw.(buttons := NO_FLAGS) else raw
  }

  function ContStateRead(h: Helper, s: Sample): Helper {
    var reading := h.(isReadInput := true);
    var read :=
      if s.Recognised() then reading.(curPad := DisableButtons(reading, s.Pad(s.Chosen())))
      else reading;
    read.(isReadInput := false)
  }

  function Updated(h: Helper, s: Sample): Helper {
    var pad := ContStateRead(h.(prevPad := h.curPad), s);
    var all := pad.(prevKeys := pad.curKeys, curKeys := s.keyboard, prevMouse := pad.curMouse, curMouse := s.mouse);
    if Hold(all, Pad(ZL)) && Press(all, Pad(ZR)) then all.(toggle := !all.toggle) else all
  }

  class InputHelper {
    var prevControllerState: NpadState
    var curControllerState: NpadState
    var prevKeyboardState: KeyboardState
    var curKeyboardState: KeyboardState
    var prevMouseState: MouseState
    var curMouseState: MouseState
    var isReadInput: bool
    var toggleInput: bool

    function State(): Helper
      reads this
    {
      Helper(prevControllerState, curControllerState, prevKeyboardState, curKeyboardState,
             prevMouseState, curMouseState, isReadInput, toggleInput)
    }

    constructor ()
      ensures State() == Init()
      ensures isReadInput && !toggleInput && prevControllerState == curControllerState == NpadState(0, {})
      ensures prevKeyboardState == curKeyboardState == KeyboardState(0, {})
      ensures prevMouseState == curMouseState == MouseState(0, 0, 0, 0, 0, {})
    {
      prevControllerState, curControllerState := NpadState(0, NO_FLAGS), NpadState(0, NO_FLAGS);
      prevKeyboardState, curKeyboardState := KeyboardState(0, NO_FLAGS), KeyboardState(0, NO_FLAGS);
      prevMouseState := MouseState(0, 0, 0, 0, 0, NO_FLAGS);
      curMouseState := MouseState(0, 0, 0, 0, 0, NO_FLAGS);
      isReadInput, toggleInput := true, false;
    }

    method IsHoldAndPress(hold: NpadButton, press: NpadButton) returns (r: bool)
      ensures r <==> Hold(State(), Pad(hold)) && Press(State(), Pad(press))
    {
      r := && hold in curControllerState.buttons
           && press in curControllerState.buttons && press !in prevControllerState.buttons;
    }

    /** A read of the pad through the trampoline. */
    method GetNpadState(raw: NpadState) returns (state: NpadState)
      ensures state == DisableButtons(State(), raw)
      ensures state == if toggleInput && !isReadInput then raw.(buttons := {}) else raw
    {
      state := raw;
      if !isReadInput && toggleInput {
        state := state.(buttons := NO_FLAGS);
      }
    }

    method TryGetContState(s: Sample) returns (result: bool)
      modifies this`curControllerState, this`isReadInput
      ensures result == s.Recognised()
      ensures State() == ContStateRead(old(State()), s)
      ensures curControllerState == if result then s.Pad(s.Chosen()) else old(curControllerState)
      ensures curControllerState ==
        if STYLE_FULL_KEY in s.styles then s.fullKey
        else if STYLE_HANDHELD in s.styles then s.handheld
        else if STYLE_JOY_DUAL in s.styles then s.joyDual
        else if STYLE_JOY_LEFT in s.styles then s.joyLeft
        else if STYLE_JOY_RIGHT in s.styles then s.joyRight
        else old(curControllerState)
      ensures !isReadInput
    {
      isReadInput := true;
      result := true;
      if 0 in s.styles {
        curControllerState := GetNpadState(s.fullKey);
      } else if 1 in s.styles {
        curControllerState := GetNpadState(s.handheld);
      } else if 2 in s.styles {
        curControllerState := GetNpadState(s.joyDual);
      } else if 3 in s.styles {
        curControllerState := GetNpadState(s.joyLeft);
      } else if 4 in s.styles {
        curControllerState := GetNpadState(s.joyRight);
      } else {
        result := false;
      }
      isReadInput := false;
    }

    method UpdatePadState(s: Sample)
      modifies this
      ensures State() == Updated(old(State()), s)
      ensures prevControllerState == old(curControllerState)
      ensures curControllerState == if s.Recognised() then s.Pad(s.Chosen()) else old(curControllerState)
      ensures prevKeyboardState == old(curKeyboardState) && curKeyboardState == s.keyboard
      ensures prevMouseState == old(curMouseState) && curMouseState == s.mouse
      ensures !isReadInput
      ensures toggleInput != old(toggleInput) <==>
        && PAD_ZL in curControllerState.buttons
        && PAD_ZR in curControllerState.buttons && PAD_ZR !in old(curControllerState).buttons
    {
      prevControllerState := curControllerState;
      var _ := TryGetContState(s);

      prevKeyboardState := curKeyboardState;
      curKeyboardState := s.keyboard;

      prevMouseState := curMouseState;
      curMouseState := s.mouse;

      var toggling := IsHoldAndPress(ZL, ZR);
      if toggling {
        toggleInput := !toggleInput;
      }
    }
  }
}
