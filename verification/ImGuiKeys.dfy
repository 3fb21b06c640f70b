/**
  The mapping tables of imgui_hid_mappings.h: which hardware flag feeds which ImGui key or
  mouse button. ImGuiKey has the enumerators that the tables name, grouped; NoKey is ImGuiKey_None.
 */
module ImGuiKeys {
  import opened Input

  datatype GamepadKey =
    | FaceDown | FaceRight | FaceUp | FaceLeft | L1 | R1 | L2 | R2 | Start | Back | DpadLeft | DpadRight
    | DpadUp | DpadDown | LStickLeft | LStickRight | LStickUp | LStickDown

  datatype EditingKey =
    | Tab | LeftArrow | RightArrow | UpArrow | DownArrow | PageUp | PageDown | Home | End | Insert | Delete
    | Backspace | Space | Enter | Escape

  datatype ModifierKey =
    | LeftCtrl | LeftShift | LeftAlt | LeftSuper | RightCtrl | RightShift | RightAlt | RightSuper | Menu

  datatype PunctuationKey =
    | Apostrophe | Comma | Minus | Period | Slash | Semicolon | Equal | LeftBracket | Backslash | RightBracket
    | GraveAccent

  datatype LockKey =
    | CapsLock | ScrollLock | NumLock | PrintScreen | Pause

  datatype KeypadKey =
    | PadDecimal | PadDivide | PadMultiply | PadSubtract | PadAdd | PadEnter | PadEqual

  datatype ImGuiKey =
    | NoKey
    | Gamepad(pad: GamepadKey)
    | Editing(edit: EditingKey)
    | Modifier(modifier: ModifierKey)
    | Digit(digit: nat)
    | Letter(letter: char)
    | Function(number: nat)
    | Punctuation(mark: PunctuationKey)
    | Lock(lock: LockKey)
    | KeypadDigit(digit: nat)
    | Keypad(operation: KeypadKey)

  datatype ImGuiMouseButton = LeftButton | RightButton | MiddleButton

  datatype Target = KeyTarget(key: ImGuiKey) | ButtonTarget(button: ImGuiMouseButton)

  /** One row: an ImGui enumerator and the flag whose edges are sent under it. */
  datatype Mapping = Mapping(target: Target, channel: Channel)

  function PadRow(key: GamepadKey, button: NpadButton): Mapping { Mapping(KeyTarget(Gamepad(key)), Pad(button)) }
  function KeyRow(key: ImGuiKey, code: KeyboardKey): Mapping { Mapping(KeyTarget(key), Key(code)) }
  function MouseRow(button: ImGuiMouseButton, code: MouseButton): Mapping { Mapping(ButtonTarget(button), Mouse(code)) }

  function ButtonRows(): seq<Mapping> {
    [
      PadRow(FaceDown, 0), PadRow(FaceRight, 1), PadRow(FaceUp, 2), PadRow(FaceLeft, 3), PadRow(L1, 6),
      PadRow(R1, 7), PadRow(L2, 8), PadRow(R2, 9), PadRow(Start, 10), PadRow(Back, 11)
    ]
  }

  function DpadRows(): seq<Mapping> {
    [
      PadRow(DpadLeft, 12), PadRow(DpadRight, 14), PadRow(DpadUp, 13), PadRow(DpadDown, 15)
    ]
  }

  function StickRows(): seq<Mapping> {
    [
      PadRow(LStickLeft, 16), PadRow(LStickRight, 18), PadRow(LStickUp, 17), PadRow(LStickDown, 19)
    ]
  }

  function NpadMapping(): seq<Mapping> {
    ButtonRows() + DpadRows() + StickRows()
  }

  function MouseMapping(): seq<Mapping> {
    [MouseRow(LeftButton, 0), MouseRow(RightButton, 1), MouseRow(MiddleButton, 2)]
  }

  // ---- key_mapping, in parts --------------------------------------------------

  function NavigationRows(): seq<Mapping> {
    [
      KeyRow(NoKey, 0), KeyRow(Editing(Tab), 43), KeyRow(Editing(LeftArrow), 80),
      KeyRow(Editing(RightArrow), 79), KeyRow(Editing(UpArrow), 82), KeyRow(Editing(DownArrow), 81),
      KeyRow(Editing(PageUp), 75), KeyRow(Editing(PageDown), 78), KeyRow(Editing(Home), 74),
      KeyRow(Editing(End), 77)
    ]
  }

  function EditingRows(): seq<Mapping> {
    [
      KeyRow(Editing(Insert), 73), KeyRow(Editing(Delete), 76), KeyRow(Editing(Backspace), 42),
      KeyRow(Editing(Space), 44), KeyRow(Editing(Enter), 40), KeyRow(Editing(Escape), 41)
    ]
  }

  function ModifierRows(): seq<Mapping> {
    [
      KeyRow(Modifier(LeftCtrl), 224), KeyRow(Modifier(LeftShift), 225), KeyRow(Modifier(LeftAlt), 226),
      KeyRow(Modifier(LeftSuper), 227), KeyRow(Modifier(RightCtrl), 228), KeyRow(Modifier(RightShift), 229),
      KeyRow(Modifier(RightAlt), 230), KeyRow(Modifier(RightSuper), 231), KeyRow(Modifier(Menu), 101)
    ]
  }

  function DigitRows(): seq<Mapping> {
    [
      KeyRow(Digit(0), 39), KeyRow(Digit(1), 30), KeyRow(Digit(2), 31), KeyRow(Digit(3), 32),
      KeyRow(Digit(4), 33), KeyRow(Digit(5), 34), KeyRow(Digit(6), 35), KeyRow(Digit(7), 36),
      KeyRow(Digit(8), 37), KeyRow(Digit(9), 38)
    ]
  }

  function LetterAt(i: nat): (c: char)
    requires i < 26
    ensures c as int == 'A' as int + i
  {
    ('A' as int + i) as char
  }

  /** Letters have consecutive codes from 4 on. */
  function LetterRows(): seq<Mapping> {
    seq(26, i requires 0 <= i < 26 => KeyRow(Letter(LetterAt(i)), 4 + i))
  }

  function FunctionRows(): seq<Mapping> {
    [
      KeyRow(Function(1), 58), KeyRow(Function(2), 59), KeyRow(Function(3), 60), KeyRow(Function(4), 61),
      KeyRow(Function(5), 62), KeyRow(Function(6), 63), KeyRow(Function(7), 64), KeyRow(Function(8), 65),
      KeyRow(Function(9), 66), KeyRow(Function(10), 67), KeyRow(Function(11), 68), KeyRow(Function(12), 69)
    ]
  }

  function PunctuationRows(): seq<Mapping> {
    [
      KeyRow(Punctuation(Apostrophe), 52), KeyRow(Punctuation(Comma), 54), KeyRow(Punctuation(Minus), 45),
      KeyRow(Punctuation(Period), 55), KeyRow(Punctuation(Slash), 56), KeyRow(Punctuation(Semicolon), 51),
      KeyRow(Punctuation(Equal), 46), KeyRow(Punctuation(LeftBracket), 47), KeyRow(Punctuation(Backslash), 100),
      KeyRow(Punctuation(RightBracket), 48), KeyRow(Punctuation(GraveAccent), 53)
    ]
  }

  function LockRows(): seq<Mapping> {
    [
      KeyRow(Lock(CapsLock), 57), KeyRow(Lock(ScrollLock), 71), KeyRow(Lock(NumLock), 83),
      KeyRow(Lock(PrintScreen), 70), KeyRow(Lock(Pause), 72)
    ]
  }

  function KeypadRows(): seq<Mapping> {
    [
      KeyRow(KeypadDigit(0), 98), KeyRow(KeypadDigit(1), 89), KeyRow(KeypadDigit(2), 90),
      KeyRow(KeypadDigit(3), 91), KeyRow(KeypadDigit(4), 92), KeyRow(KeypadDigit(5), 93),
      KeyRow(KeypadDigit(6), 94), KeyRow(KeypadDigit(7), 95), KeyRow(KeypadDigit(8), 96),
      KeyRow(KeypadDigit(9), 97), KeyRow(Keypad(PadDecimal), 99), KeyRow(Keypad(PadDivide), 84),
      KeyRow(Keypad(PadMultiply), 85), KeyRow(Keypad(PadSubtract), 86), KeyRow(Keypad(PadAdd), 87),
      KeyRow(Keypad(PadEnter), 88), KeyRow(Keypad(PadEqual), 103)
    ]
  }

  function KeyMapping(): seq<Mapping> {
    NavigationRows() + EditingRows() + ModifierRows() + DigitRows() + LetterRows()
    + FunctionRows() + PunctuationRows() + LockRows() + KeypadRows()
  }

  // ---- The enumerators are distinct -------------------------------------------

  function GamepadIndex(k: GamepadKey): nat {
    match k
    case FaceDown => 0 case FaceRight => 1 case FaceUp => 2 case FaceLeft => 3 case L1 => 4 case R1 => 5
    case L2 => 6 case R2 => 7 case Start => 8 case Back => 9 case DpadLeft => 10 case DpadRight => 11
    case DpadUp => 12 case DpadDown => 13 case LStickLeft => 14 case LStickRight => 15 case LStickUp => 16
    case LStickDown => 17
  }

  function EditingIndex(k: EditingKey): nat {
    match k
    case Tab => 0 case LeftArrow => 1 case RightArrow => 2 case UpArrow => 3 case DownArrow => 4
    case PageUp => 5 case PageDown => 6 case Home => 7 case End => 8 case Insert => 9 case Delete => 10
    case Backspace => 11 case Space => 12 case Enter => 13 case Escape => 14
  }

  function ModifierIndex(k: ModifierKey): nat {
    match k
    case LeftCtrl => 0 case LeftShift => 1 case LeftAlt => 2 case LeftSuper => 3 case RightCtrl => 4
    case RightShift => 5 case RightAlt => 6 case RightSuper => 7 case Menu => 8
  }

  function PunctuationIndex(k: PunctuationKey): nat {
    match k
    case Apostrophe => 0 case Comma => 1 case Minus => 2 case Period => 3 case Slash => 4 case Semicolon => 5
    case Equal => 6 case LeftBracket => 7 case Backslash => 8 case RightBracket => 9 case GraveAccent => 10
  }

  function LockIndex(k: LockKey): nat {
    match k
    case CapsLock => 0 case ScrollLock => 1 case NumLock => 2 case PrintScreen => 3 case Pause => 4
  }

  function KeypadIndex(k: KeypadKey): nat {
    match k
    case PadDecimal => 0 case PadDivide => 1 case PadMultiply => 2 case PadSubtract => 3 case PadAdd => 4
    case PadEnter => 5 case PadEqual => 6
  }

  /** The row that names a target, counted through npad_mapping, mouse_mapping and key_mapping. */
  function RowOf(t: Target): int {
    match t
    case ButtonTarget(b) => (match b case LeftButton => 18 case RightButton => 19 case MiddleButton => 20)
    case KeyTarget(NoKey) => 21
    case KeyTarget(Gamepad(k)) => GamepadIndex(k)
    case KeyTarget(Editing(k)) => 22 + EditingIndex(k)
    case KeyTarget(Modifier(k)) => 37 + ModifierIndex(k)
    case KeyTarget(Digit(n)) => 46 + n
    case KeyTarget(Letter(c)) => 56 + (c as int - 'A' as int)
    case KeyTarget(Function(n)) => 81 + n
    case KeyTarget(Punctuation(k)) => 94 + PunctuationIndex(k)
    case KeyTarget(Lock(k)) => 105 + LockIndex(k)
    case KeyTarget(KeypadDigit(n)) => 110 + n
    case KeyTarget(Keypad(k)) => 120 + KeypadIndex(k)
  }

  /** The rows name the targets that RowOf counts from `first`. */
  ghost predicate NumberedFrom(rows: seq<Mapping>, first: nat) {
    forall i | 0 <= i < |rows| :: RowOf(rows[i].target) == first + i
  }

  lemma NumberedConcat(a: seq<Mapping>, b: seq<Mapping>, first: nat)
    requires NumberedFrom(a, first) && NumberedFrom(b, first + |a|)
    ensures NumberedFrom(a + b, first)
  {
  }

  lemma ButtonRowsNumbered()
    ensures |ButtonRows()| == 10 && NumberedFrom(ButtonRows(), 0)
  {
  }

  lemma DpadRowsNumbered()
    ensures |DpadRows()| == 4 && NumberedFrom(DpadRows(), 10)
  {
  }

  lemma StickRowsNumbered()
    ensures |StickRows()| == 4 && NumberedFrom(StickRows(), 14)
  {
  }

  lemma MouseMappingNumbered()
    ensures |MouseMapping()| == 3 && NumberedFrom(MouseMapping(), 18)
  {
  }

  lemma NavigationRowsNumbered()
    ensures |NavigationRows()| == 10 && NumberedFrom(NavigationRows(), 21)
  {
  }

  lemma EditingRowsNumbered()
    ensures |EditingRows()| == 6 && NumberedFrom(EditingRows(), 31)
  {
  }

  lemma ModifierRowsNumbered()
    ensures |ModifierRows()| == 9 && NumberedFrom(ModifierRows(), 37)
  {
  }

  lemma DigitRowsNumbered()
    ensures |DigitRows()| == 10 && NumberedFrom(DigitRows(), 46)
  {
  }

  lemma LetterRowsNumbered()
    ensures |LetterRows()| == 26 && NumberedFrom(LetterRows(), 56)
  {
  }

  lemma FunctionRowsNumbered()
    ensures |FunctionRows()| == 12 && NumberedFrom(FunctionRows(), 82)
  {
  }

  lemma PunctuationRowsNumbered()
    ensures |PunctuationRows()| == 11 && NumberedFrom(PunctuationRows(), 94)
  {
  }

  lemma LockRowsNumbered()
    ensures |LockRows()| == 5 && NumberedFrom(LockRows(), 105)
  {
  }

  lemma KeypadRowsNumbered()
    ensures |KeypadRows()| == 17 && NumberedFrom(KeypadRows(), 110)
  {
  }

  lemma KeyMappingNumbered()
    ensures |KeyMapping()| == 106 && NumberedFrom(KeyMapping(), 21)
  {
    NavigationRowsNumbered();
    EditingRowsNumbered();
    ModifierRowsNumbered();
    DigitRowsNumbered();
    LetterRowsNumbered();
    FunctionRowsNumbered();
    PunctuationRowsNumbered();
    LockRowsNumbered();
    KeypadRowsNumbered();
    var editing := NavigationRows() + EditingRows();
    var modifiers := editing + ModifierRows();
    var digits := modifiers + DigitRows();
    var letters := digits + LetterRows();
    var functions := letters + FunctionRows();
    var punctuation := functions + PunctuationRows();
    var locks := punctuation + LockRows();
    NumberedConcat(NavigationRows(), EditingRows(), 21);
    NumberedConcat(editing, ModifierRows(), 21);
    NumberedConcat(modifiers, DigitRows(), 21);
    NumberedConcat(digits, LetterRows(), 21);
    NumberedConcat(letters, FunctionRows(), 21);
    NumberedConcat(functions, PunctuationRows(), 21);
    NumberedConcat(punctuation, LockRows(), 21);
    NumberedConcat(locks, KeypadRows(), 21);
  }

  lemma NpadMappingNumbered()
    ensures |NpadMapping()| == 18 && NumberedFrom(NpadMapping(), 0)
  {
    ButtonRowsNumbered();
    DpadRowsNumbered();
    StickRowsNumbered();
    NumberedConcat(ButtonRows(), DpadRows(), 0);
    NumberedConcat(ButtonRows() + DpadRows(), StickRows(), 0);
  }

  /** Every row of the three tables names a target of its own. */
  lemma TablesNumbered()
    ensures NumberedFrom(NpadMapping() + MouseMapping() + KeyMapping(), 0)
    ensures |NpadMapping() + MouseMapping() + KeyMapping()| == 127
  {
    NpadMappingNumbered();
    MouseMappingNumbered();
    KeyMappingNumbered();
    NumberedConcat(NpadMapping(), MouseMapping(), 0);
    NumberedConcat(NpadMapping() + MouseMapping(), KeyMapping(), 0);
  }
}
