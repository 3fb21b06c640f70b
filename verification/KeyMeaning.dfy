/**
  Which flag of the hardware each ImGui key or button stands for, by the names of both,
  and that the mapping tables say just that.
 */
module KeyMeaning {
  import opened Hid
  import opened Input
  import opened ImGuiKeys

  function PadCode(k: GamepadKey): NpadButton {
    match k
    case FaceDown => PAD_A case FaceRight => PAD_B case FaceUp => PAD_X case FaceLeft => PAD_Y
    case L1 => PAD_L case R1 => PAD_R case L2 => PAD_ZL case R2 => PAD_ZR case Start => PAD_PLUS case Back => PAD_MINUS
    case DpadLeft => PAD_LEFT case DpadRight => PAD_RIGHT case DpadUp => PAD_UP case DpadDown => PAD_DOWN
    case LStickLeft => PAD_STICK_L_LEFT case LStickRight => PAD_STICK_L_RIGHT
    case LStickUp => PAD_STICK_L_UP case LStickDown => PAD_STICK_L_DOWN
  }

  function MouseCode(b: ImGuiMouseButton): MouseButton {
    match b
    case LeftButton => MOUSE_LEFT case RightButton => MOUSE_RIGHT case MiddleButton => MOUSE_MIDDLE
  }

  function EditingCode(k: EditingKey): KeyboardKey {
    match k
    case Tab => KEY_TAB case LeftArrow => KEY_LEFT_ARROW case RightArrow => KEY_RIGHT_ARROW
    case UpArrow => KEY_UP_ARROW case DownArrow => KEY_DOWN_ARROW case PageUp => KEY_PAGE_UP
    case PageDown => KEY_PAGE_DOWN case Home => KEY_HOME case End => KEY_END case Insert => KEY_INSERT
    case Delete => KEY_DELETE case Backspace => KEY_BACKSPACE case Space => KEY_SPACE case Enter => KEY_RETURN
    case Escape => KEY_ESCAPE
  }

  function ModifierCode(k: ModifierKey): KeyboardKey {
    match k
    case LeftCtrl => KEY_LEFT_CONTROL case LeftShift => KEY_LEFT_SHIFT case LeftAlt => KEY_LEFT_ALT
    case LeftSuper => KEY_LEFT_GUI case RightCtrl => KEY_RIGHT_CONTROL case RightShift => KEY_RIGHT_SHIFT
    case RightAlt => KEY_RIGHT_ALT case RightSuper => KEY_RIGHT_GUI case Menu => KEY_APPLICATION
  }

  function PunctuationCode(k: PunctuationKey): KeyboardKey {
    match k
    case Apostrophe => KEY_QUOTE case Comma => KEY_COMMA case Minus => KEY_MINUS case Period => KEY_PERIOD
    case Slash => KEY_SLASH case Semicolon => KEY_SEMICOLON case Equal => KEY_PLUS
    case LeftBracket => KEY_OPEN_BRACKET case Backslash => KEY_BACKSLASH case RightBracket => KEY_CLOSE_BRACKET
    case GraveAccent => KEY_BACKQUOTE
  }

  function LockCode(k: LockKey): KeyboardKey {
    match k
    case CapsLock => KEY_CAPS_LOCK case ScrollLock => KEY_SCROLL_LOCK case NumLock => KEY_NUM_LOCK
    case PrintScreen => KEY_PRINT_SCREEN case Pause => KEY_PAUSE
  }

  function KeypadCode(k: KeypadKey): KeyboardKey {
    match k
    case PadDecimal => KEY_NUM_PAD_DOT case PadDivide => KEY_NUM_PAD_DIVIDE case PadMultiply => KEY_NUM_PAD_MULTIPLY
    case PadSubtract => KEY_NUM_PAD_SUBTRACT case PadAdd => KEY_NUM_PAD_ADD case PadEnter => KEY_NUM_PAD_ENTER
    case PadEqual => KEY_NUM_PAD_EQUALS
  }

  /** The target is one that hid.h has a flag for, or ImGuiKey_None. */
  predicate Named(t: Target) {
    match t
    case KeyTarget(Digit(n)) => n <= 9
    case KeyTarget(KeypadDigit(n)) => n <= 9
    case KeyTarget(Letter(c)) => 'A' <= c <= 'Z'
    case KeyTarget(Function(n)) => 1 <= n <= 12
    case _ => true
  }

  /** The code of the keyboard key that an ImGui key stands for; ImGuiKey_None stands for code 0, which is no key's. */
  function KeyboardCode(key: ImGuiKey): KeyboardKey
    requires !key.Gamepad? && Named(KeyTarget(key))
  {
    match key
    case NoKey => 0
    case Editing(k) => EditingCode(k)
    case Modifier(k) => ModifierCode(k)
    case Digit(n) => if n == 0 then KEY_D0 else KEY_D1 + (n - 1)
    case Letter(c) => KEY_A + (c as int - 'A' as int)
    case Function(n) => KEY_F1 + (n - 1)
    case Punctuation(k) => PunctuationCode(k)
    case Lock(k) => LockCode(k)
    case KeypadDigit(n) => if n == 0 then KEY_NUM_PAD_0 else KEY_NUM_PAD_1 + (n - 1)
    case Keypad(k) => KeypadCode(k)
  }

  /** The flag that a target stands for. */
  function FlagOf(t: Target): Channel
    requires Named(t)
  {
    match t
    case ButtonTarget(b) => Mouse(MouseCode(b))
    case KeyTarget(key) => if key.Gamepad? then Pad(PadCode(key.pad)) else Key(KeyboardCode(key))
  }

  /** Every row follows the flag that its target stands for. */
  ghost predicate Agrees(rows: seq<Mapping>) {
    forall i | 0 <= i < |rows| :: Named(rows[i].target) && rows[i].channel == FlagOf(rows[i].target)
  }

  lemma ButtonRowsAgree()
    ensures Agrees(ButtonRows())
  {
  }

  lemma DpadRowsAgree()
    ensures Agrees(DpadRows())
  {
  }

  lemma StickRowsAgree()
    ensures Agrees(StickRows())
  {
  }

  lemma MouseMappingAgrees()
    ensures Agrees(MouseMapping())
  {
  }

  lemma NavigationRowsAgree()
    ensures Agrees(NavigationRows())
  {
  }

  lemma EditingRowsAgree()
    ensures Agrees(EditingRows())
  {
  }

  lemma ModifierRowsAgree()
    ensures Agrees(ModifierRows())
  {
  }

  lemma DigitRowsAgree()
    ensures Agrees(DigitRows())
  {
  }

  lemma LetterRowsAgree()
    ensures Agrees(LetterRows())
  {
  }

  lemma FunctionRowsAgree()
    ensures Agrees(FunctionRows())
  {
  }

  lemma PunctuationRowsAgree()
    ensures Agrees(PunctuationRows())
  {
  }

  lemma LockRowsAgree()
    ensures Agrees(LockRows())
  {
  }

  lemma KeypadRowsAgree()
    ensures Agrees(KeypadRows())
  {
  }

  lemma AgreesConcat(a: seq<Mapping>, b: seq<Mapping>)
    requires Agrees(a) && Agrees(b)
    ensures Agrees(a + b)
  {
  }

  lemma KeyMappingAgrees()
    ensures Agrees(KeyMapping())
  {
    NavigationRowsAgree();
    EditingRowsAgree();
    ModifierRowsAgree();
    DigitRowsAgree();
    LetterRowsAgree();
    FunctionRowsAgree();
    PunctuationRowsAgree();
    LockRowsAgree();
    KeypadRowsAgree();
    var editing := NavigationRows() + EditingRows();
    var modifiers := editing + ModifierRows();
    var digits := modifiers + DigitRows();
    var letters := digits + LetterRows();
    var functions := letters + FunctionRows();
    var punctuation := functions + PunctuationRows();
    var locks := punctuation + LockRows();
    AgreesConcat(NavigationRows(), EditingRows());
    AgreesConcat(editing, ModifierRows());
    AgreesConcat(modifiers, DigitRows());
    AgreesConcat(digits, LetterRows());
    AgreesConcat(letters, FunctionRows());
    AgreesConcat(functions, PunctuationRows());
    AgreesConcat(punctuation, LockRows());
    AgreesConcat(locks, KeypadRows());
  }

  /** In the three tables in use, every row follows the flag that its target stands for. */
  lemma TablesAgree()
    ensures Agrees(NpadMapping() + MouseMapping() + KeyMapping())
  {
    ButtonRowsAgree();
    DpadRowsAgree();
    StickRowsAgree();
    AgreesConcat(ButtonRows(), DpadRows());
    AgreesConcat(ButtonRows() + DpadRows(), StickRows());
    MouseMappingAgrees();
    KeyMappingAgrees();
    AgreesConcat(NpadMapping(), MouseMapping());
    AgreesConcat(NpadMapping() + MouseMapping(), KeyMapping());
  }

  /** The buttons that InputHelper and the texture selector ask for are those of these keys. */
  lemma ButtonsInUse()
    ensures Pad(ZL) == FlagOf(KeyTarget(Gamepad(L2))) && Pad(ZR) == FlagOf(KeyTarget(Gamepad(R2)))
    ensures Pad(LEFT) == FlagOf(KeyTarget(Gamepad(DpadLeft))) && Pad(RIGHT) == FlagOf(KeyTarget(Gamepad(DpadRight)))
  {
  }

  lemma RowOfInjective(t: Target, t': Target)
    requires Named(t) && Named(t') && RowOf(t) == RowOf(t')
    ensures t == t'
  {
  }

  lemma KeyboardCodeInjective(k: ImGuiKey, k': ImGuiKey)
    requires !k.Gamepad? && Named(KeyTarget(k)) && !k'.Gamepad? && Named(KeyTarget(k'))
    requires KeyboardCode(k) == KeyboardCode(k')
    ensures k == k'
  {
  }

  /** No two targets stand for the same flag. */
  lemma FlagOfInjective(t: Target, t': Target)
    requires Named(t) && Named(t') && FlagOf(t) == FlagOf(t')
    ensures t == t'
  {
    if t.KeyTarget? && t'.KeyTarget? && !t.key.Gamepad? && !t'.key.Gamepad? {
      KeyboardCodeInjective(t.key, t'.key);
    }
  }
}
