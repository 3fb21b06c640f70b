/** The codes of the flags in nn/hid.h, by name: buttons, style tags, mouse buttons and keyboard keys. */
module Hid {
  const PAD_A: nat := 0
  const PAD_B: nat := 1
  const PAD_X: nat := 2
  const PAD_Y: nat := 3
  const PAD_L: nat := 6
  const PAD_R: nat := 7
  const PAD_ZL: nat := 8
  const PAD_ZR: nat := 9
  const PAD_PLUS: nat := 10
  const PAD_MINUS: nat := 11
  const PAD_LEFT: nat := 12
  const PAD_UP: nat := 13
  const PAD_RIGHT: nat := 14
  const PAD_DOWN: nat := 15
  const PAD_STICK_L_LEFT: nat := 16
  const PAD_STICK_L_UP: nat := 17
  const PAD_STICK_L_RIGHT: nat := 18
  const PAD_STICK_L_DOWN: nat := 19

  const STYLE_FULL_KEY: nat := 0
  const STYLE_HANDHELD: nat := 1
  const STYLE_JOY_DUAL: nat := 2
  const STYLE_JOY_LEFT: nat := 3
  const STYLE_JOY_RIGHT: nat := 4

  const MOUSE_LEFT: nat := 0
  const MOUSE_RIGHT: nat := 1
  const MOUSE_MIDDLE: nat := 2

  /** Letters follow KEY_A, D2 to D9 follow KEY_D1, F2 to F12 follow KEY_F1, NumPad2 to NumPad9 follow KEY_NUM_PAD_1. */
  const KEY_A: nat := 4
  const KEY_D1: nat := 30
  const KEY_D0: nat := 39
  const KEY_F1: nat := 58
  const KEY_NUM_PAD_1: nat := 89

  const KEY_RETURN: nat := 40
  const KEY_ESCAPE: nat := 41
  const KEY_BACKSPACE: nat := 42
  const KEY_TAB: nat := 43
  const KEY_SPACE: nat := 44
  const KEY_MINUS: nat := 45
  const KEY_PLUS: nat := 46
  const KEY_OPEN_BRACKET: nat := 47
  const KEY_CLOSE_BRACKET: nat := 48
  const KEY_SEMICOLON: nat := 51
  const KEY_QUOTE: nat := 52
  const KEY_BACKQUOTE: nat := 53
  const KEY_COMMA: nat := 54
  const KEY_PERIOD: nat := 55
  const KEY_SLASH: nat := 56
  const KEY_CAPS_LOCK: nat := 57
  const KEY_PRINT_SCREEN: nat := 70
  const KEY_SCROLL_LOCK: nat := 71
  const KEY_PAUSE: nat := 72
  const KEY_INSERT: nat := 73
  const KEY_HOME: nat := 74
  const KEY_PAGE_UP: nat := 75
  const KEY_DELETE: nat := 76
  const KEY_END: nat := 77
  const KEY_PAGE_DOWN: nat := 78
  const KEY_RIGHT_ARROW: nat := 79
  const KEY_LEFT_ARROW: nat := 80
  const KEY_DOWN_ARROW: nat := 81
  const KEY_UP_ARROW: nat := 82
  const KEY_NUM_LOCK: nat := 83
  const KEY_NUM_PAD_DIVIDE: nat := 84
  const KEY_NUM_PAD_MULTIPLY: nat := 85
  const KEY_NUM_PAD_SUBTRACT: nat := 86
  const KEY_NUM_PAD_ADD: nat := 87
  const KEY_NUM_PAD_ENTER: nat := 88
  const KEY_NUM_PAD_0: nat := 98
  const KEY_NUM_PAD_DOT: nat := 99
  const KEY_BACKSLASH: nat := 100
  const KEY_APPLICATION: nat := 101
  const KEY_NUM_PAD_EQUALS: nat := 103
  const KEY_LEFT_CONTROL: nat := 224
  const KEY_LEFT_SHIFT: nat := 225
  const KEY_LEFT_ALT: nat := 226
  const KEY_LEFT_GUI: nat := 227
  const KEY_RIGHT_CONTROL: nat := 228
  const KEY_RIGHT_SHIFT: nat := 229
  const KEY_RIGHT_ALT: nat := 230
  const KEY_RIGHT_GUI: nat := 231
}
