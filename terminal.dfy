/**
 * The terminal key-event vocabulary both input paths produce and consume
 * (the crossterm types `KeyCode`, `KeyModifiers`, `KeyEventKind`,
 * `KeyEventState` and `KeyEvent`, restricted to the values this program uses).
 */
module Terminal {

  datatype KeyCode =
    | Esc | Enter | Backspace | Tab | Delete | Home | End | PageUp | PageDown
    | Up | Down | Left | Right
    | F(n: nat)
    | Char(c: char)

  /** One modifier flag; a set of flags is a `KeyModifiers` value. */
  datatype Modifier = Shift | Control | Alt

  datatype KeyEventKind = Press | Repeat | Release

  /** One flag of `KeyEventState`. */
  datatype StateFlag = Keypad | CapsLockOn | NumLockOn

  datatype KeyEvent = KeyEvent(code: KeyCode, modifiers: set<Modifier>, kind: KeyEventKind, state: set<StateFlag>)
}
