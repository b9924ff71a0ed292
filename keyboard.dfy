/**
 * The on-screen keyboard widget driven by four buttons and by key events
 * (app/src/keyboard/input.rs). The key layout and the function giving the
 * text a key types are parameters of the widget: the layout module is not
 * part of this model.
 */
module Keyboard {
  import opened Wrappers
  import Terminal

  datatype ButtonId = A | B | X | Y

  /** How a button was pressed; `Long` stands for every press kind other than short and double. */
  datatype ButtonPress = Short | Double | Long

  datatype InputEvent = Button(id: ButtonId, press: ButtonPress) | Key(event: Terminal.KeyEvent)

  datatype KeyboardAction = KeyPress(text: string) | Backspace | Space | Exit

  datatype KeyboardMode = Normal | Shift | CapsLock

  /** A layout the widget can navigate: at least two rows (so that `max_row - 1` does not underflow), none of them empty. */
  predicate WellFormedLayout(layout: seq<seq<string>>) {
    |layout| >= 2 && forall r :: 0 <= r < |layout| ==> |layout[r]| > 0
  }

  /** The mode after pressing the key labelled `key` in mode `m`. */
  function ModeAfterKey(m: KeyboardMode, key: string): (r: KeyboardMode)
    ensures key == "shift" ==> r == (if m == Shift then Normal else Shift)
    ensures key == "caps" ==> r == (if m == CapsLock then Normal else CapsLock)
    ensures key == "Done" || key == "[ space ]" ==> r == m
    ensures IsTypingKey(key) ==> r == (if m == Shift then Normal else m)
  {
    match key
    case "Done" => m
    case "shift" => if m == Shift then Normal else Shift
    case "caps" => if m == CapsLock then Normal else CapsLock
    case "[ space ]" => m
    case _ => if m == Shift then Normal else m
  }

  /** A key that types text rather than switching mode, finishing or inserting a space. */
  predicate IsTypingKey(key: string) {
    key != "Done" && key != "shift" && key != "caps" && key != "[ space ]"
  }

  /** Shift is one-shot: it applies to one typed key and falls back to Normal. Caps lock stays. */
  lemma ShiftIsOneShotCapsLockPersists(key: string)
    requires IsTypingKey(key)
    ensures ModeAfterKey(Shift, key) == Normal
    ensures ModeAfterKey(CapsLock, key) == CapsLock
    ensures ModeAfterKey(Normal, key) == Normal
  {
  }

  /** Pressing shift twice, or caps twice, from Normal comes back to Normal. */
  lemma ToggleTwiceFromNormal()
    ensures ModeAfterKey(ModeAfterKey(Normal, "shift"), "shift") == Normal
    ensures ModeAfterKey(ModeAfterKey(Normal, "caps"), "caps") == Normal
  {
  }

  class KeyboardWidget {
    const layout: seq<seq<string>>
    /** `get_key_display_string`: the text a key types, given whether the keyboard is shifted. */
    const display: (string, bool) -> string
    var cursor: (nat, nat)
    var mode: KeyboardMode

    /** The cursor names a key of the layout. */
    ghost predicate Valid()
      reads this
    {
      WellFormedLayout(layout) && cursor.0 < |layout| && cursor.1 < |layout[cursor.0]|
    }

    constructor (layout: seq<seq<string>>, display: (string, bool) -> string)
      requires WellFormedLayout(layout)
      ensures this.layout == layout && this.display == display
      ensures cursor == (0, 0) && mode == Normal
      ensures Valid()
    {
      this.layout := layout;
      this.display := display;
      cursor := (0, 0);
      mode := Normal;
    }

    /** `is_cursor_at_right_edge`. */
    method IsCursorAtRightEdge() returns (atEdge: bool)
      requires Valid()
      ensures atEdge <==> cursor.1 == |layout[cursor.0]| - 1
    {
      var (row, col) := cursor;
      var maxCol := |layout[row]| - 1;
      atEdge := col == maxCol;
    }

    /** `clamp_cursor_col`: after a row change, pull the column back onto the new row. */
    method ClampCursorCol()
      requires WellFormedLayout(layout) && cursor.0 < |layout|
      modifies this
      ensures Valid()
      ensures cursor.0 == old(cursor.0) && mode == old(mode)
      ensures cursor.1 == if old(cursor.1) < |layout[cursor.0]| then old(cursor.1) else |layout[cursor.0]| - 1
    {
      var maxCol := |layout[cursor.0]| - 1;
      if cursor.1 > maxCol {
        cursor := (cursor.0, maxCol);
      }
    }

    /** `press_key`: act on the key under the cursor. */
    method PressKey() returns (action: Option<KeyboardAction>)
      requires Valid()
      modifies this
      ensures Valid() && cursor == old(cursor)
      ensures var key := layout[cursor.0][cursor.1];
        && mode == ModeAfterKey(old(mode), key)
        && (key == "Done" ==> action == Some(Exit))
        && (key == "[ space ]" ==> action == Some(Space))
        && (key == "shift" || key == "caps" ==> action == None)
        && (IsTypingKey(key) ==> action == Some(KeyPress(display(key, old(mode) != Normal))))
    {
      var (row, col) := cursor;
      var key := layout[row][col];
      match key {
        case "Done" =>
          action := Some(Exit);
        case "shift" =>
          mode := if mode == Shift then Normal else Shift;
          action := None;
        case "caps" =>
          mode := if mode == CapsLock then Normal else CapsLock;
          action := None;
        case "[ space ]" =>
          action := Some(Space);
        case _ =>
          var isShifted := mode == Shift || mode == CapsLock;
          var keyStr := display(key, isShifted);
          if mode == Shift {
            mode := Normal;
          }
          action := Some(KeyPress(keyStr));
      }
    }

    /** `handle_input`: move the cursor, or act, for one button press or key event. */
    method HandleInput(event: InputEvent) returns (action: Option<KeyboardAction>)
      requires Valid()
      modifies this
      ensures Valid()
      // A short: one column right, wrapping to the first column at the right edge.
      ensures event == Button(A, Short) ==>
        && cursor.0 == old(cursor.0) && mode == old(mode) && action == None
        && cursor.1 == if old(cursor.1) < |layout[cursor.0]| - 1 then old(cursor.1) + 1 else 0
      // B short: one column left, wrapping to the last column at the left edge.
      ensures event == Button(B, Short) ==>
        && cursor.0 == old(cursor.0) && mode == old(mode) && action == None
        && cursor.1 == if old(cursor.1) > 0 then old(cursor.1) - 1 else |layout[cursor.0]| - 1
      // X short / double: up one / two rows, unless that leaves the layout; the column is clamped.
      ensures event == Button(X, Short) ==>
        && mode == old(mode) && action == None
        && (if old(cursor.0) > 0
            then cursor.0 == old(cursor.0) - 1 && cursor.1 == Clamp(old(cursor.1), |layout[cursor.0]|)
            else cursor == old(cursor))
      ensures event == Button(X, Double) ==>
        && mode == old(mode) && action == None
        && (if old(cursor.0) > 1
            then cursor.0 == old(cursor.0) - 2 && cursor.1 == Clamp(old(cursor.1), |layout[cursor.0]|)
            else cursor == old(cursor))
      // Y short / double: down one / two rows, unless that leaves the layout; the column is clamped.
      ensures event == Button(Y, Short) ==>
        && mode == old(mode) && action == None
        && (if old(cursor.0) < |layout| - 1
            then cursor.0 == old(cursor.0) + 1 && cursor.1 == Clamp(old(cursor.1), |layout[cursor.0]|)
            else cursor == old(cursor))
      ensures event == Button(Y, Double) ==>
        && mode == old(mode) && action == None
        && (if old(cursor.0) < |layout| - 2
            then cursor.0 == old(cursor.0) + 2 && cursor.1 == Clamp(old(cursor.1), |layout[cursor.0]|)
            else cursor == old(cursor))
      // A double presses the key under the cursor; B double is backspace.
      ensures event == Button(A, Double) ==>
        var key := layout[cursor.0][cursor.1];
        && cursor == old(cursor)
        && mode == ModeAfterKey(old(mode), key)
        && (key == "Done" ==> action == Some(Exit))
        && (key == "[ space ]" ==> action == Some(Space))
        && (key == "shift" || key == "caps" ==> action == None)
        && (IsTypingKey(key) ==> action == Some(KeyPress(display(key, old(mode) != Normal))))
      ensures event == Button(B, Double) ==> cursor == old(cursor) && mode == old(mode) && action == Some(Backspace)
      ensures event.Button? && event.press == Long ==> cursor == old(cursor) && mode == old(mode) && action == None
      // Key events never move the cursor or change the mode.
      ensures event.Key? ==> cursor == old(cursor) && mode == old(mode) && action == KeyCodeAction(event.event.code)
    {
      var maxRow := |layout| - 1;
      match event {
        case Button(id, press) =>
          match (id, press) {
            case (A, Short) =>
              var maxCol := |layout[cursor.0]| - 1;
              if cursor.1 < maxCol {
                cursor := (cursor.0, cursor.1 + 1);
              } else {
                cursor := (cursor.0, 0);
              }
              action := None;
            case (B, Short) =>
              if cursor.1 > 0 {
                cursor := (cursor.0, cursor.1 - 1);
              } else {
                var maxCol := |layout[cursor.0]| - 1;
                cursor := (cursor.0, maxCol);
              }
              action := None;
            case (X, Short) =>
              if cursor.0 > 0 {
                cursor := (cursor.0 - 1, cursor.1);
                ClampCursorCol();
              }
              action := None;
            case (Y, Short) =>
              if cursor.0 < maxRow {
                cursor := (cursor.0 + 1, cursor.1);
                ClampCursorCol();
              }
              action := None;
            case (A, Double) =>
              action := PressKey();
            case (B, Double) =>
              action := Some(Backspace);
            case (X, Double) =>
              if cursor.0 > 1 {
                cursor := (cursor.0 - 2, cursor.1);
                ClampCursorCol();
              }
              action := None;
            case (Y, Double) =>
              if cursor.0 < maxRow - 1 {
                cursor := (cursor.0 + 2, cursor.1);
                ClampCursorCol();
              }
              action := None;
            case _ =>
              action := None;
          }
        case Key(keyEvent) =>
          action := KeyCodeAction(keyEvent.code);
      }
    }
  }

  /** The column kept when moving onto a row of the given width. */
  function Clamp(col: nat, width: nat): (c: nat)
    requires width > 0
    ensures c < width
    ensures c == col <==> col < width
    ensures col >= width ==> c == width - 1
  {
    if col > width - 1 then width - 1 else col
  }

  /** What a key event from a physical keyboard does to the widget. */
  function KeyCodeAction(code: Terminal.KeyCode): (r: Option<KeyboardAction>)
    ensures code == Terminal.Char(' ') ==> r == Some(Space)
    ensures code.Char? && code.c != ' ' ==> r == Some(KeyPress([code.c]))
    ensures code == Terminal.Backspace ==> r == Some(Backspace)
    ensures code == Terminal.Enter || code == Terminal.Esc ==> r == Some(Exit)
    ensures r.None? <==> !code.Char? && code !in {Terminal.Backspace, Terminal.Enter, Terminal.Esc}
  {
    match code
    case Char(' ') => Some(Space)
    case Char(c) => Some(KeyPress([c]))
    case Backspace => Some(Backspace)
    case Enter | Esc => Some(Exit)
    case _ => None
  }

  /** A short press of A and then one of B leave the cursor where it was, also across the wrap at the right edge. */
  method RightThenLeft(w: KeyboardWidget)
    requires w.Valid()
    modifies w
    ensures w.Valid() && w.cursor == old(w.cursor) && w.mode == old(w.mode)
  {
    var _ := w.HandleInput(Button(A, Short));
    var _ := w.HandleInput(Button(B, Short));
  }
}
