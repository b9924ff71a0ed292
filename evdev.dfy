/**
 * Translation of Linux evdev key events from a physical keyboard into
 * terminal key events (app/src/inputs/evdev.rs). The device, the blocking
 * read and the listener thread are not modelled: the adapter is fed the
 * device events it would have read.
 */
module Evdev {
  import opened Wrappers
  import opened Terminal

  type Lower = c: char | 'a' <= c <= 'z' witness 'a'

  /** The digit printed on a number-row key: KEY_1 .. KEY_9 are 1 .. 9, KEY_0 is 0. */
  type DigitValue = d: nat | d <= 9

  /** The number of a function key, F1 .. F12. */
  type FunctionNumber = n: nat | 1 <= n <= 12 witness 1

  /** An evdev key code; `KeyOther` stands for every key code not listed. */
  datatype EvKey =
    | KeyEsc | KeyEnter | KeyBackspace | KeyTab | KeyDelete | KeyHome | KeyEnd
    | KeyPageUp | KeyPageDown | KeyUp | KeyDown | KeyLeft | KeyRight
    | KeyF(n: FunctionNumber)
    | KeyLetter(letter: Lower)
    | KeySpace
    | KeyDigit(digit: DigitValue)
    | KeyLeftShift | KeyRightShift | KeyLeftCtrl | KeyRightCtrl | KeyLeftAlt | KeyRightAlt
    | KeyOther(code: nat)

  /** One event read from the device: a key event with its value (0 release, 1 press, 2 repeat), or any other event. */
  datatype DeviceEvent = KeyInput(key: EvKey, value: int) | NonKey

  function Upper(c: Lower): (u: char)
    ensures 'A' <= u <= 'Z' && u as int == c as int - 32
  {
    (c as int - 32) as char
  }

  /** The character a number-row key types without shift. */
  function DigitChar(d: DigitValue): (c: char)
    ensures '0' <= c <= '9' && c as int - '0' as int == d
  {
    ('0' as int + d) as char
  }

  /** The characters the number-row keys type with shift, indexed by the digit on the key. */
  const ShiftedDigits: string := ")!@#$%^&*("

  /** The flag a modifier key controls; the left and right keys share one flag. */
  function ModifierOf(key: EvKey): (m: Option<Modifier>)
    ensures m == Some(Shift) <==> key == KeyLeftShift || key == KeyRightShift
    ensures m == Some(Control) <==> key == KeyLeftCtrl || key == KeyRightCtrl
    ensures m == Some(Alt) <==> key == KeyLeftAlt || key == KeyRightAlt
  {
    match key
    case KeyLeftShift | KeyRightShift => Some(Shift)
    case KeyLeftCtrl | KeyRightCtrl => Some(Control)
    case KeyLeftAlt | KeyRightAlt => Some(Alt)
    case _ => None
  }

  /** `evdev_key_to_crossterm_keycode`: the terminal key code for an evdev key under the given modifiers. */
  function TranslateKey(key: EvKey, modifiers: set<Modifier>): (r: Option<KeyCode>)
    ensures key == KeyEsc ==> r == Some(Esc)
    ensures key == KeyEnter ==> r == Some(Enter)
    ensures key == KeyBackspace ==> r == Some(Backspace)
    ensures key == KeyTab ==> r == Some(Tab)
    ensures key == KeyDelete ==> r == Some(Delete)
    ensures key == KeyHome ==> r == Some(Home)
    ensures key == KeyEnd ==> r == Some(End)
    ensures key == KeyPageUp ==> r == Some(PageUp)
    ensures key == KeyPageDown ==> r == Some(PageDown)
    ensures key == KeyUp ==> r == Some(Up)
    ensures key == KeyDown ==> r == Some(Down)
    ensures key == KeyLeft ==> r == Some(Left)
    ensures key == KeyRight ==> r == Some(Right)
    ensures key.KeyLetter? ==> r == Some(Char(if Shift in modifiers then Upper(key.letter) else key.letter))
    ensures key.KeyDigit? ==> r == Some(Char(if Shift in modifiers then ShiftedDigits[key.digit] else DigitChar(key.digit)))
    ensures key == KeySpace ==> r == Some(Char(' '))
    ensures key.KeyF? ==> r == Some(F(key.n))
    ensures r.None? <==> key.KeyOther? || ModifierOf(key).Some?
  {
    var shifted := Shift in modifiers;
    match key
    case KeyEsc => Some(Esc)
    case KeyEnter => Some(Enter)
    case KeyBackspace => Some(Backspace)
    case KeyTab => Some(Tab)
    case KeyDelete => Some(Delete)
    case KeyHome => Some(Home)
    case KeyEnd => Some(End)
    case KeyPageUp => Some(PageUp)
    case KeyPageDown => Some(PageDown)
    case KeyUp => Some(Up)
    case KeyDown => Some(Down)
    case KeyLeft => Some(Left)
    case KeyRight => Some(Right)
    case KeyF(n) => Some(F(n))
    case KeyLetter(c) => Some(Char(if shifted then Upper(c) else c))
    case KeySpace => Some(Char(' '))
    case KeyDigit(d) => Some(Char(if shifted then ShiftedDigits[d] else DigitChar(d)))
    case _ => None
  }

  /** Only SHIFT is ever consulted: two modifier sets that agree on SHIFT translate every key alike. */
  lemma OnlyShiftMatters(key: EvKey, m1: set<Modifier>, m2: set<Modifier>)
    requires (Shift in m1) == (Shift in m2)
    ensures TranslateKey(key, m1) == TranslateKey(key, m2)
  {
  }

  /** Keys other than letters and digits translate the same whatever the modifiers. */
  lemma NonAlphanumericIgnoresModifiers(key: EvKey, m: set<Modifier>)
    requires !key.KeyLetter? && !key.KeyDigit?
    ensures TranslateKey(key, m) == TranslateKey(key, {})
  {
  }

  /** The modifier flags after one device event: a modifier key's press sets its flag, its release clears it, anything else keeps them. */
  function TrackModifiers(modifiers: set<Modifier>, ev: DeviceEvent): (r: set<Modifier>)
    ensures ev.NonKey? || ModifierOf(ev.key).None? || (ev.value != 0 && ev.value != 1) ==> r == modifiers
    ensures ev.KeyInput? && ModifierOf(ev.key).Some? && ev.value == 1 ==> r == modifiers + {ModifierOf(ev.key).value}
    ensures ev.KeyInput? && ModifierOf(ev.key).Some? && ev.value == 0 ==> r == modifiers - {ModifierOf(ev.key).value}
  {
    match ev
    case NonKey => modifiers
    case KeyInput(key, value) =>
      match ModifierOf(key)
      case None => modifiers
      case Some(flag) =>
        if value == 1 then modifiers + {flag}
        else if value == 0 then modifiers - {flag}
        else modifiers
  }

  /** No event changes a flag other than the one its own key controls. */
  lemma TrackTouchesOwnFlagOnly(modifiers: set<Modifier>, ev: DeviceEvent, m: Modifier)
    requires ev.NonKey? || ModifierOf(ev.key) != Some(m)
    ensures m in TrackModifiers(modifiers, ev) <==> m in modifiers
  {
  }

  /** The terminal event emitted for a device event, given the modifiers already updated by it. */
  function Emitted(modifiers: set<Modifier>, ev: DeviceEvent): (r: Option<KeyEvent>)
    ensures r.Some? <==> ev.KeyInput? && ev.value != 0 && TranslateKey(ev.key, modifiers).Some?
    ensures r.Some? ==> r.value.code == TranslateKey(ev.key, modifiers).value
    ensures r.Some? ==> r.value.modifiers == modifiers && r.value.state == {}
    ensures r.Some? ==> (r.value.kind == Repeat <==> ev.value == 2) && (r.value.kind != Repeat ==> r.value.kind == Press)
  {
    match ev
    case NonKey => None
    case KeyInput(key, value) =>
      if value == 0 then None
      else
        match TranslateKey(key, modifiers)
        case None => None
        case Some(code) => Some(KeyEvent(code, modifiers, if value == 2 then Repeat else Press, {}))
  }

  /** A release never produces an event, and neither does a modifier key on its own. */
  lemma ReleaseAndModifierKeysAreSilent(modifiers: set<Modifier>, ev: DeviceEvent)
    requires ev.KeyInput? && (ev.value == 0 || ModifierOf(ev.key).Some?)
    ensures Emitted(TrackModifiers(modifiers, ev), ev) == None
  {
  }

  /** The modifier flags whose keys occur in `evs`. */
  function Touched(evs: seq<DeviceEvent>): set<Modifier>
    decreases |evs|
  {
    if evs == [] then {}
    else (if evs[0].KeyInput? && ModifierOf(evs[0].key).Some? then {ModifierOf(evs[0].key).value} else {}) + Touched(evs[1..])
  }

  /** The modifiers after a sequence of device events, starting from `modifiers`; a flag whose key never occurs keeps its value. */
  function TrackAll(modifiers: set<Modifier>, evs: seq<DeviceEvent>): (r: set<Modifier>)
    ensures r - Touched(evs) == modifiers - Touched(evs)
    decreases |evs|
  {
    if evs == [] then modifiers
    else
      var next := TrackModifiers(modifiers, evs[0]);
      var rest := TrackAll(next, evs[1..]);
      assert rest - Touched(evs) == (rest - Touched(evs[1..])) - Touched(evs);
      assert next - Touched(evs) == modifiers - Touched(evs);
      rest
  }

  /** `EvdevAdapter`: the modifier state kept between device events. */
  class EvdevAdapter {
    var modifiers: set<Modifier>

    /** The adapter as `EvdevAdapter::new` returns it once a keyboard device has been found. */
    constructor ()
      ensures modifiers == {}
    {
      modifiers := {};
    }

    /** One pass of the body of `next_key_event`'s event loop: update the modifiers, then decide what to emit. */
    method Step(ev: DeviceEvent) returns (out: Option<KeyEvent>)
      modifies this
      ensures modifiers == TrackModifiers(old(modifiers), ev)
      ensures out == Emitted(modifiers, ev)
    {
      match ev {
        case NonKey =>
        case KeyInput(key, value) =>
          match ModifierOf(key) {
            case None =>
            case Some(flag) =>
              if value == 1 {
                modifiers := modifiers + {flag};
              } else if value == 0 {
                modifiers := modifiers - {flag};
              }
          }
      }
      if ev.NonKey? || ev.value == 0 {
        return None;
      }
      var code := TranslateKey(ev.key, modifiers);
      if code.Some? {
        return Some(KeyEvent(code.value, modifiers, if ev.value == 2 then Repeat else Press, {}));
      }
      return None;
    }

    /**
     * `next_key_event` over one batch returned by `fetch_events`: process the
     * events in order and return the first emitted key event with the number
     * of events consumed, or None once the batch is exhausted.
     */
    method NextKeyEvent(batch: seq<DeviceEvent>) returns (out: Option<KeyEvent>, consumed: nat)
      modifies this
      ensures consumed <= |batch|
      ensures modifiers == TrackAll(old(modifiers), batch[..consumed])
      ensures out.None? ==> consumed == |batch|
      ensures out.Some? ==> 0 < consumed && out == Emitted(modifiers, batch[consumed - 1])
      ensures forall i :: 0 <= i < consumed - 1 ==>
                Emitted(TrackAll(old(modifiers), batch[..i + 1]), batch[i]) == None
      ensures out.None? ==> forall i :: 0 <= i < |batch| ==>
                Emitted(TrackAll(old(modifiers), batch[..i + 1]), batch[i]) == None
    {
      consumed := 0;
      out := None;
      while consumed < |batch|
        invariant consumed <= |batch|
        invariant out.None?
        invariant modifiers == TrackAll(old(modifiers), batch[..consumed])
        invariant forall i :: 0 <= i < consumed ==>
                    Emitted(TrackAll(old(modifiers), batch[..i + 1]), batch[i]) == None
      {
        out := Step(batch[consumed]);
        TrackAllSnoc(old(modifiers), batch[..consumed], batch[consumed]);
        assert batch[..consumed + 1] == batch[..consumed] + [batch[consumed]];
        consumed := consumed + 1;
        if out.Some? {
          return;
        }
      }
    }
  }

  /** Tracking a sequence and then one more event is tracking the extended sequence. */
  lemma {:induction false} TrackAllSnoc(modifiers: set<Modifier>, evs: seq<DeviceEvent>, ev: DeviceEvent)
    ensures TrackAll(modifiers, evs + [ev]) == TrackModifiers(TrackAll(modifiers, evs), ev)
    decreases |evs|
  {
    if evs == [] {
      assert [] + [ev] == [ev];
    } else {
      assert (evs + [ev])[1..] == evs[1..] + [ev];
      TrackAllSnoc(TrackModifiers(modifiers, evs[0]), evs[1..], ev);
    }
  }
}
