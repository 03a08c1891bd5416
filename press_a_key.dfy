/**
 * The "press a key" capture screen of the keybind editor: it turns one key
 * press, with the modifier keys held at that moment, into the canonical key
 * name `("ctrl+")? ("alt+")? ("shift+")? <translation key>`.
 */
module PressAKey {
  import opened Strings

  // GLFW key codes (glfw3.h).
  const KEY_ESCAPE: int := 256
  const KEY_LEFT_SHIFT: int := 340
  const KEY_LEFT_CONTROL: int := 341
  const KEY_LEFT_ALT: int := 342
  const KEY_LEFT_SUPER: int := 343
  const KEY_RIGHT_SHIFT: int := 344
  const KEY_RIGHT_CONTROL: int := 345
  const KEY_RIGHT_ALT: int := 346
  const KEY_RIGHT_SUPER: int := 347

  // GLFW modifier bits; `modifiers` is a Java `int`.
  const MOD_SHIFT: bv32 := 0x1
  const MOD_CONTROL: bv32 := 0x2
  const MOD_ALT: bv32 := 0x4
  const MOD_SUPER: bv32 := 0x8

  /**
   * `InputUtil.fromKeyCode(keyCode, scanCode).getTranslationKey()` belongs to
   * the game; it is passed in as this function.
   */
  type TranslationKey = (int, int) -> string

  /** A standalone press of either ctrl, alt, shift or super key. */
  function IsModifierKey(keyCode: int): (b: bool)
    ensures b ==> keyCode != KEY_ESCAPE
    ensures b <==> KEY_LEFT_SHIFT <= keyCode <= KEY_RIGHT_SUPER
  {
    keyCode == KEY_LEFT_CONTROL
      || keyCode == KEY_RIGHT_CONTROL
      || keyCode == KEY_LEFT_ALT
      || keyCode == KEY_RIGHT_ALT
      || keyCode == KEY_LEFT_SHIFT
      || keyCode == KEY_RIGHT_SHIFT
      || keyCode == KEY_LEFT_SUPER
      || keyCode == KEY_RIGHT_SUPER
  }

  /** Whether ctrl was held: its one-bit flag is set in the modifier mask. */
  predicate Ctrl(modifiers: bv32)
    ensures Ctrl(modifiers) <==> modifiers & MOD_CONTROL == MOD_CONTROL
  {
    modifiers & MOD_CONTROL != 0
  }

  /** Whether alt was held. */
  predicate Alt(modifiers: bv32)
    ensures Alt(modifiers) <==> modifiers & MOD_ALT == MOD_ALT
  {
    modifiers & MOD_ALT != 0
  }

  /** Whether shift was held. */
  predicate Shift(modifiers: bv32)
    ensures Shift(modifiers) <==> modifiers & MOD_SHIFT == MOD_SHIFT
  {
    modifiers & MOD_SHIFT != 0
  }

  /** The three tests read three different bits: any combination of held modifiers is told apart. */
  lemma ModifierTestsIndependent(ctrl: bool, alt: bool, shift: bool)
    ensures var modifiers := (if ctrl then MOD_CONTROL else 0) | (if alt then MOD_ALT else 0) | (if shift then MOD_SHIFT else 0);
            Ctrl(modifiers) == ctrl && Alt(modifiers) == alt && Shift(modifiers) == shift
  {
  }

  /** The canonical key name: held modifiers in the fixed order ctrl, alt, shift, then the key. */
  function KeyName(keyCode: int, scanCode: int, modifiers: bv32, translationKey: TranslationKey): (name: string)
    ensures var base := translationKey(keyCode, scanCode);
            |base| <= |name| && name[|name| - |base|..] == base
  {
    var baseKey := translationKey(keyCode, scanCode);
    var s0 := "";
    var s1 := if Ctrl(modifiers) then s0 + "ctrl+" else s0;
    var s2 := if Alt(modifiers) then s1 + "alt+" else s1;
    var s3 := if Shift(modifiers) then s2 + "shift+" else s2;
    EndsWithConcat(s3, baseKey);
    s3 + baseKey
  }

  /** A key name, read back into the modifiers it holds and the base key. */
  datatype KeyCombo = KeyCombo(ctrl: bool, alt: bool, shift: bool, base: string)

  /** A base key that the modifier prefixes cannot be confused with. */
  predicate PlainBase(base: string) {
    !StartsWith(base, "ctrl+") && !StartsWith(base, "alt+") && !StartsWith(base, "shift+")
  }

  /** Reads the canonical grammar back: each prefix at most once, in the fixed order. */
  function ParseKeyName(name: string): (combo: KeyCombo)
    ensures |combo.base| <= |name| && name[|name| - |combo.base|..] == combo.base
  {
    var ctrl := StartsWith(name, "ctrl+");
    var n1 := if ctrl then name[5..] else name;
    var alt := StartsWith(n1, "alt+");
    var n2 := if alt then n1[4..] else n1;
    var shift := StartsWith(n2, "shift+");
    var n3 := if shift then n2[6..] else n2;
    KeyCombo(ctrl, alt, shift, n3)
  }

  /** The prefix `KeyName` puts before the base key. */
  function ModifierPrefix(ctrl: bool, alt: bool, shift: bool): (prefix: string)
    ensures prefix == "" <==> !ctrl && !alt && !shift
    ensures prefix != "" ==> prefix[|prefix| - 1] == '+'
    ensures |prefix| == (if ctrl then 5 else 0) + (if alt then 4 else 0) + (if shift then 6 else 0)
  {
    (if ctrl then "ctrl+" else "") + (if alt then "alt+" else "") + (if shift then "shift+" else "")
  }

  lemma KeyNameHasPrefix(keyCode: int, scanCode: int, modifiers: bv32, translationKey: TranslationKey)
    ensures KeyName(keyCode, scanCode, modifiers, translationKey)
         == ModifierPrefix(Ctrl(modifiers), Alt(modifiers), Shift(modifiers)) + translationKey(keyCode, scanCode)
  {
  }

  lemma ParseShiftLevel(shift: bool, base: string)
    requires PlainBase(base)
    ensures var n := (if shift then "shift+" else "") + base;
            StartsWith(n, "shift+") == shift && !StartsWith(n, "alt+") && !StartsWith(n, "ctrl+")
            && (if shift then n[6..] else n) == base
  {
    if shift {
      StartsWithConcat("shift+", base);
      assert ("shift+" + base)[0] == 's';
    } else {
      assert "" + base == base;
    }
  }

  lemma ParseAltLevel(alt: bool, shift: bool, base: string)
    requires PlainBase(base)
    ensures var n2 := (if shift then "shift+" else "") + base;
            var n := (if alt then "alt+" else "") + n2;
            StartsWith(n, "alt+") == alt && !StartsWith(n, "ctrl+") && (if alt then n[4..] else n) == n2
  {
    ParseShiftLevel(shift, base);
    var n2 := (if shift then "shift+" else "") + base;
    if alt {
      StartsWithConcat("alt+", n2);
      assert ("alt+" + n2)[0] == 'a';
    } else {
      assert "" + n2 == n2;
    }
  }

  /**
   * Decoding an encoded key name gives back exactly the ctrl, alt and shift
   * flags and the base key: each prefix is present iff its flag is set.
   */
  lemma ParsePrefixes(ctrl: bool, alt: bool, shift: bool, base: string)
    requires PlainBase(base)
    ensures ParseKeyName(ModifierPrefix(ctrl, alt, shift) + base) == KeyCombo(ctrl, alt, shift, base)
  {
    var pc, pa, ps := (if ctrl then "ctrl+" else ""), (if alt then "alt+" else ""), (if shift then "shift+" else "");
    var n2 := ps + base;
    var n1 := pa + n2;
    var n0 := pc + n1;
    assert ModifierPrefix(ctrl, alt, shift) + base == n0 by {
      ConcatRegroup(pc, pa, ps, base);
    }
    assert StartsWith(n0, "ctrl+") == ctrl && (if ctrl then n0[5..] else n0) == n1 by {
      ParseAltLevel(alt, shift, base);
      if ctrl {
        StartsWithConcat("ctrl+", n1);
      } else {
        assert "" + n1 == n1;
      }
    }
    ParseShiftLevel(shift, base);
    ParseAltLevel(alt, shift, base);
  }

  /** `ParseKeyName` inverts `KeyName` on the three modifier bits and the translation key. */
  lemma ParseKeyNameInverts(keyCode: int, scanCode: int, modifiers: bv32, translationKey: TranslationKey)
    requires PlainBase(translationKey(keyCode, scanCode))
    ensures ParseKeyName(KeyName(keyCode, scanCode, modifiers, translationKey))
         == KeyCombo(Ctrl(modifiers), Alt(modifiers), Shift(modifiers), translationKey(keyCode, scanCode))
  {
    KeyNameHasPrefix(keyCode, scanCode, modifiers, translationKey);
    ParsePrefixes(Ctrl(modifiers), Alt(modifiers), Shift(modifiers), translationKey(keyCode, scanCode));
  }

  /** The eight ctrl/alt/shift combinations give eight distinct names for one key. */
  lemma KeyNameDistinguishesModifiers(keyCode: int, scanCode: int, m1: bv32, m2: bv32, translationKey: TranslationKey)
    requires KeyName(keyCode, scanCode, m1, translationKey) == KeyName(keyCode, scanCode, m2, translationKey)
    ensures Ctrl(m1) == Ctrl(m2) && Alt(m1) == Alt(m2) && Shift(m1) == Shift(m2)
  {
    var base := translationKey(keyCode, scanCode);
    var name := KeyName(keyCode, scanCode, m1, translationKey);
    var p1 := (if Ctrl(m1) then "ctrl+" else "") + (if Alt(m1) then "alt+" else "") + (if Shift(m1) then "shift+" else "");
    var p2 := (if Ctrl(m2) then "ctrl+" else "") + (if Alt(m2) then "alt+" else "") + (if Shift(m2) then "shift+" else "");
    assert name == p1 + base;
    assert name == p2 + base;
    assert p1 == name[..|name| - |base|] == p2;
  }

  /** Mask bits other than ctrl, alt and shift (super, caps lock, num lock) do not change the name. */
  lemma KeyNameIgnoresOtherBits(keyCode: int, scanCode: int, modifiers: bv32, translationKey: TranslationKey)
    ensures KeyName(keyCode, scanCode, modifiers, translationKey)
         == KeyName(keyCode, scanCode, modifiers & NAMED_MODIFIERS, translationKey)
  {
    CtrlMasked(modifiers);
    AltMasked(modifiers);
    ShiftMasked(modifiers);
    KeyNameHasPrefix(keyCode, scanCode, modifiers, translationKey);
    KeyNameHasPrefix(keyCode, scanCode, modifiers & NAMED_MODIFIERS, translationKey);
  }

  /** The modifier bits that appear in a key name. */
  const NAMED_MODIFIERS: bv32 := MOD_CONTROL | MOD_ALT | MOD_SHIFT

  lemma MaskKeepsBit(modifiers: bv32, bit: bv32)
    requires bit == MOD_CONTROL || bit == MOD_ALT || bit == MOD_SHIFT
    ensures (modifiers & NAMED_MODIFIERS & bit != 0) == (modifiers & bit != 0)
  {
  }

  lemma CtrlMasked(modifiers: bv32) ensures Ctrl(modifiers & NAMED_MODIFIERS) == Ctrl(modifiers) { MaskKeepsBit(modifiers, MOD_CONTROL); }
  lemma AltMasked(modifiers: bv32) ensures Alt(modifiers & NAMED_MODIFIERS) == Alt(modifiers) { MaskKeepsBit(modifiers, MOD_ALT); }
  lemma ShiftMasked(modifiers: bv32) ensures Shift(modifiers & NAMED_MODIFIERS) == Shift(modifiers) { MaskKeepsBit(modifiers, MOD_SHIFT); }

  /** What one key press does on the capture screen. */
  datatype KeyResponse =
    | Cancel              // Escape: back to the previous screen, nothing bound
    | StayOpen            // a bare modifier key: keep waiting
    | Capture(key: string) // hand the key name to the previous screen, then go back

  /** The capture decision of `keyPressed`. */
  function Respond(keyCode: int, scanCode: int, modifiers: bv32, translationKey: TranslationKey): (r: KeyResponse)
    ensures r == Cancel <==> keyCode == KEY_ESCAPE
    ensures r == StayOpen <==> IsModifierKey(keyCode)
    ensures r.Capture? <==> keyCode != KEY_ESCAPE && !IsModifierKey(keyCode)
    ensures r.Capture? ==> r.key == KeyName(keyCode, scanCode, modifiers, translationKey)
  {
    if keyCode == KEY_ESCAPE then Cancel
    else if IsModifierKey(keyCode) then StayOpen
    else Capture(KeyName(keyCode, scanCode, modifiers, translationKey))
  }

  /** The calls the screen makes on its callback and on the game client, in order. */
  datatype Call = SetKey(key: string) | ShowPrevScreen

  /** The calls that one response makes. */
  function ResponseCalls(r: KeyResponse): (calls: seq<Call>)
    ensures r.Capture? ==> calls == [SetKey(r.key), ShowPrevScreen]
    ensures r == Cancel ==> calls == [ShowPrevScreen]
    ensures r.Capture? ==> multiset(calls)[SetKey(r.key)] == 1
    ensures forall k :: SetKey(k) in calls ==> r == Capture(k)
    ensures r.StayOpen? <==> calls == []
    ensures !r.StayOpen? ==> calls[|calls| - 1] == ShowPrevScreen
  {
    match r
    case Cancel => [ShowPrevScreen]
    case StayOpen => []
    case Capture(key) => [SetKey(key), ShowPrevScreen]
  }

  /** Why the screen cannot be built. */
  const NOT_A_SCREEN := "prevScreen is not a screen"

  class PressAKeyScreen {
    /** `InputUtil`'s translation keys. */
    const translationKey: TranslationKey
    /** Calls made so far on `prevScreen` (`setKey`) and the client (`setScreen`). */
    var calls: seq<Call>

    constructor (translationKey: TranslationKey)
      ensures this.translationKey == translationKey && calls == []
    {
      this.translationKey := translationKey;
      calls := [];
    }

    /** Handles one key press: cancel on Escape, ignore a bare modifier, otherwise capture once. */
    method KeyPressed(keyCode: int, scanCode: int, modifiers: bv32)
      modifies this`calls
      ensures calls == old(calls) + ResponseCalls(Respond(keyCode, scanCode, modifiers, translationKey))
    {
      if keyCode == KEY_ESCAPE {
        calls := calls + [ShowPrevScreen];
        return;
      }
      if IsModifierKey(keyCode) {
        return;
      }
      calls := calls + [SetKey(KeyName(keyCode, scanCode, modifiers, translationKey))];
      calls := calls + [ShowPrevScreen];
    }
  }

  /** The constructor's check, with its IllegalArgumentException as a value. */
  datatype Opened = Opened(screen: PressAKeyScreen) | IllegalArgument(message: string)

  /** `new PressAKeyScreen(prevScreen)`: refuses a callback that is not a screen. */
  method Open(prevScreenIsScreen: bool, translationKey: TranslationKey) returns (r: Opened)
    ensures r.IllegalArgument? <==> !prevScreenIsScreen
    ensures r.IllegalArgument? ==> r.message == NOT_A_SCREEN
    ensures r.Opened? ==> fresh(r.screen) && r.screen.calls == [] && r.screen.translationKey == translationKey
  {
    if !prevScreenIsScreen {
      return IllegalArgument(NOT_A_SCREEN);
    }
    var screen := new PressAKeyScreen(translationKey);
    return Opened(screen);
  }
}
