/**
 * What the keybind manager shows for a key name that the capture screen
 * produced: the held modifiers as Ctrl, Alt, Shift, in that order, then the
 * key's own name, joined with " + ".
 */
module KeyNameDisplay {
  import opened Strings
  import opened PressAKey
  import opened KeybindDisplay

  /** The modifier words of the canonical name, in order. */
  function ModifierWords(ctrl: bool, alt: bool, shift: bool): seq<string> {
    (if ctrl then ["ctrl"] else []) + (if alt then ["alt"] else []) + (if shift then ["shift"] else [])
  }

  /** The same modifiers as the display spells them. */
  function ModifierLabels(ctrl: bool, alt: bool, shift: bool): seq<string> {
    (if ctrl then ["Ctrl"] else []) + (if alt then ["Alt"] else []) + (if shift then ["Shift"] else [])
  }

  lemma WordsHaveNoPlus(ctrl: bool, alt: bool, shift: bool, base: string)
    requires '+' !in base
    ensures forall i :: 0 <= i < |ModifierWords(ctrl, alt, shift) + [base]| ==> '+' !in (ModifierWords(ctrl, alt, shift) + [base])[i]
  {
    var words := ModifierWords(ctrl, alt, shift) + [base];
    forall i | 0 <= i < |words| ensures '+' !in words[i] {
      assert words[i] in {"ctrl", "alt", "shift", base};
    }
  }

  lemma JoinOptionalHead(present: bool, w: string, prefix: string, parts: seq<string>)
    requires |parts| > 0 && prefix == w + "+"
    ensures Join((if present then [w] else []) + parts, "+") == (if present then prefix else "") + Join(parts, "+")
  {
    if present {
      assert ([w] + parts)[1..] == parts;
    } else {
      assert [] + parts == parts;
    }
  }

  lemma WordsWithPlus()
    ensures "ctrl+" == "ctrl" + "+" && "alt+" == "alt" + "+" && "shift+" == "shift" + "+"
  {
    assert "ctrl+" == "ctrl" + "+" by { assert "ctrl+"[..4] == "ctrl"; }
    assert "alt+" == "alt" + "+" by { assert "alt+"[..3] == "alt"; }
    assert "shift+" == "shift" + "+" by { assert "shift+"[..5] == "shift"; }
  }

  /** The canonical name is the modifier words and the base key joined with `+`. */
  lemma PrefixIsJoin(ctrl: bool, alt: bool, shift: bool, base: string)
    ensures ModifierPrefix(ctrl, alt, shift) + base == Join(ModifierWords(ctrl, alt, shift) + [base], "+")
  {
    var pc, pa, ps := (if ctrl then "ctrl+" else ""), (if alt then "alt+" else ""), (if shift then "shift+" else "");
    var c: seq<string> := if ctrl then ["ctrl"] else [];
    var a: seq<string> := if alt then ["alt"] else [];
    var s: seq<string> := if shift then ["shift"] else [];
    WordsWithPlus();
    assert Join(s + [base], "+") == ps + base by {
      JoinOptionalHead(shift, "shift", "shift+", [base]);
    }
    assert Join(a + (s + [base]), "+") == pa + (ps + base) by {
      JoinOptionalHead(alt, "alt", "alt+", s + [base]);
    }
    assert Join(c + (a + (s + [base])), "+") == pc + (pa + (ps + base)) by {
      JoinOptionalHead(ctrl, "ctrl", "ctrl+", a + (s + [base]));
    }
    assert ModifierWords(ctrl, alt, shift) + [base] == c + (a + (s + [base])) by {
      ConcatRegroup(c, a, s, [base]);
    }
    assert ModifierPrefix(ctrl, alt, shift) + base == pc + (pa + (ps + base)) by {
      ConcatRegroup(pc, pa, ps, base);
    }
  }

  lemma FormatModifierWord(present: bool, w: string, l: string)
    requires FormatPart(w) == l
    ensures FormatParts(if present then [w] else []) == (if present then [l] else [])
  {
  }

  /** Each modifier word is shown capitalised. */
  lemma ModifierWordsFormatted()
    ensures FormatPart("ctrl") == "Ctrl" && FormatPart("alt") == "Alt" && FormatPart("shift") == "Shift"
  {
    assert FormatPart("ctrl") == "Ctrl" by { assert !StartsWith("ctrl", KEYBOARD_PREFIX); }
    assert FormatPart("alt") == "Alt" by { assert !StartsWith("alt", KEYBOARD_PREFIX); }
    assert FormatPart("shift") == "Shift" by { assert !StartsWith("shift", KEYBOARD_PREFIX); }
  }

  /** The modifier words of a key name are shown as the modifier labels. */
  lemma FormatModifierLabels(ctrl: bool, alt: bool, shift: bool)
    ensures FormatParts(ModifierWords(ctrl, alt, shift)) == ModifierLabels(ctrl, alt, shift)
  {
    var c: seq<string> := if ctrl then ["ctrl"] else [];
    var a: seq<string> := if alt then ["alt"] else [];
    var s: seq<string> := if shift then ["shift"] else [];
    var lc: seq<string> := if ctrl then ["Ctrl"] else [];
    var la: seq<string> := if alt then ["Alt"] else [];
    var ls: seq<string> := if shift then ["Shift"] else [];
    assert FormatParts(c) == lc by { ModifierWordsFormatted(); FormatModifierWord(ctrl, "ctrl", "Ctrl"); }
    assert FormatParts(a) == la by { ModifierWordsFormatted(); FormatModifierWord(alt, "alt", "Alt"); }
    assert FormatParts(s) == ls by { ModifierWordsFormatted(); FormatModifierWord(shift, "shift", "Shift"); }
    assert FormatParts(c + a) == lc + la by { MapAppend(FormatPart, c, a); }
    assert FormatParts(c + a + s) == lc + la + ls by { MapAppend(FormatPart, c + a, s); }
  }

  lemma FormatModifierWords(ctrl: bool, alt: bool, shift: bool, base: string, t: string)
    requires FormatPart(base) == t
    ensures FormatParts(ModifierWords(ctrl, alt, shift) + [base]) == ModifierLabels(ctrl, alt, shift) + [t]
  {
    FormatModifierLabels(ctrl, alt, shift);
    MapAppend(FormatPart, ModifierWords(ctrl, alt, shift), [base]);
    assert FormatParts([base]) == [t];
  }

  /** The key part of a keyboard translation key is shown by its own name. */
  lemma FormatKeyboardKey(t: string)
    requires !Contains(t, KEYBOARD_PREFIX) && !IsModifierWord(t)
    ensures FormatPart(KEYBOARD_PREFIX + t) == t
  {
    assert StartsWith(KEYBOARD_PREFIX + t, KEYBOARD_PREFIX) by {
      StartsWithConcat(KEYBOARD_PREFIX, t);
    }
    assert ReplaceAll(KEYBOARD_PREFIX + t, KEYBOARD_PREFIX, "") == t by {
      ReplaceAllLeading(KEYBOARD_PREFIX, t, "");
    }
  }

  /** A name joined from two or more `+`-free words shows those words, formatted. */
  lemma DisplayOfJoin(words: seq<string>)
    requires |words| > 1
    requires forall i :: 0 <= i < |words| ==> '+' !in words[i]
    requires words[|words| - 1] != ""
    ensures KeyDisplay(Join(words, "+")) == Join(FormatParts(words), SEPARATOR)
  {
    assert "+" == ['+'];
    JavaSplitOfJoin(words, '+');
  }

  /** With at least one modifier held the name is a combination of its words. */
  lemma DisplayOfJoinedWords(ctrl: bool, alt: bool, shift: bool, t: string)
    requires ctrl || alt || shift
    requires '+' !in t && !Contains(t, KEYBOARD_PREFIX) && !IsModifierWord(t)
    ensures KeyDisplay(Join(ModifierWords(ctrl, alt, shift) + [KEYBOARD_PREFIX + t], "+"))
         == Join(ModifierLabels(ctrl, alt, shift) + [t], SEPARATOR)
  {
    var base := KEYBOARD_PREFIX + t;
    var words := ModifierWords(ctrl, alt, shift) + [base];
    assert KeyDisplay(Join(words, "+")) == Join(FormatParts(words), SEPARATOR) by {
      assert '+' !in base by {
        NamespacedHasNoPlus(t);
      }
      WordsHaveNoPlus(ctrl, alt, shift, base);
      DisplayOfJoin(words);
    }
    assert FormatParts(words) == ModifierLabels(ctrl, alt, shift) + [t] by {
      assert FormatPart(base) == t by {
        FormatKeyboardKey(t);
      }
      FormatModifierWords(ctrl, alt, shift, base, t);
    }
  }

  /**
   * A canonical name for the keyboard key `t` shows the held modifiers as
   * Ctrl, Alt, Shift in that order, then `t`, joined with " + ".
   */
  lemma DisplayOfCombo(ctrl: bool, alt: bool, shift: bool, t: string)
    requires '+' !in t && !Contains(t, KEYBOARD_PREFIX) && !IsModifierWord(t)
    ensures KeyDisplay(ModifierPrefix(ctrl, alt, shift) + (KEYBOARD_PREFIX + t))
         == Join(ModifierLabels(ctrl, alt, shift) + [t], SEPARATOR)
  {
    var base := KEYBOARD_PREFIX + t;
    if !ctrl && !alt && !shift {
      assert ModifierPrefix(ctrl, alt, shift) + base == base;
      assert '+' !in base by {
        NamespacedHasNoPlus(t);
      }
      assert ReplaceAll(base, KEYBOARD_PREFIX, "") == t by {
        ReplaceAllLeading(KEYBOARD_PREFIX, t, "");
      }
    } else {
      assert ModifierPrefix(ctrl, alt, shift) + base == Join(ModifierWords(ctrl, alt, shift) + [base], "+") by {
        PrefixIsJoin(ctrl, alt, shift, base);
      }
      DisplayOfJoinedWords(ctrl, alt, shift, t);
    }
  }

  /**
   * Encoding a key press and displaying the result shows the held modifiers
   * as Ctrl, Alt, Shift in that order, then the key's name, joined with " + ".
   */
  lemma DisplayOfKeyName(keyCode: int, scanCode: int, modifiers: bv32, translationKey: TranslationKey, t: string)
    requires translationKey(keyCode, scanCode) == KEYBOARD_PREFIX + t
    requires '+' !in t && !Contains(t, KEYBOARD_PREFIX) && !IsModifierWord(t)
    ensures KeyDisplay(KeyName(keyCode, scanCode, modifiers, translationKey))
         == Join(ModifierLabels(Ctrl(modifiers), Alt(modifiers), Shift(modifiers)) + [t], SEPARATOR)
  {
    var c, a, sh := Ctrl(modifiers), Alt(modifiers), Shift(modifiers);
    assert KeyName(keyCode, scanCode, modifiers, translationKey) == ModifierPrefix(c, a, sh) + (KEYBOARD_PREFIX + t) by {
      KeyNameHasPrefix(keyCode, scanCode, modifiers, translationKey);
    }
    assert KeyDisplay(ModifierPrefix(c, a, sh) + (KEYBOARD_PREFIX + t)) == Join(ModifierLabels(c, a, sh) + [t], SEPARATOR) by {
      DisplayOfCombo(c, a, sh, t);
    }
  }

  lemma CtrlAltLabels()
    ensures ModifierLabels(true, true, false) + ["f"] == ["Ctrl", "Alt", "f"]
  {
  }

  lemma CtrlAltJoin()
    ensures Join(["Ctrl", "Alt", "f"], SEPARATOR) == "Ctrl + Alt + f"
  {
    assert ["Ctrl", "Alt", "f"][1..] == ["Alt", "f"];
    assert ["Alt", "f"][1..] == ["f"];
  }

  lemma CtrlAltName()
    ensures ModifierPrefix(true, true, false) + (KEYBOARD_PREFIX + "f") == "ctrl+alt+key.keyboard.f"
  {
  }

  /** The example the keybind manager's display is built for. */
  lemma CtrlAltFExample()
    ensures KeyDisplay("ctrl+alt+key.keyboard.f") == "Ctrl + Alt + f"
  {
    assert !IsModifierWord("f") by {
      assert |ToLower("f")| == 1;
    }
    assert !Contains("f", KEYBOARD_PREFIX);
    assert KeyDisplay("ctrl+alt+key.keyboard.f") == Join(ModifierLabels(true, true, false) + ["f"], SEPARATOR) by {
      DisplayOfCombo(true, true, false, "f");
      CtrlAltName();
    }
    CtrlAltLabels();
    CtrlAltJoin();
  }
}
