/**
 * How the keybind manager shows a key name to the user: the "Key:" column of
 * its list, e.g. "ctrl+alt+key.keyboard.f" is shown as "Ctrl + Alt + f".
 * Display only; lookups keep using the canonical name.
 */
module KeybindDisplay {
  import opened Strings

  /** The namespace of keyboard translation keys. */
  const KEYBOARD_PREFIX := "key.keyboard."
  /** What the display puts between two parts of a combination. */
  const SEPARATOR := " + "

  /** A modifier word, compared ignoring case. */
  predicate IsModifierWord(part: string)
    ensures IsModifierWord(part) <==> ToLower(part) in {"ctrl", "alt", "shift"}
  {
    assert ToLower("ctrl") == "ctrl" && ToLower("alt") == "alt" && ToLower("shift") == "shift";
    EqualsIgnoreCase(part, "ctrl") || EqualsIgnoreCase(part, "alt") || EqualsIgnoreCase(part, "shift")
  }

  /**
   * One part of a combination: a part that starts with the keyboard namespace
   * loses every occurrence of it; then ctrl/alt/shift, in any case, become
   * Ctrl/Alt/Shift; anything else is kept as it is.
   */
  function FormatPart(part: string): (text: string)
    ensures '+' !in part ==> '+' !in text
    ensures !StartsWith(part, KEYBOARD_PREFIX) && !IsModifierWord(part) ==> text == part
    ensures EqualsIgnoreCase(part, "ctrl") ==> text == "Ctrl"
    ensures EqualsIgnoreCase(part, "alt") ==> text == "Alt"
    ensures EqualsIgnoreCase(part, "shift") ==> text == "Shift"
  {
    var stripped := if StartsWith(part, KEYBOARD_PREFIX) then ReplaceAll(part, KEYBOARD_PREFIX, "") else part;
    if EqualsIgnoreCase(stripped, "ctrl") then "Ctrl"
    else if EqualsIgnoreCase(stripped, "alt") then "Alt"
    else if EqualsIgnoreCase(stripped, "shift") then "Shift"
    else stripped
  }

  /**
   * A part that starts with the namespace loses every occurrence of it, not
   * only the leading one; the rest is shown as it is unless it is a modifier word.
   */
  lemma NamespacedPart(t: string)
    requires !IsModifierWord(ReplaceAll(t, KEYBOARD_PREFIX, ""))
    ensures FormatPart(KEYBOARD_PREFIX + t) == ReplaceAll(t, KEYBOARD_PREFIX, "")
  {
    var stripped := ReplaceAll(t, KEYBOARD_PREFIX, "");
    assert StartsWith(KEYBOARD_PREFIX + t, KEYBOARD_PREFIX) by {
      StartsWithConcat(KEYBOARD_PREFIX, t);
    }
    assert ReplaceAll(KEYBOARD_PREFIX + t, KEYBOARD_PREFIX, "") == stripped by {
      ReplaceAllLeading(KEYBOARD_PREFIX, t, "");
      assert "" + stripped == stripped;
    }
  }

  /** The namespace inside "akey.keyboard.b" is removed as well. */
  lemma StripsInnerNamespace()
    ensures ReplaceAll("akey.keyboard.b", KEYBOARD_PREFIX, "") == "ab"
  {
    var t := "akey.keyboard.b";
    assert !OccursAt(t, KEYBOARD_PREFIX, 0) by { assert t[0..13][0] != KEYBOARD_PREFIX[0]; }
    ReplaceAllUnmatched(t, KEYBOARD_PREFIX, "");
    assert t[1..] == KEYBOARD_PREFIX + "b";
    ReplaceAllLeading(KEYBOARD_PREFIX, "b", "");
    assert ReplaceAll("b", KEYBOARD_PREFIX, "") == "b";
  }

  /** "key.keyboard.akey.keyboard.b" as a part of a combination is shown as "ab". */
  lemma NamespacedPartStripsAll()
    ensures FormatPart("key.keyboard.akey.keyboard.b") == "ab"
  {
    assert "key.keyboard.akey.keyboard.b" == KEYBOARD_PREFIX + "akey.keyboard.b";
    StripsInnerNamespace();
    assert !IsModifierWord("ab") by { assert |ToLower("ab")| == 2; }
    NamespacedPart("akey.keyboard.b");
  }

  function FormatParts(parts: seq<string>): seq<string> {
    Map(FormatPart, parts)
  }

  lemma FormatPartsPrefix(parts: seq<string>, i: nat)
    requires i < |parts|
    ensures FormatParts(parts[..i + 1]) == FormatParts(parts[..i]) + [FormatPart(parts[i])]
  {
    assert parts[..i + 1] == parts[..i] + [parts[i]];
    MapAppend(FormatPart, parts[..i], [parts[i]]);
  }

  /**
   * The displayed text of a key name: a combination (one with `+`) is split
   * on `+` and its formatted parts joined with " + "; a single key only loses
   * the keyboard namespace, wherever it occurs.
   */
  function KeyDisplay(key: string): (display: string)
    ensures '+' in key && |JavaSplit(key, '+')| == 1 ==> display == FormatPart(JavaSplit(key, '+')[0])
  {
    if '+' in key then Join(FormatParts(JavaSplit(key, '+')), SEPARATOR)
    else ReplaceAll(key, KEYBOARD_PREFIX, "")
  }

  /** `Entry.formatKeyDisplay`: builds the text part by part, as the list entry does. */
  method FormatKeyDisplay(key: string) returns (display: string)
    ensures display == KeyDisplay(key)
  {
    if '+' in key {
      var parts := JavaSplit(key, '+');
      display := "";
      for i := 0 to |parts|
        invariant display == Join(FormatParts(parts[..i]), SEPARATOR)
      {
        ghost var done := FormatParts(parts[..i]);
        if i > 0 {
          display := display + SEPARATOR;
        }
        var part := parts[i];
        if StartsWith(part, KEYBOARD_PREFIX) {
          part := ReplaceAll(part, KEYBOARD_PREFIX, "");
        }
        if EqualsIgnoreCase(part, "ctrl") {
          part := "Ctrl";
        } else if EqualsIgnoreCase(part, "alt") {
          part := "Alt";
        } else if EqualsIgnoreCase(part, "shift") {
          part := "Shift";
        }
        assert part == FormatPart(parts[i]);
        assert display + part == Join(done + [part], SEPARATOR) by {
          if i > 0 {
            JoinSnoc(done, part, SEPARATOR);
          } else {
            assert display == "" && done + [part] == [part];
          }
        }
        FormatPartsPrefix(parts, i);
        display := display + part;
      }
      assert parts[..|parts|] == parts;
      return;
    }
    display := ReplaceAll(key, KEYBOARD_PREFIX, "");
  }

  /**
   * A combination shows each of its Java-split parts, in order, with exactly
   * one " + " between neighbours: n parts give n - 1 separators. A key made
   * only of `+` signs splits into nothing and shows as "".
   */
  lemma CombinationSeparators(key: string)
    requires '+' in key
    ensures JavaSplit(key, '+') == [] ==> KeyDisplay(key) == ""
    ensures JavaSplit(key, '+') != [] ==> CountChar(KeyDisplay(key), '+') == |JavaSplit(key, '+')| - 1
  {
    var labels := FormatParts(JavaSplit(key, '+'));
    if labels != [] {
      JoinPlusCount(labels);
    }
  }

  /** A single key without the keyboard namespace in it is shown unchanged. */
  lemma SingleKeyUnchanged(key: string)
    requires '+' !in key && !Contains(key, KEYBOARD_PREFIX)
    ensures KeyDisplay(key) == key
  {
  }

  /** The keyboard namespace holds no `+`, so a namespaced key without `+` is a single key. */
  lemma NamespacedHasNoPlus(t: string)
    requires '+' !in t
    ensures '+' !in KEYBOARD_PREFIX + t
  {
    assert forall i :: 0 <= i < |KEYBOARD_PREFIX| ==> KEYBOARD_PREFIX[i] != '+';
    assert forall i :: 0 <= i < |KEYBOARD_PREFIX + t| ==> (KEYBOARD_PREFIX + t)[i] != '+';
  }

  /** A single namespaced key shows its own name, with any further namespace occurrence removed too. */
  lemma SingleKeyStripped(name: string)
    requires '+' !in name
    ensures KeyDisplay(KEYBOARD_PREFIX + name) == ReplaceAll(name, KEYBOARD_PREFIX, "")
    ensures !Contains(name, KEYBOARD_PREFIX) ==> KeyDisplay(KEYBOARD_PREFIX + name) == name
  {
    NamespacedHasNoPlus(name);
    ReplaceAllLeading(KEYBOARD_PREFIX, name, "");
  }

  /** A single key loses the namespace even in the middle of its text. */
  lemma SingleKeyStripsInside()
    ensures KeyDisplay("xkey.keyboard.y") == "xy"
  {
    var s := "xkey.keyboard.y";
    assert '+' !in s;
    assert s[1..] == KEYBOARD_PREFIX + "y";
    assert !OccursAt(s, KEYBOARD_PREFIX, 0) by {
      assert s[0..13][0] != KEYBOARD_PREFIX[0];
    }
    ReplaceAllUnmatched(s, KEYBOARD_PREFIX, "");
    ReplaceAllLeading(KEYBOARD_PREFIX, "y", "");
  }

  /**
   * A part of a combination keeps the namespace unless the part starts with
   * it, unlike a single key: "a+xkey.keyboard.y" is shown as "a + xkey.keyboard.y".
   */
  lemma CombinationPartKeepsInside()
    ensures FormatPart("xkey.keyboard.y") == "xkey.keyboard.y"
  {
    var s := "xkey.keyboard.y";
    assert s[..13][0] != KEYBOARD_PREFIX[0];
    assert |ToLower(s)| == 15;
  }

  /**
   * Java's split drops the empty part after a trailing `+`, so a key ending
   * in `+` shows only the parts before it: "ctrl+" is shown as "Ctrl".
   */
  lemma TrailingSeparatorDropped()
    ensures KeyDisplay("ctrl+") == "Ctrl"
  {
    var s := "ctrl+";
    assert s == "ctrl" + ['+'];
    assert '+' in s;
    SplitOnSnoc("ctrl", '+');
    SplitOnNoSeparator("ctrl", '+');
    assert SplitOn(s, '+') == ["ctrl", ""];
    assert ["ctrl", ""][..1] == ["ctrl"];
    assert JavaSplit(s, '+') == ["ctrl"];
    assert FormatPart("ctrl") == "Ctrl" by {
      assert !StartsWith("ctrl", KEYBOARD_PREFIX);
    }
  }
}
