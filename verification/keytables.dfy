/**
 The US-layout keycode resolver of the typing demo: two fixed 101-entry tables
 whose index is a key usage on the Keyboard/Keypad page (section 10 of the USB
 HID Usage Tables 1.12), scanned first-match-wins, unshifted table first.
 */
module KeyTables {
  import opened Common

  /** Filler for table slots that no character maps to. */
  const CharIllegal: char := '\U{FF}'
  const CharReturn: char := '\n'
  const CharEscape: char := '\U{1B}'
  const CharTab: char := '\t'
  const CharBackspace: char := '\U{7F}'

  /** Number of entries in each table (usages 0 to 100). */
  const TableSize: nat := 101

  /** Modifier byte values of the boot keyboard report. */
  const ModifierNone: byte := 0
  const ModifierShift: byte := 2

  const KeytableUsNone: seq<char> :=
    [CharIllegal, CharIllegal, CharIllegal, CharIllegal]                // 0-3
    + ['a', 'b', 'c', 'd', 'e', 'f', 'g', 'h', 'i', 'j']                // 4-13
    + ['k', 'l', 'm', 'n', 'o', 'p', 'q', 'r', 's', 't']                // 14-23
    + ['u', 'v', 'w', 'x', 'y', 'z']                                    // 24-29
    + ['1', '2', '3', '4', '5', '6', '7', '8', '9', '0']                // 30-39
    + [CharReturn, CharEscape, CharBackspace, CharTab, ' ']             // 40-44
    + ['-', '=', '[', ']', '\\', CharIllegal, ';', '\'', '`', ',']      // 45-54
    + ['.', '/', CharIllegal, CharIllegal, CharIllegal, CharIllegal]    // 55-60
    + [CharIllegal, CharIllegal, CharIllegal, CharIllegal]              // 61-64
    + [CharIllegal, CharIllegal, CharIllegal, CharIllegal]              // 65-68
    + [CharIllegal, CharIllegal, CharIllegal, CharIllegal]              // 69-72
    + [CharIllegal, CharIllegal, CharIllegal, CharIllegal]              // 73-76
    + [CharIllegal, CharIllegal, CharIllegal, CharIllegal]              // 77-80
    + [CharIllegal, CharIllegal, CharIllegal, CharIllegal]              // 81-84
    + ['*', '-', '+', '\n', '1', '2', '3', '4', '5']                    // 85-93
    + ['6', '7', '8', '9', '0', '.', '\U{A7}']                          // 94-100

  const KeytableUsShift: seq<char> :=
    [CharIllegal, CharIllegal, CharIllegal, CharIllegal]                // 0-3
    + ['A', 'B', 'C', 'D', 'E', 'F', 'G', 'H', 'I', 'J']                // 4-13
    + ['K', 'L', 'M', 'N', 'O', 'P', 'Q', 'R', 'S', 'T']                // 14-23
    + ['U', 'V', 'W', 'X', 'Y', 'Z']                                    // 24-29
    + ['!', '@', '#', '$', '%', '^', '&', '*', '(', ')']                // 30-39
    + [CharReturn, CharEscape, CharBackspace, CharTab, ' ']             // 40-44
    + ['_', '+', '{', '}', '|', CharIllegal, ':', '"', '~', '<']        // 45-54
    + ['>', '?', CharIllegal, CharIllegal, CharIllegal, CharIllegal]    // 55-60
    + [CharIllegal, CharIllegal, CharIllegal, CharIllegal]              // 61-64
    + [CharIllegal, CharIllegal, CharIllegal, CharIllegal]              // 65-68
    + [CharIllegal, CharIllegal, CharIllegal, CharIllegal]              // 69-72
    + [CharIllegal, CharIllegal, CharIllegal, CharIllegal]              // 73-76
    + [CharIllegal, CharIllegal, CharIllegal, CharIllegal]              // 77-80
    + [CharIllegal, CharIllegal, CharIllegal, CharIllegal]              // 81-84
    + ['*', '-', '+', '\n', '1', '2', '3', '4', '5']                    // 85-93
    + ['6', '7', '8', '9', '0', '.', '\U{B1}']                          // 94-100

  /** A keyboard layout: the character each key usage produces without and
      with the shift modifier. */
  datatype Layout = Layout(unshifted: seq<char>, shifted: seq<char>) {
    /** Every table index fits the one-byte keycode field. */
    predicate Valid() {
      |unshifted| <= 0x100 && |shifted| <= 0x100
    }
  }

  /** A layout whose tables fit the keycode byte. */
  type ValidLayout = l: Layout | l.Valid() witness Layout([], [])

  /** The layout `keycode_and_modifer_us_for_character` consults. */
  const UsLayout: Layout := Layout(KeytableUsNone, KeytableUsShift)

  lemma UsLayoutSize()
    ensures |UsLayout.unshifted| == TableSize && |UsLayout.shifted| == TableSize
    ensures UsLayout.Valid()
  {
  }

  /** A resolved key: the modifier byte and the key usage sent for a character. */
  datatype KeyStroke = KeyStroke(modifier: byte, keycode: byte)

  /** `i` is the position of the first occurrence of `c` in `table`. */
  ghost predicate IsFirstIndex(table: seq<char>, c: char, i: int) {
    0 <= i < |table| && table[i] == c && forall j :: 0 <= j < i ==> table[j] != c
  }

  /** The first-occurrence property stated through the prefix before `i`. */
  lemma FirstIndexByPrefix(table: seq<char>, c: char, i: int)
    requires 0 <= i < |table| && table[i] == c && c !in table[..i]
    ensures IsFirstIndex(table, c, i)
  {
    forall j | 0 <= j < i ensures table[j] != c {
      assert table[j] == table[..i][j];
    }
  }

  lemma FirstIndexUnique(table: seq<char>, c: char, i: int, k: int)
    requires IsFirstIndex(table, c, i) && IsFirstIndex(table, c, k)
    ensures i == k
  {
  }

  /** The scan of `lookup_keycode` from position `from` on, as a function. */
  function FirstIndexFrom(table: seq<char>, c: char, from: nat): (r: Option<nat>)
    requires from <= |table|
    ensures r.Some? ==> from <= r.value < |table| && table[r.value] == c
    ensures r.Some? ==> forall j :: from <= j < r.value ==> table[j] != c
    ensures r.None? <==> forall j :: from <= j < |table| ==> table[j] != c
    decreases |table| - from
  {
    if from == |table| then None
    else if table[from] == c then Some(from)
    else FirstIndexFrom(table, c, from + 1)
  }

  /** Whole-table scan: finds exactly the first occurrence, and fails exactly
      when the character does not occur. */
  lemma FirstIndexIsFirstOccurrence(table: seq<char>, c: char)
    ensures FirstIndexFrom(table, c, 0).Some? <==> c in table
    ensures FirstIndexFrom(table, c, 0).Some? ==> IsFirstIndex(table, c, FirstIndexFrom(table, c, 0).value)
  {
    if c in table {
      var k :| 0 <= k < |table| && table[k] == c;
      assert FirstIndexFrom(table, c, 0).Some?;
    }
  }

  /** `lookup_keycode`: a linear scan that writes the first matching index to
      the out-parameter `keycode` (truncated to `uint8_t`) and leaves it
      untouched when the character does not occur. */
  method LookupKeycode(character: char, table: seq<char>, keycode: byte) returns (found: bool, keycode': byte)
    ensures found <==> character in table
    ensures found ==> FirstIndexFrom(table, character, 0).Some?
                      && keycode' == FirstIndexFrom(table, character, 0).value % 0x100
    ensures !found ==> keycode' == keycode
  {
    var i := 0;
    while i < |table|
      invariant 0 <= i <= |table|
      invariant forall j :: 0 <= j < i ==> table[j] != character
      invariant FirstIndexFrom(table, character, 0) == FirstIndexFrom(table, character, i)
    {
      if table[i] == character {
        return true, i % 0x100;
      }
      i := i + 1;
    }
    return false, keycode;
  }

  /** `keycode_and_modifer_us_for_character` as a pure function of the layout:
      the first index in the unshifted table with no modifier, otherwise the
      first index in the shifted table with the shift modifier, otherwise
      nothing. */
  function Resolve(layout: Layout, c: char): (r: Option<KeyStroke>)
    requires layout.Valid()
    ensures c in layout.unshifted ==>
              r.Some? && r.value.modifier == ModifierNone && IsFirstIndex(layout.unshifted, c, r.value.keycode)
    ensures c !in layout.unshifted && c in layout.shifted ==>
              r.Some? && r.value.modifier == ModifierShift && IsFirstIndex(layout.shifted, c, r.value.keycode)
    ensures r.None? <==> c !in layout.unshifted && c !in layout.shifted
  {
    FirstIndexIsFirstOccurrence(layout.unshifted, c);
    FirstIndexIsFirstOccurrence(layout.shifted, c);
    match FirstIndexFrom(layout.unshifted, c, 0)
    case Some(i) => Some(KeyStroke(ModifierNone, i))
    case None =>
      match FirstIndexFrom(layout.shifted, c, 0)
      case Some(i) => Some(KeyStroke(ModifierShift, i))
      case None => None
  }

  /** A resolved keycode is a valid index of the US tables and the modifier
      is either none or shift. */
  lemma ResolveBounds(c: char)
    ensures UsLayout.Valid()
    ensures Resolve(UsLayout, c).Some? ==> Resolve(UsLayout, c).value.keycode < TableSize
    ensures Resolve(UsLayout, c).Some? ==>
              Resolve(UsLayout, c).value.modifier in {ModifierNone, ModifierShift}
  {
    UsLayoutSize();
  }

  /** The C function with its out-parameters: on success both are written with
      the resolved key, on failure both keep the caller's values. */
  method KeycodeAndModifierForCharacter(layout: Layout, character: char, keycode: byte, modifier: byte)
    returns (found: bool, keycode': byte, modifier': byte)
    requires layout.Valid()
    ensures found <==> character in layout.unshifted || character in layout.shifted
    ensures found ==> Resolve(layout, character) == Some(KeyStroke(modifier', keycode'))
    ensures !found ==> keycode' == keycode && modifier' == modifier
  {
    FirstIndexIsFirstOccurrence(layout.unshifted, character);
    FirstIndexIsFirstOccurrence(layout.shifted, character);
    modifier' := modifier;
    found, keycode' := LookupKeycode(character, layout.unshifted, keycode);
    if found {
      modifier' := ModifierNone;
      return;
    }
    found, keycode' := LookupKeycode(character, layout.shifted, keycode');
    if found {
      modifier' := ModifierShift;
      return;
    }
  }

  /** '-' sits twice in the unshifted table (usage 45 and keypad usage 86);
      the first match wins. */
  lemma ResolveMinusFirstMatch()
    ensures KeytableUsNone[86] == '-'
    ensures Resolve(UsLayout, '-') == Some(KeyStroke(ModifierNone, 45))
  {
    UsLayoutSize();
    FirstIndexByPrefix(KeytableUsNone, '-', 45);
    FirstIndexUnique(KeytableUsNone, '-', 45, Resolve(UsLayout, '-').value.keycode);
  }

  /** '*' is the keypad usage 85 in the unshifted table and also the shifted
      '8' (usage 37); the unshifted entry wins. */
  lemma ResolveStarPrefersUnshifted()
    ensures KeytableUsShift[37] == '*'
    ensures Resolve(UsLayout, '*') == Some(KeyStroke(ModifierNone, 85))
  {
    UsLayoutSize();
    StarFirstUnshifted();
    FirstIndexUnique(KeytableUsNone, '*', 85, Resolve(UsLayout, '*').value.keycode);
  }

  lemma StarFirstUnshifted()
    ensures IsFirstIndex(KeytableUsNone, '*', 85)
  {
    FirstIndexByPrefix(KeytableUsNone, '*', 85);
  }

  /** 'q' is usage 0x14 without modifier. */
  lemma ResolveLowerQ()
    ensures Resolve(UsLayout, 'q') == Some(KeyStroke(ModifierNone, 0x14))
  {
    UsLayoutSize();
    FirstIndexByPrefix(KeytableUsNone, 'q', 0x14);
    FirstIndexUnique(KeytableUsNone, 'q', 0x14, Resolve(UsLayout, 'q').value.keycode);
  }

  /** 'Q' is the same usage 0x14 with the shift modifier. */
  lemma ResolveUpperQ()
    ensures Resolve(UsLayout, 'Q') == Some(KeyStroke(ModifierShift, 0x14))
  {
    UsLayoutSize();
    UpperQNotUnshifted();
    UpperQFirstShifted();
    FirstIndexUnique(KeytableUsShift, 'Q', 0x14, Resolve(UsLayout, 'Q').value.keycode);
  }

  lemma UpperQNotUnshifted()
    ensures 'Q' !in KeytableUsNone
  {
  }

  lemma UpperQFirstShifted()
    ensures IsFirstIndex(KeytableUsShift, 'Q', 0x14)
  {
    FirstIndexByPrefix(KeytableUsShift, 'Q', 0x14);
  }

  /** A character in neither table, here the byte 0x80, does not resolve. */
  lemma ResolveOutsideTables()
    ensures Resolve(UsLayout, '\U{80}') == None
  {
    UsLayoutSize();
    NotUnshifted80();
    NotShifted80();
  }

  lemma NotUnshifted80()
    ensures '\U{80}' !in KeytableUsNone
  {
  }

  lemma NotShifted80()
    ensures '\U{80}' !in KeytableUsShift
  {
  }

  /** CHAR_ILLEGAL fills usage 0 of the unshifted table, so it "resolves". */
  lemma ResolveCharIllegal()
    ensures Resolve(UsLayout, CharIllegal) == Some(KeyStroke(ModifierNone, 0))
  {
    UsLayoutSize();
    assert IsFirstIndex(KeytableUsNone, CharIllegal, 0);
    FirstIndexUnique(KeytableUsNone, CharIllegal, 0, Resolve(UsLayout, CharIllegal).value.keycode);
  }
}
