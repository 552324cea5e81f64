/** Scan codes, modifier keys and the four key tables of keyboard.c. */
module Keyboard {
  import opened Screen

  const CTRL := 0x1D
  const CTRL_RELEASE := 0x9D
  const SHIFT_L := 0x2A
  const SHIFT_L_RELEASE := 0xAA
  const SHIFT_R := 0x36
  const SHIFT_R_RELEASE := 0xB6
  const CAPS_LOCK := 0x3A
  const ALT := 0x38
  const ALT_RELEASE := 0xB8
  const ENTER := 0x1C
  const BACKSPACE := 0x0E
  const L := 0x26
  const KEYPAD_STAR := 0x37
  const F1 := 0x3B
  const F2 := 0x3C
  const F3 := 0x3D
  const TAB := 0x0F
  const KEYS := 58

  /** A key table, from the characters of the four rows of keys; the other entries are the
      same in all tables. */
  function Layout(digits: string, upper: string, home: string, lower: string): string {
    "\0\0" + digits + [BS, ' '] + upper + "\n\0" + home + "\0" + lower + "\0\0\0 "
  }

  const NOTHING_PRESSED := Layout("1234567890-=", "qwertyuiop[]", "asdfghjkl;'`", "\\zxcvbnm,./")
  const ONLY_CAPS := Layout("1234567890-=", "QWERTYUIOP[]", "ASDFGHJKL;'`", "\\ZXCVBNM,./")
  const ONLY_SHIFT := Layout("!@#$%^&*()_+", "QWERTYUIOP{}", "ASDFGHJKL:\"~", "|ZXCVBNM<>?")

  type ScanCode = c: int | 0 <= c < 256

  datatype Mods = Mods(ctrl: bool, shiftL: bool, shiftR: bool, caps: bool, alt: bool)

  predicate IsModifier(code: ScanCode) {
    code in {CTRL, CTRL_RELEASE, SHIFT_L, SHIFT_L_RELEASE, SHIFT_R, SHIFT_R_RELEASE, CAPS_LOCK, ALT, ALT_RELEASE}
  }

  function Shifted(m: Mods, code: ScanCode): Mods {
    if code == CTRL then m.(ctrl := true)
    else if code == CTRL_RELEASE then m.(ctrl := false)
    else if code == SHIFT_L then m.(shiftL := true)
    else if code == SHIFT_L_RELEASE then m.(shiftL := false)
    else if code == SHIFT_R then m.(shiftR := true)
    else if code == SHIFT_R_RELEASE then m.(shiftR := false)
    else if code == CAPS_LOCK then m.(caps := !m.caps)
    else if code == ALT then m.(alt := true)
    else if code == ALT_RELEASE then m.(alt := false)
    else m
  }

  /** Press and release codes of each modifier. */
  lemma ShiftedFlags(m: Mods, code: ScanCode)
    ensures var n := Shifted(m, code);
      && n.ctrl == (code == 0x1D || (m.ctrl && code != 0x9D))
      && n.shiftL == (code == 0x2A || (m.shiftL && code != 0xAA))
      && n.shiftR == (code == 0x36 || (m.shiftR && code != 0xB6))
      && n.alt == (code == 0x38 || (m.alt && code != 0xB8))
      && n.caps == if code == 0x3A then !m.caps else m.caps
    ensures !IsModifier(code) ==> Shifted(m, code) == m
  {}

  /** The codes with an entry in the tables. */
  predicate HasKey(code: ScanCode) {
    ((0 < code < KEYPAD_STAR) || (KEYPAD_STAR < code < F1)) && code != 1 && !IsModifier(code)
  }

  lemma TablesLength()
    ensures |NOTHING_PRESSED| == |ONLY_CAPS| == |ONLY_SHIFT| == KEYS
  {}

  /** Caps lock with a shift gives the plain table: the fourth table is never used. */
  function KeyChar(m: Mods, code: ScanCode): char
    requires HasKey(code)
  {
    TablesLength();
    if !m.caps && (m.shiftL || m.shiftR) then ONLY_SHIFT[code]
    else if m.caps && !m.shiftL && !m.shiftR then ONLY_CAPS[code]
    else NOTHING_PRESSED[code]
  }

  /** What a key that is not a modifier asks for. */
  datatype Action = Ignore | SwapTo(t: nat) | Erase | Enter | ClearScreen | Tab | Type(c: char)

  function Decode(m: Mods, code: ScanCode): Action
    requires !IsModifier(code)
  {
    if m.alt && F1 <= code <= F3 then SwapTo(code - F1)
    else if !HasKey(code) then Ignore
    else if code == BACKSPACE then Erase
    else if code == ENTER then Enter
    else if m.ctrl && code == L then ClearScreen
    else if code == TAB then Tab
    else Type(KeyChar(m, code))
  }

  predicate Fine(c: char) { Printable(c) && c != '\0' }

  ghost predicate AllFine(row: string) { forall k :: 0 <= k < |row| ==> Fine(row[k]) }

  lemma LayoutFine(digits: string, upper: string, home: string, lower: string, code: ScanCode)
    requires |digits| == |upper| == |home| == 12 && |lower| == 11
    requires AllFine(digits) && AllFine(upper) && AllFine(home) && AllFine(lower)
    requires HasKey(code) && code != ENTER && code != BACKSPACE
    ensures |Layout(digits, upper, home, lower)| == KEYS && Fine(Layout(digits, upper, home, lower)[code])
  {
    var t := Layout(digits, upper, home, lower);
    assert t[code] == if code < 14 then digits[code - 2] else if code == TAB then ' ' else if code < 28 then upper[code - 16]
      else if code < 42 then home[code - 30] else if code < 54 then lower[code - 43] else ' ';
  }

  lemma RowsFine()
    ensures AllFine("1234567890-=") && AllFine("!@#$%^&*()_+")
    ensures AllFine("qwertyuiop[]") && AllFine("QWERTYUIOP[]") && AllFine("QWERTYUIOP{}")
    ensures AllFine("asdfghjkl;'`") && AllFine("ASDFGHJKL;'`") && AllFine("ASDFGHJKL:\"~")
    ensures AllFine("\\zxcvbnm,./") && AllFine("\\ZXCVBNM,./") && AllFine("|ZXCVBNM<>?")
  {}

  /** No key but Enter and Backspace has a control character, and none has a NUL. */
  lemma KeyCharPrintable(m: Mods, code: ScanCode)
    requires HasKey(code) && code != ENTER && code != BACKSPACE
    ensures Fine(KeyChar(m, code))
  {
    RowsFine();
    if !m.caps && (m.shiftL || m.shiftR) {
      LayoutFine("!@#$%^&*()_+", "QWERTYUIOP{}", "ASDFGHJKL:\"~", "|ZXCVBNM<>?", code);
    } else if m.caps && !m.shiftL && !m.shiftR {
      LayoutFine("1234567890-=", "QWERTYUIOP[]", "ASDFGHJKL;'`", "\\ZXCVBNM,./", code);
    } else {
      LayoutFine("1234567890-=", "qwertyuiop[]", "asdfghjkl;'`", "\\zxcvbnm,./", code);
    }
  }

  /** The tab key also has an entry, used when there is no room for four spaces. */
  lemma TabIsSpace(m: Mods)
    ensures KeyChar(m, TAB) == ' '
  {
    TablesLength();
  }

  lemma DecodeSpecial(m: Mods)
    ensures Decode(m, BACKSPACE) == Erase && Decode(m, ENTER) == Enter && Decode(m, TAB) == Tab
    ensures m.ctrl ==> Decode(m, L) == ClearScreen
  {}
}
