/** What the keyboard does, by scan code numbers and characters: the modifiers held after any
    sequence of events, the keys that switch terminals, and what each other key does to the line. */
module KeyLaws {
  import opened Arithmetic
  import opened Terminals
  import opened Screen
  import opened Keyboard
  import opened Console

  // ----- modifiers, over any run

  /** The last of the two codes to come was `press`; if neither came, as before. */
  ghost predicate Held(es: seq<Event>, press: ScanCode, release: ScanCode, was: bool)
    decreases |es|
  {
    if es == [] then was
    else if es[|es| - 1] == Key(press) then true
    else if es[|es| - 1] == Key(release) then false
    else Held(es[..|es| - 1], press, release, was)
  }

  /** The code has come an odd number of times, counting `was` as once. */
  ghost predicate Toggled(es: seq<Event>, code: ScanCode, was: bool)
    decreases |es|
  {
    if es == [] then was
    else if es[|es| - 1] == Key(code) then !Toggled(es[..|es| - 1], code, was)
    else Toggled(es[..|es| - 1], code, was)
  }

  lemma StepMods(d: Desk, e: Event)
    requires Whole(d) && (e.Output? ==> e.ch != BS)
    ensures var m, n := d.mods, IdealStep(d, e).mods;
      && n.ctrl == (e == Key(0x1D) || (m.ctrl && e != Key(0x9D)))
      && n.shiftL == (e == Key(0x2A) || (m.shiftL && e != Key(0xAA)))
      && n.shiftR == (e == Key(0x36) || (m.shiftR && e != Key(0xB6)))
      && n.alt == (e == Key(0x38) || (m.alt && e != Key(0xB8)))
      && n.caps == if e == Key(0x3A) then !m.caps else m.caps
  {
    if e.Key? {
      ShiftedFlags(d.mods, e.code);
      if !IsModifier(e.code) { DecodeFine(d.mods, e.code); }
    }
  }

  lemma {:induction false} RunMods(d: Desk, es: seq<Event>)
    requires Whole(d) && Sane(es)
    ensures var m, n := d.mods, IdealRun(d, es).mods;
      && n.ctrl == Held(es, 0x1D, 0x9D, m.ctrl)
      && n.shiftL == Held(es, 0x2A, 0xAA, m.shiftL)
      && n.shiftR == Held(es, 0x36, 0xB6, m.shiftR)
      && n.alt == Held(es, 0x38, 0xB8, m.alt)
      && n.caps == Toggled(es, 0x3A, m.caps)
    decreases |es|
  {
    if es != [] {
      RunMods(d, es[..|es| - 1]);
      StepMods(IdealRun(d, es[..|es| - 1]), es[|es| - 1]);
    }
  }

  /** A simple console with the lines of this one. */
  ghost function DeskOf(c: Con): (d: Desk)
    requires Fit(c)
    ensures LinesAgree(c, d)
  {
    var d := Desk(seq(TERMINALS, t requires 0 <= t < TERMINALS => Ideal([], Line(c.terms[t]), c.terms[t].enter)),
                  c.shown, c.current, c.mods);
    assert forall t: nat :: t < TERMINALS ==> LineAgrees(c.terms[t], d.terms[t]);
    d
  }

  /** After any events a modifier is on if and only if its press came last, and caps lock if and
      only if its key came an odd number of times. */
  lemma ModifierKeys(c: Con, es: seq<Event>)
    requires Fit(c) && Sane(es)
    ensures var m, n := c.mods, Run(c, es).mods;
      && n.ctrl == Held(es, 0x1D, 0x9D, m.ctrl)
      && n.shiftL == Held(es, 0x2A, 0xAA, m.shiftL)
      && n.shiftR == Held(es, 0x36, 0xB6, m.shiftR)
      && n.alt == Held(es, 0x38, 0xB8, m.alt)
      && n.caps == Toggled(es, 0x3A, m.caps)
  {
    RunLines(c, DeskOf(c), es);
    RunMods(DeskOf(c), es);
  }

  // ----- switching terminals

  lemma StepShown(d: Desk, e: Event)
    requires Whole(d) && (e.Output? ==> e.ch != BS)
    ensures IdealStep(d, e).shown ==
      if e.Key? && d.mods.alt && 0x3B <= e.code <= 0x3D then e.code - 0x3B else d.shown
  {
    if e.Key? && !IsModifier(e.code) { DecodeFine(d.mods, e.code); }
  }

  /** The terminal last asked for with alt held and F1, F2 or F3. */
  ghost function LastAsked(es: seq<Event>, alt: bool, was: nat): nat
    decreases |es|
  {
    if es == [] then was
    else
      var init, e := es[..|es| - 1], es[|es| - 1];
      if e.Key? && 0x3B <= e.code <= 0x3D && Held(init, 0x38, 0xB8, alt) then e.code - 0x3B else LastAsked(init, alt, was)
  }

  lemma {:induction false} RunShown(d: Desk, es: seq<Event>)
    requires Whole(d) && Sane(es)
    ensures IdealRun(d, es).shown == LastAsked(es, d.mods.alt, d.shown)
    decreases |es|
  {
    if es != [] {
      var init := es[..|es| - 1];
      RunShown(d, init);
      RunMods(d, init);
      StepShown(IdealRun(d, init), es[|es| - 1]);
    }
  }

  /** After any events the terminal shown is the one last asked for with alt and F1, F2 or F3. */
  lemma ShownIsLastAsked(c: Con, es: seq<Event>)
    requires Fit(c) && Sane(es)
    ensures Run(c, es).shown == LastAsked(es, c.mods.alt, c.shown)
  {
    RunLines(c, DeskOf(c), es);
    RunShown(DeskOf(c), es);
  }

  /** In particular alt and then F1, F2 or F3 shows terminal 0, 1 or 2 in whatever state. */
  lemma AltFunctionKey(c: Con, t: nat)
    requires Fit(c) && t < 3
    ensures Fit(Step(c, Key(0x38))) && Step(Step(c, Key(0x38)), Key(0x3B + t)).shown == t
  {
    var d := DeskOf(c);
    StepLines(c, d, Key(0x38));
    StepMods(d, Key(0x38));
    StepLines(Step(c, Key(0x38)), IdealStep(d, Key(0x38)), Key(0x3B + t));
    StepShown(IdealStep(d, Key(0x38)), Key(0x3B + t));
  }

  // ----- what the keys type

  ghost predicate Shift(m: Mods) { m.shiftL || m.shiftR }

  lemma LayoutAt(digits: string, upper: string, home: string, lower: string, code: ScanCode)
    requires |digits| == |upper| == |home| == 12 && |lower| == 11
    requires 2 <= code < 14 || 16 <= code < 28 || 30 <= code < 42 || 43 <= code < 54 || code == 57
    ensures |Layout(digits, upper, home, lower)| == KEYS
    ensures Layout(digits, upper, home, lower)[code] ==
      if code < 14 then digits[code - 2] else if code < 28 then upper[code - 16]
      else if code < 42 then home[code - 30] else if code < 54 then lower[code - 43] else ' '
  {}

  /** The rows of the table in use. */
  lemma TableOf(m: Mods, code: ScanCode)
    requires HasKey(code)
    ensures 2 <= code < 14 || 16 <= code < 28 || 30 <= code < 42 || 43 <= code < 54 || code == 57 ==>
      var shift, caps := !m.caps && Shift(m), m.caps && !Shift(m);
      KeyChar(m, code) ==
        if code < 14 then (if shift then "!@#$%^&*()_+" else "1234567890-=")[code - 2]
        else if code < 28 then (if shift then "QWERTYUIOP{}" else if caps then "QWERTYUIOP[]" else "qwertyuiop[]")[code - 16]
        else if code < 42 then (if shift then "ASDFGHJKL:\"~" else if caps then "ASDFGHJKL;'`" else "asdfghjkl;'`")[code - 30]
        else if code < 54 then (if shift then "|ZXCVBNM<>?" else if caps then "\\ZXCVBNM,./" else "\\zxcvbnm,./")[code - 43]
        else ' '
  {
    TablesLength();
    if 2 <= code < 14 || 16 <= code < 28 || 30 <= code < 42 || 43 <= code < 54 || code == 57 {
      LayoutAt("!@#$%^&*()_+", "QWERTYUIOP{}", "ASDFGHJKL:\"~", "|ZXCVBNM<>?", code);
      LayoutAt("1234567890-=", "QWERTYUIOP[]", "ASDFGHJKL;'`", "\\ZXCVBNM,./", code);
      LayoutAt("1234567890-=", "qwertyuiop[]", "asdfghjkl;'`", "\\zxcvbnm,./", code);
    }
  }

  /** The keys with two symbols: the shifted one with shift and without caps lock only. */
  lemma SymbolKey(m: Mods, code: ScanCode)
    requires HasKey(code)
    ensures var high := Shift(m) && !m.caps;
      && (0x02 <= code < 0x0E ==> KeyChar(m, code) == (if high then "!@#$%^&*()_+" else "1234567890-=")[code - 0x02])
      && (0x1A <= code < 0x1C ==> KeyChar(m, code) == (if high then "{}" else "[]")[code - 0x1A])
      && (0x27 <= code < 0x2A ==> KeyChar(m, code) == (if high then ":\"~" else ";'`")[code - 0x27])
      && (code == 0x2B ==> KeyChar(m, code) == if high then '|' else '\\')
      && (0x33 <= code < 0x36 ==> KeyChar(m, code) == (if high then "<>?" else ",./")[code - 0x33])
      && (code == 0x39 ==> KeyChar(m, code) == ' ')
  {
    TableOf(m, code);
  }

  /** The letter keys: a capital with caps lock or shift, but not both. */
  lemma LetterKey(m: Mods, code: ScanCode)
    requires HasKey(code)
    ensures var capital := m.caps != Shift(m);
      && (0x10 <= code < 0x1A ==> KeyChar(m, code) == (if capital then "QWERTYUIOP" else "qwertyuiop")[code - 0x10])
      && (0x1E <= code < 0x27 ==> KeyChar(m, code) == (if capital then "ASDFGHJKL" else "asdfghjkl")[code - 0x1E])
      && (0x2C <= code < 0x33 ==> KeyChar(m, code) == (if capital then "ZXCVBNM" else "zxcvbnm")[code - 0x2C])
  {
    TableOf(m, code);
  }

  // ----- what the keys do to the line

  ghost function LineOf(c: Con, t: nat): string
    requires Fit(c) && t < TERMINALS
  {
    c.terms[t].buffer[..c.terms[t].numchar]
  }

  lemma StepLine(c: Con, e: Event, t: nat)
    requires Fit(c) && t < TERMINALS && (e.Output? ==> e.ch != BS)
    ensures Fit(Step(c, e))
    ensures LineOf(Step(c, e), t) ==
      if (e.Halt? || e.FinishRead?) && c.current == t then ""
      else if e.Key? && !IsModifier(e.code) && c.shown == t && !Decode(c.mods, e.code).SwapTo? then
        Edit(LineOf(c, t), Decode(c.mods, e.code))
      else LineOf(c, t)
  {
    var d := DeskOf(c);
    StepLines(c, d, e);
    LineStep(d, e, t);
    assert LineAgrees(c.terms[t], d.terms[t]) && LineAgrees(Step(c, e).terms[t], IdealStep(d, e).terms[t]);
  }

  /** The keys that type a character. */
  predicate TypingKey(m: Mods, code: ScanCode) {
    && (0x02 <= code < 0x0E || 0x10 <= code < 0x1C || 0x1E <= code < 0x2A || 0x2B <= code < 0x36 || code == 0x39)
    && !(m.ctrl && code == 0x26)
  }

  /** A typing key adds its character to the line shown while that has fewer than 128. */
  lemma TypedKey(c: Con, code: ScanCode)
    requires Fit(c) && TypingKey(c.mods, code)
    ensures Fit(Step(c, Key(code))) && HasKey(code)
    ensures var line := LineOf(c, c.shown);
      LineOf(Step(c, Key(code)), c.shown) == if |line| < 128 then line + [KeyChar(c.mods, code)] else line
  {
    StepLine(c, Key(code), c.shown);
  }

  /** Backspace, tab, Enter and control-L. */
  lemma EditingKeys(c: Con)
    requires Fit(c)
    ensures forall code: ScanCode :: Fit(Step(c, Key(code)))
    ensures var line := LineOf(c, c.shown);
      && LineOf(Step(c, Key(0x0E)), c.shown) == (if line == "" then line else line[..|line| - 1])
      && LineOf(Step(c, Key(0x0F)), c.shown)
           == (if |line| < 125 then line + "    " else if |line| < 128 then line + " " else line)
      && LineOf(Step(c, Key(0x1C)), c.shown) == line
      && (c.mods.ctrl ==> LineOf(Step(c, Key(0x26)), c.shown) == "")
  {
    forall code: ScanCode ensures Fit(Step(c, Key(code))) { StepFit(c, Key(code)); }
    StepLine(c, Key(0x0E), c.shown);
    StepLine(c, Key(0x0F), c.shown);
    StepLine(c, Key(0x1C), c.shown);
    StepLine(c, Key(0x26), c.shown);
    assert Spaces(TAB_WIDTH) == "    ";
    DecodeSpecial(c.mods);
  }

  /** No key touches the line of a terminal that is not shown. */
  lemma OtherLines(c: Con, code: ScanCode, t: nat)
    requires Fit(c) && t < TERMINALS && t != c.shown
    ensures Fit(Step(c, Key(code))) && LineOf(Step(c, Key(code)), t) == LineOf(c, t)
  {
    StepLine(c, Key(code), t);
  }

  // ----- the flag that wakes a read

  /** Enter was pressed while `t` was shown, and since then no read or halt of `t` began. */
  ghost predicate Awake(d: Desk, es: seq<Event>, t: nat, was: bool)
    requires Whole(d) && Sane(es)
    decreases |es|
  {
    if es == [] then was
    else
      var init, e := es[..|es| - 1], es[|es| - 1];
      if e == Key(0x1C) && IdealRun(d, init).shown == t then true
      else if (e == StartRead || e == Halt) && IdealRun(d, init).current == t then false
      else Awake(d, init, t, was)
  }

  lemma OnlyEnter(m: Mods, code: ScanCode)
    requires !IsModifier(code)
    ensures Decode(m, code) == Action.Enter <==> code == 0x1C
  {}

  lemma StepFlag(d: Desk, e: Event, t: nat)
    requires Whole(d) && t < TERMINALS && (e.Output? ==> e.ch != BS)
    ensures Whole(IdealStep(d, e)) && IdealStep(d, e).terms[t].enter ==
      if e == Key(0x1C) && d.shown == t then true
      else if (e == StartRead || e == Halt) && d.current == t then false
      else d.terms[t].enter
  {
    if e.Key? && !IsModifier(e.code) {
      DecodeFine(d.mods, e.code);
      OnlyEnter(d.mods, e.code);
    }
  }

  lemma {:induction false} RunFlag(d: Desk, es: seq<Event>, t: nat)
    requires Whole(d) && Sane(es) && t < TERMINALS
    ensures IdealRun(d, es).terms[t].enter == Awake(d, es, t, d.terms[t].enter)
    decreases |es|
  {
    if es != [] {
      var init := es[..|es| - 1];
      RunFlag(d, init, t);
      StepFlag(IdealRun(d, init), es[|es| - 1], t);
    }
  }

  /** The flag a read waits for is raised exactly by Enter on its terminal. */
  lemma EnterFlag(c: Con, es: seq<Event>, t: nat)
    requires Fit(c) && Sane(es) && t < TERMINALS
    ensures Run(c, es).terms[t].enter == Awake(DeskOf(c), es, t, c.terms[t].enter)
  {
    RunLines(c, DeskOf(c), es);
    RunFlag(DeskOf(c), es, t);
    assert LineAgrees(Run(c, es).terms[t], IdealRun(DeskOf(c), es).terms[t]);
  }

  /** What the end of a read leaves: no characters counted, four bytes of the buffer cleared and the
      others kept, and the other terminals as they were. */
  lemma AfterRead(c: Con, nbytes: nat)
    requires Fit(c)
    ensures var t, t' := c.terms[c.current], Step(c, FinishRead(nbytes)).terms[c.current];
      && t'.numchar == 0 && t'.cur == t.cur && t'.enter == t.enter && |t'.buffer| == 128
      && forall k :: 0 <= k < 128 ==> t'.buffer[k] == if k < 4 then '\0' else t.buffer[k]
    ensures forall u :: 0 <= u < 3 && u != c.current ==> Step(c, FinishRead(nbytes)).terms[u] == c.terms[u]
  {}

  /** A halt clears the line of the current terminal, the whole buffer of it. */
  lemma AfterHalt(c: Con)
    requires Fit(c)
    ensures var t, t' := c.terms[c.current], Step(c, Halt).terms[c.current];
      && t'.numchar == 0 && t'.cur == t.cur && !t'.enter && |t'.buffer| == 128
      && forall k :: 0 <= k < 128 ==> t'.buffer[k] == '\0'
    ensures forall u :: 0 <= u < 3 && u != c.current ==> Step(c, Halt).terms[u] == c.terms[u]
  {}
}
