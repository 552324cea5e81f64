/** Three virtual terminals: the line editor of keyboard.c, the two output paths of lib.c, the
    page copies of terminal_swap, the remapping done by the timer, and line delivery. */
module Console {
  import opened Arithmetic
  import opened Terminals
  import opened Screen
  import opened Keyboard

  const BUFFER := 128
  const TAB_ROOM := 125      // a tab needs numchar below this
  const ADDRESS_SIZE := 4
  const PROMPT := "391O"     // as much of "391OS> " as terminal_write compares

  /** terminal_array: `numchar` characters of the line are in the 128-byte buffer. */
  datatype Term = Term(cur: Cursor, numchar: nat, buffer: string, enter: bool)

  /** `pages` are the physical pages B8 to BB; virtual page B8 is mapped to `pages[b8]`. */
  datatype Con = Con(pages: seq<seq<Cell>>, b8: nat, shown: nat, current: nat, terms: seq<Term>, mods: Mods)

  ghost predicate FitTerm(t: Term) {
    && InPage(t.cur) && |t.buffer| == BUFFER && t.numchar <= BUFFER && t.numchar <= Offset(t.cur)
    && forall k :: 0 <= k < t.numchar ==> t.buffer[k] != '\0'
  }

  /** What every state keeps; in particular a line never has more characters than there are
      cells before the cursor, so a backspace never moves above the first row. */
  ghost predicate Fit(c: Con) {
    && |c.pages| == 4 && (forall p :: 0 <= p < 4 ==> |c.pages[p]| == PAGE)
    && c.b8 < 4 && c.shown < TERMINALS && c.current < TERMINALS
    && |c.terms| == TERMINALS && forall t :: 0 <= t < TERMINALS ==> FitTerm(c.terms[t])
  }

  /** Process output goes to the current terminal's own screen. */
  predicate InStep(c: Con) { c.b8 == ScreenOf(c.shown, c.current) }

  // ----- the handlers as functions of the state

  /** putc and putc_for_keyboard: a character on page `p` at the cursor of terminal `t`. */
  function PutOn(c: Con, p: nat, t: nat, ch: char): Con
    requires Fit(c) && p < 4 && t < TERMINALS && (ch == BS ==> Offset(c.terms[t].cur) > 0)
  {
    var v := Painted(View(c.pages[p], c.terms[t].cur), ch);
    c.(pages := c.pages[p := v.page], terms := c.terms[t := c.terms[t].(cur := v.cur)])
  }

  function Putc(c: Con, ch: char): Con
    requires Fit(c) && ch != BS
  {
    PutOn(c, c.b8, c.current, ch)
  }

  function PutcForKeyboard(c: Con, ch: char): Con
    requires Fit(c) && (ch == BS ==> Offset(c.terms[c.shown].cur) > 0)
  {
    PutOn(c, 0, c.shown, ch)
  }

  /** terminal_write first breaks the line of the current terminal if the text looks like a
      prompt and the cursor is not at the left edge. */
  predicate LooksLikePrompt(c: Con)
    requires Fit(c)
  {
    c.terms[c.shown].buffer[..ADDRESS_SIZE] == PROMPT && c.terms[c.current].cur.x != 0
  }

  /** The character in the buffer, not yet counted. */
  function Stored(c: Con, ch: char): (r: Con)
    requires Fit(c) && c.terms[c.shown].numchar < BUFFER
    ensures Fit(r)
  {
    var s := c.terms[c.shown];
    c.(terms := c.terms[c.shown := s.(buffer := s.buffer[s.numchar := ch])])
  }

  lemma OffsetAfter(v: View, ch: char)
    requires |v.page| == PAGE && InPage(v.cur) && (ch == BS ==> Offset(v.cur) > 0)
    ensures ch == BS ==> Offset(Painted(v, ch).cur) + 1 >= Offset(v.cur) || Offset(Painted(v, ch).cur) >= BUFFER
    ensures ch != BS ==> Offset(Painted(v, ch).cur) > Offset(v.cur) || Offset(Painted(v, ch).cur) > BUFFER
  {}

  lemma FitPut(c: Con, p: nat, t: nat, ch: char)
    requires Fit(c) && p < 4 && t < TERMINALS && ch != BS
    ensures Fit(PutOn(c, p, t, ch))
    ensures Offset(PutOn(c, p, t, ch).terms[t].cur) > c.terms[t].numchar
  {
    OffsetAfter(View(c.pages[p], c.terms[t].cur), ch);
  }

  /** A character typed: stored, written through terminal_write, and counted. */
  function Insert(c: Con, ch: char): Con
    requires Fit(c) && c.terms[c.shown].numchar < BUFFER && Fine(ch)
  {
    var c1 := Stored(c, ch);
    var c2 := if LooksLikePrompt(c1) then Putc(c1, '\n') else c1;
    FitPut(c1, c1.b8, c1.current, '\n');
    var c3 := PutcForKeyboard(c2, ch);
    c3.(terms := c3.terms[c.shown := c3.terms[c.shown].(numchar := c.terms[c.shown].numchar + 1)])
  }

  predicate SameLine(s: Term, t: Term) { s == t.(cur := s.cur) }

  lemma FitInsert(c: Con, ch: char)
    requires Fit(c) && c.terms[c.shown].numchar < BUFFER && Fine(ch)
    ensures Fit(Insert(c, ch)) && Insert(c, ch).terms[c.shown].numchar == c.terms[c.shown].numchar + 1
    ensures Insert(c, ch).terms[c.shown].buffer == c.terms[c.shown].buffer[c.terms[c.shown].numchar := ch]
    ensures Insert(c, ch).shown == c.shown && Insert(c, ch).current == c.current && Insert(c, ch).mods == c.mods
    ensures Insert(c, ch).terms[c.shown].enter == c.terms[c.shown].enter
    ensures forall u :: 0 <= u < TERMINALS && u != c.shown ==> SameLine(Insert(c, ch).terms[u], c.terms[u])
  {
    var c1 := Stored(c, ch);
    FitPut(c1, c1.b8, c1.current, '\n');
    var c2 := if LooksLikePrompt(c1) then Putc(c1, '\n') else c1;
    FitPut(c2, 0, c2.shown, ch);
  }

  /** A tab is four spaces typed. */
  function InsertSpaces(c: Con, n: nat): (r: Con)
    requires Fit(c) && c.terms[c.shown].numchar + n <= BUFFER
    ensures Fit(r)
    decreases BUFFER - c.terms[c.shown].numchar
  {
    if n == 0 then c else FitInsert(c, ' '); InsertSpaces(Insert(c, ' '), n - 1)
  }

  function Erased(c: Con): Con
    requires Fit(c) && c.terms[c.shown].numchar > 0
  {
    var c1 := PutcForKeyboard(c, BS);
    var s := c1.terms[c.shown];
    c1.(terms := c1.terms[c.shown := s.(numchar := s.numchar - 1, buffer := s.buffer[s.numchar - 1 := '\0'])])
  }

  function Entered(c: Con): Con
    requires Fit(c)
  {
    var c1 := PutcForKeyboard(c, '\n');
    c1.(terms := c1.terms[c.shown := c1.terms[c.shown].(enter := true)])
  }

  function ScreenCleared(c: Con): Con
    requires Fit(c)
  {
    c.(pages := c.pages[0 := Cleared(c.pages[0])],
       terms := c.terms[c.shown := c.terms[c.shown].(numchar := 0, cur := Cursor(0, 0))])
  }

  function Swapped(c: Con, t: nat): Con
    requires Fit(c) && t < TERMINALS
  {
    if t == c.shown then c
    else
      var pages := c.pages[c.shown + 1 := c.pages[0]];
      c.(pages := pages[0 := pages[t + 1]], shown := t)
  }

  function Acted(c: Con, a: Action): Con
    requires Fit(c) && (a.Type? ==> Fine(a.c)) && (a.SwapTo? ==> a.t < TERMINALS)
  {
    var n := c.terms[c.shown].numchar;
    match a
    case Ignore => c
    case SwapTo(t) => Swapped(c, t)
    case Erase => if n > 0 then Erased(c) else c
    case Enter => Entered(c)
    case ClearScreen => ScreenCleared(c)
    case Tab => if n < TAB_ROOM then InsertSpaces(c, TAB_WIDTH) else if n < BUFFER then Insert(c, ' ') else c
    case Type(ch) => if n < BUFFER then Insert(c, ch) else c
  }

  lemma DecodeFine(m: Mods, code: ScanCode)
    requires !IsModifier(code)
    ensures Decode(m, code).Type? ==> Fine(Decode(m, code).c)
    ensures Decode(m, code).SwapTo? ==> Decode(m, code).t < TERMINALS
  {
    if HasKey(code) && code != ENTER && code != BACKSPACE { KeyCharPrintable(m, code); }
  }

  /** The handler for a key with an entry in the tables. */
  function KeyHandled(c: Con, code: ScanCode): Con
    requires Fit(c) && HasKey(code)
  {
    DecodeFine(c.mods, code);
    Acted(c, Decode(c.mods, code))
  }

  /** keyboard_interrupt_handler. */
  function KeyPressed(c: Con, code: ScanCode): Con
    requires Fit(c)
  {
    if IsModifier(code) then c.(mods := Shifted(c.mods, code))
    else DecodeFine(c.mods, code); Acted(c, Decode(c.mods, code))
  }

  /** The timer's part: the next terminal becomes current and virtual B8 follows it. */
  function Ticked(c: Con): Con
    requires Fit(c)
  {
    var next := (c.current + 1) % TERMINALS;
    c.(current := next, b8 := ScreenOf(c.shown, next))
  }

  function WithCurrent(c: Con, t: Term): Con
    requires Fit(c)
  {
    c.(terms := c.terms[c.current := t])
  }

  /** sys_halt clears the current terminal's line. */
  function LineReset(c: Con): Con
    requires Fit(c)
  {
    WithCurrent(c, c.terms[c.current].(buffer := seq(BUFFER, _ => '\0'), numchar := 0, enter := false))
  }

  function ReadStarted(c: Con): Con
    requires Fit(c)
  {
    WithCurrent(c, c.terms[c.current].(enter := false))
  }

  /** The end of terminal_read: the memset has the size of a pointer, so it clears four bytes. */
  function ReadDone(c: Con): Con
    requires Fit(c)
  {
    var t := c.terms[c.current];
    WithCurrent(c, t.(numchar := 0, buffer := seq(ADDRESS_SIZE, _ => '\0') + t.buffer[ADDRESS_SIZE..]))
  }

  function Line(t: Term): string
    requires FitTerm(t)
  {
    t.buffer[..t.numchar]
  }

  datatype Event = Key(code: ScanCode) | Output(ch: char) | Tick | Halt | StartRead | FinishRead(nbytes: nat)

  function Step(c: Con, e: Event): Con
    requires Fit(c) && (e.Output? ==> e.ch != BS)
  {
    match e
    case Key(code) => KeyPressed(c, code)
    case Output(ch) => Putc(c, ch)
    case Tick => Ticked(c)
    case Halt => LineReset(c)
    case StartRead => ReadStarted(c)
    case FinishRead(_) => ReadDone(c)
  }

  lemma ActedFit(c: Con, a: Action)
    requires Fit(c) && (a.Type? ==> Fine(a.c)) && (a.SwapTo? ==> a.t < TERMINALS)
    ensures Fit(Acted(c, a))
  {
    match a
    case Erase => if c.terms[c.shown].numchar > 0 { OffsetAfter(View(c.pages[0], c.terms[c.shown].cur), BS); }
    case Enter => FitPut(c, 0, c.shown, '\n');
    case Tab =>
      if TAB_ROOM <= c.terms[c.shown].numchar < BUFFER { FitInsert(c, ' '); }
    case Type(ch) => if c.terms[c.shown].numchar < BUFFER { FitInsert(c, ch); }
    case _ =>
  }

  /** Every event keeps the state fit, whatever process output and swaps are interleaved. */
  lemma StepFit(c: Con, e: Event)
    requires Fit(c) && (e.Output? ==> e.ch != BS)
    ensures Fit(Step(c, e))
  {
    match e
    case Key(code) =>
      if !IsModifier(code) {
        DecodeFine(c.mods, code);
        ActedFit(c, Decode(c.mods, code));
      }
    case Output(ch) => FitPut(c, c.b8, c.current, ch);
    case _ =>
  }

  // ----- the simple console: per terminal an unbounded text and a line being edited

  datatype Ideal = Ideal(text: seq<Cell>, line: string, enter: bool)

  datatype Desk = Desk(terms: seq<Ideal>, shown: nat, current: nat, mods: Mods)

  ghost predicate Whole(d: Desk) { |d.terms| == TERMINALS && d.shown < TERMINALS && d.current < TERMINALS }

  function Spaces(n: nat): string { seq(n, _ => ' ') }

  /** The line editor. */
  function Edit(line: string, a: Action): string {
    match a
    case Erase => if line == "" then line else line[..|line| - 1]
    case ClearScreen => ""
    case Tab => if |line| < TAB_ROOM then line + Spaces(TAB_WIDTH) else if |line| < BUFFER then line + " " else line
    case Type(ch) => if |line| < BUFFER then line + [ch] else line
    case _ => line
  }

  function Glyphs(s: string): seq<Cell> { seq(|s|, k requires 0 <= k < |s| => Glyph(s[k])) }

  ghost function Echo(text: seq<Cell>, line: string, a: Action): seq<Cell> {
    match a
    case Erase => if line == "" || text == [] then text else text[..|text| - 1]
    case Enter => Laid(text, '\n')
    case ClearScreen => []
    case Tab =>
      if |line| < TAB_ROOM then text + Glyphs(Spaces(TAB_WIDTH))
      else if |line| < BUFFER then text + [Glyph(' ')]
      else text
    case Type(ch) => if |line| < BUFFER then text + [Glyph(ch)] else text
    case _ => text
  }

  ghost function With(d: Desk, t: nat, i: Ideal): Desk
    requires Whole(d) && t < TERMINALS
  {
    d.(terms := d.terms[t := i])
  }

  ghost function IdealActed(d: Desk, a: Action): Desk
    requires Whole(d) && (a.SwapTo? ==> a.t < TERMINALS)
  {
    var i := d.terms[d.shown];
    if a.SwapTo? then d.(shown := a.t)
    else With(d, d.shown, Ideal(Echo(i.text, i.line, a), Edit(i.line, a), i.enter || a.Enter?))
  }

  /** Keys and their echo concern the shown terminal only, process output the current one. */
  ghost function IdealStep(d: Desk, e: Event): Desk
    requires Whole(d) && (e.Output? ==> e.ch != BS)
  {
    match e
    case Key(code) =>
      if IsModifier(code) then d.(mods := Shifted(d.mods, code))
      else DecodeFine(d.mods, code); IdealActed(d, Decode(d.mods, code))
    case Output(ch) => With(d, d.current, d.terms[d.current].(text := Laid(d.terms[d.current].text, ch)))
    case Tick => d.(current := (d.current + 1) % TERMINALS)
    case Halt => With(d, d.current, d.terms[d.current].(line := "", enter := false))
    case StartRead => With(d, d.current, d.terms[d.current].(enter := false))
    case FinishRead(_) => With(d, d.current, d.terms[d.current].(line := ""))
  }

  // ----- lines: whatever is printed, and whether or not the mapping is in step

  /** The first `numchar` bytes of the buffer are the line. */
  ghost predicate LineAgrees(s: Term, i: Ideal)
    requires FitTerm(s)
  {
    Line(s) == i.line && s.enter == i.enter
  }

  ghost predicate LinesAgree(c: Con, d: Desk) {
    && Fit(c) && Whole(d) && c.shown == d.shown && c.current == d.current && c.mods == d.mods
    && forall t: nat :: t < TERMINALS ==> LineAgrees(c.terms[t], d.terms[t])
  }

  ghost function Typed(d: Desk, ch: char): Desk
    requires Whole(d)
  {
    var i := d.terms[d.shown];
    With(d, d.shown, i.(text := i.text + [Glyph(ch)], line := i.line + [ch]))
  }

  ghost function TypedSpaces(d: Desk, n: nat): (r: Desk)
    requires Whole(d)
    ensures Whole(r) && r == With(d, d.shown, d.terms[d.shown].(
      text := d.terms[d.shown].text + Glyphs(Spaces(n)), line := d.terms[d.shown].line + Spaces(n)))
    decreases n
  {
    var i := d.terms[d.shown];
    if n == 0 then
      assert i.text + Glyphs(Spaces(0)) == i.text && i.line + Spaces(0) == i.line;
      d
    else
      var r := TypedSpaces(Typed(d, ' '), n - 1);
      assert i.text + [Glyph(' ')] + Glyphs(Spaces(n - 1)) == i.text + Glyphs(Spaces(n));
      assert i.line + [' '] + Spaces(n - 1) == i.line + Spaces(n);
      r
  }

  lemma InsertLines(c: Con, d: Desk, ch: char)
    requires LinesAgree(c, d) && c.terms[c.shown].numchar < BUFFER && Fine(ch)
    ensures LinesAgree(Insert(c, ch), Typed(d, ch))
  {
    FitInsert(c, ch);
    var c', d' := Insert(c, ch), Typed(d, ch);
    forall t: nat | t < TERMINALS ensures LineAgrees(c'.terms[t], d'.terms[t]) {
      assert LineAgrees(c.terms[t], d.terms[t]);
      if t == c.shown { assert Line(c'.terms[t]) == Line(c.terms[t]) + [ch]; }
    }
  }

  lemma {:induction false} SpacesLines(c: Con, d: Desk, n: nat)
    requires LinesAgree(c, d) && c.terms[c.shown].numchar + n <= BUFFER
    ensures LinesAgree(InsertSpaces(c, n), TypedSpaces(d, n))
    decreases n
  {
    if n > 0 {
      InsertLines(c, d, ' ');
      FitInsert(c, ' ');
      SpacesLines(Insert(c, ' '), Typed(d, ' '), n - 1);
    }
  }

  /** What typing does to the simple console. */
  lemma TypedAction(d: Desk, a: Action)
    requires Whole(d) && (a.Type? || a.Tab?)
    ensures var n := |d.terms[d.shown].line|;
      IdealActed(d, a) ==
        if a.Tab? && n < TAB_ROOM then TypedSpaces(d, TAB_WIDTH)
        else if n < BUFFER then Typed(d, if a.Type? then a.c else ' ')
        else d
  {}

  lemma PlainLines(c: Con, d: Desk, a: Action)
    requires LinesAgree(c, d) && !a.Tab? && !a.Type? && (a.SwapTo? ==> a.t < TERMINALS) && Fit(Acted(c, a))
    ensures LinesAgree(Acted(c, a), IdealActed(d, a))
  {
    var c', d' := Acted(c, a), IdealActed(d, a);
    forall t: nat | t < TERMINALS ensures LineAgrees(c'.terms[t], d'.terms[t]) {
      assert LineAgrees(c.terms[t], d.terms[t]);
    }
  }

  lemma TypedLines(c: Con, d: Desk, a: Action)
    requires LinesAgree(c, d) && (a.Type? || a.Tab?) && (a.Type? ==> Fine(a.c))
    ensures LinesAgree(Acted(c, a), IdealActed(d, a))
  {
    var n := c.terms[c.shown].numchar;
    assert LineAgrees(c.terms[c.shown], d.terms[d.shown]);
    TypedAction(d, a);
    if a.Tab? && n < TAB_ROOM {
      SpacesLines(c, d, TAB_WIDTH);
    } else if n < BUFFER {
      InsertLines(c, d, if a.Type? then a.c else ' ');
    }
  }

  lemma ActedLines(c: Con, d: Desk, a: Action)
    requires LinesAgree(c, d) && (a.Type? ==> Fine(a.c)) && (a.SwapTo? ==> a.t < TERMINALS)
    ensures LinesAgree(Acted(c, a), IdealActed(d, a))
  {
    if a.Type? || a.Tab? {
      TypedLines(c, d, a);
    } else {
      ActedFit(c, a);
      PlainLines(c, d, a);
    }
  }

  lemma StepLines(c: Con, d: Desk, e: Event)
    requires LinesAgree(c, d) && (e.Output? ==> e.ch != BS)
    ensures LinesAgree(Step(c, e), IdealStep(d, e))
  {
    StepFit(c, e);
    if e.Key? && !IsModifier(e.code) {
      DecodeFine(c.mods, e.code);
      ActedLines(c, d, Decode(c.mods, e.code));
    } else {
      var c', d' := Step(c, e), IdealStep(d, e);
      forall t: nat | t < TERMINALS ensures LineAgrees(c'.terms[t], d'.terms[t]) {
        assert LineAgrees(c.terms[t], d.terms[t]);
      }
    }
  }

  // ----- screens: one terminal at a time, whatever the other terminals' pages hold

  /** Terminal t's screen is page B8 if it is shown and its own page otherwise; it is a window
      on the terminal's text. */
  ghost predicate Refines(c: Con, d: Desk, t: nat)
    requires t < TERMINALS
  {
    LinesAgree(c, d) && Shows(View(c.pages[ScreenOf(c.shown, t)], c.terms[t].cur), d.terms[t].text)
  }

  ghost predicate AllRefine(c: Con, d: Desk) {
    LinesAgree(c, d) && forall t: nat :: t < TERMINALS ==> Refines(c, d, t)
  }

  /** Storing this character will not make terminal_write see a prompt. */
  predicate Clean(c: Con, ch: char)
    requires Fit(c) && c.terms[c.shown].numchar < BUFFER
  {
    !LooksLikePrompt(Stored(c, ch))
  }

  predicate CleanSpaces(c: Con, n: nat)
    requires Fit(c) && c.terms[c.shown].numchar + n <= BUFFER
    decreases BUFFER - c.terms[c.shown].numchar
  {
    n > 0 ==> Clean(c, ' ') && (FitInsert(c, ' '); CleanSpaces(Insert(c, ' '), n - 1))
  }

  /** Echoing this key will not make terminal_write see a prompt. */
  predicate Quiet(c: Con, a: Action)
    requires Fit(c)
  {
    var n := c.terms[c.shown].numchar;
    if a.Tab? && n < TAB_ROOM then CleanSpaces(c, TAB_WIDTH)
    else (a.Tab? || a.Type?) && n < BUFFER ==> Clean(c, if a.Type? then a.c else ' ')
  }

  /** The runs considered: output only while the mapping is in step and with no tab split at
      the bottom-right corner, and no echo taken for a prompt. */
  predicate Allowed(c: Con, e: Event)
    requires Fit(c)
  {
    match e
    case Key(code) => !IsModifier(code) ==> Quiet(c, Decode(c.mods, code))
    case Output(ch) => ch != BS && InStep(c) && (ch == '\t' ==> TabFits(c.terms[c.current].cur))
    case _ => true
  }

  lemma InsertRefines(c: Con, d: Desk, ch: char, t: nat)
    requires t < TERMINALS && Refines(c, d, t)
    requires c.terms[c.shown].numchar < BUFFER && Fine(ch) && Clean(c, ch)
    ensures Refines(Insert(c, ch), Typed(d, ch), t)
  {
    FitInsert(c, ch);
    InsertLines(c, d, ch);
    if t == c.shown { PaintedShows(View(c.pages[0], c.terms[t].cur), d.terms[t].text, ch); }
  }

  lemma {:induction false} SpacesRefine(c: Con, d: Desk, n: nat, t: nat)
    requires t < TERMINALS && Refines(c, d, t)
    requires c.terms[c.shown].numchar + n <= BUFFER && CleanSpaces(c, n)
    ensures Refines(InsertSpaces(c, n), TypedSpaces(d, n), t)
    decreases n
  {
    if n > 0 {
      InsertRefines(c, d, ' ', t);
      FitInsert(c, ' ');
      SpacesRefine(Insert(c, ' '), Typed(d, ' '), n - 1, t);
    }
  }

  lemma TypeRefines(c: Con, d: Desk, a: Action, t: nat)
    requires t < TERMINALS && Refines(c, d, t)
    requires (a.Type? || a.Tab?) && (a.Type? ==> Fine(a.c)) && Quiet(c, a)
    ensures Refines(Acted(c, a), IdealActed(d, a), t)
  {
    var n := c.terms[c.shown].numchar;
    assert LineAgrees(c.terms[c.shown], d.terms[d.shown]);
    TypedAction(d, a);
    if a.Tab? && n < TAB_ROOM {
      SpacesRefine(c, d, TAB_WIDTH, t);
    } else if n < BUFFER {
      InsertRefines(c, d, if a.Type? then a.c else ' ', t);
    }
  }

  lemma EraseRefines(c: Con, d: Desk, t: nat)
    requires t < TERMINALS && Refines(c, d, t)
    ensures Refines(Acted(c, Erase), IdealActed(d, Erase), t)
  {
    ActedLines(c, d, Erase);
    assert LineAgrees(c.terms[c.shown], d.terms[d.shown]);
    if t == c.shown && c.terms[t].numchar > 0 {
      var v := View(c.pages[0], c.terms[t].cur);
      PaintedShows(v, d.terms[t].text, BS);
      assert Acted(c, Erase).pages[0] == Painted(v, BS).page && Acted(c, Erase).terms[t].cur == Painted(v, BS).cur;
    }
  }

  lemma EnterRefines(c: Con, d: Desk, t: nat)
    requires t < TERMINALS && Refines(c, d, t)
    ensures Refines(Acted(c, Enter), IdealActed(d, Enter), t)
  {
    ActedLines(c, d, Enter);
    if t == c.shown { PaintedShows(View(c.pages[0], c.terms[t].cur), d.terms[t].text, '\n'); }
  }

  /** Clearing makes the shown screen a window on its text, whatever it held before. */
  lemma ClearRefines(c: Con, d: Desk, t: nat)
    requires t < TERMINALS && LinesAgree(c, d) && (t == c.shown || Refines(c, d, t))
    ensures Refines(Acted(c, ClearScreen), IdealActed(d, ClearScreen), t)
  {
    ActedLines(c, d, ClearScreen);
    if t == c.shown { ClearedShows(c.pages[0]); }
  }

  lemma SwapRefines(c: Con, d: Desk, to: nat, t: nat)
    requires to < TERMINALS && t < TERMINALS && Refines(c, d, t)
    ensures Refines(Swapped(c, to), d.(shown := to), t)
  {
    ActedLines(c, d, SwapTo(to));
  }

  lemma KeyRefines(c: Con, d: Desk, code: ScanCode, t: nat)
    requires t < TERMINALS && Refines(c, d, t) && !IsModifier(code) && Allowed(c, Key(code))
    ensures Refines(KeyPressed(c, code), IdealStep(d, Key(code)), t)
  {
    DecodeFine(c.mods, code);
    var a := Decode(c.mods, code);
    match a
    case Ignore => ActedLines(c, d, a);
    case SwapTo(to) => SwapRefines(c, d, to, t);
    case Erase => EraseRefines(c, d, t);
    case Enter => EnterRefines(c, d, t);
    case ClearScreen => ClearRefines(c, d, t);
    case _ => TypeRefines(c, d, a, t);
  }

  /** What terminal_read copies out when it wakes: as many bytes as asked for and present. */
  function ReadBytes(c: Con, nbytes: nat): string
    requires Fit(c)
  {
    c.terms[c.current].buffer[..Min(nbytes, c.terms[c.current].numchar)]
  }

  /** Each step of the kernel's console is that step of the simple one. */
  lemma StepRefines(c: Con, d: Desk, e: Event, t: nat)
    requires t < TERMINALS && Refines(c, d, t) && Allowed(c, e)
    ensures Refines(Step(c, e), IdealStep(d, e), t)
  {
    StepLines(c, d, e);
    if e.Key? && !IsModifier(e.code) {
      KeyRefines(c, d, e.code, t);
    } else if e.Output? && t == c.current {
      PaintedShows(View(c.pages[c.b8], c.terms[t].cur), d.terms[t].text, e.ch);
    }
  }

  /** A read delivers the front of the line, whatever the screens hold. */
  lemma ReadDelivers(c: Con, d: Desk, nbytes: nat)
    requires LinesAgree(c, d)
    ensures var line := d.terms[d.current].line; ReadBytes(c, nbytes) == line[..Min(nbytes, |line|)]
  {
    assert LineAgrees(c.terms[c.current], d.terms[c.current]);
  }

  /** A tab without room for four spaces is typed as the one space of its table entry. */
  lemma TypedAnyway(c: Con, code: ScanCode)
    requires Fit(c) && HasKey(code) && code != ENTER && code != BACKSPACE && !(c.mods.ctrl && code == L)
    requires code == TAB ==> c.terms[c.shown].numchar >= TAB_ROOM
    ensures Fine(KeyChar(c.mods, code))
    ensures KeyHandled(c, code) == Acted(c, Type(KeyChar(c.mods, code)))
  {
    KeyCharPrintable(c.mods, code);
    TabIsSpace(c.mods);
  }

  ghost function EmptyDesk(mods: Mods): Desk { Desk(seq(TERMINALS, _ => Ideal([], "", false)), 0, 0, mods) }

  /** The state at boot: empty lines, and the one page that the kernel clears. */
  lemma EmptyRefines(c: Con)
    requires Fit(c) && c.shown == 0 && c.current == 0
    requires forall k :: 0 <= k < VISIBLE ==> c.pages[0][k] == BLANK
    requires forall t :: 0 <= t < TERMINALS ==>
      c.terms[t].cur == Cursor(0, 0) && c.terms[t].numchar == 0 && !c.terms[t].enter
    ensures Refines(c, EmptyDesk(c.mods), 0)
  {
    forall t: nat | t < TERMINALS ensures LineAgrees(c.terms[t], EmptyDesk(c.mods).terms[t]) {}
  }

  // ----- runs

  ghost predicate Sane(es: seq<Event>) { forall i :: 0 <= i < |es| && es[i].Output? ==> es[i].ch != BS }

  ghost function Run(c: Con, es: seq<Event>): (r: Con)
    requires Fit(c) && Sane(es)
    ensures Fit(r)
    decreases |es|
  {
    if es == [] then c
    else
      var before := Run(c, es[..|es| - 1]);
      StepFit(before, es[|es| - 1]);
      Step(before, es[|es| - 1])
  }

  ghost function IdealRun(d: Desk, es: seq<Event>): (r: Desk)
    requires Whole(d) && Sane(es)
    ensures Whole(r)
    decreases |es|
  {
    if es == [] then d else IdealStep(IdealRun(d, es[..|es| - 1]), es[|es| - 1])
  }

  ghost predicate AllowedRun(c: Con, es: seq<Event>)
    requires Fit(c) && Sane(es)
    decreases |es|
  {
    es != [] ==> AllowedRun(c, es[..|es| - 1]) && Allowed(Run(c, es[..|es| - 1]), es[|es| - 1])
  }

  lemma {:induction false} RunLines(c: Con, d: Desk, es: seq<Event>)
    requires LinesAgree(c, d) && Sane(es)
    ensures LinesAgree(Run(c, es), IdealRun(d, es))
    decreases |es|
  {
    if es != [] {
      var init := es[..|es| - 1];
      RunLines(c, d, init);
      StepLines(Run(c, init), IdealRun(d, init), es[|es| - 1]);
    }
  }

  /** In every state reached, a terminal's screen is the window on its own text if it was one at
      the start: output has changed it only while the terminal was current, echo only while it
      was shown.  Nothing is asked of the other terminals' pages. */
  lemma {:induction false} RunRefines(c: Con, d: Desk, es: seq<Event>, t: nat)
    requires t < TERMINALS && Refines(c, d, t) && Sane(es) && AllowedRun(c, es)
    ensures Refines(Run(c, es), IdealRun(d, es), t)
    decreases |es|
  {
    if es != [] {
      var init := es[..|es| - 1];
      RunRefines(c, d, init, t);
      StepRefines(Run(c, init), IdealRun(d, init), es[|es| - 1], t);
    }
  }

  /** All three terminals together. */
  lemma RunRefinesAll(c: Con, d: Desk, es: seq<Event>)
    requires AllRefine(c, d) && Sane(es) && AllowedRun(c, es)
    ensures AllRefine(Run(c, es), IdealRun(d, es))
  {
    RunLines(c, d, es);
    forall t: nat | t < TERMINALS ensures Refines(Run(c, es), IdealRun(d, es), t) { RunRefines(c, d, es, t); }
  }

  /** A terminal whose page held anything at all becomes a window on its text when its screen is
      first cleared, and stays one. */
  lemma ClearThenRefines(c: Con, d: Desk, before: seq<Event>, clear: ScanCode, after: seq<Event>)
    requires LinesAgree(c, d) && Sane(before) && Sane(after) && !IsModifier(clear)
    requires Decode(Run(c, before).mods, clear) == ClearScreen
    requires AllowedRun(KeyPressed(Run(c, before), clear), after)
    ensures Refines(Run(KeyPressed(Run(c, before), clear), after),
                    IdealRun(IdealStep(IdealRun(d, before), Key(clear)), after), Run(c, before).shown)
  {
    RunLines(c, d, before);
    var r, s := Run(c, before), IdealRun(d, before);
    ClearRefines(r, s, r.shown);
    RunRefines(KeyPressed(r, clear), IdealStep(s, Key(clear)), after, r.shown);
  }

  // ----- conservation, whatever the screens hold

  ghost function ScreenContents(c: Con, u: nat): seq<Cell>
    requires Fit(c) && u < TERMINALS
  {
    c.pages[ScreenOf(c.shown, u)]
  }

  lemma InsertOnShown(c: Con, ch: char, u: nat)
    requires Fit(c) && c.terms[c.shown].numchar < BUFFER && Fine(ch) && Clean(c, ch) && u < TERMINALS && u != c.shown
    ensures Fit(Insert(c, ch)) && ScreenContents(Insert(c, ch), u) == ScreenContents(c, u)
  {
    FitInsert(c, ch);
  }

  lemma {:induction false} SpacesOnShown(c: Con, n: nat, u: nat)
    requires Fit(c) && c.terms[c.shown].numchar + n <= BUFFER && CleanSpaces(c, n) && u < TERMINALS && u != c.shown
    ensures InsertSpaces(c, n).shown == c.shown && ScreenContents(InsertSpaces(c, n), u) == ScreenContents(c, u)
    decreases n
  {
    if n > 0 {
      FitInsert(c, ' ');
      InsertOnShown(c, ' ', u);
      SpacesOnShown(Insert(c, ' '), n - 1, u);
    }
  }

  lemma PlainConserves(c: Con, a: Action, u: nat)
    requires Fit(c) && u < TERMINALS && !a.Type? && !a.Tab? && (a.SwapTo? ==> a.t < TERMINALS) && Fit(Acted(c, a))
    requires a.SwapTo? || u != c.shown
    ensures ScreenContents(Acted(c, a), u) == ScreenContents(c, u)
  {}

  lemma KeyConserves(c: Con, a: Action, u: nat)
    requires Fit(c) && u < TERMINALS && (a.Type? ==> Fine(a.c)) && (a.SwapTo? ==> a.t < TERMINALS) && Quiet(c, a)
    requires a.SwapTo? || u != c.shown
    ensures Fit(Acted(c, a)) && ScreenContents(Acted(c, a), u) == ScreenContents(c, u)
  {
    ActedFit(c, a);
    var n := c.terms[c.shown].numchar;
    match a
    case Tab =>
      if n < TAB_ROOM { SpacesOnShown(c, TAB_WIDTH, u); }
      else if n < BUFFER { InsertOnShown(c, ' ', u); }
    case Type(ch) => if n < BUFFER { InsertOnShown(c, ch, u); }
    case _ => PlainConserves(c, a, u);
  }

  /** A step changes no terminal's screen but the current one's, by output, or the shown
      one's, by a key that is not a swap; a swap changes none. */
  lemma ScreensConserved(c: Con, e: Event, u: nat)
    requires Fit(c) && Allowed(c, e) && u < TERMINALS
    requires e.Output? ==> u != c.current
    requires e.Key? ==> u != c.shown || (!IsModifier(e.code) && Decode(c.mods, e.code).SwapTo?)
    ensures Fit(Step(c, e)) && ScreenContents(Step(c, e), u) == ScreenContents(c, u)
  {
    StepFit(c, e);
    if e.Key? && !IsModifier(e.code) {
      DecodeFine(c.mods, e.code);
      KeyConserves(c, Decode(c.mods, e.code), u);
    }
  }

  // ----- key routing

  /** The editing actions typed while terminal `t` was shown, since its line was last reset by
      a completed read or a halt. */
  ghost function Routed(d: Desk, es: seq<Event>, t: nat): seq<Action>
    requires Whole(d) && Sane(es)
    decreases |es|
  {
    if es == [] then []
    else
      var init, e := es[..|es| - 1], es[|es| - 1];
      var s := IdealRun(d, init);
      if (e.Halt? || e.FinishRead?) && s.current == t then []
      else if e.Key? && !IsModifier(e.code) && s.shown == t && !Decode(s.mods, e.code).SwapTo? then
        Routed(d, init, t) + [Decode(s.mods, e.code)]
      else Routed(d, init, t)
  }

  ghost function EditAll(actions: seq<Action>): string
    decreases |actions|
  {
    if actions == [] then "" else Edit(EditAll(actions[..|actions| - 1]), actions[|actions| - 1])
  }

  lemma EditOneMore(actions: seq<Action>, a: Action)
    ensures EditAll(actions + [a]) == Edit(EditAll(actions), a)
  {
    assert (actions + [a])[..|actions|] == actions;
  }

  /** What one event does to a line. */
  lemma LineStep(d: Desk, e: Event, t: nat)
    requires Whole(d) && t < TERMINALS && (e.Output? ==> e.ch != BS)
    ensures Whole(IdealStep(d, e))
    ensures IdealStep(d, e).terms[t].line ==
      if (e.Halt? || e.FinishRead?) && d.current == t then ""
      else if e.Key? && !IsModifier(e.code) && d.shown == t && !Decode(d.mods, e.code).SwapTo? then
        Edit(d.terms[t].line, Decode(d.mods, e.code))
      else d.terms[t].line
  {
    if e.Key? && !IsModifier(e.code) { DecodeFine(d.mods, e.code); }
  }

  lemma {:induction false} LineIsFold(d: Desk, es: seq<Event>, t: nat)
    requires Whole(d) && Sane(es) && t < TERMINALS && d.terms[t].line == ""
    ensures IdealRun(d, es).terms[t].line == EditAll(Routed(d, es, t))
    decreases |es|
  {
    if es != [] {
      var init, e := es[..|es| - 1], es[|es| - 1];
      LineIsFold(d, init, t);
      var s := IdealRun(d, init);
      LineStep(s, e, t);
      if e.Key? && !IsModifier(e.code) {
        EditOneMore(Routed(d, init, t), Decode(s.mods, e.code));
      }
    }
  }

  /** Each terminal's buffer holds the line-editor fold of the keys typed while it was shown
      since its last reset; it has at most 128 characters and no NUL. */
  lemma KeyRouting(c: Con, d: Desk, es: seq<Event>, t: nat)
    requires LinesAgree(c, d) && Sane(es) && t < TERMINALS && d.terms[t].line == ""
    ensures Line(Run(c, es).terms[t]) == EditAll(Routed(d, es, t))
    ensures |EditAll(Routed(d, es, t))| <= BUFFER && '\0' !in EditAll(Routed(d, es, t))
  {
    RunLines(c, d, es);
    LineIsFold(d, es, t);
    assert FitTerm(Run(c, es).terms[t]);
  }

  // ----- echo

  /** The characters before the end of the text spell the line. */
  ghost predicate Echoed(d: Desk, t: nat)
    requires Whole(d) && t < TERMINALS
  {
    var i := d.terms[t];
    |i.line| <= |i.text| && i.text[|i.text| - |i.line|..] == Glyphs(i.line)
  }

  /** An Enter on terminal `t`, or output to it, while its line is not empty. */
  ghost predicate Disturbs(d: Desk, e: Event, t: nat)
    requires Whole(d) && t < TERMINALS
  {
    && d.terms[t].line != ""
    && ((e.Output? && d.current == t)
        || (e.Key? && !IsModifier(e.code) && d.shown == t && Decode(d.mods, e.code) == Enter))
  }

  lemma EchoLonger(text: seq<Cell>, line: string, more: string)
    requires |line| <= |text| && text[|text| - |line|..] == Glyphs(line)
    ensures (text + Glyphs(more))[|text| - |line|..] == Glyphs(line + more)
  {
    assert (text + Glyphs(more))[|text| - |line|..] == text[|text| - |line|..] + Glyphs(more);
    assert Glyphs(line + more) == Glyphs(line) + Glyphs(more);
  }

  lemma EchoShorter(text: seq<Cell>, line: string)
    requires 0 < |line| <= |text| && text[|text| - |line|..] == Glyphs(line)
    ensures text[..|text| - 1][|text| - |line|..] == Glyphs(line[..|line| - 1])
  {
    assert text[|text| - |line|..][..|line| - 1] == text[..|text| - 1][|text| - |line|..];
    assert Glyphs(line)[..|line| - 1] == Glyphs(line[..|line| - 1]);
  }

  lemma EchoEdit(text: seq<Cell>, line: string, a: Action)
    requires |line| <= |text| && text[|text| - |line|..] == Glyphs(line) && (a.Enter? ==> line == "")
    ensures var text', line' := Echo(text, line, a), Edit(line, a);
      |line'| <= |text'| && text'[|text'| - |line'|..] == Glyphs(line')
  {
    if a.Erase? && line != "" {
      EchoShorter(text, line);
    } else if a.Tab? && |line| < TAB_ROOM {
      EchoLonger(text, line, Spaces(TAB_WIDTH));
    } else if (a.Tab? || a.Type?) && |line| < BUFFER {
      var ch := if a.Type? then a.c else ' ';
      assert Glyphs([ch]) == [Glyph(ch)];
      EchoLonger(text, line, [ch]);
    }
  }

  lemma EchoActed(d: Desk, a: Action, t: nat)
    requires Whole(d) && t < TERMINALS && Echoed(d, t) && (a.SwapTo? ==> a.t < TERMINALS)
    requires a.Enter? && d.shown == t ==> d.terms[t].line == ""
    ensures Echoed(IdealActed(d, a), t)
  {
    if d.shown == t && !a.SwapTo? { EchoEdit(d.terms[t].text, d.terms[t].line, a); }
  }

  lemma EchoStep(d: Desk, e: Event, t: nat)
    requires Whole(d) && t < TERMINALS && (e.Output? ==> e.ch != BS)
    requires Echoed(d, t) && !Disturbs(d, e, t)
    ensures Echoed(IdealStep(d, e), t)
  {
    var i := d.terms[t];
    if e.Key? && !IsModifier(e.code) {
      DecodeFine(d.mods, e.code);
      EchoActed(d, Decode(d.mods, e.code), t);
    }
  }

  ghost predicate Undisturbed(d: Desk, es: seq<Event>, t: nat)
    requires Whole(d) && Sane(es) && t < TERMINALS
    decreases |es|
  {
    es != [] ==> Undisturbed(d, es[..|es| - 1], t) && !Disturbs(IdealRun(d, es[..|es| - 1]), es[|es| - 1], t)
  }

  lemma {:induction false} EchoRun(d: Desk, es: seq<Event>, t: nat)
    requires Whole(d) && Sane(es) && t < TERMINALS && Echoed(d, t) && Undisturbed(d, es, t)
    ensures Echoed(IdealRun(d, es), t)
    decreases |es|
  {
    if es != [] {
      EchoRun(d, es[..|es| - 1], t);
      EchoStep(IdealRun(d, es[..|es| - 1]), es[|es| - 1], t);
    }
  }

  /** The cell shows that character. */
  predicate InCell(cell: Cell, ch: char) { cell.ch == ch && cell.attr == 7 }

  /** The `numchar` cells just before the cursor spell the buffer. */
  ghost predicate SpellsLine(c: Con, t: nat)
    requires Fit(c) && t < TERMINALS
  {
    var s, page := c.terms[t], c.pages[ScreenOf(c.shown, t)];
    && s.numchar <= Offset(s.cur) <= VISIBLE
    && forall k :: 0 <= k < s.numchar ==> InCell(page[Offset(s.cur) - s.numchar + k], s.buffer[k])
  }

  lemma VisibleEcho(c: Con, d: Desk, t: nat)
    requires t < TERMINALS && Refines(c, d, t) && Echoed(d, t)
    ensures SpellsLine(c, t)
  {
    assert LineAgrees(c.terms[t], d.terms[t]) && FitTerm(c.terms[t]);
    var s, text, page := c.terms[t], d.terms[t].text, c.pages[ScreenOf(c.shown, t)];
    var from, n := Offset(s.cur) - s.numchar, s.numchar;
    forall k | 0 <= k < n ensures InCell(page[from + k], s.buffer[k]) {
      assert page[from + k] == CellAt(text, |text| - Offset(s.cur) + (from + k));
      assert text[|text| - n..][k] == Glyphs(s.buffer[..n])[k];
    }
  }

  /** On the real screen the echo agrees with the line buffer, across row wraps, scrolls,
      backspaces and tabs. */
  lemma EchoOnScreen(c: Con, d: Desk, es: seq<Event>, t: nat)
    requires t < TERMINALS && Refines(c, d, t) && Sane(es) && AllowedRun(c, es)
    requires Echoed(d, t) && Undisturbed(d, es, t)
    ensures SpellsLine(Run(c, es), t)
  {
    RunRefines(c, d, es, t);
    EchoRun(d, es, t);
    VisibleEcho(Run(c, es), IdealRun(d, es), t);
  }

  // ----- where the guarantees end

  /** A line break put in by terminal_write shows in the current terminal's column. */
  lemma PromptColumn(c: Con, ch: char)
    requires Fit(c) && c.terms[c.shown].numchar < BUFFER && Fine(ch) && !Clean(c, ch)
    ensures Fit(Insert(c, ch)) && c.terms[c.current].cur.x != 0
    ensures Insert(c, ch).terms[c.current].cur.x == if c.current == c.shown then 1 else 0
  {
    FitInsert(c, ch);
  }

  lemma Columns(length: nat, offset: nat, x: nat)
    requires offset <= length && (length - offset) % COLS == 0 && offset % COLS == x && x < COLS
    ensures length % COLS == x
    ensures (length + 1) % COLS == if x + 1 == COLS then 0 else x + 1
  {}

  lemma PromptShows(c: Con, d: Desk)
    requires Fit(c) && Whole(d) && |d.terms[c.current].text| % COLS != c.terms[c.current].cur.x
    ensures !Refines(c, d, c.current)
  {
    if Refines(c, d, c.current) {
      ShowsColumn(View(c.pages[ScreenOf(c.shown, c.current)], c.terms[c.current].cur), d.terms[c.current].text);
    }
  }

  /** The echo of a typed character is faithful on the current terminal if and only if
      terminal_write does not take the buffer for a prompt. */
  lemma InsertExact(c: Con, d: Desk, ch: char)
    requires c.current < TERMINALS && Refines(c, d, c.current) && c.terms[c.shown].numchar < BUFFER && Fine(ch)
    ensures Refines(Insert(c, ch), Typed(d, ch), c.current) <==> Clean(c, ch)
  {
    if Clean(c, ch) {
      InsertRefines(c, d, ch, c.current);
    } else {
      PromptColumn(c, ch);
      Columns(|d.terms[c.current].text|, Offset(c.terms[c.current].cur), c.terms[c.current].cur.x);
      PromptShows(Insert(c, ch), Typed(d, ch));
    }
  }

  /** With caps lock on, these are the keys of "X91O" and "3". */
  const X_KEY := 0x2D
  const NINE_KEY := 0x0A
  const ONE_KEY := 0x02
  const O_KEY := 0x18
  const THREE_KEY := 0x04

  lemma CapsKeys(m: Mods)
    requires m.caps && !m.shiftL && !m.shiftR && !m.alt
    ensures Decode(m, X_KEY) == Type('X') && Decode(m, NINE_KEY) == Type('9') && Decode(m, ONE_KEY) == Type('1')
    ensures Decode(m, O_KEY) == Type('O') && Decode(m, THREE_KEY) == Type('3')
  {
    TablesLength();
  }

  /** The shown terminal is current, in step, and its line is `line`. */
  ghost predicate Holding(c: Con, line: string, mods: Mods) {
    Fit(c) && c.shown == c.current && c.b8 == 0 && c.mods == mods && Line(c.terms[c.shown]) == line
  }

  lemma TypeOne(c: Con, line: string, mods: Mods, code: ScanCode, ch: char)
    requires Holding(c, line, mods) && |line| < BUFFER && !IsModifier(code) && Decode(mods, code) == Type(ch)
    ensures Holding(Step(c, Key(code)), line + [ch], mods)
  {
    DecodeFine(mods, code);
    FitInsert(c, ch);
    assert Line(Insert(c, ch).terms[c.shown]) == line + [ch];
  }

  /** One more key typed into the line. */
  ghost function WithKey(c: Con, line: string, mods: Mods, code: ScanCode, ch: char): (r: Con)
    requires Holding(c, line, mods) && |line| < BUFFER && !IsModifier(code) && Decode(mods, code) == Type(ch)
    ensures Holding(r, line + [ch], mods)
  {
    TypeOne(c, line, mods, code, ch);
    Step(c, Key(code))
  }

  const NONE := Mods(false, false, false, false, false)
  const CAPS := NONE.(caps := true)

  lemma CapsOn(c: Con)
    requires Holding(c, "", NONE)
    ensures Holding(Step(c, Key(CAPS_LOCK)), "", CAPS)
  {}

  ghost function TypedX9(c: Con): (r: Con)
    requires Holding(c, "", NONE)
    ensures Holding(r, "X9", CAPS)
  {
    CapsKeys(CAPS);
    CapsOn(c);
    var x := WithKey(Step(c, Key(CAPS_LOCK)), "", CAPS, X_KEY, 'X');
    WithKey(x, "X", CAPS, NINE_KEY, '9')
  }

  /** X91O typed with caps lock on. */
  ghost function TypedX91O(c: Con): (r: Con)
    requires Holding(c, "", NONE)
    ensures Holding(r, "X91O", CAPS)
  {
    CapsKeys(CAPS);
    var x91 := WithKey(TypedX9(c), "X9", CAPS, ONE_KEY, '1');
    WithKey(x91, "X91", CAPS, O_KEY, 'O')
  }

  lemma ClearedStale(c: Con, mods: Mods)
    requires Holding(c, "X91O", mods) && mods.ctrl && !mods.alt
    ensures var r := Step(Step(c, Key(L)), Output('p'));
      Fit(r) && Line(r.terms[r.shown]) == "" && r.mods == mods && !Clean(r, '3')
  {
    var c1 := Step(c, Key(L));
    assert c1 == ScreenCleared(c);
    var r := Step(c1, Output('p'));
    assert r.terms[r.current].cur == Cursor(1, 0);
    assert r.terms[r.shown].buffer == c.terms[c.shown].buffer;
    assert r.terms[r.shown].buffer[0 := '3'][..ADDRESS_SIZE] == PROMPT;
  }

  /** The buffer is compared whole, not up to `numchar`: type X91O, clear the screen with
      control-L, let the program print one character, and the first key typed after that, a 3,
      completes a prompt with what the buffer still holds. */
  lemma StaleBufferPrompts(c: Con)
    requires Holding(c, "", NONE)
    ensures var r := Step(Step(Step(TypedX91O(c), Key(CTRL)), Key(L)), Output('p'));
      Fit(r) && Line(r.terms[r.shown]) == "" && Decode(r.mods, THREE_KEY) == Type('3') && !Clean(r, '3')
  {
    CapsKeys(CAPS.(ctrl := true));
    ClearedStale(Step(TypedX91O(c), Key(CTRL)), CAPS.(ctrl := true));
  }

  /** A tick always puts the mapping in step; a swap leaves it in step exactly when neither the
      terminal hidden nor the terminal shown is the current one. */
  lemma InStepExactly(c: Con, t: nat)
    requires Fit(c) && t < TERMINALS
    ensures InStep(Ticked(c))
    ensures InStep(c) ==> (InStep(Swapped(c, t)) <==> t == c.shown || (c.current != c.shown && c.current != t))
  {}

  /** Output between a swap away from the current terminal and the next tick lands on the
      terminal now shown, and not on its own. */
  lemma OutputBeforeTick(c: Con, t: nat, ch: char)
    requires Fit(c) && InStep(c) && c.current == c.shown && t < TERMINALS && t != c.shown && ch != BS
    ensures var s := Swapped(c, t);
      && Putc(s, ch).pages[ScreenOf(t, c.current)] == s.pages[ScreenOf(t, c.current)]
      && Putc(s, ch).pages[ScreenOf(t, t)] == Painted(View(s.pages[ScreenOf(t, t)], c.terms[c.current].cur), ch).page
  {}
}
