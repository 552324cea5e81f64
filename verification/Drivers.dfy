/** The console drivers as they update video memory and terminal_array in place, each proved
    to have the effect of the corresponding function of module Console. */
module Drivers {
  import opened Arithmetic
  import opened Terminals
  import opened Screen
  import opened Keyboard
  import opened Console

  class Video {
    // The physical pages B8, B9, BA and BB.
    const b8: array<Cell>
    const b9: array<Cell>
    const ba: array<Cell>
    const bb: array<Cell>
    const terms: array<Term>
    var mapping: nat
    var shown: nat
    var current: nat
    var ctrl: bool
    var shiftL: bool
    var shiftR: bool
    var caps: bool
    var alt: bool

    function State(): Con
      reads this, b8, b9, ba, bb, terms
    {
      Con([b8[..], b9[..], ba[..], bb[..]], mapping, shown, current, terms[..], Mods(ctrl, shiftL, shiftR, caps, alt))
    }

    ghost predicate Valid()
      reads this, b8, b9, ba, bb, terms
    {
      && b8.Length == b9.Length == ba.Length == bb.Length == PAGE
      && b8 != b9 && b8 != ba && b8 != bb && b9 != ba && b9 != bb && ba != bb
      && Fit(State())
    }

    function Page(p: nat): array<Cell>
      requires p < 4
    {
      if p == 0 then b8 else if p == 1 then b9 else if p == 2 then ba else bb
    }

    /** The state at boot: page B8 has been cleared, the terminals' own pages still hold `stale`,
        and terminal 0, shown and current, refines an empty text. */
    constructor (stale: seq<seq<Cell>>)
      requires |stale| == 4 && forall p :: 0 <= p < 4 ==> |stale[p]| == PAGE
      ensures Valid() && fresh(b8) && fresh(b9) && fresh(ba) && fresh(bb) && fresh(terms)
      ensures State().pages[1..] == stale[1..]
      ensures Refines(State(), EmptyDesk(Mods(false, false, false, false, false)), 0)
      ensures InStep(State())
    {
      b8 := new Cell[PAGE](k requires 0 <= k < PAGE => stale[0][k]);
      b9 := new Cell[PAGE](k requires 0 <= k < PAGE => stale[1][k]);
      ba := new Cell[PAGE](k requires 0 <= k < PAGE => stale[2][k]);
      bb := new Cell[PAGE](k requires 0 <= k < PAGE => stale[3][k]);
      terms := new Term[TERMINALS](_ => Term(Cursor(0, 0), 0, seq(BUFFER, _ => '\0'), false));
      mapping, shown, current := 0, 0, 0;
      ctrl, shiftL, shiftR, caps, alt := false, false, false, false, false;
      new;
      Clear(b8);
      assert b9[..] == stale[1] && ba[..] == stale[2] && bb[..] == stale[3];
      EmptyRefines(State());
    }

    method PutTo(p: nat, t: nat, ch: char)
      requires Valid() && p < 4 && t < TERMINALS && (ch == BS ==> Offset(terms[t].cur) > 0)
      modifies terms, Page(p)
      ensures State() == PutOn(old(State()), p, t, ch)
    {
      var cur := Put(Page(p), terms[t].cur, ch);
      terms[t] := terms[t].(cur := cur);
    }

    method Putc(ch: char)
      requires Valid() && ch != BS
      modifies terms, Page(mapping)
      ensures Valid() && State() == Console.Putc(old(State()), ch)
    {
      PutTo(mapping, current, ch);
      FitPut(old(State()), mapping, current, ch);
    }

    method PutcForKeyboard(ch: char)
      requires Valid() && (ch == BS ==> Offset(terms[shown].cur) > 0)
      modifies terms, b8
      ensures State() == Console.PutcForKeyboard(old(State()), ch)
    {
      PutTo(0, shown, ch);
    }

    /** terminal_write as the keyboard calls it: the character at `numchar` is echoed. */
    method EchoLast()
      requires Valid() && terms[shown].numchar < BUFFER && Fine(terms[shown].buffer[terms[shown].numchar])
      modifies terms, b8, b9, ba, bb
      ensures State() == (
        var c := old(State()); var t := c.terms[c.shown];
        FitPut(c, c.b8, c.current, '\n');
        Console.PutcForKeyboard(if LooksLikePrompt(c) then Console.Putc(c, '\n') else c, t.buffer[t.numchar]))
    {
      var ch := terms[shown].buffer[terms[shown].numchar];
      if terms[shown].buffer[..ADDRESS_SIZE] == PROMPT && terms[current].cur.x != 0 {
        Putc('\n');
      }
      PutcForKeyboard(ch);
    }

    method TypeChar(ch: char)
      requires Valid() && terms[shown].numchar < BUFFER && Fine(ch)
      modifies terms, b8, b9, ba, bb
      ensures Valid() && State() == Insert(old(State()), ch)
    {
      FitInsert(State(), ch);
      var n := terms[shown].numchar;
      terms[shown] := terms[shown].(buffer := terms[shown].buffer[n := ch]);
      EchoLast();
      terms[shown] := terms[shown].(numchar := n + 1);
    }

    /** The chain of comparisons in cap_ctrl_shift. */
    method SetFlag(input: ScanCode) returns (isModifier: bool)
      requires Valid()
      modifies this
      ensures isModifier <==> IsModifier(input)
      ensures State() == old(State()).(mods := Shifted(old(State()).mods, input))
    {
      if input == CTRL { ctrl := true; return true; }
      if input == CTRL_RELEASE { ctrl := false; return true; }
      if input == SHIFT_L { shiftL := true; return true; }
      if input == SHIFT_L_RELEASE { shiftL := false; return true; }
      if input == SHIFT_R { shiftR := true; return true; }
      if input == SHIFT_R_RELEASE { shiftR := false; return true; }
      if input == CAPS_LOCK { caps := !caps; return true; }
      if input == ALT { alt := true; return true; }
      if input == ALT_RELEASE { alt := false; return true; }
      return false;
    }

    /** cap_ctrl_shift. */
    method CapCtrlShift(input: ScanCode) returns (isModifier: bool)
      requires Valid()
      modifies this
      ensures isModifier <==> IsModifier(input)
      ensures State() == old(State()).(mods := if isModifier then Shifted(old(State()).mods, input) else old(State()).mods)
      ensures ctrl <==> input == 0x1D || (old(ctrl) && input != 0x9D)
      ensures shiftL <==> input == 0x2A || (old(shiftL) && input != 0xAA)
      ensures shiftR <==> input == 0x36 || (old(shiftR) && input != 0xB6)
      ensures alt <==> input == 0x38 || (old(alt) && input != 0xB8)
      ensures caps <==> if input == 0x3A then !old(caps) else old(caps)
    {
      ShiftedFlags(State().mods, input);
      isModifier := SetFlag(input);
    }

    method CopyPage(dest: array<Cell>, src: array<Cell>)
      requires dest.Length == src.Length == PAGE && dest != src
      modifies dest
      ensures dest[..] == src[..]
    {
      for i := 0 to PAGE
        invariant dest[..i] == src[..i]
      {
        dest[i] := src[i];
      }
    }

    /** terminal_swap. */
    method TerminalSwap(terminal: nat)
      requires Valid() && terminal < TERMINALS
      modifies `shown, b8, b9, ba, bb
      ensures Valid() && State() == Swapped(old(State()), terminal) && shown == terminal
    {
      var oldTerminal := shown;
      shown := terminal;
      if shown == oldTerminal { return; }
      CopyPage(Page(oldTerminal + 1), b8);
      CopyPage(b8, Page(shown + 1));
    }

    method ClearForKeyboard()
      requires Valid()
      modifies terms, b8
      ensures State() == (
        var c := old(State());
        c.(pages := c.pages[0 := Cleared(c.pages[0])], terms := c.terms[c.shown := c.terms[c.shown].(cur := Cursor(0, 0))]))
    {
      Clear(b8);
      terms[shown] := terms[shown].(cur := Cursor(0, 0));
    }

    method PressBackspace()
      requires Valid() && terms[shown].numchar > 0
      modifies terms, b8
      ensures Valid() && State() == Acted(old(State()), Erase)
    {
      ActedFit(State(), Erase);
      PutcForKeyboard(BS);
      terms[shown] := terms[shown].(numchar := terms[shown].numchar - 1);
      terms[shown] := terms[shown].(buffer := terms[shown].buffer[terms[shown].numchar := '\0']);
    }

    method PressEnter()
      requires Valid()
      modifies terms, b8
      ensures Valid() && State() == Acted(old(State()), Action.Enter)
    {
      ActedFit(State(), Action.Enter);
      PutcForKeyboard('\n');
      terms[shown] := terms[shown].(enter := true);
    }

    method PressClear()
      requires Valid()
      modifies terms, b8
      ensures Valid() && State() == Acted(old(State()), ClearScreen)
    {
      terms[shown] := terms[shown].(numchar := 0);
      ClearForKeyboard();
    }

    method TypeSpace(ghost left: nat, ghost done: Con)
      requires Valid() && 0 < left && terms[shown].numchar + left <= BUFFER
      requires InsertSpaces(State(), left) == done
      modifies terms, b8, b9, ba, bb
      ensures Valid() && terms[shown].numchar + (left - 1) <= BUFFER
      ensures InsertSpaces(State(), left - 1) == done
    {
      FitInsert(State(), ' ');
      TypeChar(' ');
    }

    method PressTab()
      requires Valid() && terms[shown].numchar < TAB_ROOM
      modifies terms, b8, b9, ba, bb
      ensures Valid() && State() == InsertSpaces(old(State()), TAB_WIDTH)
    {
      ghost var done := InsertSpaces(State(), TAB_WIDTH);
      TypeSpace(4, done);
      TypeSpace(3, done);
      TypeSpace(2, done);
      TypeSpace(1, done);
    }

    /** The last branches of the handler: which table a typed key is looked up in.  The branch
        for both shift keys comes after the one for the left key and is never taken. */
    method PressKey(input: ScanCode)
      requires Valid() && HasKey(input) && Fine(KeyChar(State().mods, input))
      modifies terms, b8, b9, ba, bb
      ensures Valid()
      ensures State() == Acted(old(State()), Type(KeyChar(old(State()).mods, input)))
    {
      TablesLength();
      var room := terms[shown].numchar < BUFFER;
      if shiftL && !caps && room {
        TypeChar(ONLY_SHIFT[input]);
      } else if !shiftL && !shiftR && !caps && room {
        TypeChar(NOTHING_PRESSED[input]);
      } else if caps && !shiftL && !shiftR && room {
        TypeChar(ONLY_CAPS[input]);
      } else if ((caps && shiftL) || (caps && shiftR)) && room {
        TypeChar(NOTHING_PRESSED[input]);
      } else if shiftR && !caps && room {
        TypeChar(ONLY_SHIFT[input]);
      }
    }

    method PressTyped(input: ScanCode)
      requires Valid() && HasKey(input) && input != ENTER && input != BACKSPACE && !(ctrl && input == L)
      requires input == TAB ==> terms[shown].numchar >= TAB_ROOM
      modifies terms, b8, b9, ba, bb
      ensures Valid() && State() == KeyHandled(old(State()), input)
    {
      TypedAnyway(State(), input);
      PressKey(input);
    }

    /** The handler's chain of branches for a key in the tables. */
    method Press(input: ScanCode)
      requires Valid() && HasKey(input)
      modifies terms, b8, b9, ba, bb
      ensures Valid() && State() == KeyHandled(old(State()), input)
    {
      DecodeSpecial(State().mods);
      if input == BACKSPACE && terms[shown].numchar > 0 {
        PressBackspace();
      } else if input == ENTER {
        PressEnter();
      } else if ctrl && input == L {
        PressClear();
      } else if input == TAB && terms[shown].numchar < TAB_ROOM {
        PressTab();
      } else if input != BACKSPACE {
        PressTyped(input);
      }
    }

    /** keyboard_interrupt_handler. */
    method KeyboardInterrupt(input: ScanCode)
      requires Valid()
      modifies this, terms, b8, b9, ba, bb
      ensures Valid() && State() == KeyPressed(old(State()), input)
      ensures shown == if old(alt) && 0x3B <= input <= 0x3D then input - 0x3B else old(shown)
    {
      var isModifier := CapCtrlShift(input);
      if isModifier { return; }
      DecodeFine(State().mods, input);
      if alt && input == F1 {
        TerminalSwap(0);
        return;
      } else if alt && input == F2 {
        TerminalSwap(1);
        return;
      } else if alt && input == F3 {
        TerminalSwap(2);
        return;
      }
      if ((input > 0 && input < KEYPAD_STAR) || (input > KEYPAD_STAR && F1 > input)) && input != 1 {
        Press(input);
        // The final test for a full line can only repeat what Enter has done: a full line is
        // no longer full after a backspace.
        if terms[shown].numchar == BUFFER && input == ENTER {
          terms[shown] := terms[shown].(enter := true);
        }
      }
    }

    /** The screen part of the timer handler: round robin and remapB8. */
    method TimerRemap()
      requires Valid()
      modifies `current, `mapping
      ensures Valid() && State() == Ticked(old(State()))
    {
      current := (current + 1) % TERMINALS;
      if current == shown {
        mapping := 0;
      } else {
        mapping := current + 1;
      }
    }

    /** The line part of sys_halt. */
    method ResetLine()
      requires Valid()
      modifies terms
      ensures Valid() && State() == LineReset(old(State()))
    {
      terms[current] := terms[current].(buffer := seq(BUFFER, _ => '\0'));
      terms[current] := terms[current].(numchar := 0);
      terms[current] := terms[current].(enter := false);
    }

    /** terminal_read before it waits for Enter. */
    method BeginRead()
      requires Valid()
      modifies terms
      ensures Valid() && State() == ReadStarted(old(State()))
    {
      terms[current] := terms[current].(enter := false);
    }

    method CopyLine(buf: array<char>, line: string, count: nat)
      requires count <= buf.Length && count <= |line|
      requires forall k :: 0 <= k < count ==> line[k] != '\0'
      modifies buf
      ensures buf[..count] == line[..count] && buf[count..] == old(buf[count..])
    {
      var i := 0;
      while i < count
        invariant 0 <= i <= count && buf[..i] == line[..i] && buf[i..] == old(buf[i..])
      {
        if line[i] != '\0' { buf[i] := line[i]; }
        i := i + 1;
      }
    }

    /** terminal_read after it wakes. */
    method EndRead(buf: array<char>, nbytes: nat) returns (read: nat)
      requires Valid() && terms[current].enter && nbytes <= buf.Length
      modifies terms, buf
      ensures Valid() && State() == ReadDone(old(State()))
      ensures read == |ReadBytes(old(State()), nbytes)| && buf[..read] == ReadBytes(old(State()), nbytes)
      ensures buf[read..] == old(buf[read..])
    {
      ghost var was := terms[current];
      var line := terms[current].buffer;
      var numchar := terms[current].numchar;
      read := 0;
      if nbytes < numchar {
        CopyLine(buf, line, nbytes);
        read := nbytes;
      }
      if nbytes >= numchar {
        CopyLine(buf, line, numchar);
        read := numchar;
      }
      assert buf[..read] == line[..read];
      terms[current] := terms[current].(numchar := 0);
      terms[current] := terms[current].(buffer := seq(ADDRESS_SIZE, _ => '\0') + terms[current].buffer[ADDRESS_SIZE..]);
    }
  }
}
