/** One text page and its cursor: putc and putc_for_keyboard of lib.c, which differ only in
    the page and terminal they use, against an unbounded page of text. */
module Screen {
  import opened Arithmetic

  const COLS := 80
  const ROWS := 25
  const VISIBLE := 2000       // cells of the 80 x 25 screen
  const PAGE := 2048          // cells of a 4 KB page
  const TAB_WIDTH := 4
  const BS: char := '\U{8}'

  /** A character and its attribute byte. */
  datatype Cell = Cell(ch: char, attr: int)

  datatype Cursor = Cursor(x: nat, y: nat)

  const BLANK := Cell(' ', 7)

  function Glyph(c: char): Cell { Cell(c, 7) }

  predicate IsBreak(c: char) { c == '\n' || c == '\r' }
  predicate Printable(c: char) { !IsBreak(c) && c != '\t' && c != BS }

  function Offset(cur: Cursor): nat { COLS * cur.y + cur.x }

  predicate InPage(cur: Cursor) { cur.x < COLS && cur.y <= ROWS }

  /** The row below the screen is normally reached at its first column only. */
  predicate OnScreen(cur: Cursor) { cur.x < COLS && cur.y <= ROWS && (cur.y == ROWS ==> cur.x == 0) }

  // ----- what one character does to a page

  function Scrolled(page: seq<Cell>): seq<Cell>
    requires |page| == PAGE
  {
    seq(PAGE, k requires 0 <= k < PAGE =>
      if k < VISIBLE - COLS then page[k + COLS] else if k < VISIBLE then BLANK else page[k])
  }

  datatype View = View(page: seq<Cell>, cur: Cursor)

  /** Scrolling is put off until the next character after the last row is left. */
  function Ready(v: View): View
    requires |v.page| == PAGE && InPage(v.cur)
  {
    if v.cur.y == ROWS then View(Scrolled(v.page), Cursor(0, ROWS - 1)) else v
  }

  function Cleared(page: seq<Cell>): seq<Cell>
    requires |page| == PAGE
  {
    seq(PAGE, k requires 0 <= k < PAGE => if k < VISIBLE then BLANK else page[k])
  }

  function Advanced(cur: Cursor): Cursor { if cur.x + 1 == COLS then Cursor(0, cur.y + 1) else Cursor(cur.x + 1, cur.y) }

  function Blanked(v: View, n: nat): View
    requires |v.page| == PAGE && v.cur.x < COLS && Offset(v.cur) + n <= PAGE
    ensures |Blanked(v, n).page| == PAGE && Blanked(v, n).cur.x < COLS
    ensures Offset(Blanked(v, n).cur) == Offset(v.cur) + n
    decreases PAGE - Offset(v.cur)
  {
    if n == 0 then v else Blanked(View(v.page[Offset(v.cur) := BLANK], Advanced(v.cur)), n - 1)
  }

  function Back(cur: Cursor): Cursor
    requires Offset(cur) > 0
  {
    if cur.x == 0 then Cursor(COLS - 1, cur.y - 1) else Cursor(cur.x - 1, cur.y)
  }

  function Painted(v: View, c: char): (r: View)
    requires |v.page| == PAGE && InPage(v.cur) && (c == BS ==> Offset(v.cur) > 0)
    ensures |r.page| == PAGE && InPage(r.cur)
  {
    var w := Ready(v);
    if c == '\t' then Blanked(w, TAB_WIDTH)
    else if c == BS then View(w.page[Offset(Back(w.cur)) := BLANK], Back(w.cur))
    else if IsBreak(c) then View(w.page, Cursor(0, w.cur.y + 1))
    else View(w.page[Offset(w.cur) := Glyph(c)], Advanced(w.cur))
  }

  // ----- the unbounded page: cells in reading order, wrapping at column 80

  ghost function Blanks(n: nat): (s: seq<Cell>)
    ensures |s| == n && forall k :: 0 <= k < n ==> s[k] == BLANK
  {
    seq(n, _ => BLANK)
  }

  ghost function Laid(text: seq<Cell>, c: char): seq<Cell>
    requires c == BS ==> text != []
  {
    if c == '\t' then text + Blanks(TAB_WIDTH)
    else if c == BS then text[..|text| - 1]
    else if IsBreak(c) then text + Blanks(COLS - |text| % COLS)
    else text + [Glyph(c)]
  }

  ghost function CellAt(text: seq<Cell>, k: nat): Cell { if k < |text| then text[k] else BLANK }

  /** The cursor is at the end of the text, and the 2000 visible cells are the rows of the
      text from some row `top` on. */
  ghost predicate Shows(v: View, text: seq<Cell>) {
    && |v.page| == PAGE && OnScreen(v.cur)
    && Offset(v.cur) <= |text| && (|text| - Offset(v.cur)) % COLS == 0
    && forall k :: 0 <= k < VISIBLE ==> v.page[k] == CellAt(text, |text| - Offset(v.cur) + k)
  }

  /** The cursor's column is where the text ends. */
  lemma ShowsColumn(v: View, text: seq<Cell>)
    requires Shows(v, text)
    ensures |text| % COLS == v.cur.x
  {
    var rows := (|text| - Offset(v.cur)) / COLS;
    DivModUnique(rows + v.cur.y, v.cur.x, COLS);
  }

  lemma ReadyShows(v: View, text: seq<Cell>)
    requires Shows(v, text)
    ensures Shows(Ready(v), text) && Ready(v).cur.y < ROWS
    ensures Offset(v.cur) > 0 ==> Offset(Ready(v).cur) > 0
  {
    if v.cur.y == ROWS {
      var w := Ready(v);
      var top := |text| - Offset(v.cur);
      assert |text| - Offset(w.cur) == top + COLS;
      forall k | 0 <= k < VISIBLE ensures w.page[k] == CellAt(text, top + COLS + k) {
        if k < VISIBLE - COLS { assert v.page[k + COLS] == CellAt(text, top + (k + COLS)); }
      }
    }
  }

  /** Writing the cell under the cursor and moving on. */
  lemma AppendShows(v: View, text: seq<Cell>, cell: Cell)
    requires Shows(v, text) && v.cur.y < ROWS
    ensures Shows(View(v.page[Offset(v.cur) := cell], Advanced(v.cur)), text + [cell])
  {}

  lemma BlankedOne(v: View, n: nat)
    requires |v.page| == PAGE && v.cur.x < COLS && Offset(v.cur) + n <= PAGE && n > 0
    ensures Blanked(v, n) == Blanked(View(v.page[Offset(v.cur) := BLANK], Advanced(v.cur)), n - 1)
  {}

  lemma {:induction false} BlankedShows(v: View, text: seq<Cell>, n: nat)
    requires Shows(v, text) && Offset(v.cur) + n <= VISIBLE
    ensures Shows(Blanked(v, n), text + Blanks(n))
    decreases n
  {
    if n == 0 {
      assert text + Blanks(0) == text;
    } else {
      AppendShows(v, text, BLANK);
      BlankedShows(View(v.page[Offset(v.cur) := BLANK], Advanced(v.cur)), text + [BLANK], n - 1);
      assert text + Blanks(n) == text + [BLANK] + Blanks(n - 1);
    }
  }

  lemma BreakShows(v: View, text: seq<Cell>)
    requires Shows(v, text) && v.cur.y < ROWS
    ensures Shows(View(v.page, Cursor(0, v.cur.y + 1)), text + Blanks(COLS - |text| % COLS))
  {
    ShowsColumn(v, text);
  }

  lemma BackShows(v: View, text: seq<Cell>)
    requires Shows(v, text) && v.cur.y < ROWS && Offset(v.cur) > 0
    ensures Shows(View(v.page[Offset(Back(v.cur)) := BLANK], Back(v.cur)), text[..|text| - 1])
  {}

  /** The four cells of a tab lie on the screen. */
  predicate TabFits(cur: Cursor) { cur.y == ROWS || Offset(cur) + TAB_WIDTH <= VISIBLE }

  /** The screen is a window on the unbounded page, for every character. */
  lemma PaintedShows(v: View, text: seq<Cell>, c: char)
    requires Shows(v, text) && (c == BS ==> Offset(v.cur) > 0) && (c == '\t' ==> TabFits(v.cur))
    ensures Shows(Painted(v, c), Laid(text, c))
  {
    ReadyShows(v, text);
    var w := Ready(v);
    if c == '\t' {
      BlankedShows(w, text, TAB_WIDTH);
    } else if c == BS {
      BackShows(w, text);
    } else if IsBreak(c) {
      BreakShows(w, text);
    } else {
      AppendShows(w, text, Glyph(c));
    }
  }

  lemma {:induction false} BlankedVisible(v: View, n: nat)
    requires |v.page| == PAGE && v.cur.x < COLS && Offset(v.cur) + n <= VISIBLE
    ensures Blanked(v, n).page[VISIBLE..] == v.page[VISIBLE..]
    decreases n
  {
    if n > 0 { BlankedVisible(View(v.page[Offset(v.cur) := BLANK], Advanced(v.cur)), n - 1); }
  }

  /** Every write lands in the 2000 visible cells. */
  lemma WritesVisible(v: View, c: char)
    requires |v.page| == PAGE && OnScreen(v.cur) && (c == BS ==> Offset(v.cur) > 0) && (c == '\t' ==> TabFits(v.cur))
    ensures Painted(v, c).page[VISIBLE..] == v.page[VISIBLE..]
  {
    if c == '\t' { BlankedVisible(Ready(v), TAB_WIDTH); }
  }

  /** Any stream of printable characters and line breaks. */
  ghost predicate Plain(stream: string) { forall k :: 0 <= k < |stream| ==> Printable(stream[k]) || IsBreak(stream[k]) }

  ghost function PaintedAll(v: View, stream: string): View
    requires |v.page| == PAGE && InPage(v.cur) && Plain(stream)
    decreases |stream|
  {
    if stream == "" then v else PaintedAll(Painted(v, stream[0]), stream[1..])
  }

  ghost function LaidAll(text: seq<Cell>, stream: string): seq<Cell>
    requires Plain(stream)
    decreases |stream|
  {
    if stream == "" then text else LaidAll(Laid(text, stream[0]), stream[1..])
  }

  lemma {:induction false} StreamShows(v: View, text: seq<Cell>, stream: string)
    requires Shows(v, text) && Plain(stream)
    ensures Shows(PaintedAll(v, stream), LaidAll(text, stream))
    ensures PaintedAll(v, stream).page[VISIBLE..] == v.page[VISIBLE..]
    decreases |stream|
  {
    if stream != "" {
      PaintedShows(v, text, stream[0]);
      WritesVisible(v, stream[0]);
      StreamShows(Painted(v, stream[0]), Laid(text, stream[0]), stream[1..]);
    }
  }

  // ----- the same in characters and attributes

  lemma {:induction false} BlankedCells(v: View, n: nat)
    requires |v.page| == PAGE && v.cur.x < COLS && Offset(v.cur) + n <= PAGE
    ensures var w := Blanked(v, n);
      && (forall k :: 0 <= k < Offset(v.cur) ==> w.page[k] == v.page[k])
      && (forall k :: Offset(v.cur) <= k < Offset(w.cur) ==> w.page[k].ch == ' ')
    decreases n
  {
    if n > 0 {
      var next := View(v.page[Offset(v.cur) := BLANK], Advanced(v.cur));
      assert Offset(next.cur) == Offset(v.cur) + 1;
      BlankedOne(v, n);
      BlankedCells(next, n - 1);
    }
  }

  lemma BlankedBefore(v: View, n: nat)
    requires |v.page| == PAGE && v.cur.x < COLS && Offset(v.cur) + n <= PAGE
    ensures var w := Blanked(v, n); var at := 80 * w.cur.y + w.cur.x;
      n <= at <= PAGE && forall k :: at - n <= k < at ==> w.page[k].ch == ' '
  {
    BlankedCells(v, n);
    assert Offset(Blanked(v, n).cur) == Offset(v.cur) + n;
  }

  /** What one character does: a printable one is in the cell before the cursor, a backspace and a
      tab leave spaces, a line break goes to the first column of the next row. */
  lemma PaintedCells(v: View, c: char)
    requires |v.page| == PAGE && InPage(v.cur) && (c == BS ==> Offset(v.cur) > 0)
    ensures var w := Painted(v, c); var at := 80 * w.cur.y + w.cur.x;
      && (Printable(c) ==> 0 < at <= PAGE && w.page[at - 1].ch == c && w.page[at - 1].attr == 7)
      && (c == BS ==> at < PAGE && w.page[at].ch == ' ' && w.page[at].attr == 7)
      && (IsBreak(c) ==> w.cur.x == 0 && w.cur.y == if v.cur.y == 25 then 25 else v.cur.y + 1)
      && (c == '\t' ==> 4 <= at <= PAGE && forall k :: at - 4 <= k < at ==> w.page[k].ch == ' ')
  {
    if c == '\t' {
      BlankedBefore(Ready(v), TAB_WIDTH);
      assert Painted(v, c) == Blanked(Ready(v), TAB_WIDTH);
    }
  }

  /** Scrolling moves every row up by one; the new last row, like a cleared page, is spaces. */
  lemma BlankCells(page: seq<Cell>, k: nat)
    requires |page| == PAGE && k < 2000
    ensures k < 1920 ==> Scrolled(page)[k] == page[k + 80]
    ensures k >= 1920 ==> Scrolled(page)[k].ch == ' ' && Scrolled(page)[k].attr == 7
    ensures Cleared(page)[k].ch == ' ' && Cleared(page)[k].attr == 7
  {}

  /** How many cells a stream takes on an unbounded page of 80 columns. */
  ghost function Length(stream: string): nat
    decreases |stream|
  {
    if stream == "" then 0
    else
      var n, c := Length(stream[..|stream| - 1]), stream[|stream| - 1];
      if c == '\n' || c == '\r' then (n / 80 + 1) * 80 else n + 1
  }

  lemma {:induction false} LaidAllAppend(text: seq<Cell>, stream: string, c: char)
    requires Plain(stream) && (Printable(c) || IsBreak(c))
    ensures Plain(stream + [c]) && LaidAll(text, stream + [c]) == Laid(LaidAll(text, stream), c)
    decreases |stream|
  {
    assert (stream + [c])[0] == if stream == "" then c else stream[0];
    if stream == "" {
      assert (stream + [c])[1..] == "";
    } else {
      assert (stream + [c])[1..] == stream[1..] + [c];
      LaidAllAppend(Laid(text, stream[0]), stream[1..], c);
    }
  }

  /** Cell `j` holds what was printed there, if anything, and a space otherwise. */
  ghost predicate CellOf(cell: Cell, stream: string, j: nat) {
    && cell.attr == 7
    && (forall k :: 0 <= k < |stream| && Printable(stream[k]) && Length(stream[..k]) == j ==> cell.ch == stream[k])
    && ((forall k :: 0 <= k < |stream| && Printable(stream[k]) ==> Length(stream[..k]) != j) ==> cell.ch == ' ')
  }

  lemma LengthGrows(init: string, c: char)
    ensures Length(init + [c]) > Length(init)
    ensures Length(init + [c]) == if c == '\n' || c == '\r' then (Length(init) / 80 + 1) * 80 else Length(init) + 1
  {
    assert (init + [c])[..|init|] == init;
  }

  lemma {:induction false} PositionsBefore(stream: string, k: nat)
    requires k < |stream|
    ensures Length(stream[..k]) < Length(stream)
    decreases |stream|
  {
    var init := stream[..|stream| - 1];
    assert stream == init + [stream[|stream| - 1]];
    LengthGrows(init, stream[|stream| - 1]);
    if k < |init| {
      PositionsBefore(init, k);
      assert init[..k] == stream[..k];
    }
  }

  lemma BreakLength(n: nat)
    ensures n + (80 - n % 80) == (n / 80 + 1) * 80
  {}

  lemma CellKept(init: string, c: char, text: seq<Cell>, j: nat)
    requires Plain(init + [c]) && |text| == Length(init) && forall i :: 0 <= i < |text| ==> CellOf(text[i], init, i)
    requires j < Length(init + [c])
    ensures |Laid(text, c)| == Length(init + [c]) && CellOf(Laid(text, c)[j], init + [c], j)
  {
    var stream := init + [c];
    LengthGrows(init, c);
    BreakLength(Length(init));
    assert stream[|init|] == c && stream[..|init|] == init;
    forall k | 0 <= k < |init| ensures stream[k] == init[k] && stream[..k] == init[..k] && Length(init[..k]) < Length(init) {
      PositionsBefore(init, k);
    }
    if j < |text| { assert CellOf(text[j], init, j); }
  }

  /** The text that a stream lays out, cell by cell. */
  lemma {:induction false} StreamSpells(stream: string)
    requires Plain(stream)
    ensures |LaidAll([], stream)| == Length(stream)
    ensures forall j :: 0 <= j < Length(stream) ==> CellOf(LaidAll([], stream)[j], stream, j)
    decreases |stream|
  {
    if stream != "" {
      var init, c := stream[..|stream| - 1], stream[|stream| - 1];
      assert stream == init + [c];
      LaidAllAppend([], init, c);
      StreamSpells(init);
      LengthGrows(init, c);
      forall j | 0 <= j < Length(stream) ensures CellOf(LaidAll([], stream)[j], stream, j) {
        CellKept(init, c, LaidAll([], init), j);
      }
    }
  }

  /** What is on the screen: each printable character of the stream that has not scrolled away is in
      its cell, and the other cells up to the cursor are spaces. */
  lemma ScreenSpells(v: View, stream: string, j: nat)
    requires Plain(stream) && Shows(v, LaidAll([], stream)) && j < 80 * v.cur.y + v.cur.x
    ensures j < 2000 && Length(stream) >= 80 * v.cur.y + v.cur.x
    ensures CellOf(v.page[j], stream, Length(stream) - (80 * v.cur.y + v.cur.x) + j)
  {
    StreamSpells(stream);
  }

  /** A tab keeps the window exactly when it does not run past the bottom-right corner. */
  lemma TabExact(v: View, text: seq<Cell>)
    requires Shows(v, text)
    ensures Shows(Painted(v, '\t'), Laid(text, '\t')) <==> TabFits(v.cur)
  {
    if TabFits(v.cur) {
      PaintedShows(v, text, '\t');
    } else {
      assert Painted(v, '\t') == Blanked(v, TAB_WIDTH);
      assert Offset(Painted(v, '\t').cur) > VISIBLE;
    }
  }

  /** What a tab that does not fit costs: the next character goes back to the first column. */
  lemma SplitTabLosesColumns(v: View, c: char)
    requires |v.page| == PAGE && OnScreen(v.cur) && !TabFits(v.cur) && Printable(c)
    ensures var w := Painted(Painted(v, '\t'), c);
      w.cur == Cursor(1, ROWS - 1) && w.page[COLS * (ROWS - 1)] == Glyph(c)
  {
    assert Painted(v, '\t') == Blanked(v, TAB_WIDTH);
    assert Painted(v, '\t').cur.y == ROWS;
  }

  // ----- the code

  /** memcpy of the lower 24 rows over the upper 24, ascending, then a blank last row. */
  method Scroll(screen: array<Cell>)
    requires screen.Length == PAGE
    modifies screen
    ensures screen[..] == Scrolled(old(screen[..]))
  {
    var i := 0;
    while i < VISIBLE - COLS
      invariant 0 <= i <= VISIBLE - COLS
      invariant forall k :: 0 <= k < i ==> screen[k] == old(screen[..])[k + COLS]
      invariant forall k :: i <= k < PAGE ==> screen[k] == old(screen[k])
    {
      screen[i] := screen[i + COLS];
      i := i + 1;
    }
    i := 24 * COLS;
    while i < 25 * COLS
      invariant 24 * COLS <= i <= 25 * COLS
      invariant forall k :: 0 <= k < 24 * COLS ==> screen[k] == old(screen[..])[k + COLS]
      invariant forall k :: 24 * COLS <= k < i ==> screen[k] == BLANK
      invariant forall k :: i <= k < PAGE ==> screen[k] == old(screen[k])
    {
      screen[i] := BLANK;
      i := i + 1;
    }
  }

  /** The loop for a tab, with `n` for its width. */
  method PutBlanks(screen: array<Cell>, cur: Cursor, n: nat) returns (next: Cursor)
    requires screen.Length == PAGE && cur.x < COLS && Offset(cur) + n <= PAGE
    modifies screen
    ensures View(screen[..], next) == Blanked(old(View(screen[..], cur)), n)
  {
    var x, y := cur.x, cur.y;
    var i := 0;
    while i < n
      invariant 0 <= i <= n && 0 <= x < COLS && 0 <= y && COLS * y + x == COLS * cur.y + cur.x + i
      invariant Blanked(old(View(screen[..], cur)), n) == Blanked(View(screen[..], Cursor(x, y)), n - i)
    {
      BlankedOne(View(screen[..], Cursor(x, y)), n - i);
      screen[COLS * y + x] := BLANK;
      x := x + 1;
      if x == COLS {
        x := 0;
        y := y + 1;
      }
      i := i + 1;
    }
    return Cursor(x, y);
  }

  /** The body shared by putc and putc_for_keyboard. */
  method Put(screen: array<Cell>, cur: Cursor, c: char) returns (next: Cursor)
    requires screen.Length == PAGE && InPage(cur) && (c == BS ==> Offset(cur) > 0)
    modifies screen
    ensures View(screen[..], next) == Painted(old(View(screen[..], cur)), c)
    ensures Printable(c) ==>
      0 < Offset(next) <= PAGE && screen[Offset(next) - 1].ch == c && screen[Offset(next) - 1].attr == 7
  {
    PaintedCells(View(screen[..], cur), c);
    var x, y := cur.x, cur.y;
    if y == 25 {
      Scroll(screen);
      x := 0;
      y := y - 1;
    }
    ghost var w := View(screen[..], Cursor(x, y));
    assert w == Ready(old(View(screen[..], cur)));
    if c == '\t' {
      next := PutBlanks(screen, Cursor(x, y), TAB_WIDTH);
      return;
    } else if c == BS {
      if x == 0 {
        y := y - 1;
        x := 79;
        screen[COLS * y + x] := BLANK;
      } else {
        x := x - 1;
        screen[COLS * y + x] := BLANK;
      }
    } else if c == '\n' || c == '\r' {
      y := y + 1;
      x := 0;
    } else {
      screen[COLS * y + x] := Glyph(c);
      x := x + 1;
      y := y + x / COLS;
      x := x % COLS;
    }
    return Cursor(x, y);
  }

  /** clear_for_keyboard. */
  method Clear(screen: array<Cell>)
    requires screen.Length == PAGE
    modifies screen
    ensures screen[..] == Cleared(old(screen[..]))
  {
    for i := 0 to ROWS * COLS
      invariant forall k :: 0 <= k < PAGE ==> screen[k] == if k < i then BLANK else old(screen[k])
    {
      screen[i] := BLANK;
    }
  }

  lemma ClearedShows(page: seq<Cell>)
    requires |page| == PAGE
    ensures Shows(View(Cleared(page), Cursor(0, 0)), [])
  {}
}
