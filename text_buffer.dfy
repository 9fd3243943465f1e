// The console of src/text/text_buffer.c: a grid of characters, width by
// height, stored row by row, with a cursor, an optional scroll range, the
// input range being edited at the prompt and a ring of earlier input lines.
// Each cell is modelled by its character; markup and glyphs are rendering.

module TextConsole {
  import opened Arith

  const Space: char := ' '
  const Newline: char := '\n'
  const Tab: char := '\t'
  const Nul: char := '\0'
  const TabWidth: nat := 4
  const HistoryLen: nat := 64
  const HistorySize: nat := 4096
  /** The wide-character buffer text_buffer_add_text_inner converts into. */
  const WideBufferSize: nat := 2048

  // ---- the grid

  /** The character grid and the scroll range; -1 for a bound of the scroll
      range means the grid's own edge. */
  datatype Layout = Layout(width: nat, height: nat, scrollMin: int, scrollMax: int)

  /** A non-empty grid; the scroll range is unset, or set as
      text_buffer_set_scroll_range demands (0 < min <= max < height). */
  predicate LayoutOk(l: Layout)
  {
    l.width > 0 && l.height > 0 &&
    ((l.scrollMin == -1 && l.scrollMax == -1) || (0 < l.scrollMin <= l.scrollMax < l.height))
  }

  function Cells(l: Layout): nat
  {
    l.width * l.height
  }

  /** first_position_in_scroll_range's row. */
  function FirstRow(l: Layout): (r: nat)
    requires LayoutOk(l)
    ensures r < l.height
  {
    if l.scrollMin == -1 then 0 else l.scrollMin
  }

  /** last_position_in_scroll_range's row. */
  function LastRow(l: Layout): (r: nat)
    requires LayoutOk(l)
    ensures FirstRow(l) <= r < l.height
  {
    if l.scrollMax == -1 then l.height - 1 else l.scrollMax
  }

  /** character_pointer: the cell of a grid position. */
  function Pointer(width: nat, col: nat, row: nat): nat
  {
    row * width + col
  }

  /** character_position's column. */
  function Column(width: nat, i: nat): nat
    requires width > 0
  {
    i % width
  }

  /** character_position's row. */
  function Row(width: nat, i: nat): nat
    requires width > 0
  {
    i / width
  }

  /** A grid position names a cell of the grid, and character_position gives
      that position back. */
  lemma PositionOfPointer(width: nat, height: nat, col: nat, row: nat)
    requires col < width && row < height
    ensures Pointer(width, col, row) < width * height
    ensures Column(width, Pointer(width, col, row)) == col && Row(width, Pointer(width, col, row)) == row
  {
    DivMod(row * width + col, width, row, col);
    MulLe(row + 1, height, width);
  }

  /** Every cell lies in a row of the grid (the assertion in
      character_position), and character_pointer gives the cell back. */
  lemma PointerOfPosition(width: nat, height: nat, i: nat)
    requires width > 0 && i < width * height
    ensures Row(width, i) < height && Pointer(width, Column(width, i), Row(width, i)) == i
  {
    DivBelow(i, width, height);
    RowOf(i, width);
  }

  /** A row of the grid ends inside the grid. */
  lemma RowEnd(width: nat, height: nat, row: nat)
    requires row < height
    ensures row * width + width <= width * height
  {
    MulLe(row + 1, height, width);
  }

  // ---- the screen: cells and cursor

  datatype Screen = Screen(cells: seq<char>, cursor: nat)

  predicate ScreenOk(l: Layout, s: Screen)
  {
    LayoutOk(l) && |s.cells| == Cells(l) && s.cursor < Cells(l)
  }

  /** The cells with those in [from, to) set to a space. */
  function Blanked(cells: seq<char>, from: int, to: int): seq<char>
  {
    seq(|cells|, k requires 0 <= k < |cells| => if from <= k < to then Space else cells[k])
  }

  /** scroll_up's memmove: each cell in [from, to) takes the cell one row below. */
  function Shifted(cells: seq<char>, width: nat, from: int, to: int): seq<char>
    requires to + width <= |cells|
  {
    seq(|cells|, k requires 0 <= k < |cells| => if from <= k < to then cells[k + width] else cells[k])
  }

  /** One more cell of the memmove: cell k takes the cell a row below, which
      the copy has not reached yet. */
  lemma ShiftedStep(cells: seq<char>, width: nat, from: int, k: int, to: int)
    requires from <= k < to && to + width <= |cells| && 0 <= k
    ensures Shifted(cells, width, from, k)[k + width] == cells[k + width]
    ensures Shifted(cells, width, from, k)[k := cells[k + width]] == Shifted(cells, width, from, k + 1)
  {
  }

  /** The cells scroll_up moves: the rows of the scroll range but its last. */
  function Scrolled(l: Layout, cells: seq<char>): seq<char>
    requires LayoutOk(l) && |cells| == Cells(l)
  {
    RowEnd(l.width, l.height, LastRow(l));
    Shifted(cells, l.width, FirstRow(l) * l.width, LastRow(l) * l.width)
  }

  /** The first cell after the row of cell i. */
  function NextRowStart(width: nat, i: nat): nat
    requires width > 0
  {
    Row(width, i) * width + width
  }

  /** The first cell of the bottom row. */
  function Bottom(l: Layout): nat
    requires LayoutOk(l)
  {
    (l.height - 1) * l.width
  }

  lemma BottomRow(l: Layout)
    requires LayoutOk(l)
    ensures Bottom(l) + l.width == Cells(l) && Row(l.width, Bottom(l)) == l.height - 1
    ensures NextRowStart(l.width, Bottom(l)) == Cells(l)
  {
    PositionOfPointer(l.width, l.height, 0, l.height - 1);
  }

  /** The row of a cell ends after it and inside the grid; above the bottom
      row, the next row starts in its first column. */
  lemma NextRowInGrid(width: nat, height: nat, i: nat)
    requires width > 0 && i < width * height
    ensures i < NextRowStart(width, i) <= width * height
    ensures Row(width, i) < height - 1 ==>
      NextRowStart(width, i) < width * height &&
      Row(width, NextRowStart(width, i)) == Row(width, i) + 1 && Column(width, NextRowStart(width, i)) == 0
  {
    var r := Row(width, i);
    PointerOfPosition(width, height, i);
    RowOf(i, width);
    RowEnd(width, height, r);
    if r < height - 1 {
      assert (r + 1) * width == r * width + width;
      DivMod(r * width + width, width, r + 1, 0);
      RowEnd(width, height, r + 1);
    }
  }

  /** The bottom-row half of the wrap: the scroll range scrolls up and the
      bottom row is blanked for the cursor. */
  function ScrollBottom(l: Layout, cells: seq<char>): (t: Screen)
    requires LayoutOk(l) && |cells| == Cells(l)
    ensures ScreenOk(l, t)
  {
    BottomRow(l);
    Screen(Blanked(Scrolled(l, cells), Bottom(l), Cells(l)), Bottom(l))
  }

  /** The wrap of text_buffer_add_text_inner: the rest of the cursor's row
      is blanked, then the cursor moves to the start of the next row, or, on
      the bottom row, the screen scrolls. */
  function Wrap(l: Layout, s: Screen): (t: Screen)
    requires ScreenOk(l, s)
    ensures ScreenOk(l, t)
  {
    NextRowInGrid(l.width, l.height, s.cursor);
    var cleared := Blanked(s.cells, s.cursor, NextRowStart(l.width, s.cursor));
    if Row(l.width, s.cursor) < l.height - 1 then Screen(cleared, NextRowStart(l.width, s.cursor))
    else ScrollBottom(l, cleared)
  }

  /** One character of text_buffer_add_text_inner other than a tab: a
      printable character is written at the cursor; a newline, or any
      character at the last cell, wraps; anything else advances the cursor. */
  function Put(l: Layout, s: Screen, c: char): (t: Screen)
    requires ScreenOk(l, s) && c != Tab
    ensures ScreenOk(l, t)
  {
    var written := if c >= Space then s.cells[s.cursor := c] else s.cells;
    if c == Newline || s.cursor == Cells(l) - 1 then Wrap(l, Screen(written, s.cursor))
    else Screen(written, s.cursor + 1)
  }

  /** A tab: the spaces up to the next multiple of the tab width. */
  function TabSpaces(l: Layout, cursor: nat): (k: nat)
    requires LayoutOk(l)
    ensures 1 <= k <= TabWidth
  {
    TabWidth - Column(l.width, cursor) % TabWidth
  }

  function PutSpaces(l: Layout, s: Screen, k: nat): (t: Screen)
    requires ScreenOk(l, s)
    ensures ScreenOk(l, t)
    decreases k
  {
    if k == 0 then s else PutSpaces(l, Put(l, s, Space), k - 1)
  }

  /** One character of text_buffer_add_text_inner. */
  function Type(l: Layout, s: Screen, c: char): (t: Screen)
    requires ScreenOk(l, s)
    ensures ScreenOk(l, t)
  {
    if c == Tab then PutSpaces(l, s, TabSpaces(l, s.cursor)) else Put(l, s, c)
  }

  /** text_buffer_add_text_inner: the characters typed in order. */
  function TypeText(l: Layout, s: Screen, text: seq<char>): (t: Screen)
    requires ScreenOk(l, s)
    ensures ScreenOk(l, t)
  {
    if text == [] then s else Type(l, TypeText(l, s, text[..|text| - 1]), text[|text| - 1])
  }

  /** A printable character away from the last cell lands at the cursor, the
      cursor moves one cell on, and no other cell changes. */
  lemma PutPrintable(l: Layout, s: Screen, c: char)
    requires ScreenOk(l, s) && c >= Space && s.cursor < Cells(l) - 1
    ensures Put(l, s, c).cursor == s.cursor + 1
    ensures Put(l, s, c).cells[s.cursor] == c
    ensures forall k :: 0 <= k < |s.cells| && k != s.cursor ==> Put(l, s, c).cells[k] == s.cells[k]
  {
  }

  /** Above the bottom row, a newline blanks the rest of the cursor's row and
      moves the cursor to the first column of the next row; no other cell
      changes. */
  lemma PutNewline(l: Layout, s: Screen)
    requires ScreenOk(l, s) && Row(l.width, s.cursor) < l.height - 1
    ensures Put(l, s, Newline).cursor == NextRowStart(l.width, s.cursor)
    ensures Column(l.width, Put(l, s, Newline).cursor) == 0
    ensures Row(l.width, Put(l, s, Newline).cursor) == Row(l.width, s.cursor) + 1
    ensures forall k :: s.cursor <= k < NextRowStart(l.width, s.cursor) ==> Put(l, s, Newline).cells[k] == Space
    ensures forall k :: 0 <= k < |s.cells| && !(s.cursor <= k < NextRowStart(l.width, s.cursor)) ==>
      Put(l, s, Newline).cells[k] == s.cells[k]
  {
    NextRowInGrid(l.width, l.height, s.cursor);
    assert Put(l, s, Newline) == Screen(Blanked(s.cells, s.cursor, NextRowStart(l.width, s.cursor)), NextRowStart(l.width, s.cursor));
  }

  /** On the bottom row, a newline, or a character at the last cell, scrolls:
      each row of the scroll range but its last takes the row below it, where
      the cells from the cursor on already read as spaces (so a character
      typed at the last cell is not kept); the other rows above the bottom
      one keep their cells; the bottom row is blank and the cursor starts it. */
  lemma PutScrolls(l: Layout, s: Screen, c: char, k: nat)
    requires ScreenOk(l, s) && c != Tab && Row(l.width, s.cursor) == l.height - 1
    requires c == Newline || s.cursor == Cells(l) - 1
    requires k < Cells(l)
    ensures Put(l, s, c).cursor == Bottom(l)
    ensures k >= Bottom(l) ==> Put(l, s, c).cells[k] == Space
    ensures FirstRow(l) * l.width <= k < LastRow(l) * l.width ==>
      k + l.width < Cells(l) &&
      Put(l, s, c).cells[k] == if k + l.width >= s.cursor then Space else s.cells[k + l.width]
    ensures k < FirstRow(l) * l.width ==> Put(l, s, c).cells[k] == s.cells[k]
    ensures LastRow(l) * l.width <= k < Bottom(l) ==> Put(l, s, c).cells[k] == s.cells[k]
  {
    var written := if c >= Space then s.cells[s.cursor := c] else s.cells;
    var cleared := Blanked(written, s.cursor, Cells(l));
    BottomRow(l);
    RowOf(s.cursor, l.width);
    MulLe(FirstRow(l), l.height - 1, l.width);
    assert Bottom(l) <= s.cursor;
    assert Put(l, s, c) == ScrollBottom(l, cleared);
    ScrollBottomCells(l, cleared, k);
    if FirstRow(l) * l.width <= k < LastRow(l) * l.width {
      assert cleared[k + l.width] == if k + l.width >= s.cursor then Space else s.cells[k + l.width];
    } else if k < Bottom(l) {
      assert cleared[k] == s.cells[k];
    }
  }

  /** The cells after the bottom-row wrap, by region. */
  lemma ScrollBottomCells(l: Layout, cells: seq<char>, k: nat)
    requires LayoutOk(l) && |cells| == Cells(l) && k < Cells(l)
    ensures k >= Bottom(l) ==> ScrollBottom(l, cells).cells[k] == Space
    ensures FirstRow(l) * l.width <= k < LastRow(l) * l.width ==>
      k + l.width < Cells(l) && ScrollBottom(l, cells).cells[k] == cells[k + l.width]
    ensures k < FirstRow(l) * l.width ==> ScrollBottom(l, cells).cells[k] == cells[k]
    ensures LastRow(l) * l.width <= k < Bottom(l) ==> ScrollBottom(l, cells).cells[k] == cells[k]
  {
    var w, h := l.width, l.height;
    BottomRow(l);
    RowEnd(w, h, LastRow(l));
    MulLe(LastRow(l), h - 1, w);
    MulLe(FirstRow(l), LastRow(l), w);
  }

  /** A tab moves the cursor to the next multiple of the tab width when the
      row has room for it, leaving the cells it passes blank. */
  lemma {:induction false} PutSpacesAdvance(l: Layout, s: Screen, k: nat)
    requires ScreenOk(l, s) && s.cursor + k < Cells(l)
    ensures PutSpaces(l, s, k).cursor == s.cursor + k
    ensures forall j :: s.cursor <= j < s.cursor + k ==> PutSpaces(l, s, k).cells[j] == Space
    ensures forall j :: 0 <= j < |s.cells| && !(s.cursor <= j < s.cursor + k) ==> PutSpaces(l, s, k).cells[j] == s.cells[j]
    decreases k
  {
    if k > 0 {
      PutPrintable(l, s, Space);
      PutSpacesAdvance(l, Put(l, s, Space), k - 1);
    }
  }

  // ---- the input range

  /** The cells with the cursor and the input range [home, end) of the
      keyboard-bound console. */
  datatype Input = Input(cells: seq<char>, cursor: nat, home: nat, end: nat)

  /** The input range is inside the grid, with the cursor inside the range. */
  predicate Ordered(e: Input)
  {
    e.home <= e.cursor <= e.end < |e.cells|
  }

  /** The text being edited. */
  function InputText(e: Input): seq<char>
    requires Ordered(e)
  {
    e.cells[e.home..e.end]
  }

  /** input_left: one cell back, but not before the input's start. */
  function Left(e: Input): (r: Input)
    requires Ordered(e)
    ensures Ordered(r) && r.cells == e.cells && r.home == e.home && r.end == e.end
    ensures r.cursor == if e.cursor > e.home then e.cursor - 1 else e.home
  {
    if e.cursor == e.home then e else e.(cursor := e.cursor - 1)
  }

  /** input_right: one cell on, but not past the input's end. */
  function Right(e: Input): (r: Input)
    requires Ordered(e)
    ensures Ordered(r) && r.cells == e.cells && r.home == e.home && r.end == e.end
    ensures r.cursor == if e.cursor < e.end then e.cursor + 1 else e.end
  {
    if e.cursor == e.end then e else e.(cursor := e.cursor + 1)
  }

  /** input_delete as written: the cells after the cursor move one back, the
      input's end becomes a space and the end moves one back, also when the
      cursor is already at the end; None when the end would move before the
      grid. */
  function DeleteAsWritten(e: Input): Option<Input>
    requires Ordered(e)
  {
    if e.end == 0 then None
    else
      Some(Input(Closed(e.cells, e.cursor, e.end), e.cursor, e.home, e.end - 1))
  }

  /** The cells with those in [at, end) taken from one cell on and a space
      at end. */
  function Closed(cells: seq<char>, at: nat, end: nat): seq<char>
    requires end < |cells|
  {
    seq(|cells|, k requires 0 <= k < |cells| =>
      if at <= k < end then cells[k + 1] else if k == end then Space else cells[k])
  }

  /** The cells with c at `at` and those in (at, last] taken from one cell back. */
  function Opened(cells: seq<char>, at: nat, last: nat, c: char): seq<char>
    requires last < |cells|
  {
    seq(|cells|, k requires 0 <= k < |cells| =>
      if k == at then c else if at < k <= last then cells[k - 1] else cells[k])
  }

  /** input_delete with the evident guard: nothing to delete at the end. */
  function Delete(e: Input): (r: Input)
    requires Ordered(e)
    ensures Ordered(r) && r.cursor == e.cursor && r.home == e.home
    ensures e.cursor < e.end ==>
      r.end == e.end - 1 &&
      InputText(r) == InputText(e)[..e.cursor - e.home] + InputText(e)[e.cursor - e.home + 1..]
    ensures e.cursor == e.end ==> r == e
  {
    if e.cursor == e.end then e
    else
      var r := DeleteAsWritten(e).value;
      assert InputText(r) == InputText(e)[..e.cursor - e.home] + InputText(e)[e.cursor - e.home + 1..];
      r
  }

  /** input_backspace: at the input's start nothing happens; otherwise the
      character before the cursor is deleted and the cursor moves onto it. */
  function Backspace(e: Input): (r: Input)
    requires Ordered(e)
    ensures Ordered(r) && r.home == e.home
    ensures e.cursor > e.home ==>
      r.cursor == e.cursor - 1 && r.end == e.end - 1 &&
      InputText(r) == InputText(e)[..e.cursor - e.home - 1] + InputText(e)[e.cursor - e.home..]
    ensures e.cursor == e.home ==> r == e
  {
    if e.cursor == e.home then e else Delete(e.(cursor := e.cursor - 1))
  }

  /** input_character as written: the characters from the cursor to the
      input's end move one on, the typed one lands at the cursor, but the
      character that was at the end goes two cells on; None when that cell
      lies past the grid. */
  function InsertAsWritten(e: Input, c: char): Option<Input>
    requires Ordered(e)
  {
    var n := |e.cells|;
    if e.end + 2 >= n then None
    else
      Some(Input(seq(n, k requires 0 <= k < n =>
                   if k == e.cursor then c
                   else if e.cursor < k <= e.end then e.cells[k - 1]
                   else if k == e.end + 2 then e.cells[e.end]
                   else e.cells[k]),
                 e.cursor + 1, e.home, e.end + 1))
  }

  /** input_character with the last move one cell on, as the loop's own
      shifting does, and nothing written past the grid. */
  function Insert(e: Input, c: char): (r: Input)
    requires Ordered(e)
    ensures Ordered(r) && r.home == e.home && |r.cells| == |e.cells|
    ensures r.cells[e.cursor] == c
    ensures e.end + 1 < |e.cells| ==>
      r.cursor == e.cursor + 1 && r.end == e.end + 1 &&
      InputText(r) == InputText(e)[..e.cursor - e.home] + [c] + InputText(e)[e.cursor - e.home..]
  {
    var n := |e.cells|;
    var last := if e.end + 1 < n then e.end + 1 else e.end;
    var r := Input(Opened(e.cells, e.cursor, last, c),
                   if e.cursor < n - 1 then e.cursor + 1 else e.cursor, e.home, last);
    if e.end + 1 < n then OpenedText(e.cells, e.home, e.cursor, e.end, c); r else r
  }

  /** The input text after opening a cell at `at`. */
  lemma OpenedText(cells: seq<char>, home: nat, at: nat, end: nat, c: char)
    requires home <= at <= end && end + 1 < |cells|
    ensures Opened(cells, at, end + 1, c)[home..end + 1] ==
      cells[home..end][..at - home] + [c] + cells[home..end][at - home..]
  {
  }

  /** Typing a character and then a backspace gives back the text and the
      cursor, when the grid has room for the longer text. */
  lemma BackspaceUndoesInsert(e: Input, c: char)
    requires Ordered(e) && e.end + 1 < |e.cells|
    ensures Backspace(Insert(e, c)).cursor == e.cursor
    ensures Backspace(Insert(e, c)).end == e.end
    ensures InputText(Backspace(Insert(e, c))) == InputText(e)
  {
    var r := Insert(e, c);
    BackspaceDropsInserted(r, InputText(e), e.cursor - e.home, c);
  }

  /** A backspace right after the character typed at k drops it again. */
  lemma BackspaceDropsInserted(r: Input, t: seq<char>, k: nat, c: char)
    requires Ordered(r) && k <= |t| && r.cursor == r.home + k + 1
    requires InputText(r) == t[..k] + [c] + t[k..]
    ensures Backspace(r).cursor == r.cursor - 1 && Backspace(r).end == r.end - 1
    ensures InputText(Backspace(r)) == t
  {
    InsertedThenDropped(t, k, c);
  }

  /** Dropping the character just put at k gives the text back. */
  lemma InsertedThenDropped(t: seq<char>, k: nat, c: char)
    requires k <= |t|
    ensures var u := t[..k] + [c] + t[k..]; u[..k] + u[k + 1..] == t
  {
    var u := t[..k] + [c] + t[k..];
    assert u[..k] == t[..k] && u[k + 1..] == t[k..];
  }

  /** Finding: with the cursor at the input's end, the as-written delete
      moves the end before the cursor, so the cursor leaves the input. */
  lemma DeleteAtEndLeavesInput()
    ensures DeleteAsWritten(Input("ab  ", 2, 0, 2)).Some?
    ensures !Ordered(DeleteAsWritten(Input("ab  ", 2, 0, 2)).value)
    ensures Delete(Input("ab  ", 2, 0, 2)) == Input("ab  ", 2, 0, 2)
  {
  }

  /** Finding: typing with the input ending on the last cell but one writes
      past the grid. */
  lemma InsertNearEndOverruns()
    ensures InsertAsWritten(Input("ab  ", 2, 0, 2), 'c') == None
    ensures InputText(Insert(Input("ab  ", 2, 0, 2), 'c')) == "abc"
  {
    var r := Insert(Input("ab  ", 2, 0, 2), 'c');
    assert r.cells[0] == 'a' && r.cells[1] == 'b' && r.cells[2] == 'c';
    assert InputText(r) == r.cells[0..3];
  }

  // ---- get_buffered_input

  /** get_buffered_input's copy loop for single-byte characters, given the
      room left: a NUL cell adds nothing, and the copy stops before the room
      left would reach zero. */
  function Buffered(cells: seq<char>, room: int): seq<char>
  {
    if cells == [] then []
    else
      var take := if cells[0] == Nul then 0 else 1;
      if room - take <= 0 then []
      else (if take == 0 then [] else [cells[0]]) + Buffered(cells[1..], room - take)
  }

  /** One turn of the copy loop: a character that fits is copied. */
  lemma BufferedTake(text: seq<char>, i: nat, room: int)
    requires i < |text| && text[i] != Nul && room > 1
    ensures Buffered(text[i..], room) == [text[i]] + Buffered(text[i + 1..], room - 1)
  {
    assert text[i..][1..] == text[i + 1..];
  }

  /** One turn of the copy loop: a NUL cell adds nothing. */
  lemma BufferedSkip(text: seq<char>, i: nat, room: int)
    requires i < |text| && text[i] == Nul && room > 0
    ensures Buffered(text[i..], room) == Buffered(text[i + 1..], room)
  {
    assert text[i..][1..] == text[i + 1..];
  }

  /** The copy loop's break: the next character does not fit. */
  lemma BufferedStop(text: seq<char>, i: nat, room: int)
    requires i < |text| && room - (if text[i] == Nul then 0 else 1) <= 0
    ensures Buffered(text[i..], room) == []
  {
  }

  lemma Assoc(a: seq<char>, b: seq<char>, c: seq<char>)
    ensures a + (b + c) == (a + b) + c
  {
  }

  /** The copy holds no NUL and leaves room for the terminating one. */
  lemma {:induction false} BufferedFits(cells: seq<char>, room: int)
    ensures Nul !in Buffered(cells, room)
    ensures |Buffered(cells, room)| <= |cells|
    ensures room > 0 ==> |Buffered(cells, room)| < room
    ensures room <= 0 ==> Buffered(cells, room) == []
  {
    if cells != [] {
      BufferedFits(cells[1..], room - (if cells[0] == Nul then 0 else 1));
    }
  }

  /** The characters of the cells but the NULs. */
  function NonNul(cells: seq<char>): (r: seq<char>)
  {
    if cells == [] then [] else (if cells[0] == Nul then [] else [cells[0]]) + NonNul(cells[1..])
  }

  /** With room for more than the cells, the whole input is copied. */
  lemma {:induction false} BufferedAll(cells: seq<char>, room: int)
    requires room > |cells|
    ensures Buffered(cells, room) == NonNul(cells)
  {
    if cells != [] {
      BufferedAll(cells[1..], room - (if cells[0] == Nul then 0 else 1));
    }
  }

  // ---- the history ring

  /** The ring of earlier input lines, the next slot to write and the number
      of lines recorded. */
  datatype History = History(lines: seq<seq<char>>, offset: int, length: int)

  predicate HistoryOk(h: History)
  {
    |h.lines| == HistoryLen && 0 <= h.offset <= h.length <= HistoryLen && h.offset < HistoryLen
  }

  /** input_enter's record: the line goes to the current slot, the count
      grows up to HISTORY_LEN and the slot moves on, wrapping. */
  function Record(h: History, line: seq<char>): (r: History)
    requires HistoryOk(h)
    ensures HistoryOk(r) && r.lines[h.offset] == line
    ensures r.length == if h.length < HistoryLen then h.length + 1 else HistoryLen
  {
    History(h.lines[h.offset := line], (h.offset + 1) % HistoryLen,
            if h.length + 1 > HistoryLen then HistoryLen else h.length + 1)
  }

  /** input_up: one line back, wrapping to the last recorded line. */
  function Up(h: History): (r: History)
    requires HistoryOk(h)
    ensures HistoryOk(r) && r.lines == h.lines && r.length == h.length
    ensures h.length > 0 ==> r.offset < r.length
  {
    if h.length == 0 then h
    else
      var o := h.offset - 1;
      h.(offset := if o < 0 then h.length - 1 else o)
  }

  /** input_down: one line on, wrapping within the recorded lines. */
  function Down(h: History): (r: History)
    requires HistoryOk(h)
    ensures HistoryOk(r) && r.lines == h.lines && r.length == h.length
    ensures h.length > 0 ==> r.offset < r.length
  {
    if h.length == 0 then h else h.(offset := (h.offset + 1) % h.length)
  }

  /** Up right after enter recalls the line just entered. */
  lemma UpRecallsLast(h: History, line: seq<char>)
    requires HistoryOk(h)
    ensures Up(Record(h, line)).lines[Up(Record(h, line)).offset] == line
  {
    var r := Record(h, line);
    if h.offset == HistoryLen - 1 {
      assert r.offset == 0 && r.length == HistoryLen;
    } else {
      assert r.offset == h.offset + 1;
    }
  }

  /** Down after up comes back to the slot, once the ring has the slot among
      its lines. */
  lemma DownUndoesUp(h: History)
    requires HistoryOk(h) && h.offset < h.length
    ensures Down(Up(h)).offset == h.offset
  {
    if h.offset == 0 {
      DivMod(h.length, h.length, 1, 0);
    } else {
      DivMod(h.offset, h.length, 0, h.offset);
    }
  }

  datatype Option<T> = None | Some(value: T)
}

module TextConsoleObject {
  import opened Arith
  import T = TextConsole

  /** input_delete's loop: the cells from `at` to `end` move one back and
      the cell at `end` becomes a space. */
  method CloseCell(a: array<char>, at: nat, end: nat)
    requires at <= end < a.Length
    modifies a
    ensures a[..] == T.Closed(old(a[..]), at, end)
  {
    var k := at;
    while k < end
      invariant at <= k <= end
      invariant forall j :: 0 <= j < a.Length ==>
        a[j] == if at <= j < k then old(a[j + 1]) else old(a[j])
    {
      a[k] := a[k + 1];
      k := k + 1;
    }
    a[end] := T.Space;
  }

  /** input_character's loop: each cell from `at` to `last` takes the one
      before it, the first one the typed character. */
  method OpenCell(a: array<char>, at: nat, last: nat, c: char)
    requires at <= last < a.Length
    modifies a
    ensures a[..] == T.Opened(old(a[..]), at, last, c)
  {
    var carry := c;
    var k := at;
    while k <= last
      invariant at <= k <= last + 1
      invariant k > at ==> carry == old(a[k - 1])
      invariant k == at ==> carry == c
      invariant forall j :: 0 <= j < a.Length ==>
        a[j] == if j == at && j < k then c
                else if at < j < k then old(a[j - 1])
                else old(a[j])
    {
      var next := a[k];
      a[k] := carry;
      carry := next;
      k := k + 1;
    }
  }

  /** A buffer holding `out` cell by cell and then a NUL starts with them. */
  lemma Terminated(b: seq<char>, out: seq<char>)
    requires |out| < |b| && b[|out|] == T.Nul
    requires forall j :: 0 <= j < |out| ==> b[j] == out[j]
    ensures b[..|out| + 1] == out + [T.Nul]
  {
  }

  /** Stores one more character of the copy and keeps it terminated. */
  method PutChar(buffer: array<char>, used: nat, c: char, ghost out: seq<char>)
    requires used + 1 < buffer.Length && |out| == used
    requires forall j :: 0 <= j < used ==> buffer[j] == out[j]
    modifies buffer
    ensures forall j :: 0 <= j < used + 1 ==> buffer[j] == (out + [c])[j]
    ensures buffer[used + 1] == T.Nul
  {
    buffer[used] := c;
    buffer[used + 1] := T.Nul;
  }

  /** A character that fits moves from the rest of the input to the copy. */
  lemma CopyTakes(text: seq<char>, i: nat, room: int, out: seq<char>, want: seq<char>)
    requires i < |text| && text[i] != T.Nul && room > 1
    requires want == out + T.Buffered(text[i..], room)
    ensures want == (out + [text[i]]) + T.Buffered(text[i + 1..], room - 1)
  {
    T.BufferedTake(text, i, room);
    T.Assoc(out, [text[i]], T.Buffered(text[i + 1..], room - 1));
  }

  /** A NUL in the input is passed over. */
  lemma CopySkips(text: seq<char>, i: nat, room: int, out: seq<char>, want: seq<char>)
    requires i < |text| && text[i] == T.Nul && room > 0
    requires want == out + T.Buffered(text[i..], room)
    ensures want == out + T.Buffered(text[i + 1..], room)
  {
    T.BufferedSkip(text, i, room);
  }

  /** The copy is complete at the end of the input or at the first
      character that does not fit. */
  lemma CopyEnds(text: seq<char>, i: nat, room: int, out: seq<char>, want: seq<char>)
    requires i <= |text| && want == out + T.Buffered(text[i..], room)
    requires i == |text| || room - (if text[i] == T.Nul then 0 else 1) <= 0
    ensures want == out
  {
    if i == |text| {
      assert text[i..] == [];
    } else {
      T.BufferedStop(text, i, room);
    }
  }

  /** text_buffer_get_buffered_input's loop over the input's characters into
      a buffer of len characters. */
  method CopyInput(buffer: array<char>, text: seq<char>, len: nat)
    requires 1 <= len <= buffer.Length
    modifies buffer
    ensures |T.Buffered(text, len - 1)| + 1 <= len &&
      buffer[..|T.Buffered(text, len - 1)| + 1] == T.Buffered(text, len - 1) + [T.Nul]
  {
    ghost var want := T.Buffered(text, len - 1);
    T.BufferedFits(text, len - 1);
    assert text[0..] == text;
    buffer[0] := T.Nul;
    var room: int := len - 1;
    var used := 0;
    ghost var out: seq<char> := [];
    var i := 0;
    while i < |text|
      invariant 0 <= i <= |text|
      invariant 0 <= used < len && room == len - 1 - used && |out| == used
      invariant forall j :: 0 <= j < used ==> buffer[j] == out[j]
      invariant buffer[used] == T.Nul
      invariant want == out + T.Buffered(text[i..], room)
    {
      var take := if text[i] == T.Nul then 0 else 1;
      if room - take <= 0 {
        break;
      }
      if take == 1 {
        CopyTakes(text, i, room, out, want);
        PutChar(buffer, used, text[i], out);
        out := out + [text[i]];
        used := used + 1;
        room := room - 1;
      } else {
        CopySkips(text, i, room, out, want);
      }
      i := i + 1;
    }
    CopyEnds(text, i, room, out, want);
    Terminated(buffer[..], out);
  }

  /** A text_buffer_t reduced to what its editing logic touches. */
  class Console {
    const width: nat
    const height: nat
    const cells: array<char>
    var scrollMin: int
    var scrollMax: int
    var cursor: nat
    var inputHome: nat
    var inputEnd: nat
    var history: seq<seq<char>>
    var historyOffset: int
    var historyLength: int

    function Layout(): T.Layout
      reads this
    {
      T.Layout(width, height, scrollMin, scrollMax)
    }

    ghost function Screen(): T.Screen
      reads this, cells
    {
      T.Screen(cells[..], cursor)
    }

    ghost function Edit(): T.Input
      reads this, cells
    {
      T.Input(cells[..], cursor, inputHome, inputEnd)
    }

    ghost function History(): T.History
      reads this
    {
      T.History(history, historyOffset, historyLength)
    }

    ghost predicate Valid()
      reads this, cells
    {
      T.ScreenOk(Layout(), Screen()) && T.HistoryOk(History())
    }

    /** text_buffer_new for a grid of the given size: no scroll range, the
        cursor and the input at the first cell, no history. The source leaves
        the cells uninitialised; here they start as NUL. */
    constructor (width: nat, height: nat)
      requires width > 0 && height > 0
      ensures Valid() && fresh(cells)
      ensures this.width == width && this.height == height
      ensures scrollMin == -1 && scrollMax == -1
      ensures cursor == 0 && inputHome == 0 && inputEnd == 0
      ensures historyOffset == 0 && historyLength == 0
    {
      this.width := width;
      this.height := height;
      cells := new char[width * height](_ => T.Nul);
      scrollMin, scrollMax := -1, -1;
      cursor, inputHome, inputEnd := 0, 0, 0;
      history := seq(T.HistoryLen, _ => []);
      historyOffset, historyLength := 0, 0;
    }

    /** text_buffer_clear: every cell a space, the cursor at the first cell. */
    method Clear()
      requires Valid()
      modifies this`cursor, cells
      ensures Valid() && cursor == 0
      ensures forall k :: 0 <= k < cells.Length ==> cells[k] == T.Space
    {
      var k := 0;
      while k < cells.Length
        modifies cells
        invariant 0 <= k <= cells.Length
        invariant forall j :: 0 <= j < k ==> cells[j] == T.Space
      {
        cells[k] := T.Space;
        k := k + 1;
      }
      cursor := 0;
    }

    /** text_buffer_set_cursor_position: the cursor and an empty input at the
        position. */
    method SetCursorPosition(col: nat, row: nat)
      requires Valid() && col < width && row < height
      modifies this`cursor, this`inputHome, this`inputEnd
      ensures Valid() && T.Ordered(Edit()) && T.InputText(Edit()) == []
      ensures T.Column(width, cursor) == col && T.Row(width, cursor) == row
    {
      T.PositionOfPointer(width, height, col, row);
      cursor := row * width + col;
      inputHome, inputEnd := cursor, cursor;
    }

    /** text_buffer_set_scroll_range, with its assertions as the precondition. */
    method SetScrollRange(min: int, max: int)
      requires Valid() && 0 < min < height && min <= max < height
      modifies this`scrollMin, this`scrollMax
      ensures Valid() && T.FirstRow(Layout()) == min && T.LastRow(Layout()) == max
    {
      scrollMin, scrollMax := min, max;
    }

    /** text_buffer_clear_scroll_range: the whole grid scrolls. */
    method ClearScrollRange()
      requires Valid()
      modifies this`scrollMin, this`scrollMax
      ensures Valid() && T.FirstRow(Layout()) == 0 && T.LastRow(Layout()) == height - 1
    {
      scrollMin, scrollMax := -1, -1;
    }

    /** clear_to_end_of_line: spaces from the cursor to the end of its row. */
    method ClearToEndOfLine()
      requires Valid()
      modifies cells
      ensures Valid()
      ensures cells[..] == T.Blanked(old(cells[..]), cursor, T.NextRowStart(width, cursor))
    {
      T.NextRowInGrid(width, height, cursor);
      var eol := (cursor / width) * width + width;
      var k := cursor;
      while k < eol
        invariant cursor <= k <= eol
        invariant cells[..] == T.Blanked(old(cells[..]), cursor, k)
      {
        cells[k] := T.Space;
        k := k + 1;
      }
    }

    /** scroll_up: each row of the scroll range but its last takes the row
        below it; a one-row range is left alone. */
    method ScrollUp()
      requires Valid()
      modifies cells
      ensures Valid() && cells[..] == T.Scrolled(Layout(), old(cells[..]))
    {
      var first, last := T.FirstRow(Layout()), T.LastRow(Layout());
      T.RowEnd(width, height, last);
      if first == last {
        assert T.Shifted(cells[..], width, first * width, last * width) == cells[..];
        return;
      }
      MulLe(first, last, width);
      var from, to := first * width, last * width;
      assert to + width <= cells.Length;
      var k := from;
      while k < to
        invariant from <= k <= to
        invariant cells[..] == T.Shifted(old(cells[..]), width, from, k)
      {
        T.ShiftedStep(old(cells[..]), width, from, k, to);
        cells[k] := cells[k + width];
        k := k + 1;
      }
    }

    /** The wrap on the bottom row. */
    method ScrollBottom()
      requires Valid()
      modifies this`cursor, cells
      ensures Valid() && Screen() == T.ScrollBottom(Layout(), old(cells[..]))
    {
      ScrollUp();
      T.BottomRow(Layout());
      cursor := (height - 1) * width;
      ClearToEndOfLine();
    }

    /** The wrap after a newline or the last cell. */
    method Wrap()
      requires Valid()
      modifies this`cursor, cells
      ensures Valid() && Screen() == T.Wrap(Layout(), old(Screen()))
    {
      T.NextRowInGrid(width, height, cursor);
      ghost var s0 := Screen();
      ghost var cleared := T.Blanked(s0.cells, cursor, T.NextRowStart(width, cursor));
      var next := (cursor / width) * width + width;
      var bottom := cursor / width == height - 1;
      T.PointerOfPosition(width, height, cursor);
      assert next == T.NextRowStart(width, cursor);
      assert bottom == !(T.Row(width, cursor) < height - 1);
      assert T.Wrap(Layout(), s0) == if bottom then T.ScrollBottom(Layout(), cleared) else T.Screen(cleared, next);
      ClearToEndOfLine();
      assert cells[..] == cleared;
      if bottom {
        ScrollBottom();
      } else {
        cursor := next;
      }
    }

    /** One character other than a tab. */
    method Put(c: char)
      requires Valid() && c != T.Tab
      modifies this`cursor, cells
      ensures Valid() && Screen() == T.Put(Layout(), old(Screen()), c)
    {
      if c >= T.Space {
        cells[cursor] := c;
      }
      if c == T.Newline || cursor == width * height - 1 {
        Wrap();
      } else {
        cursor := cursor + 1;
      }
    }

    /** text_buffer_add_text_inner for a text of fewer wide characters than
        its conversion buffer holds. */
    method AddTextInner(text: seq<char>)
      requires Valid() && |text| < T.WideBufferSize
      modifies this`cursor, cells
      ensures Valid() && Screen() == T.TypeText(Layout(), old(Screen()), text)
    {
      var i := 0;
      while i < |text|
        invariant 0 <= i <= |text|
        invariant Valid() && Screen() == T.TypeText(Layout(), old(Screen()), text[..i])
      {
        assert text[..i + 1][..i] == text[..i];
        if text[i] == T.Tab {
          var spaces := T.TabSpaces(Layout(), cursor);
          ghost var start := Screen();
          var j := 0;
          while j < spaces
            invariant 0 <= j <= spaces
            invariant Valid() && T.PutSpaces(Layout(), Screen(), spaces - j) == T.PutSpaces(Layout(), start, spaces)
          {
            Put(T.Space);
            j := j + 1;
          }
        } else {
          Put(text[i]);
        }
        i := i + 1;
      }
      assert text[..i] == text;
    }

    /** input_left, input_right, input_home and input_end. */
    method InputLeft()
      requires Valid() && T.Ordered(Edit())
      modifies this`cursor
      ensures Valid() && Edit() == T.Left(old(Edit()))
    {
      if cursor == inputHome {
        return;
      }
      cursor := cursor - 1;
    }

    method InputRight()
      requires Valid() && T.Ordered(Edit())
      modifies this`cursor
      ensures Valid() && Edit() == T.Right(old(Edit()))
    {
      if cursor == inputEnd {
        return;
      }
      cursor := cursor + 1;
    }

    method InputHome()
      requires Valid() && T.Ordered(Edit())
      modifies this`cursor
      ensures Valid() && T.Ordered(Edit()) && cursor == inputHome
    {
      cursor := inputHome;
    }

    method InputEnd()
      requires Valid() && T.Ordered(Edit())
      modifies this`cursor
      ensures Valid() && T.Ordered(Edit()) && cursor == inputEnd
    {
      cursor := inputEnd;
    }

    /** input_delete, guarded at the input's end. */
    method InputDelete()
      requires Valid() && T.Ordered(Edit())
      modifies this`inputEnd, cells
      ensures Valid() && Edit() == T.Delete(old(Edit()))
    {
      if cursor == inputEnd {
        return;
      }
      CloseCell(cells, cursor, inputEnd);
      inputEnd := inputEnd - 1;
    }

    /** input_backspace. */
    method InputBackspace()
      requires Valid() && T.Ordered(Edit())
      modifies this`cursor, this`inputEnd, cells
      ensures Valid() && Edit() == T.Backspace(old(Edit()))
    {
      if cursor == inputHome {
        return;
      }
      cursor := cursor - 1;
      InputDelete();
    }

    /** input_character: the typed character goes in at the cursor. */
    method InputCharacter(c: char)
      requires Valid() && T.Ordered(Edit())
      modifies this`cursor, this`inputEnd, cells
      ensures Valid() && Edit() == T.Insert(old(Edit()), c)
    {
      var n := cells.Length;
      var last := if inputEnd + 1 < n then inputEnd + 1 else inputEnd;
      OpenCell(cells, cursor, last, c);
      if cursor < n - 1 {
        cursor := cursor + 1;
      }
      inputEnd := last;
    }

    /** text_buffer_get_buffered_input into a buffer of len characters: the
        input's characters as far as they fit, then a NUL. */
    method GetBufferedInput(buffer: array<char>, len: nat)
      requires Valid() && T.Ordered(Edit()) && 1 <= len <= buffer.Length && buffer != cells
      modifies buffer
      ensures |T.Buffered(T.InputText(Edit()), len - 1)| + 1 <= len &&
        buffer[..|T.Buffered(T.InputText(Edit()), len - 1)| + 1] == T.Buffered(T.InputText(Edit()), len - 1) + [T.Nul]
    {
      T.BufferedFits(T.InputText(Edit()), len - 1);
      CopyInput(buffer, cells[inputHome..inputEnd], len);
    }

    /** input_enter's record of the entered line. */
    method RecordLine(line: seq<char>)
      requires Valid()
      modifies this`history, this`historyOffset, this`historyLength
      ensures Valid() && History() == T.Record(old(History()), line)
    {
      historyLength := historyLength + 1;
      if historyLength > T.HistoryLen {
        historyLength := T.HistoryLen;
      }
      history := history[historyOffset := line];
      historyOffset := (historyOffset + 1) % T.HistoryLen;
    }

    /** input_up's move through the ring; the line it recalls. */
    method HistoryUp() returns (line: T.Option<seq<char>>)
      requires Valid()
      modifies this`historyOffset
      ensures Valid() && History() == T.Up(old(History()))
      ensures line == if historyLength == 0 then T.None else T.Some(history[historyOffset])
    {
      if historyLength == 0 {
        return T.None;
      }
      historyOffset := historyOffset - 1;
      if historyOffset < 0 {
        historyOffset := historyLength - 1;
      }
      line := T.Some(history[historyOffset]);
    }

    /** input_down's move through the ring; the line it recalls. */
    method HistoryDown() returns (line: T.Option<seq<char>>)
      requires Valid()
      modifies this`historyOffset
      ensures Valid() && History() == T.Down(old(History()))
      ensures line == if historyLength == 0 then T.None else T.Some(history[historyOffset])
    {
      if historyLength == 0 {
        return T.None;
      }
      historyOffset := (historyOffset + 1) % historyLength;
      line := T.Some(history[historyOffset]);
    }
  }
}
