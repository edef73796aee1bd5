/**
  The text-mode terminal: 25 rows of 80 cells in video memory, a character and an attribute byte
  each, written in place.  What it shows is the wrapped text's first line and its last 24.
 */
module TextTerminal {

  const NUM_COLS := 80
  const NUM_ROWS := 25
  const START_HEIGHT := 1
  const ATTRIB := 7
  const BACKSPACE := 8
  const NEWLINE := 10
  const RETURN := 13
  const SPACE := 32

  datatype Cell = Cell(ch: int, attr: int)

  const BLANK := Cell(SPACE, ATTRIB)

  // What the screen holds, and the cursor.
  datatype Text = Text(rows: seq<seq<Cell>>, x: int, y: int)

  function BlankRow(): seq<Cell> {
    seq(NUM_COLS, _ => BLANK)
  }

  function BlankText(): Text {
    Text(seq(NUM_ROWS, _ => BlankRow()), 0, 0)
  }

  ghost predicate TextOk(t: Text) {
    && |t.rows| == NUM_ROWS && (forall r {:trigger t.rows[r]} :: 0 <= r < NUM_ROWS ==> |t.rows[r]| == NUM_COLS)
    && 0 <= t.x < NUM_COLS && 0 <= t.y < NUM_ROWS
  }

  function SetCell(rows: seq<seq<Cell>>, r: int, c: int, cell: Cell): seq<seq<Cell>>
    requires 0 <= r < |rows| && 0 <= c < |rows[r]|
  {
    rows[r := rows[r][c := cell]]
  }

  /** Row 0 stays, every other row gives way to the one below it, and the last is blank. */
  function ScrolledRows(rows: seq<seq<Cell>>): seq<seq<Cell>>
    requires |rows| == NUM_ROWS
  {
    rows[..START_HEIGHT] + rows[START_HEIGHT + 1..] + [BlankRow()]
  }

  function ScrollIfBelow(t: Text): Text
    requires |t.rows| == NUM_ROWS
  {
    if t.y == NUM_ROWS then Text(ScrolledRows(t.rows), t.x, t.y - 1) else t
  }

  /** One byte written. */
  function Put(t: Text, c: int): Text
    requires |t.rows| == NUM_ROWS && forall r :: 0 <= r < NUM_ROWS ==> |t.rows[r]| == NUM_COLS
    requires 0 <= t.x < NUM_COLS && 0 <= t.y < NUM_ROWS
  {
    if c == NEWLINE || c == RETURN then
      ScrollIfBelow(Text(t.rows, 0, t.y + 1))
    else if c == BACKSPACE then
      if t.x == 0 && t.y == 0 then t
      else
        var (x, y) := if t.x == 0 then (NUM_COLS, t.y - 1) else (t.x, t.y);
        Text(SetCell(t.rows, y, x - 1, BLANK), x - 1, y)
    else
      var rows := SetCell(t.rows, t.y, t.x, Cell(Shown(c), ATTRIB));
      ScrollIfBelow(if t.x + 1 == NUM_COLS then Text(rows, 0, t.y + 1) else Text(rows, t.x + 1, t.y))
  }

  /** A zero byte is written as a space. */
  function Shown(c: int): int {
    if c == 0 then SPACE else c
  }

  /** An ordinary byte is at the cursor, the cursor one cell further, and nothing else has changed,
      but that from the last cell all rows but the first go up by one; a zero byte is a space. */
  lemma PutChars(t: Text, c: int)
    requires TextOk(t) && c != 8 && c != 10 && c != 13
    ensures TextOk(Put(t, c))
    ensures var u, last := Put(t, c), 80 * t.y + t.x == 1999;
            var q := if last then 1919 else 80 * t.y + t.x;
            && 80 * u.y + u.x == q + 1
            && u.rows[q / 80][q % 80] == Cell(if c == 0 then 32 else c, 7)
            && forall r, k {:trigger u.rows[r][k]} :: 0 <= r < 25 && 0 <= k < 80 && 80 * r + k != q ==>
                 u.rows[r][k] == if !last || r == 0 then t.rows[r][k]
                                 else if r < 24 then t.rows[r + 1][k] else Cell(32, 7)
  {
    assert t.x == 79 && t.y == 24 <==> 80 * t.y + t.x == 1999;
  }

  /** A newline or a return goes to the start of the next row, with the rows but the first going up
      from the last one. */
  lemma PutNewLine(t: Text, c: int)
    requires TextOk(t) && (c == 10 || c == 13)
    ensures var u := Put(t, c);
            && TextOk(u) && u.x == 0 && u.y == (if t.y == 24 then 24 else t.y + 1)
            && forall r, k {:trigger u.rows[r][k]} :: 0 <= r < 25 && 0 <= k < 80 ==>
                 u.rows[r][k] == if t.y < 24 || r == 0 then t.rows[r][k]
                                 else if r < 24 then t.rows[r + 1][k] else Cell(32, 7)
  {
  }

  /** A backspace blanks the cell before the cursor and goes there; in the first cell it does nothing. */
  lemma PutBackspace(t: Text)
    requires TextOk(t)
    ensures TextOk(Put(t, 8)) && (t.x == 0 && t.y == 0 ==> Put(t, 8) == t)
    ensures var u, q := Put(t, 8), 80 * t.y + t.x - 1;
            q >= 0 ==>
              && 80 * u.y + u.x == q && u.rows[u.y][u.x] == Cell(32, 7)
              && forall r, k {:trigger u.rows[r][k]} :: 0 <= r < 25 && 0 <= k < 80 && 80 * r + k != q ==>
                   u.rows[r][k] == t.rows[r][k]
  {
  }

  /** Whatever byte is written, the cursor stays on the screen. */
  lemma PutKeeps(t: Text, c: int)
    requires TextOk(t)
    ensures TextOk(Put(t, c))
  {
  }

  ghost function PutAll(t: Text, bytes: seq<int>): (u: Text)
    requires TextOk(t)
    ensures TextOk(u)
  {
    if bytes == [] then t else Put(PutAll(t, bytes[..|bytes| - 1]), bytes[|bytes| - 1])
  }

  // ----- the wrapped text

  /** One byte more in the text: a line ends at a newline or return, and after its 80th character. */
  function Extend(lines: seq<seq<int>>, c: int): seq<seq<int>>
    requires lines != []
  {
    var n := |lines| - 1;
    if c == NEWLINE || c == RETURN then lines + [[]]
    else if |lines[n]| + 1 == NUM_COLS then lines[n := lines[n] + [Shown(c)]] + [[]]
    else lines[n := lines[n] + [Shown(c)]]
  }

  ghost predicate Wrapped(lines: seq<seq<int>>) {
    && lines != [] && |lines[|lines| - 1]| < NUM_COLS
    && forall i {:trigger lines[i]} :: 0 <= i < |lines| ==> |lines[i]| <= NUM_COLS
  }

  function Wrap(bytes: seq<int>): (lines: seq<seq<int>>)
    ensures Wrapped(lines)
  {
    if bytes == [] then [[]] else Extend(Wrap(bytes[..|bytes| - 1]), bytes[|bytes| - 1])
  }

  ghost function Flat(lines: seq<seq<int>>): seq<int> {
    if lines == [] then [] else Flat(lines[..|lines| - 1]) + lines[|lines| - 1]
  }

  /** The characters of the text, without its line ends. */
  ghost function Chars(bytes: seq<int>): seq<int> {
    if bytes == [] then []
    else
      var c := bytes[|bytes| - 1];
      Chars(bytes[..|bytes| - 1]) + if c == NEWLINE || c == RETURN then [] else [Shown(c)]
  }

  lemma FlatExtend(lines: seq<seq<int>>, c: int)
    requires lines != []
    ensures Flat(Extend(lines, c)) == Flat(lines) + if c == NEWLINE || c == RETURN then [] else [Shown(c)]
  {
  }

  /** Ordinary bytes are the characters written. */
  ghost predicate Ordinary(bytes: seq<int>) {
    forall i :: 0 <= i < |bytes| ==> bytes[i] != 0 && bytes[i] != 8 && bytes[i] != 10 && bytes[i] != 13
  }

  lemma {:induction false} CharsOfOrdinary(bytes: seq<int>)
    requires Ordinary(bytes)
    ensures Chars(bytes) == bytes
  {
    if bytes != [] {
      CharsOfOrdinary(bytes[..|bytes| - 1]);
    }
  }

  /** Wrapping loses no character and moves none: the lines put together are the text. */
  lemma {:induction false} WrapLosesNothing(bytes: seq<int>)
    ensures Flat(Wrap(bytes)) == Chars(bytes)
    ensures Ordinary(bytes) ==> Flat(Wrap(bytes)) == bytes
  {
    if Ordinary(bytes) { CharsOfOrdinary(bytes); }
    if bytes == [] {
      assert Flat(Wrap(bytes)[..0]) == [];
    } else {
      WrapLosesNothing(bytes[..|bytes| - 1]);
      FlatExtend(Wrap(bytes[..|bytes| - 1]), bytes[|bytes| - 1]);
    }
  }

  /** A line filled up with blanks. */
  function RowOf(line: seq<int>): (row: seq<Cell>)
    ensures |row| == NUM_COLS
  {
    seq(NUM_COLS, c requires 0 <= c < NUM_COLS => if c < |line| then Cell(line[c], ATTRIB) else BLANK)
  }

  /** The line that row `r` shows: row 0 the first, rows 1 to 24 the next ones while there are no
      more, and the last 24 once there are. */
  function LineOfRow(lines: seq<seq<int>>, r: int): seq<int>
    requires lines != [] && 0 <= r < NUM_ROWS
  {
    if r == 0 then lines[0]
    else if |lines| > NUM_ROWS then lines[|lines| - NUM_ROWS + r]
    else if r < |lines| then lines[r]
    else []
  }

  /** The page that shows the text: first line, last 24, and the cursor after the last character. */
  function Page(lines: seq<seq<int>>): (t: Text)
    requires lines != []
  {
    Text(seq(NUM_ROWS, r requires 0 <= r < NUM_ROWS => RowOf(LineOfRow(lines, r))),
         |lines[|lines| - 1]|,
         if |lines| > NUM_ROWS then NUM_ROWS - 1 else |lines| - 1)
  }

  lemma RowExtended(line: seq<int>, c: int)
    requires |line| < NUM_COLS
    ensures RowOf(line)[|line| := Cell(c, ATTRIB)] == RowOf(line + [c])
  {
  }

  /** Writing a byte shows the text with that byte more. */
  lemma PutIsExtend(lines: seq<seq<int>>, c: int)
    requires Wrapped(lines) && c != BACKSPACE
    ensures TextOk(Page(lines)) && Put(Page(lines), c) == Page(Extend(lines, c))
  {
    var n := |lines| - 1;
    var t, y := Page(lines), Page(lines).y;
    assert LineOfRow(lines, y) == lines[n];
    if c == NEWLINE || c == RETURN {
      NewLineIsScroll(lines);
    } else {
      var more := lines[n := lines[n] + [Shown(c)]];
      RowExtended(lines[n], Shown(c));
      assert SetCell(t.rows, y, t.x, Cell(Shown(c), ATTRIB)) == Page(more).rows;
      if |lines[n]| + 1 == NUM_COLS { NewLineIsScroll(more); }
    }
  }

  /** Beginning a new line is a step down, or a scroll from the last row. */
  lemma NewLineIsScroll(lines: seq<seq<int>>)
    requires lines != []
    ensures Page(lines + [[]]) == ScrollIfBelow(Text(Page(lines).rows, 0, Page(lines).y + 1))
  {
    var t := ScrollIfBelow(Text(Page(lines).rows, 0, Page(lines).y + 1));
    assert RowOf([]) == BlankRow();
    forall r | 0 <= r < NUM_ROWS
      ensures Page(lines + [[]]).rows[r] == t.rows[r]
    {
    }
  }

  /** From a blank screen, whatever bytes but backspaces are written, the screen shows the first
      line and the last 24 of the wrapped text. */
  lemma {:induction false} ScreenShowsText(bytes: seq<int>)
    requires BACKSPACE !in bytes
    ensures PutAll(BlankText(), bytes) == Page(Wrap(bytes))
  {
    if bytes == [] {
      assert RowOf([]) == BlankRow();
      assert Page([[]]).rows == BlankText().rows;
    } else {
      ScreenShowsText(bytes[..|bytes| - 1]);
      PutIsExtend(Wrap(bytes[..|bytes| - 1]), bytes[|bytes| - 1]);
    }
  }

  /** A backspace takes back the character before it exactly when that did not scroll. */
  lemma BackspaceUndoes(lines: seq<seq<int>>, c: int)
    requires Wrapped(lines) && c !in {BACKSPACE, NEWLINE, RETURN}
    ensures TextOk(Page(lines))
    ensures Put(Put(Page(lines), c), BACKSPACE) == Page(lines)
            <==> (|lines[|lines| - 1]| + 1 < NUM_COLS || |lines| < NUM_ROWS)
  {
    var t := Page(lines);
    var n := |lines| - 1;
    assert LineOfRow(lines, t.y) == lines[n];
    assert t.rows[t.y][t.x] == BLANK;
    if |lines[n]| + 1 < NUM_COLS || |lines| < NUM_ROWS {
      var row := t.rows[t.y];
      assert row[t.x := Cell(Shown(c), ATTRIB)][t.x := BLANK] == row;
      assert SetCell(SetCell(t.rows, t.y, t.x, Cell(Shown(c), ATTRIB)), t.y, t.x, BLANK) == t.rows;
    }
  }

  lemma CellOfRow(rows: seq<seq<Cell>>, r: int, line: seq<Cell>, c: int, cell: Cell)
    requires 0 <= r < |rows| && 0 <= c < |line|
    ensures SetCell(rows[r := line], r, c, cell) == rows[r := line[c := cell]]
  {
  }

  // ----- video memory

  class Screen {
    const videoMem: array<int>
    var x: int
    var y: int
    ghost var rows: seq<seq<Cell>>

    ghost predicate Holds(r: int, c: int, cell: Cell)
      requires videoMem.Length == 2 * NUM_ROWS * NUM_COLS && 0 <= r < NUM_ROWS && 0 <= c < NUM_COLS
      reads videoMem
    {
      videoMem[2 * (NUM_COLS * r + c)] == cell.ch && videoMem[2 * (NUM_COLS * r + c) + 1] == cell.attr
    }

    ghost predicate Shows(rs: seq<seq<Cell>>)
      reads videoMem
    {
      && videoMem.Length == 2 * NUM_ROWS * NUM_COLS
      && |rs| == NUM_ROWS && (forall r {:trigger rs[r]} :: 0 <= r < NUM_ROWS ==> |rs[r]| == NUM_COLS)
      && forall r, c {:trigger Holds(r, c, rs[r][c])} :: 0 <= r < NUM_ROWS && 0 <= c < NUM_COLS ==>
           Holds(r, c, rs[r][c])
    }

    ghost function T(): Text
      reads this
    {
      Text(rows, x, y)
    }

    ghost predicate Valid()
      reads this, videoMem
    {
      Shows(rows) && TextOk(T())
    }

    method Write(r: int, c: int, cell: Cell)
      requires Shows(rows) && 0 <= r < NUM_ROWS && 0 <= c < NUM_COLS
      modifies videoMem, `rows
      ensures rows == SetCell(old(rows), r, c, cell) && Shows(rows)
    {
      videoMem[2 * (NUM_COLS * r + c)] := cell.ch;
      videoMem[2 * (NUM_COLS * r + c) + 1] := cell.attr;
      rows := SetCell(rows, r, c, cell);
      forall i, j | 0 <= i < NUM_ROWS && 0 <= j < NUM_COLS
        ensures Holds(i, j, rows[i][j])
      {
        assert old(Holds(i, j, rows[i][j]));
      }
    }

    /** A blank screen with the cursor at (0, 0). */
    constructor ()
      ensures Valid() && T() == BlankText() && fresh(videoMem)
    {
      videoMem := new int[2 * NUM_ROWS * NUM_COLS](i => if i % 2 == 0 then SPACE else ATTRIB);
      x, y, rows := 0, 0, BlankText().rows;
      new;
      forall r, c | 0 <= r < NUM_ROWS && 0 <= c < NUM_COLS
        ensures Holds(r, c, rows[r][c])
      {
        assert (2 * (NUM_COLS * r + c)) % 2 == 0 && (2 * (NUM_COLS * r + c) + 1) % 2 == 1;
      }
    }

    method MoveRow(row: int)
      requires Shows(rows) && 0 <= row < NUM_ROWS - 1
      modifies videoMem, `rows
      ensures Shows(rows) && rows == old(rows)[row := old(rows)[row + 1]]
    {
      ghost var was, line := rows, rows[row];
      for col := 0 to NUM_COLS
        invariant Shows(rows) && rows == was[row := line] && |line| == NUM_COLS
        invariant forall k :: 0 <= k < NUM_COLS ==> line[k] == if k < col then was[row + 1][k] else was[row][k]
      {
        assert Holds(row + 1, col, rows[row + 1][col]);
        var fromIndex := (row + 1) * NUM_COLS + col;
        CellOfRow(was, row, line, col, rows[row + 1][col]);
        line := line[col := rows[row + 1][col]];
        Write(row, col, Cell(videoMem[2 * fromIndex], videoMem[2 * fromIndex + 1]));
      }
      assert line == was[row + 1];
    }

    method ClearRow(row: int)
      requires Shows(rows) && 0 <= row < NUM_ROWS
      modifies videoMem, `rows
      ensures Shows(rows) && rows == old(rows)[row := BlankRow()]
    {
      ghost var was, line := rows, rows[row];
      for i := 0 to NUM_COLS
        invariant Shows(rows) && rows == was[row := line] && |line| == NUM_COLS
        invariant forall k :: 0 <= k < i ==> line[k] == BLANK
      {
        CellOfRow(was, row, line, i, BLANK);
        line := line[i := BLANK];
        Write(row, i, BLANK);
      }
      assert line == BlankRow();
    }

    /** up_scroll_for_one_line, in place. */
    method UpScrollForOneLine()
      requires Shows(rows)
      modifies videoMem, `rows, `y
      ensures Shows(rows) && rows == ScrolledRows(old(rows)) && y == old(y) - 1
    {
      ghost var was := rows;
      for row := START_HEIGHT to NUM_ROWS - 1
        invariant Shows(rows) && y == old(y) && |rows| == |was| == NUM_ROWS
        invariant forall k :: 0 <= k < NUM_ROWS ==> rows[k] == was[if START_HEIGHT <= k < row then k + 1 else k]
      {
        MoveRow(row);
      }
      y := y - 1;
      ClearRow(NUM_ROWS - 1);
      assert rows == ScrolledRows(was);
    }

    method ScrollAtEnd()
      requires Shows(rows) && 0 <= x < NUM_COLS && 0 <= y <= NUM_ROWS
      modifies videoMem, `rows, `y
      ensures Valid() && T() == ScrollIfBelow(old(T()))
    {
      if y == NUM_ROWS {
        UpScrollForOneLine();
      }
    }

    /** What putting the byte comes to, whichever it is. */
    lemma PutOneByte(t: Text, c: int)
      requires TextOk(t)
      ensures TextOk(Put(t, c))
      ensures c != 8 && c != 10 && c != 13 ==>
                var u, q := Put(t, c), if 80 * t.y + t.x == 1999 then 1919 else 80 * t.y + t.x;
                80 * u.y + u.x == q + 1 && u.rows[q / 80][q % 80] == Cell(if c == 0 then 32 else c, 7)
      ensures c == 8 && (t.x != 0 || t.y != 0) ==>
                var u, q := Put(t, c), 80 * t.y + t.x - 1;
                80 * u.y + u.x == q && u.rows[q / 80][q % 80] == Cell(32, 7)
      ensures c == 10 || c == 13 ==> var u := Put(t, c); u.x == 0 && u.y == if t.y == 24 then 24 else t.y + 1
    {
      if c == 8 {
        PutBackspace(t);
      } else if c == 10 || c == 13 {
        PutNewLine(t, c);
      } else {
        PutChars(t, c);
      }
    }

    /** The branches of nb_putc. */
    method PutByte(c: int)
      requires Valid()
      modifies this, videoMem
      ensures Valid() && T() == Put(old(T()), c)
      decreases if c == 0 then 1 else 0
    {
      if c == NEWLINE || c == RETURN {
        y := y + 1;
        x := 0;
      } else if c == BACKSPACE {
        if x == 0 {
          if y == 0 {
            return;
          }
          x := NUM_COLS;
          y := y - 1;
        }
        Write(y, x - 1, BLANK);
        x := x - 1;
        return;
      } else if c == 0 {
        PutByte(SPACE);
        return;
      } else {
        Write(y, x, Cell(c, ATTRIB));
        x := x + 1;
        if x == NUM_COLS {
          y := y + 1;
          x := 0;
        }
      }
      ScrollAtEnd();
    }

    /** Where the cell at `q` lies in video memory. */
    lemma InMemory(q: int)
      requires Shows(rows) && 0 <= q < 2000
      ensures videoMem[2 * q] == rows[q / 80][q % 80].ch && videoMem[2 * q + 1] == rows[q / 80][q % 80].attr
    {
      assert NUM_COLS * (q / 80) + q % 80 == q;
      assert Holds(q / 80, q % 80, rows[q / 80][q % 80]);
    }

    /** nb_putc. */
    method NbPutc(c: int)
      requires Valid()
      modifies this, videoMem
      ensures Valid() && T() == Put(old(T()), c)
      ensures c != 8 && c != 10 && c != 13 ==>
                var last := 80 * old(y) + old(x) == 1999;
                var q := if last then 1919 else 80 * old(y) + old(x);
                && videoMem[2 * q] == (if c == 0 then 32 else c) && videoMem[2 * q + 1] == 7
                && 80 * y + x == q + 1
      ensures c == 8 && (old(x) != 0 || old(y) != 0) ==>
                var q := 80 * old(y) + old(x) - 1;
                videoMem[2 * q] == 32 && videoMem[2 * q + 1] == 7 && 80 * y + x == q
      ensures c == 10 || c == 13 ==> x == 0 && y == if old(y) == 24 then 24 else old(y) + 1
    {
      hide Put, Shows;
      PutOneByte(T(), c);
      ghost var p := 80 * y + x;
      PutByte(c);
      if c == 8 {
        if p > 0 { InMemory(p - 1); }
      } else if c != 10 && c != 13 {
        InMemory(if p == 1999 then 1919 else p);
      }
    }

    /** terminal_write. */
    method TerminalWrite(buf: seq<int>) returns (n: int)
      requires Valid()
      modifies this, videoMem
      ensures Valid() && T() == PutAll(old(T()), buf) && n == if |buf| == 0 then -1 else |buf|
    {
      if |buf| == 0 {
        return -1;
      }
      for i := 0 to |buf|
        invariant Valid() && T() == PutAll(old(T()), buf[..i])
      {
        assert buf[..i + 1][..i] == buf[..i];
        NbPutc(buf[i]);
      }
      assert buf[..|buf|] == buf;
      return |buf|;
    }
  }
}
