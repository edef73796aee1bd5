/**
  The screen, the three windows' own copies of their pixels, and the operations that draw
  on both: putting a character, scrolling, and bringing a window to the top.
 */
module Compositor {
  import opened Windows
  import opened DesktopRuns

  const TEXT_OFF_Y := 22
  const WINDOW_TITLE_HEIGHT := 20
  const TITLES := ["Terminal 1", "Terminal 2", "Terminal 3"]

  datatype Color = Color(r: int, g: int, b: int)

  const BLACK := Color(0, 0, 0)
  const WHITE := Color(0xFF, 0xFF, 0xFF)

  ghost predicate InCell(sx: int, sy: int, x: int, y: int) {
    sx <= x < sx + CELL_WIDTH && sy <= y < sy + CELL_HEIGHT
  }

  class Desktop {
    const screen: array2<Color>
    const bufs: seq<array2<Color>>
    const font: (char, int, int) -> bool
    var frame: array2<Color>     // what the frame buffer's page is mapped to
    var windows: seq<Window>
    var viewing: int
    ghost var order: seq<int>    // the windows from the top down
    ghost var events: seq<Event> // what has been drawn and viewed since GUI_init

    ghost predicate Sized(a: array2<Color>) {
      a.Length0 == Y_RES && a.Length1 == X_RES
    }

    ghost predicate Shaped() {
      && |bufs| == 3 && Sized(screen) && Sized(bufs[0]) && Sized(bufs[1]) && Sized(bufs[2])
      && screen != bufs[0] && screen != bufs[1] && screen != bufs[2]
      && bufs[0] != bufs[1] && bufs[0] != bufs[2] && bufs[1] != bufs[2]
    }

    ghost predicate Placed()
      reads `windows
    {
      && |windows| == 3
      && (windows[0].x, windows[0].y) == (100, 100)
      && (windows[1].x, windows[1].y) == (200, 200)
      && (windows[2].x, windows[2].y) == (300, 300)
    }

    /** Every pixel of the window that no higher window covers is as in the window's own copy. */
    ghost predicate Shown(w: int)
      requires Shaped() && 0 <= w < 3 && |windows| == 3
      reads `windows, screen, bufs
    {
      forall x, y {:trigger screen[y, x]} :: 0 <= y < Y_RES && 0 <= x < X_RES && Visible(windows, w, x, y) ==>
        screen[y, x] == bufs[w][y, x]
    }

    /** The top window shows what its copy holds. */
    ghost predicate TopShown()
      reads this, screen, bufs
    {
      && Shaped() && Placed() && Arranged(windows, order) && order[0] == viewing
      && Shown(viewing)
    }

    /** What holds from GUI_init on: the windows lie in the order that the run gives them, and those
        that the run leaves sharp show their copies.  The top one is always among these. */
    ghost predicate Valid()
      reads this, screen, bufs
    {
      && TopShown() && IsRun(events) && order == OrderAfter(events)
      && forall w {:trigger Shown(w)} :: 0 <= w < 3 && Sharp(events, w) ==> Shown(w)
    }

    /** Video memory and the terminals' buffers, holding anything. */
    constructor (font: (char, int, int) -> bool)
      ensures Shaped() && viewing == 0 && this.font == font
      ensures fresh(screen) && forall w :: 0 <= w < 3 ==> fresh(bufs[w])
    {
      var video := new Color[Y_RES, X_RES];
      var b0 := new Color[Y_RES, X_RES];
      var b1 := new Color[Y_RES, X_RES];
      var b2 := new Color[Y_RES, X_RES];
      screen, bufs, frame := video, [b0, b1, b2], video;
      this.font, windows, viewing, order := font, [], 0, [];
    }

    function Ink(ch: char, i: int, j: int): Color {
      if font(ch, i, j) then WHITE else BLACK
    }

    /** The cell at (sx, sy) of `a` holds the character and the rest of `a` is as it was. */
    twostate predicate Stamped(a: array2<Color>, ch: char, sx: int, sy: int)
      requires Sized(a)
      reads a
    {
      forall x, y {:trigger a[y, x]} :: 0 <= y < Y_RES && 0 <= x < X_RES ==>
        a[y, x] == if InCell(sx, sy, x, y) then Ink(ch, y - sy, x - sx) else old(a[y, x])
    }

    twostate predicate Same(a: array2<Color>)
      requires Sized(a)
      reads a
    {
      forall x, y {:trigger a[y, x]} :: 0 <= y < Y_RES && 0 <= x < X_RES ==> a[y, x] == old(a[y, x])
    }

    /** The loops of VGA_putc over the font's bits. */
    method PaintCell(ch: char, sx: int, sy: int)
      requires Sized(frame) && 0 <= sx <= X_RES - CELL_WIDTH && 0 <= sy <= Y_RES - CELL_HEIGHT
      modifies frame
      ensures Stamped(frame, ch, sx, sy)
      ensures forall x, y {:trigger frame[y, x]} :: 0 <= y < Y_RES && 0 <= x < X_RES ==>
                frame[y, x] == if !(sx <= x < sx + 8 && sy <= y < sy + 16) then old(frame[y, x])
                               else if font(ch, y - sy, x - sx) then Color(0xFF, 0xFF, 0xFF) else Color(0, 0, 0)
    {
      for i := 0 to CELL_HEIGHT
        invariant forall x, y {:trigger frame[y, x]} :: 0 <= y < Y_RES && 0 <= x < X_RES ==>
          frame[y, x] == if InCell(sx, sy, x, y) && y < sy + i then Ink(ch, y - sy, x - sx) else old(frame[y, x])
      {
        for j := 0 to CELL_WIDTH
          invariant forall x, y {:trigger frame[y, x]} :: 0 <= y < Y_RES && 0 <= x < X_RES ==>
            frame[y, x] == if InCell(sx, sy, x, y) && (y < sy + i || (y == sy + i && x < sx + j))
                           then Ink(ch, y - sy, x - sx) else old(frame[y, x])
        {
          frame[sy + i, sx + j] := Ink(ch, i, j);
        }
      }
    }

    /** VGA_putc and VGA_kbdputc: always in the terminal's own copy, on the screen only if told. */
    method PutCell(tid: int, ch: char, sx: int, sy: int, onScreen: bool)
      requires Shaped() && 0 <= tid < 3 && 0 <= sx <= X_RES - CELL_WIDTH && 0 <= sy <= Y_RES - CELL_HEIGHT
      modifies `frame, bufs[tid], screen
      ensures Stamped(bufs[tid], ch, sx, sy)
      ensures if onScreen then Stamped(screen, ch, sx, sy) else Same(screen)
    {
      frame := bufs[tid];
      PaintCell(ch, sx, sy);
      if onScreen {
        frame := screen;
        PaintCell(ch, sx, sy);
      }
    }

    /** print_screen_or_buf: the test on the cell's upper left and lower right pixels. */
    predicate PrintOnScreen(w: int, px: int, py: int)
      requires 0 <= w < |windows|
      reads `windows
    {
      if windows[w].layer == TOP then
        0 <= px + windows[w].x + 7 < X_RES && 0 <= py + windows[w].y + 15 < Y_RES
      else
        Clear(windows[w], px, py) && Clear(windows[w], px + 7, py + 15)
    }

    ghost predicate AlreadyThere(w: int, ch: char, px: int, py: int)
      requires Shaped() && 0 <= w < 3 && |windows| == 3
      reads `windows, screen
    {
      var sx, sy := windows[w].x + px, windows[w].y + py;
      forall x, y {:trigger screen[y, x]} ::
        0 <= y < Y_RES && 0 <= x < X_RES && InCell(sx, sy, x, y) && Visible(windows, w, x, y) ==>
          screen[y, x] == Ink(ch, y - sy, x - sx)
    }

    twostate predicate CharPut(w: int, ch: char, px: int, py: int)
      requires Shaped() && 0 <= w < 3 && |windows| == 3
      reads `windows, screen, bufs
    {
      && Stamped(bufs[w], ch, windows[w].x + px, windows[w].y + py)
      && if CellVisible(windows, w, px, py) then Stamped(screen, ch, windows[w].x + px, windows[w].y + py)
           else Same(screen)
    }

    method TestAndPut(w: int, ch: char, px: int, py: int)
      requires Shaped() && Placed() && Arranged(windows, order) && 0 <= w < 3 && CellInside(px, py)
      modifies `frame, bufs[w], screen
      ensures CharPut(w, ch, px, py)
    {
      CellTestIsVisible(windows, order, w, px, py);
      var onScreen := PrintOnScreen(w, px, py);
      PutCell(w, ch, windows[w].x + px, windows[w].y + py, onScreen);
    }

    /** Putting a character in a cell of window `w`: the window's copy gets it always, the screen
        exactly when all of the cell shows; what the other windows show stays. */
    method PutAt(w: int, ch: char, px: int, py: int)
      requires Shaped() && Placed() && Arranged(windows, order) && 0 <= w < 3 && CellInside(px, py)
      modifies `frame, bufs[w], screen
      ensures CharPut(w, ch, px, py)
      ensures forall v :: 0 <= v < 3 && v != w && old(Shown(v)) ==> Shown(v)
    {
      TestAndPut(w, ch, px, py);
      forall v | 0 <= v < 3 && v != w && old(Shown(v))
        ensures Shown(v)
      {
        forall x, y | 0 <= y < Y_RES && 0 <= x < X_RES && Visible(windows, v, x, y)
          ensures screen[y, x] == bufs[v][y, x]
        {
          NotInCell(windows, order, w, v, px, py, x, y);
          assert old(screen[y, x] == bufs[v][y, x]);
        }
      }
    }

    /** Window `w` goes on showing its copy if the cell is wholly visible or wholly covered; if it
        is covered in part, exactly when the pixels that show had the right color already. */
    method PutOver(w: int, ch: char, px: int, py: int)
      requires TopShown() && 0 <= w < 3 && CellInside(px, py)
      modifies `frame, bufs[w], screen
      ensures TopShown()
      ensures CharPut(w, ch, px, py)
      ensures CellIs(bufs[w], ch, windows[w].x + px, windows[w].y + py)
      ensures CellVisible(windows, w, px, py) ==> CellIs(screen, ch, windows[w].x + px, windows[w].y + py)
      ensures forall v :: 0 <= v < 3 && v != w && old(Shown(v)) ==> Shown(v)
      ensures old(Shown(w)) ==> (Shown(w) <==> CellVisible(windows, w, px, py) || old(AlreadyThere(w, ch, px, py)))
    {
      PutAt(w, ch, px, py);
      ghost var sx, sy := windows[w].x + px, windows[w].y + py;
      if old(Shown(w)) && (CellVisible(windows, w, px, py) || old(AlreadyThere(w, ch, px, py))) {
        forall x, y | 0 <= y < Y_RES && 0 <= x < X_RES && Visible(windows, w, x, y)
          ensures screen[y, x] == bufs[w][y, x]
        {
          assert old(screen[y, x] == bufs[w][y, x]);
        }
      }
      if Shown(w) && !CellVisible(windows, w, px, py) {
        forall x, y | 0 <= y < Y_RES && 0 <= x < X_RES && InCell(sx, sy, x, y) && Visible(windows, w, x, y)
          ensures old(screen[y, x]) == Ink(ch, y - sy, x - sx)
        {
          assert screen[y, x] == bufs[w][y, x];
        }
      }
      if w == viewing {
        TopCellVisible(windows, order, w, px, py);
      }
    }

    /** The 8 by 16 pixels at (sx, sy) are white where the font's bit is set and black elsewhere. */
    ghost predicate CellIs(a: array2<Color>, ch: char, sx: int, sy: int)
      requires Sized(a) && 0 <= sx <= X_RES - 8 && 0 <= sy <= Y_RES - 16
      reads a
    {
      forall x, y {:trigger a[y, x]} :: sx <= x < sx + 8 && sy <= y < sy + 16 ==>
        a[y, x] == if font(ch, y - sy, x - sx) then Color(0xFF, 0xFF, 0xFF) else Color(0, 0, 0)
    }

    /** VGA_putc and VGA_kbdputc in a run. */
    method PutChar(w: int, ch: char, px: int, py: int)
      requires Valid() && 0 <= w < 3 && CellInside(px, py)
      modifies `frame, `events, bufs[w], screen
      ensures Valid() && events == old(events) + [Event.PutChar(w, px, py)]
      ensures CharPut(w, ch, px, py)
      ensures var sx, sy := windows[w].x + px, windows[w].y + py;
              && windows == old(windows)
              && (forall x, y {:trigger bufs[w][y, x]} :: 0 <= y < Y_RES && 0 <= x < X_RES ==>
                    bufs[w][y, x] == if !(sx <= x < sx + 8 && sy <= y < sy + 16) then old(bufs[w][y, x])
                                     else if font(ch, y - sy, x - sx) then Color(0xFF, 0xFF, 0xFF) else Color(0, 0, 0))
              && (CellVisible(windows, w, px, py) ==>
                    forall x, y {:trigger screen[y, x]} :: sx <= x < sx + 8 && sy <= y < sy + 16 ==>
                      screen[y, x] == if font(ch, y - sy, x - sx) then Color(0xFF, 0xFF, 0xFF) else Color(0, 0, 0))
      ensures forall v :: 0 <= v < 3 && v != w && old(Shown(v)) ==> Shown(v)
      ensures old(Shown(w)) ==> (Shown(w) <==> CellVisible(windows, w, px, py) || old(AlreadyThere(w, ch, px, py)))
    {
      hide Shown, Sharp, Visible, CellVisible, AlreadyThere, Arranged, WindowsIn, OrderAfter, IsRun;
      PutOver(w, ch, px, py);
      RunMore(events, Event.PutChar(w, px, py));
      PlacedAsIn(w, px, py);
      events := events + [Event.PutChar(w, px, py)];
    }

    /** A cell shows in the windows if it does in the order that they are in. */
    lemma PlacedAsIn(w: int, px: int, py: int)
      requires Placed() && Arranged(windows, order) && IsOrder(order) && 0 <= w < 3
      ensures CellVisible(windows, w, px, py) <==> CellVisible(WindowsIn(order), w, px, py)
    {
      OrderIsLayers(order);
      LayerOfOne(windows, order, 0);
      LayerOfOne(windows, order, 1);
      LayerOfOne(windows, order, 2);
      SameCells(windows, WindowsIn(order), w, px, py);
    }

    ghost predicate InColumns(w: int, x: int)
      requires 0 <= w < |windows|
      reads `windows
    {
      windows[w].x <= x < windows[w].x + WINDOW_WIDTH
    }

    /** The text of a window's copy moved up by one line of 16 pixels, the last line black. */
    twostate predicate Scrolled(w: int)
      requires Shaped() && 0 <= w < 3 && Placed()
      reads `windows, bufs[w]
    {
      forall x, y {:trigger bufs[w][y, x]} :: 0 <= y < Y_RES && 0 <= x < X_RES ==>
        bufs[w][y, x] ==
          if InColumns(w, x) && windows[w].y + TEXT_OFF_Y <= y < windows[w].y + WINDOW_HEIGHT - 16 then
            old(bufs[w][y + 16, x])
          else if InColumns(w, x) && windows[w].y + WINDOW_HEIGHT - 16 <= y < windows[w].y + WINDOW_HEIGHT then BLACK
          else old(bufs[w][y, x])
    }

    method MoveRow(w: int, y: int)
      requires Shaped() && Placed() && 0 <= w < 3 && Sized(frame) && 16 <= y < Y_RES
      modifies frame
      ensures forall x, j {:trigger frame[j, x]} :: 0 <= j < Y_RES && 0 <= x < X_RES ==>
                frame[j, x] == if j == y - 16 && InColumns(w, x) then old(frame[y, x]) else old(frame[j, x])
    {
      for scr_x := windows[w].x to windows[w].x + WINDOW_WIDTH
        invariant forall x, j {:trigger frame[j, x]} :: 0 <= j < Y_RES && 0 <= x < X_RES ==>
          frame[j, x] == if j == y - 16 && InColumns(w, x) && x < scr_x then old(frame[y, x]) else old(frame[j, x])
      {
        frame[y - 16, scr_x] := frame[y, scr_x];
      }
    }

    method ClearRow(w: int, y: int)
      requires Shaped() && Placed() && 0 <= w < 3 && Sized(frame) && 0 <= y < Y_RES
      modifies frame
      ensures forall x, j {:trigger frame[j, x]} :: 0 <= j < Y_RES && 0 <= x < X_RES ==>
                frame[j, x] == if j == y && InColumns(w, x) then BLACK else old(frame[j, x])
    {
      for scr_x := windows[w].x to windows[w].x + WINDOW_WIDTH
        invariant forall x, j {:trigger frame[j, x]} :: 0 <= j < Y_RES && 0 <= x < X_RES ==>
          frame[j, x] == if j == y && InColumns(w, x) && x < scr_x then BLACK else old(frame[j, x])
      {
        frame[y, scr_x] := BLACK;
      }
    }

    /** The first half of VGA_windowscrolluponeline, in place on the window's copy. */
    method ScrollBuffer(w: int)
      requires Shaped() && Placed() && 0 <= w < 3
      modifies `frame, bufs[w]
      ensures Scrolled(w)
    {
      frame := bufs[w];
      ghost var y0 := windows[w].y;
      for scr_y := windows[w].y + TEXT_OFF_Y + 16 to windows[w].y + WINDOW_HEIGHT
        invariant frame == bufs[w]
        invariant forall x, y {:trigger frame[y, x]} :: 0 <= y < Y_RES && 0 <= x < X_RES ==>
          frame[y, x] ==
            if InColumns(w, x) && y0 + TEXT_OFF_Y <= y < scr_y - 16 then old(bufs[w][y + 16, x])
            else old(bufs[w][y, x])
      {
        MoveRow(w, scr_y);
      }
      for scr_y := windows[w].y + WINDOW_HEIGHT - 16 to windows[w].y + WINDOW_HEIGHT
        invariant frame == bufs[w]
        invariant forall x, y {:trigger frame[y, x]} :: 0 <= y < Y_RES && 0 <= x < X_RES ==>
          frame[y, x] ==
            if InColumns(w, x) && y0 + TEXT_OFF_Y <= y < y0 + WINDOW_HEIGHT - 16 then old(bufs[w][y + 16, x])
            else if InColumns(w, x) && y0 + WINDOW_HEIGHT - 16 <= y < scr_y then BLACK
            else old(bufs[w][y, x])
      {
        ClearRow(w, scr_y);
      }
    }

    /** Which pixels of window `w` a copy to the screen takes: all, or those its rectangles leave clear. */
    predicate Copied(w: int, x: int, y: int, all: bool)
      requires 0 <= w < |windows|
      reads `windows
    {
      Contains(windows[w], x, y) && (all || Clear(windows[w], x - windows[w].x, y - windows[w].y))
    }

    method CopyRow(w: int, y: int, all: bool)
      requires Shaped() && Placed() && 0 <= w < 3 && frame == screen
      requires windows[w].y <= y < windows[w].y + WINDOW_HEIGHT
      modifies screen
      ensures forall x, j {:trigger screen[j, x]} :: 0 <= j < Y_RES && 0 <= x < X_RES ==>
                screen[j, x] == if j == y && Copied(w, x, y, all) then bufs[w][y, x] else old(screen[j, x])
    {
      for scr_x := windows[w].x to windows[w].x + WINDOW_WIDTH
        invariant forall x, j {:trigger screen[j, x]} :: 0 <= j < Y_RES && 0 <= x < X_RES ==>
          screen[j, x] == if j == y && x < scr_x && Copied(w, x, y, all) then bufs[w][y, x] else old(screen[j, x])
      {
        if all || Clear(windows[w], scr_x - windows[w].x, y - windows[w].y) {
          frame[y, scr_x] := bufs[w][y, scr_x];
        }
      }
    }

    /** The copying loops of switch_terminal, where `all` is set, and of VGA_windowscrolluponeline. */
    method CopyToScreen(w: int, all: bool)
      requires Shaped() && Placed() && 0 <= w < 3
      modifies `frame, screen
      ensures CopiedOver(w, all)
    {
      frame := screen;
      for scr_y := windows[w].y to windows[w].y + WINDOW_HEIGHT
        invariant frame == screen
        invariant forall x, y {:trigger screen[y, x]} :: 0 <= y < Y_RES && 0 <= x < X_RES ==>
          screen[y, x] == if y < scr_y && Copied(w, x, y, all) then bufs[w][y, x] else old(screen[y, x])
      {
        CopyRow(w, scr_y, all);
      }
    }

    twostate predicate CopiedOver(w: int, all: bool)
      requires Shaped() && 0 <= w < 3 && Placed()
      reads `windows, screen, bufs
    {
      forall x, y {:trigger screen[y, x]} :: 0 <= y < Y_RES && 0 <= x < X_RES ==>
        screen[y, x] == if Copied(w, x, y, all) then bufs[w][y, x] else old(screen[y, x])
    }

    /** Scrolling a window: its copy moves up by a line and, whatever the screen held before, the
        window then shows its copy; what the other windows show stays. */
    method ScrollOver(w: int)
      requires TopShown() && 0 <= w < 3
      modifies `frame, bufs[w], screen
      ensures TopShown() && Scrolled(w) && Shown(w)
      ensures forall v :: 0 <= v < 3 && v != w && old(Shown(v)) ==> Shown(v)
    {
      ScrollBuffer(w);
      CopyToScreen(w, false);
      forall v | 0 <= v < 3 && (v == w || old(Shown(v)))
        ensures Shown(v)
      {
        forall x, y | 0 <= y < Y_RES && 0 <= x < X_RES && Visible(windows, v, x, y)
          ensures screen[y, x] == bufs[v][y, x]
        {
          ShowsInOne(windows, order, w, v, x, y);
          if v != w { assert old(screen[y, x] == bufs[v][y, x]); }
        }
      }
    }

    /** VGA_windowscrolluponeline in a run. */
    method Scroll(w: int)
      requires Valid() && 0 <= w < 3
      modifies `frame, `events, bufs[w], screen
      ensures Valid() && events == old(events) + [Event.Scroll(w)]
      ensures Scrolled(w) && Shown(w)
      ensures var x0, y0 := windows[w].x, windows[w].y;
              && windows == old(windows)
              && (forall x, y {:trigger bufs[w][y, x]} :: x0 <= x < x0 + 600 && y0 + 22 <= y < y0 + 384 ==>
                    bufs[w][y, x] == old(bufs[w][y + 16, x]))
              && (forall x, y {:trigger bufs[w][y, x]} :: x0 <= x < x0 + 600 && y0 + 384 <= y < y0 + 400 ==>
                    bufs[w][y, x] == Color(0, 0, 0))
              && (forall x, y {:trigger bufs[w][y, x]} :: 0 <= x < X_RES && 0 <= y < y0 + 22 ==>
                    bufs[w][y, x] == old(bufs[w][y, x]))
      ensures forall v :: 0 <= v < 3 && v != w && old(Shown(v)) ==> Shown(v)
    {
      hide Shown, Sharp, Visible, Arranged, OrderAfter, IsRun;
      ScrollOver(w);
      RunMore(events, Event.Scroll(w));
      events := events + [Event.Scroll(w)];
    }

    // ----- the order of the windows

    /** get_top_window_id and get_middle_window_id. */
    method WindowIn(layer: int) returns (w: int)
      requires Layered(windows, order) && 0 <= layer < 3
      ensures w == order[layer]
    {
      LayerOfOne(windows, order, 0);
      LayerOfOne(windows, order, 1);
      LayerOfOne(windows, order, 2);
      for i := 0 to 3
        invariant forall j :: 0 <= j < i ==> windows[j].layer != layer
      {
        if windows[i].layer == layer {
          return i;
        }
      }
      assert false;
    }

    /** set_window_buf_boundary for a window taken to be in the given layer. */
    method Boundary(w: int, layer: int) returns (r: Rect)
      requires Layered(windows, order) && 0 <= w < 3 && 0 <= layer < 3
      ensures r == if layer == TOP then EMPTY
                   else if layer == MIDDLE then Overlap(windows[w], windows[order[0]])
                   else Overlap(windows[w], windows[order[1]])
    {
      if layer == TOP {
        return EMPTY;
      }
      var over := WindowIn(layer - 1);
      return Overlap(windows[w], windows[over]);
    }

    /** One window's two rectangles, for its layer and for the layer above. */
    method SetRects(w: int, layer: int)
      requires Layered(windows, order) && 0 <= w < 3 && windows[w].layer == layer
      modifies `windows
      ensures Layered(windows, order) && RectsOf(windows, order, w)
      ensures windows == old(windows)[w := old(windows[w]).(hid := windows[w].hid, hid2 := windows[w].hid2)]
    {
      LayerOfOne(windows, order, w);
      var r := Boundary(w, layer);
      windows := windows[w := windows[w].(hid := r)];
      var r2 := Boundary(w, if layer == BOTTOM then MIDDLE else TOP);
      windows := windows[w := windows[w].(hid2 := r2)];
    }

    /** The end of VGA_initWindows and of switch_terminal: the windows' layers, then rectangles. */
    method Arrange(one: int, two: int, three: int)
      requires |windows| == 3 && 0 <= one < 3 && 0 <= two < 3 && 0 <= three < 3
      requires one != two && one != three && two != three
      modifies `windows, `order
      ensures order == [one, two, three] && Arranged(windows, order) && SamePlaces(old(windows), windows)
    {
      windows := windows[one := windows[one].(layer := TOP)];
      windows := windows[two := windows[two].(layer := MIDDLE)];
      windows := windows[three := windows[three].(layer := BOTTOM)];
      order := [one, two, three];
      SetRects(one, TOP);
      SetRects(two, MIDDLE);
      SetRects(three, BOTTOM);
    }

    /** switch_terminal to the window being viewed copies it to the screen again. */
    method ShowAgain(t: int)
      requires TopShown() && t == viewing
      modifies `frame, screen
      ensures TopShown() && CopiedOver(t, true)
      ensures forall v :: 0 <= v < 3 && old(Shown(v)) ==> Shown(v)
    {
      LayerOfOne(windows, order, t);
      CopyToScreen(t, true);
      forall v | 0 <= v < 3 && (v == t || old(Shown(v)))
        ensures Shown(v)
      {
        forall x, y | 0 <= y < Y_RES && 0 <= x < X_RES && Visible(windows, v, x, y)
          ensures screen[y, x] == bufs[v][y, x]
        {
          ShowsInOne(windows, order, t, v, x, y);
          if v != t { assert old(screen[y, x] == bufs[v][y, x]); }
        }
      }
    }

    method Raise(t: int)
      requires Placed() && Arranged(windows, order) && order[0] == viewing && 0 <= t < 3 && t != viewing
      modifies `windows, `viewing, `order
      ensures Placed() && Arranged(windows, order) && order[0] == viewing == t
      ensures order == MoveToFront(old(order), t) && SamePlaces(old(windows), windows)
    {
      LayerOfOne(windows, order, 0);
      LayerOfOne(windows, order, 1);
      LayerOfOne(windows, order, 2);
      Arrange(t, viewing, 3 - t - viewing);
      viewing := t;
    }

    /** switch_terminal to another window. */
    method BringUp(t: int)
      requires TopShown() && 0 <= t < 3 && t != viewing
      modifies `frame, `windows, `viewing, `order, screen
      ensures TopShown() && viewing == t && order == MoveToFront(old(order), t) && SamePlaces(old(windows), windows)
      ensures CopiedOver(t, true)
      ensures forall v :: 0 <= v < 3 && old(Shown(v)) ==> Shown(v)
    {
      CopyToScreen(t, true);
      Raise(t);
      forall v | 0 <= v < 3 && (v == t || old(Shown(v)))
        ensures Shown(v)
      {
        forall x, y | 0 <= y < Y_RES && 0 <= x < X_RES && Visible(windows, v, x, y)
          ensures screen[y, x] == bufs[v][y, x]
        {
          if v != t {
            VisibleBefore(old(windows), old(order), windows, order, t, v, x, y);
            assert old(screen[y, x] == bufs[v][y, x]);
          }
        }
      }
    }

    /** switch_terminal: the window comes to the top and is copied whole to the screen, the others
        keep their order, and whatever window showed its copy goes on showing it. */
    method SwitchTerminal(t: int)
      requires Valid() && 0 <= t < 3
      modifies `frame, `windows, `viewing, `order, `events, screen
      ensures Valid() && events == old(events) + [Switch(t)]
      ensures viewing == t && order == MoveToFront(old(order), t)
      ensures CopiedOver(t, true)
      ensures forall x, y {:trigger screen[y, x]} :: 0 <= y < Y_RES && 0 <= x < X_RES ==>
                screen[y, x] == if Contains(windows[t], x, y) then bufs[t][y, x] else old(screen[y, x])
      ensures forall v :: 0 <= v < 3 && (v == t || old(Shown(v))) ==> Shown(v)
    {
      hide Shown, Sharp, Visible, Arranged, OrderAfter, IsRun;
      RunMore(events, Switch(t));
      if t == viewing {
        ShowAgain(t);
      } else {
        BringUp(t);
      }
      events := events + [Switch(t)];
    }

    // ----- from GUI_init on

    method DrawRect(x0: int, y0: int, w: int, h: int, c: Color)
      requires Sized(frame) && 0 <= x0 && 0 <= y0 && 0 <= w && 0 <= h && x0 + w <= X_RES && y0 + h <= Y_RES
      modifies frame
      ensures forall x, y {:trigger frame[y, x]} :: 0 <= y < Y_RES && 0 <= x < X_RES ==>
                frame[y, x] == if x0 <= x < x0 + w && y0 <= y < y0 + h then c else old(frame[y, x])
    {
      for i := 0 to h
        invariant forall x, y {:trigger frame[y, x]} :: 0 <= y < Y_RES && 0 <= x < X_RES ==>
          frame[y, x] == if x0 <= x < x0 + w && y0 <= y < y0 + i then c else old(frame[y, x])
      {
        for j := 0 to w
          invariant forall x, y {:trigger frame[y, x]} :: 0 <= y < Y_RES && 0 <= x < X_RES ==>
            frame[y, x] ==
              if x0 <= x < x0 + w && (y0 <= y < y0 + i || (y == y0 + i && x < x0 + j)) then c else old(frame[y, x])
        {
          frame[y0 + i, x0 + j] := c;
        }
      }
    }

    /** The pixels of a line of text. */
    function TextPixel(str: string, px: int, py: int): Color
      requires 0 <= px < 8 * |str|
    {
      Ink(str[px / CELL_WIDTH], py, px % CELL_WIDTH)
    }

    method PutSentence(str: string, x0: int, y0: int)
      requires Sized(frame) && 0 <= x0 && x0 + 8 * |str| <= X_RES && 0 <= y0 <= Y_RES - CELL_HEIGHT
      modifies frame
      ensures forall x, y {:trigger frame[y, x]} :: 0 <= y < Y_RES && 0 <= x < X_RES ==>
                frame[y, x] ==
                  if 0 <= x - x0 < 8 * |str| && y0 <= y < y0 + CELL_HEIGHT then TextPixel(str, x - x0, y - y0)
                  else old(frame[y, x])
    {
      var scrX := x0;
      for k := 0 to |str|
        invariant scrX == x0 + 8 * k
        invariant forall x, y {:trigger frame[y, x]} :: 0 <= y < Y_RES && 0 <= x < X_RES ==>
          frame[y, x] == if 0 <= x - x0 < 8 * k && y0 <= y < y0 + CELL_HEIGHT then TextPixel(str, x - x0, y - y0)
                         else old(frame[y, x])
      {
        PaintCell(str[k], scrX, y0);
        scrX := scrX + 8;
      }
    }

    /** An empty window: a white title bar with the terminal's name on black. */
    function BlankPixel(w: int, px: int, py: int): Color
      requires 0 <= w < 3
    {
      if 0 <= px - 80 < 8 * |TITLES[w]| && 2 <= py < 18 then TextPixel(TITLES[w], px - 80, py - 2)
      else if py < WINDOW_TITLE_HEIGHT then WHITE
      else BLACK
    }

    twostate predicate Drawn(a: array2<Color>, w: int)
      requires Sized(a) && 0 <= w < 3 && |windows| == 3
      reads `windows, a
    {
      forall x, y {:trigger a[y, x]} :: 0 <= y < Y_RES && 0 <= x < X_RES ==>
        a[y, x] ==
          if Contains(windows[w], x, y) then BlankPixel(w, x - windows[w].x, y - windows[w].y) else old(a[y, x])
    }

    method DrawWindow(w: int)
      requires Sized(frame) && Placed() && 0 <= w < 3
      modifies frame
      ensures Drawn(frame, w)
      ensures var x0, y0, title := windows[w].x, windows[w].y, TITLES[w];
              && (forall x, y {:trigger frame[y, x]} ::
                    x0 + 80 <= x < x0 + 80 + 8 * |title| && y0 + 2 <= y < y0 + 18 ==>
                    frame[y, x] == if font(title[(x - x0 - 80) / 8], y - y0 - 2, (x - x0 - 80) % 8)
                                   then Color(0xFF, 0xFF, 0xFF) else Color(0, 0, 0))
              && (forall x, y {:trigger frame[y, x]} :: x0 <= x < x0 + 80 && y0 <= y < y0 + 20 ==>
                    frame[y, x] == Color(0xFF, 0xFF, 0xFF))
              && (forall x, y {:trigger frame[y, x]} :: x0 <= x < x0 + 600 && y0 + 20 <= y < y0 + 400 ==>
                    frame[y, x] == Color(0, 0, 0))
    {
      DrawRect(windows[w].x, windows[w].y, WINDOW_WIDTH, WINDOW_HEIGHT, BLACK);
      DrawRect(windows[w].x, windows[w].y, WINDOW_WIDTH, WINDOW_TITLE_HEIGHT, WHITE);
      PutSentence(TITLES[w], windows[w].x + 80, windows[w].y + 2);
    }

    /** One window drawn on the screen and then in its own copy. */
    method DrawBoth(w: int)
      requires Shaped() && Placed() && 0 <= w < 3
      modifies `frame, screen, bufs[w]
      ensures Drawn(screen, w) && Drawn(bufs[w], w)
    {
      frame := screen;
      DrawWindow(w);
      frame := bufs[w];
      DrawWindow(w);
    }

    method InitWindows()
      modifies `windows, `order
      ensures Placed() && Arranged(windows, order) && order == [0, 1, 2]
    {
      windows := [Window(100, 100, TOP, EMPTY, EMPTY), Window(200, 200, MIDDLE, EMPTY, EMPTY),
                  Window(300, 300, BOTTOM, EMPTY, EMPTY)];
      Arrange(0, 1, 2);
    }

    /** The pixel of an empty window on the screen. */
    function BlankAt(w: int, x: int, y: int): Color
      requires 0 <= w < 3 && |windows| == 3
      reads `windows
    {
      BlankPixel(w, x - windows[w].x, y - windows[w].y)
    }

    /** The three windows drawn in turn, then the first copied to the screen again. */
    method DrawAll()
      requires Shaped() && Placed() && windows[0].layer == TOP
      modifies `frame, screen, bufs
      ensures forall w, x, y {:trigger bufs[w][y, x]} :: 0 <= w < 3 && 0 <= y < Y_RES && 0 <= x < X_RES ==>
                Contains(windows[w], x, y) ==> bufs[w][y, x] == BlankAt(w, x, y)
      ensures forall x, y {:trigger screen[y, x]} :: 0 <= y < Y_RES && 0 <= x < X_RES ==>
                screen[y, x] == if Contains(windows[0], x, y) then BlankAt(0, x, y)
                                else if Contains(windows[2], x, y) then BlankAt(2, x, y)
                                else if Contains(windows[1], x, y) then BlankAt(1, x, y)
                                else old(screen[y, x])
    {
      hide BlankPixel;
      DrawBoth(0);
      DrawBoth(1);
      DrawBoth(2);
      CopyToScreen(0, true);
    }

    /** GUI_init paints window 1 before window 2, which is below it, so afterwards window 1 does not
        show its copy where window 2 overlaps it, while windows 0 and 2 do. */
    method GuiInit()
      requires Shaped() && viewing == 0
      modifies this, screen, bufs
      ensures Valid() && events == [] && order == [0, 1, 2] && viewing == 0
      ensures Shown(0) && Shown(2) && !Shown(1)
    {
      InitWindows();
      events := [];
      LayerOfOne(windows, order, 0);
      LayerOfOne(windows, order, 1);
      LayerOfOne(windows, order, 2);
      DrawAll();
      forall x, y | 0 <= y < Y_RES && 0 <= x < X_RES && Visible(windows, 2, x, y)
        ensures screen[y, x] == bufs[2][y, x]
      {
        assert !Contains(windows[0], x, y);
      }
      assert screen[305, 750] == WHITE && bufs[1][305, 750] == BLACK;
      assert Visible(windows, 1, 750, 305);
    }
  }

  lemma PixelOfCell(ws: seq<Window>, w: int, px: int, py: int, x: int, y: int)
    requires 0 <= w < |ws| && CellVisible(ws, w, px, py) && InCell(ws[w].x + px, ws[w].y + py, x, y)
    ensures Visible(ws, w, x, y)
  {
    assert PixelShows(ws, w, px, py, y - ws[w].y - py, x - ws[w].x - px);
  }

  /** A pixel that shows in another window is in no cell that shows in this one. */
  lemma NotInCell(ws: seq<Window>, order: seq<int>, w: int, v: int, px: int, py: int, x: int, y: int)
    requires Layered(ws, order) && 0 <= w < 3 && 0 <= v < 3 && v != w && Visible(ws, v, x, y)
    ensures CellVisible(ws, w, px, py) ==> !InCell(ws[w].x + px, ws[w].y + py, x, y)
  {
    if CellVisible(ws, w, px, py) && InCell(ws[w].x + px, ws[w].y + py, x, y) {
      PixelOfCell(ws, w, px, py, x, y);
      OneVisible(ws, order, v, w, x, y);
    }
  }

  /** A pixel that shows in window `v` is among the clear ones of window `w` only if they are one. */
  lemma ShowsInOne(ws: seq<Window>, order: seq<int>, w: int, v: int, x: int, y: int)
    requires Arranged(ws, order) && 0 <= w < 3 && 0 <= v < 3 && Visible(ws, v, x, y)
    ensures Contains(ws[w], x, y) && Clear(ws[w], x - ws[w].x, y - ws[w].y) <==> v == w
  {
    if Contains(ws[w], x, y) {
      ClearIsVisible(ws, order, w, x - ws[w].x, y - ws[w].y);
      if Visible(ws, w, x, y) { OneVisible(ws, order, v, w, x, y); }
    }
  }

  ghost predicate SamePlaces(ws: seq<Window>, vs: seq<Window>) {
    && |ws| == |vs|
    && forall w {:trigger ws[w]} {:trigger vs[w]} :: 0 <= w < |ws| ==> (ws[w].x, ws[w].y) == (vs[w].x, vs[w].y)
  }

  /** What shows in another window after window `t` came to the top showed before and is not in `t`. */
  lemma VisibleBefore(ws: seq<Window>, order: seq<int>, ws2: seq<Window>, order2: seq<int>,
                      t: int, v: int, x: int, y: int)
    requires Layered(ws, order) && Layered(ws2, order2) && SamePlaces(ws, ws2)
    requires 0 <= t < 3 && 0 <= v < 3 && v != t && order2 == MoveToFront(order, t)
    requires Visible(ws2, v, x, y)
    ensures Visible(ws, v, x, y) && !Contains(ws[t], x, y)
  {
    LayerOfOne(ws, order, v);
    LayerOfOne(ws2, order2, v);
    LayerOfOne(ws2, order2, t);
    LayerOfOne(ws, order, t);
    assert Contains(ws2[t], x, y) == Contains(ws[t], x, y);
    forall h | 0 <= h < 3 && ws[h].layer < ws[v].layer
      ensures !Contains(ws[h], x, y)
    {
      LayerOfOne(ws, order, h);
      LayerOfOne(ws2, order2, h);
      assert Contains(ws2[h], x, y) == Contains(ws[h], x, y);
    }
  }
}
