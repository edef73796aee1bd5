/**
  Three overlapping windows of one size.  Each keeps the rectangles in which the windows above it
  cover it, so that drawing need not look at the other windows; here the rectangles and the tests
  on them are compared with the plain question of which windows contain a pixel.
 */
module Windows {

  const X_RES := 1024
  const Y_RES := 768
  const WINDOW_WIDTH := 600
  const WINDOW_HEIGHT := 400
  const CELL_WIDTH := 8
  const CELL_HEIGHT := 16
  const TOP := 0
  const MIDDLE := 1
  const BOTTOM := 2

  // The pixels with x0 <= x < x1 and y0 <= y < y1, relative to a window.
  datatype Rect = Rect(x0: int, x1: int, y0: int, y1: int)

  const EMPTY := Rect(-1, -1, -1, -1)

  datatype Window = Window(x: int, y: int, layer: int, hid: Rect, hid2: Rect)

  predicate InRect(r: Rect, px: int, py: int) {
    r.x0 <= px < r.x1 && r.y0 <= py < r.y1
  }

  predicate Inside(px: int, py: int) {
    0 <= px < WINDOW_WIDTH && 0 <= py < WINDOW_HEIGHT
  }

  /** Whether window `w` contains the screen pixel. */
  predicate Contains(w: Window, x: int, y: int) {
    Inside(x - w.x, y - w.y)
  }

  /** set_window_buf_boundary: where `over` covers `own`. */
  function Overlap(own: Window, over: Window): Rect {
    if over.x + WINDOW_WIDTH <= own.x || over.x >= own.x + WINDOW_WIDTH
       || over.y + WINDOW_HEIGHT <= own.y || over.y >= own.y + WINDOW_HEIGHT then EMPTY
    else
      Rect(
        if over.x - own.x < 0 then 0 else over.x - own.x,
        if over.x - own.x + WINDOW_WIDTH > WINDOW_WIDTH then WINDOW_WIDTH else over.x - own.x + WINDOW_WIDTH,
        if over.y - own.y < 0 then 0 else over.y - own.y,
        if over.y - own.y + WINDOW_HEIGHT > WINDOW_HEIGHT then WINDOW_HEIGHT else over.y - own.y + WINDOW_HEIGHT)
  }

  lemma OverlapIsCover(own: Window, over: Window, px: int, py: int)
    requires Inside(px, py)
    ensures InRect(Overlap(own, over), px, py) <==> Contains(over, own.x + px, own.y + py)
  {
  }

  // ----- layers

  /** The three layers are a permutation: `order` lists the windows from the top down. */
  ghost predicate Layered(ws: seq<Window>, order: seq<int>) {
    && |ws| == 3 && |order| == 3
    && (forall k {:trigger order[k]} :: 0 <= k < 3 ==> 0 <= order[k] < 3 && ws[order[k]].layer == k)
  }

  /** Each layer is one window's, so a window is found by its layer. */
  lemma LayerOfOne(ws: seq<Window>, order: seq<int>, w: int)
    requires Layered(ws, order) && 0 <= w < 3
    ensures 0 <= ws[w].layer < 3 && order[ws[w].layer] == w
  {
    assert ws[order[0]].layer == 0 && ws[order[1]].layer == 1 && ws[order[2]].layer == 2;
  }

  /** The rectangles of window `w` in its layer, from the windows that are above it. */
  ghost predicate RectsOf(ws: seq<Window>, order: seq<int>, w: int)
    requires Layered(ws, order) && 0 <= w < 3
  {
    var top, middle := ws[order[0]], ws[order[1]];
    if ws[w].layer == TOP then ws[w].hid == EMPTY && ws[w].hid2 == EMPTY
    else if ws[w].layer == MIDDLE then ws[w].hid == Overlap(ws[w], top) && ws[w].hid2 == EMPTY
    else ws[w].hid == Overlap(ws[w], middle) && ws[w].hid2 == Overlap(ws[w], top)
  }

  ghost predicate Arranged(ws: seq<Window>, order: seq<int>) {
    Layered(ws, order) && forall w {:trigger RectsOf(ws, order, w)} :: 0 <= w < 3 ==> RectsOf(ws, order, w)
  }

  /** The plain question: no window of a higher layer contains the pixel. */
  ghost predicate Visible(ws: seq<Window>, w: int, x: int, y: int)
    requires 0 <= w < |ws|
  {
    && Contains(ws[w], x, y)
    && forall h {:trigger Contains(ws[h], x, y)} :: 0 <= h < |ws| && ws[h].layer < ws[w].layer ==>
         !Contains(ws[h], x, y)
  }

  /** check_pixel_in_middle_window and check_pixel_in_bottom_window; all of a TOP window shows. */
  predicate Clear(w: Window, px: int, py: int) {
    match w.layer
    case 0 => true
    case 1 => !InRect(w.hid, px, py)
    case _ => !InRect(w.hid, px, py) && !InRect(w.hid2, px, py)
  }

  /** The rectangle test on a pixel of a window agrees with the order of the windows. */
  lemma ClearIsVisible(ws: seq<Window>, order: seq<int>, w: int, px: int, py: int)
    requires Arranged(ws, order) && 0 <= w < 3 && Inside(px, py)
    ensures Clear(ws[w], px, py) <==> Visible(ws, w, ws[w].x + px, ws[w].y + py)
  {
    assert RectsOf(ws, order, w);
    LayerOfOne(ws, order, 0);
    LayerOfOne(ws, order, 1);
    LayerOfOne(ws, order, 2);
    OverlapIsCover(ws[w], ws[order[0]], px, py);
    OverlapIsCover(ws[w], ws[order[1]], px, py);
  }

  /** No pixel shows in two windows. */
  lemma OneVisible(ws: seq<Window>, order: seq<int>, w: int, v: int, x: int, y: int)
    requires Layered(ws, order) && 0 <= w < 3 && 0 <= v < 3
    requires Visible(ws, w, x, y) && Visible(ws, v, x, y)
    ensures w == v
  {
    LayerOfOne(ws, order, w);
    LayerOfOne(ws, order, v);
  }

  // ----- the test on a character cell

  ghost predicate CellInside(px: int, py: int) {
    0 <= px <= WINDOW_WIDTH - CELL_WIDTH && 0 <= py <= WINDOW_HEIGHT - CELL_HEIGHT
  }

  ghost predicate PixelOut(r: Rect, px: int, py: int, i: int, j: int) {
    !InRect(r, px + j, py + i)
  }

  /** Every pixel of the cell at (px, py) is out of the rectangle. */
  ghost predicate CellOut(r: Rect, px: int, py: int) {
    forall i, j :: 0 <= i < CELL_HEIGHT && 0 <= j < CELL_WIDTH ==> PixelOut(r, px, py, i, j)
  }

  predicate CornersOut(r: Rect, px: int, py: int) {
    !InRect(r, px, py) && !InRect(r, px + CELL_WIDTH - 1, py + CELL_HEIGHT - 1)
  }

  /** One window is above and to the left of the other, or the other of it. */
  predicate Alike(v: Window, w: Window) {
    (v.x <= w.x && v.y <= w.y) || (w.x <= v.x && w.y <= v.y)
  }

  lemma CornersSuffice(own: Window, over: Window, px: int, py: int)
    requires CellInside(px, py) && (Alike(own, over) || Overlap(own, over) == EMPTY)
    ensures CornersOut(Overlap(own, over), px, py) <==> CellOut(Overlap(own, over), px, py)
  {
    var r := Overlap(own, over);
    if CellOut(r, px, py) {
      assert PixelOut(r, px, py, 0, 0) && PixelOut(r, px, py, 15, 7);
    }
  }

  /** The two corners of every cell tell whether the cell shows exactly when the windows do not
      overlap or are ordered alike in x and in y. */
  lemma CornersExactly(own: Window, over: Window)
    ensures (forall px, py {:trigger CellInside(px, py)} :: CellInside(px, py) ==>
               (CornersOut(Overlap(own, over), px, py) <==> CellOut(Overlap(own, over), px, py)))
            <==> (Alike(own, over) || Overlap(own, over) == EMPTY)
  {
    var r := Overlap(own, over);
    if Alike(own, over) || r == EMPTY {
      forall px, py | CellInside(px, py)
        ensures CornersOut(r, px, py) <==> CellOut(r, px, py)
      {
        CornersSuffice(own, over, px, py);
      }
    } else if over.x < own.x {
      // `over` covers the lower left: take the cell whose lower left pixel is the corner of the cover.
      var px := if r.x1 - 1 > WINDOW_WIDTH - CELL_WIDTH then WINDOW_WIDTH - CELL_WIDTH else r.x1 - 1;
      var py := if r.y0 - 15 < 0 then 0 else r.y0 - 15;
      assert CellInside(px, py) && CornersOut(r, px, py) && !PixelOut(r, px, py, 15, 0);
    } else {
      // `over` covers the upper right.
      var px := if r.x0 - 7 < 0 then 0 else r.x0 - 7;
      var py := if r.y1 - 1 > WINDOW_HEIGHT - CELL_HEIGHT then WINDOW_HEIGHT - CELL_HEIGHT else r.y1 - 1;
      assert CellInside(px, py) && CornersOut(r, px, py) && !PixelOut(r, px, py, 0, 7);
    }
  }

  ghost predicate AllAlike(ws: seq<Window>) {
    forall v, w {:trigger ws[v], ws[w]} :: 0 <= v < |ws| && 0 <= w < |ws| ==> Alike(ws[v], ws[w])
  }

  ghost predicate PixelShows(ws: seq<Window>, w: int, px: int, py: int, i: int, j: int)
    requires 0 <= w < |ws|
  {
    Visible(ws, w, ws[w].x + px + j, ws[w].y + py + i)
  }

  ghost predicate CellVisible(ws: seq<Window>, w: int, px: int, py: int)
    requires 0 <= w < |ws|
  {
    forall i, j :: 0 <= i < CELL_HEIGHT && 0 <= j < CELL_WIDTH ==> PixelShows(ws, w, px, py, i, j)
  }

  /** For windows ordered alike, the test that decides whether to draw a cell on the screen is
      whether all of its 8 by 16 pixels show. */
  lemma CellTestIsVisible(ws: seq<Window>, order: seq<int>, w: int, px: int, py: int)
    requires Arranged(ws, order) && AllAlike(ws) && 0 <= w < 3 && CellInside(px, py)
    ensures (Clear(ws[w], px, py) && Clear(ws[w], px + 7, py + 15)) <==> CellVisible(ws, w, px, py)
  {
    if CellVisible(ws, w, px, py) {
      assert PixelShows(ws, w, px, py, 0, 0) && PixelShows(ws, w, px, py, 15, 7);
      ClearIsVisible(ws, order, w, px, py);
      ClearIsVisible(ws, order, w, px + 7, py + 15);
    } else if Clear(ws[w], px, py) && Clear(ws[w], px + 7, py + 15) {
      var i, j :| 0 <= i < CELL_HEIGHT && 0 <= j < CELL_WIDTH && !PixelShows(ws, w, px, py, i, j);
      ClearIsVisible(ws, order, w, px + j, py + i);
      CornersClear(ws, order, w, px, py, i, j);
      assert false;
    }
  }

  lemma CornersClear(ws: seq<Window>, order: seq<int>, w: int, px: int, py: int, i: int, j: int)
    requires Arranged(ws, order) && AllAlike(ws) && 0 <= w < 3 && CellInside(px, py)
    requires Clear(ws[w], px, py) && Clear(ws[w], px + 7, py + 15) && 0 <= i < CELL_HEIGHT && 0 <= j < CELL_WIDTH
    ensures Clear(ws[w], px + j, py + i)
  {
    assert RectsOf(ws, order, w);
    LayerOfOne(ws, order, w);
    var top, middle := ws[order[0]], ws[order[1]];
    CornersSuffice(ws[w], top, px, py);
    CornersSuffice(ws[w], middle, px, py);
    assert PixelOut(Overlap(ws[w], top), px, py, i, j) == !InRect(Overlap(ws[w], top), px + j, py + i);
    assert PixelOut(Overlap(ws[w], middle), px, py, i, j) == !InRect(Overlap(ws[w], middle), px + j, py + i);
  }
}
