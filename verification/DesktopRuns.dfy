/**
  Runs of the desktop: any characters put, windows scrolled and terminals switched to.  What the
  order of the windows and the windows that show their copies come to depends on these alone.
 */
module DesktopRuns {
  import opened Windows

  datatype Event = PutChar(w: int, px: int, py: int) | Scroll(w: int) | Switch(t: int)

  /** The window brought to the top goes before the others, which keep their order. */
  function MoveToFront(order: seq<int>, t: int): seq<int>
    requires |order| == 3
  {
    if t == order[0] then order
    else if t == order[1] then [t, order[0], order[2]]
    else [t, order[0], order[1]]
  }

  ghost predicate EventOk(e: Event) {
    match e
    case PutChar(w, px, py) => 0 <= w < 3 && CellInside(px, py)
    case Scroll(w) => 0 <= w < 3
    case Switch(t) => 0 <= t < 3
  }

  ghost predicate IsRun(events: seq<Event>) {
    forall i {:trigger events[i]} :: 0 <= i < |events| ==> EventOk(events[i])
  }

  ghost predicate IsOrder(order: seq<int>) {
    && |order| == 3 && (forall k {:trigger order[k]} :: 0 <= k < 3 ==> 0 <= order[k] < 3)
    && order[0] != order[1] && order[0] != order[2] && order[1] != order[2]
  }

  /** The windows from the top down after a run, from the order of GUI_init on. */
  ghost function OrderAfter(events: seq<Event>): (order: seq<int>)
    requires IsRun(events)
    ensures IsOrder(order)
  {
    if events == [] then [0, 1, 2]
    else
      var before := OrderAfter(events[..|events| - 1]);
      var e := events[|events| - 1];
      assert EventOk(e);
      if e.Switch? then MoveToFront(before, e.t) else before
  }

  /** When window `w` was last switched to; before the first time, its place in GUI_init's order. */
  ghost function LastSwitch(events: seq<Event>, w: nat): (i: int)
    ensures -1 - w <= i < |events|
  {
    if events == [] then -1 - w
    else if events[|events| - 1] == Switch(w) then |events| - 1
    else LastSwitch(events[..|events| - 1], w)
  }

  /** After any run the windows lie in the order in which they were last switched to. */
  lemma {:induction false} RecentFirst(events: seq<Event>, k: int, l: int)
    requires IsRun(events) && 0 <= k < l < 3
    ensures LastSwitch(events, OrderAfter(events)[k]) > LastSwitch(events, OrderAfter(events)[l])
  {
    hide MoveToFront;
    if events != [] {
      var before, e := events[..|events| - 1], events[|events| - 1];
      RecentFirst(before, 0, 1);
      RecentFirst(before, 1, 2);
      assert EventOk(e);
      if e.Switch? {
        var last := seq(3, w requires 0 <= w < 3 => LastSwitch(before, w));
        FrontIsLatest(OrderAfter(before), last, e.t, |before|, k, l);
      }
    }
  }

  lemma FrontIsLatest(order: seq<int>, last: seq<int>, t: int, now: int, k: int, l: int)
    requires IsOrder(order) && |last| == 3 && 0 <= t < 3 && 0 <= k < l < 3
    requires now > last[order[0]] > last[order[1]] > last[order[2]]
    ensures IsOrder(MoveToFront(order, t))
    ensures last[t := now][MoveToFront(order, t)[k]] > last[t := now][MoveToFront(order, t)[l]]
  {
  }

  function LayerIn(order: seq<int>, w: int): int
    requires |order| == 3
  {
    if w == order[0] then TOP else if w == order[1] then MIDDLE else BOTTOM
  }

  /** The windows where they lie, in the layers of the order. */
  function WindowsIn(order: seq<int>): seq<Window>
    requires |order| == 3
  {
    [Window(100, 100, LayerIn(order, 0), EMPTY, EMPTY), Window(200, 200, LayerIn(order, 1), EMPTY, EMPTY),
     Window(300, 300, LayerIn(order, 2), EMPTY, EMPTY)]
  }

  /** Whether window `w` shows its copy after an event, if it did or not before. */
  ghost predicate SharpThen(order: seq<int>, e: Event, w: int, was: bool)
    requires |order| == 3 && 0 <= w < 3
  {
    match e
    case PutChar(v, px, py) => was && (v == w ==> CellVisible(WindowsIn(order), w, px, py))
    case Scroll(v) => v == w || was
    case Switch(t) => t == w || was
  }

  /** Since window `w` was last switched to or scrolled, every character put in it was wholly visible.
      GUI_init leaves windows 0 and 2 so. */
  ghost predicate Sharp(events: seq<Event>, w: int)
    requires IsRun(events) && 0 <= w < 3
  {
    if events == [] then w != 1
    else
      var before := events[..|events| - 1];
      SharpThen(OrderAfter(before), events[|events| - 1], w, Sharp(before, w))
  }

  lemma OrderIsLayers(order: seq<int>)
    requires IsOrder(order)
    ensures Layered(WindowsIn(order), order)
  {
  }

  /** After any run the top window is among them, whatever was put in it. */
  lemma {:induction false} TopIsSharp(events: seq<Event>)
    requires IsRun(events)
    ensures Sharp(events, OrderAfter(events)[0])
  {
    if events != [] {
      var before, e := events[..|events| - 1], events[|events| - 1];
      TopIsSharp(before);
      assert EventOk(e);
      if e.PutChar? && e.w == OrderAfter(before)[0] {
        OrderIsLayers(OrderAfter(before));
        TopCellVisible(WindowsIn(OrderAfter(before)), OrderAfter(before), e.w, e.px, e.py);
      }
    }
  }

  lemma TopCellVisible(ws: seq<Window>, order: seq<int>, w: int, px: int, py: int)
    requires Layered(ws, order) && order[0] == w && CellInside(px, py)
    ensures CellVisible(ws, w, px, py)
  {
    LayerOfOne(ws, order, w);
    forall i, j | 0 <= i < CELL_HEIGHT && 0 <= j < CELL_WIDTH
      ensures PixelShows(ws, w, px, py, i, j)
    {
      forall h | 0 <= h < 3
        ensures ws[h].layer >= ws[w].layer
      {
        LayerOfOne(ws, order, h);
      }
    }
  }

  /** Windows in the same places and layers show the same cells. */
  lemma SameCells(ws: seq<Window>, vs: seq<Window>, w: int, px: int, py: int)
    requires |ws| == |vs| && 0 <= w < |ws|
    requires forall v {:trigger ws[v]} {:trigger vs[v]} :: 0 <= v < |ws| ==>
               ws[v].x == vs[v].x && ws[v].y == vs[v].y && ws[v].layer == vs[v].layer
    ensures CellVisible(ws, w, px, py) <==> CellVisible(vs, w, px, py)
  {
    forall x, y
      ensures Visible(ws, w, x, y) <==> Visible(vs, w, x, y)
    {
      assert forall v {:trigger Contains(ws[v], x, y)} {:trigger Contains(vs[v], x, y)} :: 0 <= v < |ws| ==>
          Contains(ws[v], x, y) == Contains(vs[v], x, y);
    }
    forall i, j | 0 <= i < CELL_HEIGHT && 0 <= j < CELL_WIDTH
      ensures PixelShows(ws, w, px, py, i, j) <==> PixelShows(vs, w, px, py, i, j)
    {
    }
  }

  /** One more event. */
  lemma RunMore(events: seq<Event>, e: Event)
    requires IsRun(events) && EventOk(e)
    ensures var more := events + [e];
            && IsRun(more)
            && OrderAfter(more) == (if e.Switch? then MoveToFront(OrderAfter(events), e.t) else OrderAfter(events))
            && forall w :: 0 <= w < 3 ==>
                 (Sharp(more, w) <==> SharpThen(OrderAfter(events), e, w, Sharp(events, w)))
  {
    var more := events + [e];
    assert more[..|more| - 1] == events && more[|more| - 1] == e;
  }
}
