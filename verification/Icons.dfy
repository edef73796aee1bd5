/**
  Drawing an icon: the pixels of a TGA image are taken in file order while one position walks over
  the frame buffer, forwards or backwards along a row and up or down from row to row as bits 4
  and 5 of the image descriptor say (Truevision TGA File Format Specification 2.0, Field 5.6).
 */
module Icons {

  const X_RES := 1024
  const Y_RES := 768

  datatype Color = Color(r: int, g: int, b: int)

  datatype Icon = Icon(width: int, height: int, leftToRight: bool, topToBottom: bool, pixels: seq<Color>)

  // The part of the screen an icon is drawn on.
  datatype Area = Area(x: int, y: int, w: int, h: int, leftToRight: bool, topToBottom: bool)

  ghost predicate IconOk(icon: Icon) {
    0 < icon.width && 0 < icon.height && |icon.pixels| == icon.width * icon.height
  }

  /** The directions that VGA_loadIcon takes from the image descriptor. */
  function Directed(icon: Icon, descriptor: bv8): Icon {
    icon.(leftToRight := (descriptor >> 4) & 1 != 1, topToBottom := (descriptor >> 5) & 1 == 1)
  }

  lemma IndexOk(icon: Icon, i: int, j: int)
    requires IconOk(icon) && 0 <= i < icon.width && 0 <= j < icon.height
    ensures 0 <= j * icon.width + i < |icon.pixels|
  {
    assert j * icon.width <= (icon.height - 1) * icon.width;
  }

  function PixelAt(icon: Icon, i: int, j: int): Color
    requires IconOk(icon) && 0 <= i < icon.width && 0 <= j < icon.height
  {
    IndexOk(icon, i, j);
    icon.pixels[j * icon.width + i]
  }

  /** The icon's place at (x, y), cut at the right and lower edges of the screen. */
  function AreaOf(icon: Icon, x: int, y: int): Area {
    Area(x, y,
         if x + icon.width >= X_RES then X_RES - x else icon.width,
         if y + icon.height >= Y_RES then Y_RES - y else icon.height,
         icon.leftToRight, icon.topToBottom)
  }

  ghost predicate OnScreen(a: Area) {
    0 <= a.x && 0 <= a.y && a.x + a.w <= X_RES && a.y + a.h <= Y_RES
  }

  /** The screen column and row of source pixel (i, j). */
  function Column(a: Area, i: int): int {
    if a.leftToRight then a.x + i else a.x + a.w - 1 - i
  }

  function Row(a: Area, j: int): int {
    if a.topToBottom then a.y + j else a.y + a.h - 1 - j
  }

  function Position(a: Area, i: int, j: int): int {
    Row(a, j) * X_RES + Column(a, i)
  }

  predicate InArea(a: Area, p: int) {
    a.x <= p % X_RES < a.x + a.w && a.y <= p / X_RES < a.y + a.h
  }

  /** The source pixel that belongs at a position: the walk's inverse. */
  function SourceOf(a: Area, p: int): (int, int) {
    (if a.leftToRight then p % X_RES - a.x else a.x + a.w - 1 - p % X_RES,
     if a.topToBottom then p / X_RES - a.y else a.y + a.h - 1 - p / X_RES)
  }

  /** Each source pixel of the area has one position in it, inside the frame buffer. */
  lemma PositionIsInArea(a: Area, i: int, j: int)
    requires OnScreen(a) && 0 <= i < a.w && 0 <= j < a.h
    ensures InArea(a, Position(a, i, j)) && 0 <= Position(a, i, j) < X_RES * Y_RES
    ensures SourceOf(a, Position(a, i, j)) == (i, j)
  {
  }

  /** And each position of the area is that of one source pixel. */
  lemma SourceIsInIcon(a: Area, p: int)
    requires OnScreen(a) && 0 <= p < X_RES * Y_RES && InArea(a, p)
    ensures var (i, j) := SourceOf(a, p);
            0 <= i < a.w && 0 <= j < a.h && Position(a, i, j) == p
  {
  }

  /** _get_frame_start. */
  function FrameStart(a: Area): int {
    if a.leftToRight then
      if a.topToBottom then a.y * X_RES + a.x else (a.y + a.h - 1) * X_RES + a.x
    else
      if a.topToBottom then a.y * X_RES + (a.x + a.w - 1) else (a.y + a.h - 1) * X_RES + (a.x + a.w - 1)
  }

  /** _update_frame_pos, from one past the end of a row. */
  function NextRow(a: Area, pos: int): int {
    if a.leftToRight then
      if a.topToBottom then pos + X_RES - a.w else pos - X_RES - a.w
    else
      if a.topToBottom then pos + X_RES + a.w else pos - X_RES + a.w
  }

  /** The running position is always that of the next source pixel. */
  lemma WalkIsPosition(a: Area, i: int, j: int)
    ensures FrameStart(a) == Position(a, 0, 0)
    ensures Position(a, i + 1, j) == Position(a, i, j) + if a.leftToRight then 1 else -1
    ensures NextRow(a, Position(a, a.w, j)) == Position(a, 0, j + 1)
  {
  }

  /** What a position of the frame buffer holds once the source pixels before (i, j) are drawn. */
  ghost function Drawn(icon: Icon, a: Area, was: seq<Color>, i: int, j: int, p: int): Color
    requires IconOk(icon) && OnScreen(a) && a.w <= icon.width && a.h <= icon.height
    requires |was| == X_RES * Y_RES && 0 <= p < |was|
  {
    var (si, sj) := SourceOf(a, p);
    if InArea(a, p) && (sj < j || (sj == j && si < i)) then PixelAt(icon, si, sj) else was[p]
  }

  /** `now` is `was` with the icon drawn at (x, y): the area holds it and nothing else has changed. */
  ghost predicate HoldsIcon(icon: Icon, x: int, y: int, was: seq<Color>, now: seq<Color>)
    requires IconOk(icon) && 0 <= x && 0 <= y && |was| == |now| == X_RES * Y_RES
  {
    var a := AreaOf(icon, x, y);
    forall p :: 0 <= p < |now| ==>
      now[p] == if InArea(a, p) then PixelAt(icon, SourceOf(a, p).0, SourceOf(a, p).1) else was[p]
  }

  /** Where the descriptor puts a pixel that is not cut off: column i of the file counts from the
      left where bit 4 is clear and from the right where it is set, row j from the top where bit 5
      is set and from the bottom where it is clear. */
  lemma DescriptorPlaces(icon: Icon, descriptor: bv8, x: int, y: int, was: seq<Color>, now: seq<Color>, i: int, j: int)
    requires IconOk(icon) && 0 <= x && 0 <= y && |was| == |now| == X_RES * Y_RES
    requires HoldsIcon(Directed(icon, descriptor), x, y, was, now)
    requires 0 <= i < icon.width && x + i < X_RES && 0 <= j < icon.height && y + j < Y_RES
    ensures var right := if x + icon.width <= X_RES then x + icon.width - 1 else X_RES - 1;
            var bottom := if y + icon.height <= Y_RES then y + icon.height - 1 else Y_RES - 1;
            var column := if descriptor & 0x10 == 0 then x + i else right - i;
            var row := if descriptor & 0x20 != 0 then y + j else bottom - j;
            && 0 <= row * X_RES + column < X_RES * Y_RES
            && 0 <= j * icon.width + i < |icon.pixels|
            && now[row * X_RES + column] == icon.pixels[j * icon.width + i]
  {
    var a := AreaOf(Directed(icon, descriptor), x, y);
    DescriptorBits(descriptor);
    IndexOk(icon, i, j);
    PositionIsInArea(a, i, j);
    assert now[Position(a, i, j)] == PixelAt(Directed(icon, descriptor), i, j);
  }

  lemma DescriptorBits(d: bv8)
    ensures (d >> 4) & 1 == 1 <==> d & 0x10 != 0
    ensures (d >> 5) & 1 == 1 <==> d & 0x20 != 0
  {
  }

  /** VGA_drawIcon, for all four directions and any clipping. */
  method DrawIcon(frame: array<Color>, icon: Icon, scrX: int, scrY: int)
    requires frame.Length == X_RES * Y_RES && IconOk(icon) && 0 <= scrX && 0 <= scrY
    modifies frame
    ensures HoldsIcon(icon, scrX, scrY, old(frame[..]), frame[..])
  {
    var a := AreaOf(icon, scrX, scrY);
    var framePos := FrameStart(a);
    ghost var was := frame[..];
    WalkIsPosition(a, 0, 0);
    for iconJ := 0 to (if a.h < 0 then 0 else a.h)
      invariant a.w >= 0 ==> framePos == Position(a, 0, iconJ)
      invariant forall p :: 0 <= p < frame.Length ==> frame[p] == Drawn(icon, a, was, 0, iconJ, p)
    {
      for iconI := 0 to (if a.w < 0 then 0 else a.w)
        invariant a.w >= 0 ==> framePos == Position(a, iconI, iconJ)
        invariant forall p :: 0 <= p < frame.Length ==> frame[p] == Drawn(icon, a, was, iconI, iconJ, p)
      {
        PositionIsInArea(a, iconI, iconJ);
        frame[framePos] := PixelAt(icon, iconI, iconJ);
        WalkIsPosition(a, iconI, iconJ);
        framePos := if icon.leftToRight then framePos + 1 else framePos - 1;
      }
      WalkIsPosition(a, 0, iconJ);
      framePos := NextRow(a, framePos);
    }
  }
}
