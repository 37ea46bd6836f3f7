/**
 * kernel/graphics/console.cpp: a console that keeps characters and redraws them, and one that keeps
 * nothing and scrolls pixels. Both show the last 25 rows of the wrapped text.
 */
module Consoles {
  import opened Options
  import opened Geometry
  import opened Composition
  import opened FrameBuffers
  import opened ColourKeys
  import opened Layers
  import opened Painters
  import opened ConsoleText

  const WIDTH := 8 * COLUMNS
  const HEIGHT := 16 * ROWS

  /** What does not change about a console. */
  datatype Style = Style(font: Font, fg: Color, bg: Color) {
    function LookIn(format: PixelFormat): Look { Look(font, Encode(format, fg), Encode(format, bg)) }
  }

  ghost predicate Fits(fb: FrameBuffer) { fb.Valid() && fb.width >= WIDTH && fb.height >= HEIGHT }

  /** The console's part of a buffer shows the rows. */
  ghost predicate Displays(fb: FrameBuffer, style: Style, rows: Rows)
    reads fb.bytes
  {
    Fits(fb) && forall x, y :: 0 <= x < WIDTH && 0 <= y < HEIGHT ==>
      fb.CellAt(x, y) == PixelAt(style.LookIn(fb.format), rows, x, y)
  }

  /** A cell's character as stored: NUL for none. */
  function Stored(c: Option<char>): char { if c.Some? then c.value else '\0' }

  /** draw_char_at. */
  method DrawCharAt(fb: FrameBuffer, style: Style, col: int, row: int, c: char)
    requires Fits(fb) && 0 <= col < COLUMNS && 0 <= row < ROWS
    modifies fb.bytes
    ensures forall x, y :: 0 <= x < fb.stride && 0 <= y < fb.height ==>
      fb.CellAt(x, y) ==
        if c != '\0' && Inked(style.font(c), x - 8 * col, y - 16 * row) then Encode(fb.format, style.fg)
        else old(fb.CellAt(x, y))
  {
    if c == '\0' { return; }
    WriteAscii(fb, col * 8, row * 16, style.font(c), style.fg);
  }

  /** The grid holds the characters on show. */
  ghost predicate Holds(grid: array2<char>, rows: Rows)
    reads grid
  {
    && grid.Length0 == ROWS && grid.Length1 == COLUMNS
    && forall r, c :: 0 <= r < ROWS && 0 <= c < COLUMNS ==> grid[r, c] == Stored(CharAt(rows, r, c))
  }

  /** Cell (row, col) comes before cell (r, c) in reading order. */
  predicate Before(row: int, col: int, r: int, c: int) { row < r || (row == r && col < c) }

  ghost predicate DrawnUpTo(fb: FrameBuffer, style: Style, rows: Rows, r: int, c: int)
    requires Fits(fb)
    reads fb.bytes
  {
    forall x, y :: 0 <= x < WIDTH && 0 <= y < HEIGHT ==>
      fb.CellAt(x, y) == if Before(y / 16, x / 8, r, c) then PixelAt(style.LookIn(fb.format), rows, x, y)
        else Encode(fb.format, style.bg)
  }

  /** One more character of a redraw. */
  lemma OneMore(style: Style, format: PixelFormat, rows: Rows, r: int, c: int, x: int, y: int, was: Pixel, now: Pixel)
    requires Proper(rows)
    requires var ch := Stored(CharAt(rows, r, c));
      now == if ch != '\0' && Inked(style.font(ch), x - 8 * c, y - 16 * r) then Encode(format, style.fg) else was
    requires was == if Before(y / 16, x / 8, r, c) then PixelAt(style.LookIn(format), rows, x, y)
      else Encode(format, style.bg)
    ensures now == if Before(y / 16, x / 8, r, c + 1) then PixelAt(style.LookIn(format), rows, x, y)
      else Encode(format, style.bg)
  {
    hide Inked, Encode;
    var ch := Stored(CharAt(rows, r, c));
    GlyphInCell(style.font(ch), c, r, x, y);
    if CharAt(rows, r, c).Some? { assert ch in rows[First(rows) + r]; }
  }

  /** redraw: clear, then draw every character. */
  method Redraw(fb: FrameBuffer, style: Style, grid: array2<char>, ghost rows: Rows)
    requires Fits(fb) && Proper(rows) && Holds(grid, rows)
    modifies fb.bytes
    ensures Displays(fb, style, rows)
  {
    hide PixelAt, Encode, CharAt, Proper, Inked, Cell;
    FillRectangle(fb, Rect(0, 0, WIDTH, HEIGHT), style.bg);
    for r := 0 to ROWS
      invariant DrawnUpTo(fb, style, rows, r, 0)
    {
      for c := 0 to COLUMNS
        invariant DrawnUpTo(fb, style, rows, r, c)
      {
        ghost var was := fb.bytes[..];
        DrawCharAt(fb, style, c, r, grid[r, c]);
        forall x, y | 0 <= x < WIDTH && 0 <= y < HEIGHT
          ensures fb.CellAt(x, y) ==
            if Before(y / 16, x / 8, r, c + 1) then PixelAt(style.LookIn(fb.format), rows, x, y)
            else Encode(fb.format, style.bg)
        {
          OneMore(style, fb.format, rows, r, c, x, y, Cell(was, fb.stride, fb.height, x, y), fb.CellAt(x, y));
        }
      }
    }
  }

  predicate IsCString(s: string) { forall i :: 0 <= i < |s| ==> s[i] != '\0' }

  lemma ProperKept(rows: Rows, c: char)
    requires Proper(rows)
    ensures Proper(NewRow(rows)) && Last(NewRow(rows)) == []
    ensures |Last(rows)| < COLUMNS && c != '\0' && c != '\n' ==>
      Proper(Append(rows, c)) && Last(Append(rows, c)) == Last(rows) + [c]
  {
    var a := Append(rows, c);
    assert forall i :: 0 <= i < |rows| - 1 ==> a[i] == rows[i];
  }

  /** Console: characters in a grid, pixels redrawn from it. */
  class Console {
    const style: Style
    var fb: FrameBuffer?
    const grid: array2<char>
    var cursorRow: int
    var cursorColumn: int
    ghost var rows: Rows

    /** Grid, cursor and, if there is a writer, pixels are those of the rows. */
    ghost predicate Valid()
      reads this, grid, if fb == null then {} else {fb.bytes}
    {
      && |rows| >= 1 && Proper(rows) && Holds(grid, rows) && cursorRow == CursorRow(rows)
      && cursorColumn == |Last(rows)|
      && (fb != null ==> Displays(fb, style, rows))
    }

    constructor (style: Style)
      ensures Valid() && this.style == style && rows == [[]] && fb == null && fresh(grid)
    {
      this.style := style;
      fb := null;
      grid := new char[ROWS, COLUMNS]((_, _) => '\0');
      cursorRow, cursorColumn := 0, 0;
      rows := [[]];
    }

    /** set_pixel_writer: the whole text appears. */
    method SetPixelWriter(writer: FrameBuffer?)
      requires Valid() && (writer != null ==> Fits(writer))
      modifies this, if writer == null then {} else {writer.bytes}
      ensures Valid() && fb == writer && rows == old(rows)
    {
      hide PixelAt, CharAt, Proper, Cell;
      fb := writer;
      if writer != null { Redraw(writer, style, grid, rows); }
    }

    method NewLine()
      requires Valid()
      modifies this, grid, if fb == null then {} else {fb.bytes}
      ensures Valid() && rows == NewRow(old(rows)) && fb == old(fb)
    {
      hide PixelAt, CharAt, Proper, Cell, NewRow, Append;
      ghost var was := rows;
      ProperKept(rows, ' ');
      rows := NewRow(rows);
      cursorColumn := 0;
      RowsCount(was);
      if cursorRow < ROWS - 1 {
        cursorRow := cursorRow + 1;
        KeepsScreen(was);
        if fb != null { KeepsPixels(fb, style, was); }
      } else {
        forall r, c | 0 <= r < ROWS - 1 && 0 <= c < COLUMNS { grid[r, c] := grid[r + 1, c]; }
        forall r, c | r == ROWS - 1 && 0 <= c < COLUMNS { grid[r, c] := '\0'; }
        Scrolled(was);
        if fb != null { Redraw(fb, style, grid, rows); }
      }
    }

    method PutChar(c: char)
      requires Valid() && c != '\0' && c != '\n' && cursorColumn < COLUMNS
      modifies this, grid, if fb == null then {} else {fb.bytes}
      ensures Valid() && rows == Append(old(rows), c) && fb == old(fb)
    {
      hide PixelAt, CharAt, Proper, Cell, Inked, Append;
      ghost var was := rows;
      ProperKept(rows, c);
      CursorInside(was);
      if fb != null {
        DrawCharAt(fb, style, cursorColumn, cursorRow, c);
        Appended(fb.format, style, was, c);
      }
      grid[cursorRow, cursorColumn] := c;
      cursorColumn := cursorColumn + 1;
      rows := Append(rows, c);
      AppendedGrid(was, c);
    }

    /** put_string: the text grows by the string, and the grid and the pixels follow. */
    method PutString(s: string)
      requires Valid() && IsCString(s)
      modifies this, grid, if fb == null then {} else {fb.bytes}
      ensures Valid() && rows == PutAll(old(rows), s) && fb == old(fb)
    {
      hide Proper, Holds, Displays, NewRow, Append;
      for i := 0 to |s|
        invariant Valid() && fb == old(fb) && |rows| >= 1 && rows == PutAll(old(rows), s[..i])
      {
        assert s[..i + 1][..i] == s[..i];
        ghost var was := rows;
        AtLeastOne(was);
        if s[i] == '\n' {
          NewLine();
        } else {
          if cursorColumn >= COLUMNS { FullRow(was); NewLine(); }
          PutChar(s[i]);
        }
        assert rows == Put(was, s[i]);
        AtLeastOne(rows);
      }
      assert s[..|s|] == s;
    }
  }

  lemma AtLeastOne(rows: Rows)
    ensures Proper(rows) ==> |rows| >= 1
    ensures |rows| >= 1 ==> |NewRow(rows)| >= 1 && Last(NewRow(rows)) == []
  {
  }

  lemma FullRow(rows: Rows)
    ensures Proper(rows) ==> |Last(rows)| <= COLUMNS
  {
  }

  lemma RowsCount(rows: Rows)
    requires |rows| >= 1
    ensures |NewRow(rows)| == |rows| + 1 && (CursorRow(rows) < ROWS - 1 <==> |rows| < ROWS)
    ensures CursorRow(NewRow(rows)) == if |rows| < ROWS then CursorRow(rows) + 1 else CursorRow(rows)
  {
  }

  lemma CursorInside(rows: Rows)
    requires |rows| >= 1
    ensures 0 <= CursorRow(rows) < ROWS
  {
  }

  lemma KeepsScreen(was: Rows)
    requires 1 <= |was| < ROWS
    ensures forall r, c :: CharAt(NewRow(was), r, c) == CharAt(was, r, c)
  {
    hide CharAt, NewRow;
    forall r, c ensures CharAt(NewRow(was), r, c) == CharAt(was, r, c) { NewRowShows(was, r, c); }
  }

  lemma KeepsPixels(fb: FrameBuffer, style: Style, was: Rows)
    requires 1 <= |was| < ROWS && Displays(fb, style, was)
    ensures Displays(fb, style, NewRow(was))
  {
    hide PixelAt, NewRow;
    forall x, y | 0 <= x < WIDTH && 0 <= y < HEIGHT
      ensures fb.CellAt(x, y) == PixelAt(style.LookIn(fb.format), NewRow(was), x, y)
    {
      NewRowPixel(style.LookIn(fb.format), was, x, y);
    }
  }

  lemma Scrolled(was: Rows)
    requires |was| >= ROWS
    ensures forall r, c :: 0 <= r < ROWS - 1 ==> CharAt(NewRow(was), r, c) == CharAt(was, r + 1, c)
    ensures forall r, c :: r == ROWS - 1 ==> CharAt(NewRow(was), r, c) == None
  {
    hide CharAt, NewRow;
    forall r, c ensures CharAt(NewRow(was), r, c) == if r < 0 || r >= ROWS - 1 then None else CharAt(was, r + 1, c) {
      NewRowShows(was, r, c);
    }
  }

  lemma Appended(format: PixelFormat, style: Style, was: Rows, c: char)
    requires |was| >= 1
    ensures forall x, y ::
      PixelAt(style.LookIn(format), Append(was, c), x, y) ==
        if Inked(style.font(c), x - 8 * |Last(was)|, y - 16 * CursorRow(was)) then Encode(format, style.fg)
        else PixelAt(style.LookIn(format), was, x, y)
  {
    hide PixelAt, Inked, Append, CursorRow;
    forall x, y ensures PixelAt(style.LookIn(format), Append(was, c), x, y) ==
      if Inked(style.font(c), x - 8 * |Last(was)|, y - 16 * CursorRow(was)) then Encode(format, style.fg)
        else PixelAt(style.LookIn(format), was, x, y)
    {
      AppendPixel(style.LookIn(format), was, c, x, y);
    }
  }

  lemma AppendedGrid(was: Rows, c: char)
    requires |was| >= 1
    ensures CursorRow(Append(was, c)) == CursorRow(was)
    ensures forall r, k ::
      CharAt(Append(was, c), r, k) == if r == CursorRow(was) && k == |Last(was)| then Some(c) else CharAt(was, r, k)
  {
    hide CharAt;
    forall r, k
      ensures CharAt(Append(was, c), r, k) == if r == CursorRow(was) && k == |Last(was)| then Some(c)
        else CharAt(was, r, k)
    {
      AppendShows(was, c, r, k);
    }
  }

  /** FastConsole: only a cursor, pixels moved in place on a layer. */
  class FastConsole {
    const style: Style
    const layer: Layer
    var cursorRow: int
    var cursorColumn: int
    ghost var rows: Rows

    ghost predicate Valid()
      reads this, layer.fb.bytes
    {
      && |rows| >= 1 && Proper(rows) && cursorRow == CursorRow(rows) && cursorColumn == |Last(rows)|
      && Displays(layer.fb, style, rows)
    }

    /** The constructor paints the background, and every manager shows it. */
    constructor (ghost w: World, ghost good: set<LayerManager>, style: Style, layer: Layer)
      requires w.Wired() && w.Sound() && good <= w.managers && w.AllFresh(good)
      requires layer in w.layers && layer.child == null && Fits(layer.fb)
      modifies w.Arrays()
      ensures Valid() && this.style == style && this.layer == layer && rows == [[]]
      ensures w.Wired() && w.Sound() && w.AllFresh(good)
    {
      hide PixelAt, World.Wired, World.Sound, World.AllFresh, Cell;
      this.style, this.layer := style, layer;
      cursorRow, cursorColumn, rows := 0, 0, [[]];
      new;
      PaintBackground(w, good, style, layer);
      Blank(style.LookIn(layer.fb.format));
    }

    method NewLine(painter: Painter)
      requires Valid() && painter.layer == layer && painter.Tracks()
      modifies this, painter, layer.fb.bytes
      ensures Valid() && painter.Tracks() && rows == NewRow(old(rows))
    {
      hide Displays, Proper, NewRow, Append, Painter.Tracks;
      ghost var was := rows;
      ProperKept(rows, ' ');
      RowsCount(was);
      rows := NewRow(rows);
      cursorColumn := 0;
      if cursorRow < ROWS - 1 {
        cursorRow := cursorRow + 1;
        KeepsPixels(layer.fb, style, was);
        return;
      }
      Scroll(painter, was);
    }

    /** The pixels move up by one row and the last row is cleared. */
    method Scroll(painter: Painter, ghost was: Rows)
      requires painter.layer == layer && painter.Tracks() && Displays(layer.fb, style, was)
      requires |was| >= ROWS && cursorRow == ROWS - 1
      modifies painter, layer.fb.bytes
      ensures painter.Tracks() && Displays(layer.fb, style, NewRow(was))
    {
      hide PixelAt, Cell, NewRow, Painter.Tracks;
      painter.CopyY(0, 16, ROWS * 16);
      painter.DrawFilledRectangle(Rect(0, cursorRow * 16, 8 * COLUMNS, (cursorRow + 1) * 16), style.bg);
      forall x, y | 0 <= x < WIDTH && 0 <= y < HEIGHT
        ensures layer.fb.CellAt(x, y) == PixelAt(style.LookIn(layer.fb.format), NewRow(was), x, y)
      {
        NewRowPixel(style.LookIn(layer.fb.format), was, x, y);
      }
    }

    method PutChar(painter: Painter, c: char)
      requires Valid() && painter.layer == layer && painter.Tracks() && c != '\0' && c != '\n' && cursorColumn < COLUMNS
      modifies this, painter, layer.fb.bytes
      ensures Valid() && painter.Tracks() && rows == Append(old(rows), c)
    {
      hide PixelAt, CharAt, Proper, Cell, Inked, Append, Painter.Tracks;
      ghost var was := rows;
      ProperKept(rows, c);
      CursorInside(was);
      painter.DrawAscii(Vec(cursorColumn * 8, cursorRow * 16), style.font(c), style.fg);
      Appended(layer.fb.format, style, was, c);
      cursorColumn := cursorColumn + 1;
      rows := Append(rows, c);
      AppendedGrid(was, c);
    }

    /** The loop of put_string, on an open painter. */
    method PaintString(painter: Painter, s: string)
      requires Valid() && painter.layer == layer && painter.Tracks() && IsCString(s)
      modifies this, painter, layer.fb.bytes
      ensures Valid() && painter.Tracks() && rows == PutAll(old(rows), s)
    {
      hide Proper, Displays, NewRow, Append, Painter.Tracks;
      for i := 0 to |s|
        invariant Valid() && painter.Tracks() && |rows| >= 1 && rows == PutAll(old(rows), s[..i])
      {
        assert s[..i + 1][..i] == s[..i];
        ghost var was := rows;
        AtLeastOne(was);
        if s[i] == '\n' {
          NewLine(painter);
        } else {
          if cursorColumn >= COLUMNS { FullRow(was); NewLine(painter); }
          PutChar(painter, s[i]);
        }
        assert rows == Put(was, s[i]);
        AtLeastOne(rows);
      }
      assert s[..|s|] == s;
    }

    /** put_string: the text grows by the string, the pixels follow, and so does every screen the
        layer appears on. */
    method PutString(ghost w: World, ghost good: set<LayerManager>, s: string)
      requires Valid() && IsCString(s)
      requires w.Wired() && w.Sound() && good <= w.managers && w.AllFresh(good) && layer in w.layers
      requires layer.child == null
      modifies this, w.Arrays()
      ensures Valid() && rows == PutAll(old(rows), s)
      ensures w.Wired() && w.Sound() && w.AllFresh(good)
    {
      hide PictureOf, Cell, Consistent, World.Wired, World.AllFresh, World.FreshIn, ReservedZero, World.Sound, Proper,
        PixelAt, PutAll;
      GroupInStack(w, layer);
      ghost var before := Views(layer.manager.stack);
      PaintReady(w, good, layer);
      var painter := new Painter(layer);
      PaintString(painter, s);
      w.PaintingIsLocal(layer);
      painter.End(w, good, before);
    }
  }

  method PaintBackground(ghost w: World, ghost good: set<LayerManager>, style: Style, layer: Layer)
    requires w.Wired() && w.Sound() && good <= w.managers && w.AllFresh(good)
    requires layer in w.layers && layer.child == null && Fits(layer.fb)
    modifies w.Arrays()
    ensures w.Wired() && w.Sound() && w.AllFresh(good)
    ensures forall x, y :: 0 <= x < WIDTH && 0 <= y < HEIGHT ==>
      layer.fb.CellAt(x, y) == Encode(layer.fb.format, style.bg)
  {
    hide PictureOf, Cell, Consistent, World.Wired, World.AllFresh, World.FreshIn, ReservedZero, World.Sound;
    GroupInStack(w, layer);
    ghost var before := Views(layer.manager.stack);
    PaintReady(w, good, layer);
    var painter := new Painter(layer);
    painter.DrawFilledRectangle(Rect(0, 0, WIDTH, HEIGHT), style.bg);
    w.PaintingIsLocal(layer);
    painter.End(w, good, before);
  }

  lemma Blank(look: Look)
    ensures forall x, y :: PixelAt(look, [[]], x, y) == look.bg
  {
  }

  /** One call on both consoles. */
  method PutBoth(ghost w: World, ghost good: set<LayerManager>, slow: Console, fast: FastConsole, s: string)
    requires slow.Valid() && fast.Valid() && slow.fb != null && slow.rows == fast.rows && IsCString(s)
    requires w.Wired() && w.Sound() && good <= w.managers && w.AllFresh(good) && fast.layer in w.layers
    requires fast.layer.child == null
    requires slow.fb.bytes !in w.Arrays()
    modifies slow, slow.grid, slow.fb.bytes, fast, w.Arrays()
    ensures slow.Valid() && fast.Valid() && slow.fb == old(slow.fb)
    ensures |old(slow.rows)| >= 1 && slow.rows == fast.rows == PutAll(old(slow.rows), s)
    ensures w.Wired() && w.Sound() && w.AllFresh(good)
  {
    hide Displays, Proper, Holds, World.Wired, World.Sound, World.AllFresh, PutAll, CursorRow, Last, IsCString;
    slow.PutString(s);
    fast.PutString(w, good, s);
  }

  /** Any sequence of put_string calls on both consoles: scrolling pixels and redrawing characters
      show the same, namely the last 25 rows of the whole text laid out. */
  method RunBoth(ghost w: World, ghost good: set<LayerManager>, slow: Console, fast: FastConsole, calls: seq<string>)
    requires slow.Valid() && fast.Valid() && slow.fb != null && slow.style == fast.style
    requires slow.fb.format == fast.layer.fb.format
    requires slow.rows == [[]] && fast.rows == [[]] && (forall i :: 0 <= i < |calls| ==> IsCString(calls[i]))
    requires w.Wired() && w.Sound() && good <= w.managers && w.AllFresh(good) && fast.layer in w.layers
    requires fast.layer.child == null
    requires slow.fb.bytes !in w.Arrays()
    modifies slow, slow.grid, slow.fb.bytes, fast, w.Arrays()
    ensures w.Wired() && w.Sound() && w.AllFresh(good) && slow.fb == old(slow.fb)
    ensures Displays(slow.fb, slow.style, Layout(Join(calls)))
    ensures Displays(fast.layer.fb, slow.style, Layout(Join(calls)))
    ensures forall x, y :: 0 <= x < WIDTH && 0 <= y < HEIGHT ==> slow.fb.CellAt(x, y) == fast.layer.fb.CellAt(x, y)
  {
    hide PixelAt, Proper, CharAt, Cell, Holds, World.Wired, World.Sound, World.AllFresh, PutAll, Layout, Join,
      IsCString, CursorRow, Last;
    assert calls[..0] == [];
    for i := 0 to |calls|
      invariant slow.Valid() && fast.Valid() && slow.fb == old(slow.fb)
      invariant slow.rows == fast.rows == PutCalls([[]], calls[..i])
      invariant w.Wired() && w.Sound() && w.AllFresh(good)
    {
      assert calls[..i + 1][..i] == calls[..i];
      PutBoth(w, good, slow, fast, calls[i]);
    }
    assert calls[..|calls|] == calls;
    CallsAreLayout(calls);
  }
}
