/** What both consoles of kernel/graphics/console.cpp show: the last 25 rows of the wrapped text. */
module ConsoleText {
  import opened Options
  import opened Composition
  import opened Painters

  const ROWS := 25
  const COLUMNS := 80

  // ----- wrapping -----

  /** The rows written so far, the last one being written. */
  type Rows = seq<string>

  ghost predicate Proper(rows: Rows) {
    |rows| >= 1 && forall i :: 0 <= i < |rows| ==> |rows[i]| <= COLUMNS && forall c :: c in rows[i] ==>
      c != '\0' && c != '\n'
  }

  function Last(rows: Rows): string
    requires |rows| >= 1
  {
    rows[|rows| - 1]
  }

  function NewRow(rows: Rows): Rows { rows + [[]] }

  function Append(rows: Rows, c: char): Rows
    requires |rows| >= 1
  {
    rows[..|rows| - 1] + [Last(rows) + [c]]
  }

  /** One character: a full row is left only when another character follows. */
  function Put(rows: Rows, c: char): (r: Rows)
    requires |rows| >= 1
    ensures |r| >= 1
  {
    if c == '\n' then NewRow(rows)
    else if |Last(rows)| < COLUMNS then Append(rows, c)
    else Append(NewRow(rows), c)
  }

  function PutAll(rows: Rows, s: string): (r: Rows)
    requires |rows| >= 1
    ensures |r| >= 1
  {
    if s == [] then rows else Put(PutAll(rows, s[..|s| - 1]), s[|s| - 1])
  }

  lemma {:induction false} PutAllConcat(rows: Rows, s: string, t: string)
    requires |rows| >= 1
    ensures PutAll(rows, s + t) == PutAll(PutAll(rows, s), t)
  {
    if t == [] {
      assert s + t == s;
    } else {
      assert (s + t)[..|s + t| - 1] == s + t[..|t| - 1];
      PutAllConcat(rows, s, t[..|t| - 1]);
    }
  }

  /** A line cut into rows of 80; an empty line is one empty row. */
  function Chunks(line: string): (r: Rows)
    ensures |r| >= 1
  {
    if |line| <= COLUMNS then [line] else [line[..COLUMNS]] + Chunks(line[COLUMNS..])
  }

  /** Where the first newline is, or the length. */
  function LineEnd(s: string): (k: nat)
    ensures k <= |s| && (k < |s| ==> s[k] == '\n') && forall i :: 0 <= i < k ==> s[i] != '\n'
  {
    if s == [] || s[0] == '\n' then 0 else 1 + LineEnd(s[1..])
  }

  /** The text split at newlines, each line cut into rows. */
  function Layout(s: string): (r: Rows)
    ensures |r| >= 1
    decreases |s|
  {
    var k := LineEnd(s);
    if k == |s| then Chunks(s) else Chunks(s[..k]) + Layout(s[k + 1..])
  }

  /** Characters without newlines continue the last row and are cut every 80. */
  lemma {:induction false} PutLine(rows: Rows, s: string)
    requires |rows| >= 1 && forall i :: 0 <= i < |s| ==> s[i] != '\n'
    ensures Last(rows) == [] ==> PutAll(rows, s) == rows[..|rows| - 1] + Chunks(s)
    decreases |s|
  {
    if Last(rows) == [] {
      if |s| <= COLUMNS {
        PutShort(rows, s);
      } else {
        var n := |s| - 1;
        PutLine(rows, s[..n]);
        ChunksSnoc(s[..n], s[n]);
        assert s == s[..n] + [s[n]];
        var front := rows[..|rows| - 1];
        PutAfter(front, Chunks(s[..n]), s[n]);
      }
    }
  }

  lemma {:induction false} PutShort(rows: Rows, s: string)
    requires |rows| >= 1 && Last(rows) == [] && |s| <= COLUMNS && forall i :: 0 <= i < |s| ==> s[i] != '\n'
    ensures PutAll(rows, s) == rows[..|rows| - 1] + [s]
  {
    var front := rows[..|rows| - 1];
    if s == [] {
      assert rows == front + [[]];
    } else {
      var n := |s| - 1;
      PutShort(rows, s[..n]);
      assert s[..n] + [s[n]] == s;
      assert (front + [s[..n]])[..|front|] == front;
    }
  }

  /** Earlier rows play no part. */
  lemma {:induction false} PutAfter(front: Rows, rows: Rows, c: char)
    requires |rows| >= 1
    ensures Put(front + rows, c) == front + Put(rows, c)
  {
    var n := |rows| - 1;
    assert Last(front + rows) == Last(rows);
    assert (front + rows)[..|front| + n] == front + rows[..n];
    assert NewRow(front + rows) == front + NewRow(rows);
    assert NewRow(rows)[..|rows|] == rows && NewRow(front + rows)[..|front| + |rows|] == front + rows;
  }

  lemma {:induction false} ChunksSnoc(s: string, c: char)
    requires c != '\n' && |s| >= 1
    ensures Chunks(s + [c]) == Put(Chunks(s), c)
    decreases |s|
  {
    if |s| < COLUMNS {
    } else if |s| == COLUMNS {
      assert (s + [c])[..COLUMNS] == s && (s + [c])[COLUMNS..] == [c];
      assert NewRow([s])[..1] == [s] && [] + [c] == [c];
    } else {
      var t := s[COLUMNS..];
      assert (s + [c])[..COLUMNS] == s[..COLUMNS] && (s + [c])[COLUMNS..] == t + [c];
      ChunksSnoc(t, c);
      PutAfter([s[..COLUMNS]], Chunks(t), c);
    }
  }

  /** Writing a text character by character, onto an empty last row, lays it out. */
  lemma {:induction false} PutAllIsLayout(rows: Rows, s: string)
    requires |rows| >= 1 && Last(rows) == []
    ensures PutAll(rows, s) == rows[..|rows| - 1] + Layout(s)
    decreases |s|
  {
    hide Chunks, PutAll, Put, Layout, LineEnd, NewRow;
    var k, front := LineEnd(s), rows[..|rows| - 1];
    LayoutUnfolds(s);
    PutLine(rows, s[..k]);
    if k == |s| {
      assert s[..k] == s;
    } else {
      var line, rest := s[..k], s[k + 1..];
      var mid := front + Chunks(line);
      assert s == line + ("\n" + rest);
      PutAllConcat(rows, line, "\n" + rest);
      PutAllConcat(mid, "\n", rest);
      PutNewline(mid);
      PutAllIsLayout(NewRow(mid), rest);
      Associative(front, Chunks(line), Layout(rest));
    }
  }

  lemma {:induction false} LayoutUnfolds(s: string)
    ensures var k := LineEnd(s); Layout(s) == if k == |s| then Chunks(s) else Chunks(s[..k]) + Layout(s[k + 1..])
  {
    hide Chunks, LineEnd;
  }

  lemma {:induction false} Associative(a: Rows, b: Rows, c: Rows)
    ensures (a + b) + c == a + (b + c)
  {
  }

  lemma {:induction false} PutNewline(rows: Rows)
    requires |rows| >= 1
    ensures PutAll(rows, "\n") == NewRow(rows) && |NewRow(rows)| == |rows| + 1 && NewRow(rows)[..|rows|] == rows
    ensures Last(NewRow(rows)) == []
  {
    assert "\n"[..0] == [];
  }

  /** Several strings as one text. */
  function Join(calls: seq<string>): string {
    if calls == [] then [] else Join(calls[..|calls| - 1]) + calls[|calls| - 1]
  }

  function PutCalls(rows: Rows, calls: seq<string>): (r: Rows)
    requires |rows| >= 1
    ensures |r| >= 1
  {
    if calls == [] then rows else PutAll(PutCalls(rows, calls[..|calls| - 1]), calls[|calls| - 1])
  }

  /** How a text is divided into calls makes no difference: a console lays out the whole text. */
  lemma {:induction false} CallsAreLayout(calls: seq<string>)
    ensures PutCalls([[]], calls) == Layout(Join(calls))
  {
    hide PutAll, Layout;
    CallsAreOne(calls);
    PutAllIsLayout([[]], Join(calls));
    assert [[]][..0] + Layout(Join(calls)) == Layout(Join(calls));
  }

  lemma {:induction false} CallsAreOne(calls: seq<string>)
    ensures PutCalls([[]], calls) == PutAll([[]], Join(calls))
  {
    if calls != [] {
      var n := |calls| - 1;
      CallsAreOne(calls[..n]);
      PutAllConcat([[]], Join(calls[..n]), calls[n]);
    }
  }

  // ----- the screen -----

  /** Index of the row shown at the top. */
  function First(rows: Rows): nat { if |rows| <= ROWS then 0 else |rows| - ROWS }

  /** The character shown in a cell, if any. */
  function CharAt(rows: Rows, row: int, col: int): Option<char> {
    if 0 <= row && First(rows) + row < |rows| && 0 <= col < |rows[First(rows) + row]|
    then Some(rows[First(rows) + row][col]) else None
  }

  /** Font and colours as pixels. */
  datatype Look = Look(font: Font, fg: Pixel, bg: Pixel)

  /** The pixel a cell with character c shows at offset (dx, dy). */
  function Ink(look: Look, c: Option<char>, dx: int, dy: int): Pixel {
    if c.Some? && Inked(look.font(c.value), dx, dy) then look.fg else look.bg
  }

  function PixelAt(look: Look, rows: Rows, x: int, y: int): Pixel {
    Ink(look, CharAt(rows, y / 16, x / 8), x % 8, y % 16)
  }

  function CursorRow(rows: Rows): int { if |rows| <= ROWS then |rows| - 1 else ROWS - 1 }

  /** A glyph drawn at a cell's corner inks that cell only. */
  lemma {:induction false} GlyphInCell(g: Option<Glyph>, col: int, row: int, x: int, y: int)
    ensures Inked(g, x - 8 * col, y - 16 * row) <==> x / 8 == col && y / 16 == row && Inked(g, x % 8, y % 16)
  {
    if x / 8 == col { assert x - 8 * col == x % 8; }
    if y / 16 == row { assert y - 16 * row == y % 16; }
  }

  lemma {:induction false} AppendShows(rows: Rows, c: char, row: int, col: int)
    requires |rows| >= 1
    ensures CharAt(Append(rows, c), row, col) ==
      if row == CursorRow(rows) && col == |Last(rows)| then Some(c) else CharAt(rows, row, col)
    ensures CharAt(rows, CursorRow(rows), |Last(rows)|) == None
  {
  }

  /** Drawing one glyph over the old picture gives the new one. */
  lemma {:induction false} AppendPixel(look: Look, rows: Rows, c: char, x: int, y: int)
    requires |rows| >= 1
    ensures PixelAt(look, Append(rows, c), x, y) ==
      if Inked(look.font(c), x - 8 * |Last(rows)|, y - 16 * CursorRow(rows)) then look.fg else PixelAt(look, rows, x, y)
  {
    hide Inked, CharAt, Append, CursorRow;
    GlyphInCell(look.font(c), |Last(rows)|, CursorRow(rows), x, y);
    AppendShows(rows, c, y / 16, x / 8);
  }

  lemma {:induction false} NewRowShows(rows: Rows, row: int, col: int)
    requires |rows| >= 1
    ensures CharAt(NewRow(rows), row, col) ==
      if |rows| < ROWS then CharAt(rows, row, col)
      else if row < 0 || row >= ROWS - 1 then None
      else CharAt(rows, row + 1, col)
  {
  }

  /** Below the bottom row nothing moves; at the bottom the picture moves up by 16 lines and the last
      row is cleared. */
  lemma {:induction false} NewRowPixel(look: Look, rows: Rows, x: int, y: int)
    requires |rows| >= 1 && 0 <= y < 16 * ROWS
    ensures PixelAt(look, NewRow(rows), x, y) ==
      if |rows| < ROWS then PixelAt(look, rows, x, y)
      else if y < 16 * (ROWS - 1) then PixelAt(look, rows, x, y + 16) else look.bg
  {
    hide Inked, CharAt, NewRow;
    NewRowShows(rows, y / 16, x / 8);
    assert (y + 16) / 16 == y / 16 + 1 && (y + 16) % 16 == y % 16;
  }
}
