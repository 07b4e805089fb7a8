/** src/grid.c: tables of cells that span columns; every row is printed as wide as the table. */
module Grids {
  import opened Layout
  import opened Shared

  datatype Border = Border(left: bool, right: bool, color: string, vertical: char)

  datatype Cell = Cell(value: string, span: nat, leftMargin: nat, rightMargin: nat, align: Align, color: string,
      border: Border)

  datatype Row = Row(columns: nat, columnsize: nat, cells: seq<Cell>) {
    predicate Valid() {
      columns >= 1 && |cells| == columns && forall i :: 0 <= i < |cells| ==> cells[i].span >= 1
    }
  }

  /** grid_init_border and grid_init_row */
  const NO_BORDER := Border(false, false, "", ' ')
  const EMPTY_CELL := Cell("", 1, 0, 0, Left, "", NO_BORDER)

  function EmptyCells(n: nat): (cs: seq<Cell>)
    ensures |cs| == n && forall i :: 0 <= i < n ==> cs[i] == EMPTY_CELL
  {
    seq(n, _ => EMPTY_CELL)
  }

  function EmptyRow(width: nat, columns: nat): Row
    requires columns >= 1
  {
    Row(columns, width / columns, EmptyCells(columns))
  }

  // ---------------------------------------------------------------- printing

  function Spaces(n: nat): (s: string)
    ensures |s| == n && forall i :: 0 <= i < n ==> s[i] == ' '
  {
    seq(n, _ => ' ')
  }

  /** What the columns of a cell leave for its value. */
  function CellWidth(row: Row, width: nat, j: nat): int
    requires row.Valid() && j < row.columns
  {
    var cell := row.cells[j];
    var adjust := cell.leftMargin + cell.rightMargin + (if cell.border.left then 1 else 0)
        + if cell.border.right then 1 else 0;
    row.columnsize * cell.span - adjust
      + if j + cell.span >= row.columns then width - row.columnsize * row.columns else 0
  }

  function BorderText(b: Border): string {
    b.color + [b.vertical] + "~x"
  }

  /** A cell that align_string can take. */
  predicate Printable(row: Row, width: nat, j: nat)
    requires row.Valid() && j < row.columns
  {
    WellFormed(row.cells[j].value) && CellWidth(row, width, j) >= 0
  }

  function CellText(row: Row, width: nat, j: nat): string
    requires row.Valid() && j < row.columns && Printable(row, width, j)
  {
    var cell := row.cells[j];
    (if cell.border.left then BorderText(cell.border) else "") + Spaces(cell.leftMargin)
      + Aligned(cell.align, CellWidth(row, width, j), cell.color, "", cell.value)
      + Spaces(cell.rightMargin) + if cell.border.right then BorderText(cell.border) else ""
  }

  /** The cells that are printed from column j on can be. */
  predicate AllPrintable(row: Row, width: nat, j: nat)
    requires row.Valid()
    decreases row.columns - j
  {
    j >= row.columns || (Printable(row, width, j) && AllPrintable(row, width, j + row.cells[j].span))
  }

  function RowText(row: Row, width: nat, j: nat): string
    requires row.Valid() && AllPrintable(row, width, j)
    decreases row.columns - j
  {
    if j >= row.columns then "" else CellText(row, width, j) + RowText(row, width, j + row.cells[j].span)
  }

  // ---------------------------------------------------------------- the width of a row

  predicate IsBorder(b: Border) {
    IsColor(b.color) && b.vertical != COLOR_CODE
  }

  /** A cell whose parts are in order and leave at least one column for its value. */
  predicate GoodParts(row: Row, width: nat, j: nat)
    requires row.Valid() && j < row.columns
  {
    var cell := row.cells[j];
    Printable(row, width, j) && CellWidth(row, width, j) >= 1 && IsColor(cell.color) && IsBorder(cell.border)
      && CellWidth(row, width, j) + |cell.value| + 8 < SIZE_LIMIT
  }

  /** The cell's value is shown at the cell's width: it can be aligned there, and no code that ends in ~ is in
      what is kept of it. */
  predicate Fitting(row: Row, width: nat, j: nat)
    requires row.Valid() && j < row.columns
  {
    var cell, w := row.cells[j], CellWidth(row, width, j);
    && cell.value != "" && WellFormed(cell.value) && w >= 1
    && Fits(cell.align, w, |Visible(cell.value)|)
    && Tildes(cell.value[..Cut(cell.value, w)]) == 0
  }

  lemma {:induction false} PlainText(s: string)
    requires COLOR_CODE !in s
    ensures WellFormed(s) && Visible(s) == s && Tildes(s) == 0
  {
    if s != "" {
      assert s[0] in s;
      PlainText(s[1..]);
      assert s == [s[0]] + s[1..];
    }
  }

  lemma {:induction false} BorderWidth(b: Border)
    requires IsBorder(b)
    ensures WellFormed(BorderText(b)) && Visible(BorderText(b)) == [b.vertical] && Tildes(BorderText(b)) == 0
  {
    PlainText([b.vertical]);
    ResetIsColor();
    hide Visible, WellFormed, Tildes;
    VisibleJoin(b.color, [b.vertical]);
    VisibleJoin(b.color + [b.vertical], "~x");
    TildesJoin(b.color, [b.vertical]);
    TildesJoin(b.color + [b.vertical], "~x");
  }

  /** A border has its colour in front and the code that resets it behind. */
  lemma {:induction false} BorderEnds(b: Border)
    ensures BorderText(b) == b.color + [b.vertical, '~', 'x']
  {
    assert [b.vertical] + "~x" == [b.vertical, '~', 'x'];
  }

  lemma {:induction false} FiveParts(a: string, b: string, c: string, d: string, e: string)
    requires WellFormed(a) && WellFormed(b) && WellFormed(c) && WellFormed(d) && WellFormed(e)
    ensures WellFormed(a + b + c + d + e)
    ensures Visible(a + b + c + d + e) == Visible(a) + Visible(b) + Visible(c) + Visible(d) + Visible(e)
    ensures Tildes(a + b + c + d + e) == Tildes(a) + Tildes(b) + Tildes(c) + Tildes(d) + Tildes(e)
  {
    hide Visible, WellFormed, Tildes;
    VisibleJoin(a, b);
    VisibleJoin(a + b, c);
    VisibleJoin(a + b + c, d);
    VisibleJoin(a + b + c + d, e);
    TildesJoin(a, b);
    TildesJoin(a + b, c);
    TildesJoin(a + b + c, d);
    TildesJoin(a + b + c + d, e);
  }

  /** The columns a cell is given, the last one with what the division of the width leaves over. */
  function Given(row: Row, width: nat, j: nat): int
    requires row.Valid() && j < row.columns
  {
    row.columnsize * row.cells[j].span
      + if j + row.cells[j].span >= row.columns then width - row.columnsize * row.columns else 0
  }

  /** A cell fills its columns exactly when its value is there and fits its alignment. */
  lemma {:induction false} CellFillsColumns(row: Row, width: nat, j: nat)
    requires row.Valid() && j < row.columns && GoodParts(row, width, j)
    ensures WellFormed(CellText(row, width, j))
    ensures |Printed(CellText(row, width, j))| == Given(row, width, j) <==> Fitting(row, width, j)
    ensures Fitting(row, width, j) ==>
        |Visible(CellText(row, width, j))| == Given(row, width, j) && Tildes(CellText(row, width, j)) == 0
  {
    var cell, w := row.cells[j], CellWidth(row, width, j);
    var edge := BorderText(cell.border);
    var a, e := if cell.border.left then edge else "", if cell.border.right then edge else "";
    var b, d := Spaces(cell.leftMargin), Spaces(cell.rightMargin);
    var c := Aligned(cell.align, w, cell.color, "", cell.value);
    EmptyText();
    BorderWidth(cell.border);
    PlainText(b);
    PlainText(d);
    hide Visible, WellFormed, Aligned, BorderText, Spaces, Fills, Tildes, Printed, Fits, Cut;
    ValueWidth(cell, w);
    FiveParts(a, b, c, d, e);
    PrintedLength(a + b + c + d + e);
  }

  /** What a cell shows in so many columns: its left border, its left margin, its value at the width that is left,
      its right margin and its right border. */
  predicate Shows(cell: Cell, columns: int, s: string) {
    var left := if cell.border.left then [cell.border.vertical] else "";
    var right := if cell.border.right then [cell.border.vertical] else "";
    var w := columns - |left| - cell.leftMargin - cell.rightMargin - |right|;
    && w >= 1 && WellFormed(cell.value)
    && s == left + Spaces(cell.leftMargin) + Visible(Aligned(cell.align, w, cell.color, "", cell.value))
            + Spaces(cell.rightMargin) + right
  }

  lemma {:induction false} CellShows(row: Row, width: nat, j: nat)
    requires row.Valid() && j < row.columns && GoodParts(row, width, j)
    ensures Shows(row.cells[j], Given(row, width, j), Visible(CellText(row, width, j)))
  {
    var cell, w := row.cells[j], CellWidth(row, width, j);
    var edge := BorderText(cell.border);
    var a, e := if cell.border.left then edge else "", if cell.border.right then edge else "";
    var b, d := Spaces(cell.leftMargin), Spaces(cell.rightMargin);
    var c := Aligned(cell.align, w, cell.color, "", cell.value);
    assert CellText(row, width, j) == a + b + c + d + e;
    hide Visible, WellFormed, Aligned, BorderText, Spaces, Fills, Tildes, Fits, Cut, CellText, Shows;
    EmptyText();
    BorderWidth(cell.border);
    PlainText(b);
    PlainText(d);
    ValueWidth(cell, w);
    FiveParts(a, b, c, d, e);
    ShowsParts(cell, Given(row, width, j), w);
  }

  lemma {:induction false} ShowsParts(cell: Cell, columns: int, w: int)
    requires WellFormed(cell.value) && w >= 1
    requires w == columns - cell.leftMargin - cell.rightMargin - (if cell.border.left then 1 else 0)
                  - if cell.border.right then 1 else 0
    ensures Shows(cell, columns, (if cell.border.left then [cell.border.vertical] else "") + Spaces(cell.leftMargin)
              + Visible(Aligned(cell.align, w, cell.color, "", cell.value)) + Spaces(cell.rightMargin)
              + if cell.border.right then [cell.border.vertical] else "")
  {
    hide Visible, WellFormed, Aligned, Spaces;
  }

  lemma {:induction false} ValueWidth(cell: Cell, w: nat)
    requires w >= 1 && WellFormed(cell.value) && IsColor(cell.color) && w + |cell.value| + 8 < SIZE_LIMIT
    ensures var r := Aligned(cell.align, w, cell.color, "", cell.value);
            && WellFormed(r)
            && (|Visible(r)| + Tildes(r) == w <==>
                  && cell.value != "" && Fits(cell.align, w, |Visible(cell.value)|)
                  && Tildes(cell.value[..Cut(cell.value, w)]) == 0)
            && (|Visible(r)| + Tildes(r) == w ==> Tildes(r) == 0)
  {
    EmptyText();
    if cell.value != "" {
      var sz := |Visible(cell.value)|;
      SpaceShows();
      TildesOfFill(" ", LeftFill(cell.align, w, sz));
      TildesOfFill(" ", RightFill(cell.align, w, sz));
      hide Visible, WellFormed, Aligned, Tildes, Filled, Fits, Cut, LeftFill, RightFill, Fills;
      AlignedVisible(cell.align, w, cell.color, "", cell.value);
      CountedWidth(cell.align, w, cell.color, "", cell.value);
    }
  }

  lemma {:induction false} SpaceShows()
    ensures Fills(" ") && Tildes(" ") == 0 && FillOr("") == " "
  {
    PlainText(" ");
  }

  /** The cells printed from column j on fit, and one ends exactly at column to. */
  predicate TiledUpTo(row: Row, width: nat, j: nat, to: nat)
    requires row.Valid() && to <= row.columns
    decreases if j < to then to - j else 0
  {
    if j >= to then j == to
    else GoodParts(row, width, j) && Fitting(row, width, j) && TiledUpTo(row, width, j + row.cells[j].span, to)
  }

  predicate Tiled(row: Row, width: nat, j: nat)
    requires row.Valid()
  {
    TiledUpTo(row, width, j, row.columns)
  }

  lemma {:induction false} TiledIsPrintable(row: Row, width: nat, j: nat)
    requires row.Valid() && Tiled(row, width, j)
    ensures AllPrintable(row, width, j)
    decreases row.columns - j
  {
    if j < row.columns {
      TiledIsPrintable(row, width, j + row.cells[j].span);
    }
  }

  lemma {:induction false} Distribute(a: nat, j: nat, span: nat)
    ensures a * (j + span) == a * j + a * span
  {
  }

  function RestWidth(row: Row, width: nat, j: nat): int {
    if j == row.columns then 0 else width - row.columnsize * j
  }

  lemma {:induction false} StepWidth(row: Row, width: nat, j: nat)
    requires row.Valid() && j < row.columns && j + row.cells[j].span <= row.columns
    ensures Given(row, width, j) + RestWidth(row, width, j + row.cells[j].span) == RestWidth(row, width, j)
  {
    Distribute(row.columnsize, j, row.cells[j].span);
  }

  lemma {:induction false} TiledStep(row: Row, width: nat, j: nat)
    requires row.Valid() && Tiled(row, width, j) && j < row.columns
    ensures row.cells[j].span >= 1 && j + row.cells[j].span <= row.columns && Tiled(row, width, j + row.cells[j].span)
    ensures GoodParts(row, width, j) && Fitting(row, width, j)
  {
    assert TiledUpTo(row, width, j + row.cells[j].span, row.columns);
  }

  lemma {:induction false} RowTextStep(row: Row, width: nat, j: nat)
    requires row.Valid() && j < row.columns && AllPrintable(row, width, j)
    ensures Printable(row, width, j) && AllPrintable(row, width, j + row.cells[j].span)
    ensures RowText(row, width, j) == CellText(row, width, j) + RowText(row, width, j + row.cells[j].span)
  {
  }

  /** What is printed from column j on occupies the rest of the width, whatever the division of the width by the
      columns leaves over. */
  lemma {:induction false} RestOfRow(row: Row, width: nat, j: nat)
    requires row.Valid() && Tiled(row, width, j)
    ensures AllPrintable(row, width, j) && WellFormed(RowText(row, width, j))
    ensures |Visible(RowText(row, width, j))| == RestWidth(row, width, j) && Tildes(RowText(row, width, j)) == 0
    decreases row.columns - j
  {
    hide *;
    RestOfTiled(row, width, j);
    if j < row.columns {
      TiledStep(row, width, j);
      RestOfRow(row, width, j + row.cells[j].span);
      RestWithCell(row, width, j);
    }
  }

  lemma {:induction false} RestWithCell(row: Row, width: nat, j: nat)
    requires row.Valid() && Tiled(row, width, j) && j < row.columns && AllPrintable(row, width, j)
    requires AllPrintable(row, width, j + row.cells[j].span)
    requires WellFormed(RowText(row, width, j + row.cells[j].span))
    requires |Visible(RowText(row, width, j + row.cells[j].span))| == RestWidth(row, width, j + row.cells[j].span)
    requires Tildes(RowText(row, width, j + row.cells[j].span)) == 0
    ensures WellFormed(RowText(row, width, j))
    ensures |Visible(RowText(row, width, j))| == RestWidth(row, width, j) && Tildes(RowText(row, width, j)) == 0
  {
    hide *;
    RestOfTiled(row, width, j);
    TiledStep(row, width, j);
    var next := j + row.cells[j].span;
    CellFillsColumns(row, width, j);
    StepWidth(row, width, j);
    RowTextStep(row, width, j);
    VisibleJoin(CellText(row, width, j), RowText(row, width, next));
    TildesJoin(CellText(row, width, j), RowText(row, width, next));
    assert WellFormed(RowText(row, width, j)) && Tildes(RowText(row, width, j)) == 0;
    assert |Visible(RowText(row, width, j))| == RestWidth(row, width, j);
  }

  lemma {:induction false} RestOfTiled(row: Row, width: nat, j: nat)
    requires row.Valid() && Tiled(row, width, j)
    ensures |row.cells| == row.columns && AllPrintable(row, width, j)
    ensures j >= row.columns ==> RowText(row, width, j) == "" && WellFormed("") && Visible("") == ""
    ensures j >= row.columns ==> Tildes("") == 0 && RestWidth(row, width, j) == 0
  {
    TiledIsPrintable(row, width, j);
  }

  /** A row whose spans add up to its columns is exactly as wide as the grid. */
  lemma {:induction false} RowFillsWidth(row: Row, width: nat)
    requires row.Valid() && Tiled(row, width, 0)
    ensures AllPrintable(row, width, 0) && |Printed(RowText(row, width, 0))| == width
  {
    RestOfRow(row, width, 0);
    PrintedLength(RowText(row, width, 0));
  }

  // ---------------------------------------------------------------- filling the grid

  /** What grid_add is called with; no border and no colour leave the cell's own. */
  datatype Entry = Entry(align: Align, colspan: nat, border: Option<Border>, color: Option<string>,
                         leftMargin: int, rightMargin: int, value: string)

  function UMAX(a: int, b: int): int {
    if a > b then a else b
  }

  /** What grid_set and grid_add make of a cell. */
  function CellOf(was: Cell, e: Entry): Cell {
    Cell(e.value, UMAX(1, e.colspan), UMAX(0, e.leftMargin), UMAX(0, e.rightMargin), e.align,
         if e.color.Some? then e.color.value else was.color, if e.border.Some? then e.border.value else was.border)
  }

  datatype View = View(rows: seq<Row>, x: nat, y: nat)

  predicate Sound(v: View) {
    |v.rows| == v.y + 1 && forall i :: 0 <= i < |v.rows| ==> v.rows[i].Valid()
  }

  function RowWith(row: Row, x: nat, e: Entry): (r: Row)
    requires row.Valid() && x < row.columns
    ensures r.Valid() && r.columns == row.columns
  {
    row.(cells := row.cells[x := CellOf(row.cells[x], e)])
  }

  /** The table after grid_add: a full row is left for a new one. */
  function Added(v: View, width: nat, columns: nat, e: Entry): (r: View)
    requires Sound(v) && columns >= 1
    ensures Sound(r)
  {
    if v.x >= v.rows[v.y].columns then View(v.rows + [RowWith(EmptyRow(width, columns), 0, e)], e.colspan, v.y + 1)
    else View(v.rows[v.y := RowWith(v.rows[v.y], v.x, e)], v.x + e.colspan, v.y)
  }

  /** An entry that fits at column j of a new row. */
  predicate FitsAt(e: Entry, width: nat, columns: nat, j: nat)
    requires j < columns
  {
    var row := RowWith(EmptyRow(width, columns), j, e);
    e.colspan >= 1 && GoodParts(row, width, j) && Fitting(row, width, j)
  }

  /** Entries that fill a new row from column j on: each fits, and the spans end at the last column. */
  predicate FillRow(es: seq<Entry>, width: nat, columns: nat, j: nat)
    decreases es
  {
    if es == [] then j == columns
    else j < columns && FitsAt(es[0], width, columns, j) && FillRow(es[1..], width, columns, j + es[0].colspan)
  }

  /** A row of the grid that is filled up to column x; the rest is as in a new row. */
  predicate Filling(row: Row, width: nat, x: nat) {
    && row.Valid() && x <= row.columns && row.columnsize == width / row.columns
    && TiledUpTo(row, width, 0, x)
    && forall k :: x <= k < row.columns ==> row.cells[k] == EMPTY_CELL
  }

  lemma {:induction false} TileFirst(row: Row, width: nat, j: nat, to: nat)
    requires row.Valid() && j < to <= row.columns
    ensures TiledUpTo(row, width, j, to) <==>
              GoodParts(row, width, j) && Fitting(row, width, j) && TiledUpTo(row, width, j + row.cells[j].span, to)
    ensures TiledUpTo(row, width, j, to) ==> j + row.cells[j].span <= to
  {
    hide GoodParts, Fitting;
  }

  lemma {:induction false} TileNone(row: Row, width: nat, j: nat, to: nat)
    requires row.Valid() && to <= j && to <= row.columns
    ensures TiledUpTo(row, width, j, to) <==> j == to
  {
  }

  lemma {:induction false} RowWithCells(row: Row, x: nat, e: Entry)
    requires row.Valid() && x < row.columns && e.colspan >= 1
    ensures var r := RowWith(row, x, e);
            && r.columnsize == row.columnsize && r.cells[x] == CellOf(row.cells[x], e) && r.cells[x].span == e.colspan
            && forall k :: 0 <= k < row.columns && k != x ==> r.cells[k] == row.cells[k]
  {
  }

  lemma {:induction false} FitsInRow(row: Row, width: nat, x: nat, e: Entry)
    requires row.Valid() && x < row.columns && row.columnsize == width / row.columns && row.cells[x] == EMPTY_CELL
    requires FitsAt(e, width, row.columns, x)
    ensures e.colspan >= 1 && GoodParts(RowWith(row, x, e), width, x) && Fitting(RowWith(row, x, e), width, x)
  {
    var new' := EmptyRow(width, row.columns);
    RowWithCells(row, x, e);
    RowWithCells(new', x, e);
    hide GoodParts, Fitting, RowWith, CellOf;
    SameCell(RowWith(new', x, e), RowWith(row, x, e), width, x);
  }

  /** Setting the cell behind a tiled part extends the part. */
  lemma {:induction false} TileExtends(row: Row, width: nat, j: nat, x: nat, e: Entry)
    requires row.Valid() && j <= x < row.columns && e.colspan >= 1 && x + e.colspan <= row.columns
    requires TiledUpTo(row, width, j, x)
    requires GoodParts(RowWith(row, x, e), width, x) && Fitting(RowWith(row, x, e), width, x)
    ensures TiledUpTo(RowWith(row, x, e), width, j, x + e.colspan)
    decreases x - j
  {
    RowWithCells(row, x, e);
    hide *;
    TileOn(row, RowWith(row, x, e), width, j, x, e.colspan);
  }

  lemma {:induction false} TileOn(row: Row, row': Row, width: nat, j: nat, x: nat, span: nat)
    requires row.Valid() && row'.Valid() && row.columns == row'.columns && row.columnsize == row'.columnsize
    requires j <= x < row.columns && x + span <= row.columns && row'.cells[x].span == span >= 1
    requires forall k :: 0 <= k < row.columns && k != x ==> row'.cells[k] == row.cells[k]
    requires TiledUpTo(row, width, j, x)
    requires GoodParts(row', width, x) && Fitting(row', width, x)
    ensures TiledUpTo(row', width, j, x + span)
    decreases x - j
  {
    var to := x + span;
    hide TiledUpTo, GoodParts, Fitting;
    TileFirst(row', width, j, to);
    if j < x {
      TileFirst(row, width, j, x);
      TileOn(row, row', width, j + row.cells[j].span, x, span);
      SameCell(row, row', width, j);
    } else {
      TileNone(row', width, to, to);
    }
  }

  lemma {:induction false} SameCell(r: Row, r': Row, width: nat, j: nat)
    requires r.Valid() && r'.Valid() && r.columns == r'.columns && r.columnsize == r'.columnsize
    requires j < r.columns && r.cells[j] == r'.cells[j]
    ensures GoodParts(r, width, j) == GoodParts(r', width, j) && Fitting(r, width, j) == Fitting(r', width, j)
  {
  }

  lemma {:induction false} FillingMore(row: Row, width: nat, x: nat, e: Entry)
    requires Filling(row, width, x) && x < row.columns
    requires FitsAt(e, width, row.columns, x) && x + e.colspan <= row.columns
    ensures e.colspan >= 1 && Filling(RowWith(row, x, e), width, x + e.colspan)
  {
    hide GoodParts, Fitting, FitsAt, TiledUpTo, CellOf;
    FitsInRow(row, width, x, e);
    TileExtends(row, width, 0, x, e);
    RowWithCells(row, x, e);
  }

  lemma {:induction false} SpansOfFill(es: seq<Entry>, width: nat, columns: nat, j: nat)
    requires FillRow(es, width, columns, j)
    ensures forall k :: 0 <= k < |es| ==> es[k].colspan >= 1
    decreases es
  {
    if es != [] {
      hide FillRow, FitsAt;
      FirstFits(es, width, columns, j);
      SpansOfFill(es[1..], width, columns, j + es[0].colspan);
      assert forall k :: 1 <= k < |es| ==> es[k] == es[1..][k - 1];
    }
  }

  lemma {:induction false} FirstFits(es: seq<Entry>, width: nat, columns: nat, j: nat)
    requires FillRow(es, width, columns, j) && es != []
    ensures es[0].colspan >= 1 && FillRow(es[1..], width, columns, j + es[0].colspan)
  {
    hide GoodParts, Fitting;
  }

  lemma {:induction false} EntryEntered(row: Row, width: nat, x: nat, e: Entry)
    requires Filling(row, width, x) && x < row.columns
    requires FitsAt(e, width, row.columns, x) && x + e.colspan <= row.columns
    ensures row.Valid() && e.colspan >= 1
    ensures var r := RowWith(row, x, e);
            && Filling(r, width, x + e.colspan) && r.columns == row.columns && r.cells[x] == CellOf(EMPTY_CELL, e)
            && forall j :: 0 <= j < row.columns && j != x ==> r.cells[j] == row.cells[j]
  {
    FillingMore(row, width, x, e);
    hide GoodParts, Fitting, FitsAt, TiledUpTo, CellOf;
    RowWithCells(row, x, e);
  }

  lemma {:induction false} FillEnds(es: seq<Entry>, width: nat, columns: nat, j: nat)
    requires FillRow(es, width, columns, j)
    ensures j <= columns
  {
  }

  /** What grid_add does to the table, cell by cell: the entry is in the next cell, in a new row of plain cells when
      the last one is full, and no other cell changes. */
  lemma {:induction false} EntryIsAdded(v: View, width: nat, columns: nat, e: Entry, y: nat, x: nat)
    requires Sound(v) && columns >= 1
    ensures var r, full := Added(v, width, columns, e), v.x >= v.rows[v.y].columns;
            && r.y == (if full then v.y + 1 else v.y) && r.x == (if full then 0 else v.x) + e.colspan
            && |r.rows| == r.y + 1
            && (full ==> r.rows[r.y].columns == columns && r.rows[r.y].columnsize == width / columns)
            && (y <= v.y ==> r.rows[y].columns == v.rows[y].columns && r.rows[y].columnsize == v.rows[y].columnsize)
            && (y <= r.y && x < r.rows[y].columns ==>
                  var was := if y <= v.y then v.rows[y].cells[x] else Cell("", 1, 0, 0, Left, "", NO_BORDER);
                  if y == r.y && x + e.colspan == r.x
                  then EntryInCell(e, was, r.rows[y].cells[x]) else r.rows[y].cells[x] == was)
  {
  }

  /** The cell has all of the entry, and its own colour and border where the entry has none. */
  predicate EntryInCell(e: Entry, was: Cell, c: Cell) {
    && c.value == e.value && c.align == e.align && c.span == (if e.colspan == 0 then 1 else e.colspan)
    && c.leftMargin == (if e.leftMargin < 0 then 0 else e.leftMargin)
    && c.rightMargin == (if e.rightMargin < 0 then 0 else e.rightMargin)
    && c.color == (if e.color == None then was.color else e.color.value)
    && c.border == (if e.border == None then was.border else e.border.value)
  }

  // ---------------------------------------------------------------- what a table shows

  /** The columns before the k-th entry of a row. */
  function StartOf(es: seq<Entry>, k: nat): nat
    requires k <= |es|
  {
    if k == 0 then 0 else StartOf(es, k - 1) + es[k - 1].colspan
  }

  /** The first n entries are in the cells where they start. */
  predicate Entered(row: Row, es: seq<Entry>, n: nat)
    requires row.Valid() && n <= |es|
  {
    forall k :: 0 <= k < n ==>
      StartOf(es, k) < row.columns && row.cells[StartOf(es, k)] == CellOf(EMPTY_CELL, es[k])
  }

  /** A row that has been built from the entries. */
  predicate Built(row: Row, es: seq<Entry>, width: nat, columns: nat) {
    && row.Valid() && row.columns == columns == StartOf(es, |es|) && row.columnsize == width / columns
    && Tiled(row, width, 0) && Entered(row, es, |es|) && forall k :: 0 <= k < |es| ==> es[k].colspan >= 1
  }

  lemma {:induction false} FirstEntered(row: Row, es: seq<Entry>)
    requires row.Valid() && es != [] && row.cells[0] == CellOf(EMPTY_CELL, es[0])
    ensures StartOf(es, 1) == es[0].colspan && Entered(row, es, 1)
  {
    assert StartOf(es, 0) == 0;
  }

  lemma {:induction false} StartsRise(es: seq<Entry>, k: nat, n: nat)
    requires k < n <= |es| && forall i :: 0 <= i < |es| ==> es[i].colspan >= 1
    ensures StartOf(es, k) < StartOf(es, n)
  {
    if k < n - 1 {
      StartsRise(es, k, n - 1);
    }
  }

  lemma {:induction false} EnteredMore(row: Row, row': Row, es: seq<Entry>, n: nat)
    requires row.Valid() && row'.Valid() && n < |es| && Entered(row, es, n) && row'.columns == row.columns
    requires forall i :: 0 <= i < |es| ==> es[i].colspan >= 1
    requires StartOf(es, n) < row.columns && row'.cells[StartOf(es, n)] == CellOf(EMPTY_CELL, es[n])
    requires forall j :: 0 <= j < row.columns && j != StartOf(es, n) ==> row'.cells[j] == row.cells[j]
    ensures Entered(row', es, n + 1)
  {
    hide CellOf, StartOf;
    forall k | 0 <= k < n
      ensures row'.cells[StartOf(es, k)] == CellOf(EMPTY_CELL, es[k])
    {
      StartsRise(es, k, n);
    }
  }

  /** What is shown of an entry: in columnsize columns for each column that it spans, behind those of the entries
      before it, and for the last entry up to the width. */
  predicate EntryShown(es: seq<Entry>, columnsize: nat, width: nat, k: nat, shown: string)
    requires k < |es|
  {
    var from, to := columnsize * StartOf(es, k), if k == |es| - 1 then width else columnsize * StartOf(es, k + 1);
    0 <= from <= to <= |shown| && Shows(CellOf(EMPTY_CELL, es[k]), to - from, shown[from..to])
  }

  /** A line shows every entry of its row in the entry's columns. */
  predicate LineShows(es: seq<Entry>, width: nat, columns: nat, shown: string)
    requires columns >= 1
  {
    |shown| == width && forall k :: 0 <= k < |es| ==> EntryShown(es, width / columns, width, k, shown)
  }

  lemma {:induction false} BuiltParts(row: Row, es: seq<Entry>, width: nat, columns: nat, k: nat)
    requires Built(row, es, width, columns) && k < |es|
    ensures row.Valid() && row.columns == columns && row.columnsize == width / columns && Tiled(row, width, 0)
    ensures StartOf(es, k) < columns && row.cells[StartOf(es, k)] == CellOf(EMPTY_CELL, es[k])
    ensures row.cells[StartOf(es, k)].span == es[k].colspan
    ensures StartOf(es, k + 1) == StartOf(es, k) + es[k].colspan && StartOf(es, |es|) == columns
  {
    hide Tiled;
  }

  lemma {:induction false} NextIsTiled(row: Row, width: nat, j: nat)
    requires row.Valid() && Tiled(row, width, j) && j < row.columns
    ensures |row.cells| == row.columns && AllPrintable(row, width, j) && Printable(row, width, j)
    ensures GoodParts(row, width, j) && Fitting(row, width, j)
    ensures var next := j + row.cells[j].span;
            Tiled(row, width, next) && AllPrintable(row, width, next) && next <= row.columns
  {
    TiledStep(row, width, j);
    TilePrints(row, width, j);
    hide *;
    TiledIsPrintable(row, width, j);
    TiledIsPrintable(row, width, j + row.cells[j].span);
  }

  /** What is shown from a tiled column on begins with the cell there. */
  lemma {:induction false} CellFirst(row: Row, width: nat, j: nat)
    requires row.Valid() && Tiled(row, width, j) && j < row.columns
    ensures AllPrintable(row, width, j) && Printable(row, width, j)
    ensures AllPrintable(row, width, j + row.cells[j].span)
    ensures Visible(RowText(row, width, j)) ==
            Visible(CellText(row, width, j)) + Visible(RowText(row, width, j + row.cells[j].span))
  {
    hide *;
    NextIsTiled(row, width, j);
    var next := j + row.cells[j].span;
    CellFillsColumns(row, width, j);
    RowTextStep(row, width, j);
    VisibleJoin(CellText(row, width, j), RowText(row, width, next));
    assert Visible(RowText(row, width, j)) == Visible(CellText(row, width, j)) + Visible(RowText(row, width, next));
  }

  lemma {:induction false} TilePrints(row: Row, width: nat, j: nat)
    requires row.Valid() && j < row.columns && GoodParts(row, width, j)
    ensures |row.cells| == row.columns && Printable(row, width, j)
  {
  }

  lemma {:induction false} FurtherOn(s: string, at: nat, c: string, rest: string)
    requires at <= |s| && s[at..] == c + rest
    ensures at + |c| + |rest| == |s| && s[at + |c|..] == rest && s[at..at + |c|] == c
  {
    assert s == s[..at] + s[at..];
  }

  /** The columns before the k-th entry. */
  function Before(row: Row, es: seq<Entry>, k: nat): int
    requires k <= |es|
  {
    row.columnsize * StartOf(es, k)
  }

  lemma {:induction false} BeforeStep(row: Row, es: seq<Entry>, k: nat)
    requires k < |es|
    ensures Before(row, es, k + 1) == Before(row, es, k) + row.columnsize * es[k].colspan
  {
    assert StartOf(es, k + 1) == StartOf(es, k) + es[k].colspan;
    hide StartOf;
    Distribute(row.columnsize, StartOf(es, k), es[k].colspan);
  }

  lemma {:induction false} GivenInside(row: Row, width: nat, j: nat)
    requires row.Valid() && j < row.columns && j + row.cells[j].span < row.columns
    ensures Given(row, width, j) == row.columnsize * row.cells[j].span
  {
  }

  lemma {:induction false} BuiltInside(row: Row, es: seq<Entry>, width: nat, columns: nat, k: nat)
    requires Built(row, es, width, columns) && k < |es| - 1
    ensures StartOf(es, k + 1) < columns
  {
    StartsRise(es, k + 1, |es|);
  }

  lemma {:induction false} BeforeNext(row: Row, es: seq<Entry>, width: nat, columns: nat, k: nat)
    requires Built(row, es, width, columns) && k < |es| - 1
    ensures row.Valid() && StartOf(es, k) < row.columns
    ensures Before(row, es, k + 1) == Before(row, es, k) + Given(row, width, StartOf(es, k))
  {
    BuiltParts(row, es, width, columns, k);
    hide Built, Tiled, CellOf, StartOf, Given, Before;
    BuiltInside(row, es, width, columns, k);
    GivenInside(row, width, StartOf(es, k));
    BeforeStep(row, es, k);
  }

  /** Behind the columns of the entries before it, the line shows what the row shows from the entry's column on. */
  lemma {:induction false} LineFrom(row: Row, es: seq<Entry>, width: nat, columns: nat, k: nat)
    requires Built(row, es, width, columns) && k < |es|
    ensures RestIsAt(row, width, StartOf(es, k), Before(row, es, k))
    ensures row.Valid() && StartOf(es, k) < row.columns
  {
    hide *;
    BuiltParts(row, es, width, columns, k);
    if k == 0 {
      RestAtStart(row, width);
      NothingBefore(row, es);
    } else {
      LineFrom(row, es, width, columns, k - 1);
      BuiltParts(row, es, width, columns, k - 1);
      BeforeNext(row, es, width, columns, k - 1);
      RestIsNext(row, width, StartOf(es, k - 1), Before(row, es, k - 1));
    }
    assert RestIsAt(row, width, StartOf(es, k), Before(row, es, k));
  }

  lemma {:induction false} NothingBefore(row: Row, es: seq<Entry>)
    ensures StartOf(es, 0) == 0 && Before(row, es, 0) == 0
  {
  }

  /** From the at-th character on, the line of the row shows what is printed from column j on. */
  predicate RestIsAt(row: Row, width: nat, j: nat, at: int) {
    && row.Valid() && j <= row.columns && Tiled(row, width, j)
    && AllPrintable(row, width, 0) && AllPrintable(row, width, j)
    && var shown := Visible(RowText(row, width, 0));
       0 <= at <= |shown| && shown[at..] == Visible(RowText(row, width, j))
  }

  lemma {:induction false} RestAtStart(row: Row, width: nat)
    requires row.Valid() && Tiled(row, width, 0)
    ensures RestIsAt(row, width, 0, 0)
  {
    TiledIsPrintable(row, width, 0);
    var shown := Visible(RowText(row, width, 0));
    assert shown[0..] == shown;
    hide Visible, RowText, Tiled, AllPrintable;
  }

  lemma {:induction false} RestIsNext(row: Row, width: nat, j: nat, at: int)
    requires RestIsAt(row, width, j, at) && j < row.columns
    ensures row.Valid() && AllPrintable(row, width, 0) && Printable(row, width, j)
    ensures RestIsAt(row, width, j + row.cells[j].span, at + Given(row, width, j))
    ensures var shown, cell := Visible(RowText(row, width, 0)), Visible(CellText(row, width, j));
            && 0 <= at && |cell| == Given(row, width, j) && at + |cell| <= |shown| && shown[at..at + |cell|] == cell
            && Shows(row.cells[j], Given(row, width, j), shown[at..at + Given(row, width, j)])
  {
    hide Tiled, AllPrintable, RowText, CellText, Visible, Given, Printable, Shows, GoodParts, Fitting;
    NextIsTiled(row, width, j);
    CellFirst(row, width, j);
    CellFillsColumns(row, width, j);
    CellShows(row, width, j);
    FurtherOn(Visible(RowText(row, width, 0)), at, Visible(CellText(row, width, j)),
              Visible(RowText(row, width, j + row.cells[j].span)));
  }

  lemma {:induction false} EntryIsShown(row: Row, es: seq<Entry>, width: nat, columns: nat, k: nat)
    requires Built(row, es, width, columns) && k < |es|
    ensures row.Valid() && AllPrintable(row, width, 0)
    ensures EntryShown(es, row.columnsize, width, k, Visible(RowText(row, width, 0)))
  {
    hide *;
    BuiltParts(row, es, width, columns, k);
    TiledIsPrintable(row, width, 0);
    LineFrom(row, es, width, columns, k);
    RestIsNext(row, width, StartOf(es, k), Before(row, es, k));
    if k < |es| - 1 {
      BeforeNext(row, es, width, columns, k);
    } else {
      LastEnds(row, width, StartOf(es, k), Before(row, es, k));
    }
    EntryShownFrom(row, es, width, k, Visible(RowText(row, width, 0)),
                   Before(row, es, k) + Given(row, width, StartOf(es, k)));
  }

  lemma {:induction false} LastEnds(row: Row, width: nat, j: nat, at: int)
    requires RestIsAt(row, width, j, at) && Tiled(row, width, 0) && j < row.columns
    requires j + row.cells[j].span == row.columns
    ensures at + Given(row, width, j) == width
  {
    hide Tiled, AllPrintable, RowText, Visible, Given;
    RestIsNext(row, width, j, at);
    RestOfRow(row, width, 0);
    RestOfRow(row, width, j);
    RestWidths(row, width, j);
  }

  lemma {:induction false} RestWidths(row: Row, width: nat, j: nat)
    requires row.Valid() && j < row.columns && j + row.cells[j].span == row.columns
    ensures RestWidth(row, width, 0) == width && RestWidth(row, width, j) == Given(row, width, j)
  {
    Distribute(row.columnsize, j, row.cells[j].span);
  }

  lemma {:induction false} EntryShownFrom(row: Row, es: seq<Entry>, width: nat, k: nat, shown: string, to: nat)
    requires k < |es| && to == if k == |es| - 1 then width else Before(row, es, k + 1)
    requires 0 <= Before(row, es, k) <= to <= |shown|
    requires Shows(CellOf(EMPTY_CELL, es[k]), to - Before(row, es, k), shown[Before(row, es, k)..to])
    ensures EntryShown(es, row.columnsize, width, k, shown)
  {
    hide Shows, CellOf;
  }

  lemma {:induction false} BuiltShows(row: Row, es: seq<Entry>, width: nat, columns: nat)
    requires Built(row, es, width, columns) && columns >= 1
    ensures row.Valid() && AllPrintable(row, width, 0)
    ensures LineShows(es, width, columns, Visible(RowText(row, width, 0)))
  {
    TiledIsPrintable(row, width, 0);
    RestOfRow(row, width, 0);
    assert row.columnsize == width / columns && RestWidth(row, width, 0) == width;
    hide Built, AllPrintable, RowText, Visible, EntryShown;
    forall k | 0 <= k < |es|
      ensures EntryShown(es, width / columns, width, k, Visible(RowText(row, width, 0)))
    {
      EntryIsShown(row, es, width, columns, k);
    }
  }

  class Grid {
    const width: nat
    const defaultcolumns: nat
    var rows: seq<Row>
    var x: nat
    var y: nat

    function Now(): View
      reads this
    {
      View(rows, x, y)
    }

    predicate Valid()
      reads this
    {
      defaultcolumns >= 1 && Sound(Now())
    }

    /** new_grid */
    constructor (width: nat, columns: nat)
      requires columns >= 1
      ensures Valid() && this.width == width && defaultcolumns == columns
      ensures Now() == View([EmptyRow(width, columns)], 0, 0)
    {
      this.width, defaultcolumns := width, columns;
      rows := [EmptyRow(width, columns)];
      x, y := 0, 0;
    }

    /** next_row */
    method NextRow()
      requires Valid()
      modifies this
      ensures Valid() && Now() == View(old(rows) + [EmptyRow(width, defaultcolumns)], 0, old(y) + 1)
    {
      x := 0;
      y := y + 1;
      if y >= |rows| {
        rows := rows + [EmptyRow(width, defaultcolumns)];
      }
    }

    /** The place is refused. */
    predicate Outside(x: int, y: int)
      requires Valid()
      reads this
    {
      y < 0 || y > |rows| || x < 0 || x > rows[this.y].columns
    }

    /** grid_set, for a place that is refused or a cell that exists */
    method GridSet(x: int, y: int, align: Align, colspan: nat, border: Option<Border>, color: Option<string>,
        leftMar: int, rightMar: int)
      requires Valid() && (Outside(x, y) || (y < |rows| && x < rows[y].columns))
      modifies this
      ensures Valid() && this.x == old(this.x) && this.y == old(this.y)
      ensures old(Outside(x, y)) ==> rows == old(rows)
      ensures !old(Outside(x, y)) ==>
          var e := Entry(align, colspan, border, color, leftMar, rightMar, old(rows)[y].cells[x].value);
          rows == old(rows)[y := RowWith(old(rows)[y], x, e)]
    {
      if y < 0 || y > |rows| || x < 0 || x > rows[this.y].columns {
        return;
      }
      var cell := rows[y].cells[x].(span := UMAX(1, colspan));
      if border.Some? {
        cell := cell.(border := border.value);
      }
      if color.Some? {
        cell := cell.(color := color.value);
      }
      cell := cell.(leftMargin := UMAX(0, leftMar), rightMargin := UMAX(0, rightMar), align := align);
      rows := rows[y := rows[y].(cells := rows[y].cells[x := cell])];
    }

    /** grid_add */
    method GridAdd(e: Entry) returns (column: nat)
      requires Valid()
      modifies this
      ensures Valid() && Now() == Added(old(Now()), width, defaultcolumns, e)
      ensures column + e.colspan == x
    {
      if x >= rows[y].columns {
        NextRow();
      }
      ghost var start, fresh' := rows, RowWith(rows[y], x, e);
      GridSet(x, y, e.align, e.colspan, e.border, e.color, e.leftMargin, e.rightMargin);
      column := x;
      var cell := rows[y].cells[x].(value := e.value);
      var row := rows[y].(cells := rows[y].cells[x := cell]);
      assert row.cells == fresh'.cells;
      rows := rows[y := row];
      assert rows == start[y := fresh'];
      x := x + e.colspan;
    }

    /** grid_add with room left in a row that is filled up to x. */
    method AddNext(e: Entry)
      requires Valid() && x < rows[y].columns && Filling(rows[y], width, x)
      requires FitsAt(e, width, rows[y].columns, x) && x + e.colspan <= rows[y].columns
      modifies this
      ensures Valid() && Filling(rows[y], width, x) && x == old(x) + e.colspan
      ensures y == old(y) && rows == old(rows)[y := RowWith(old(rows)[y], old(x), e)]
    {
      hide FitsAt, Filling, CellOf, RowWith;
      EntryEntered(rows[y], width, x, e);
      var _ := GridAdd(e);
      assert Filling(rows[y], width, x);
    }

    /** grid_add with a full row. */
    method AddFirst(e: Entry)
      requires Valid() && x >= rows[y].columns && FitsAt(e, width, defaultcolumns, 0) && e.colspan <= defaultcolumns
      modifies this
      ensures Valid() && Filling(rows[y], width, x) && x == e.colspan
      ensures y == old(y) + 1 && rows[..y] == old(rows) && rows[y].columns == defaultcolumns
      ensures rows[y].cells[0] == CellOf(EMPTY_CELL, e)
    {
      assert Filling(EmptyRow(width, defaultcolumns), width, 0);
      hide FitsAt, Filling, CellOf, RowWith;
      EntryEntered(EmptyRow(width, defaultcolumns), width, 0, e);
      var _ := GridAdd(e);
      assert rows[..y] == old(rows);
    }

    method AddRest(es: seq<Entry>, n: nat)
      requires Valid() && rows[y].columns == defaultcolumns && Filling(rows[y], width, x)
      requires n <= |es| && FillRow(es[n..], width, defaultcolumns, x) && x == StartOf(es, n)
      requires Entered(rows[y], es, n) && forall k :: 0 <= k < |es| ==> es[k].colspan >= 1
      modifies this
      ensures Valid() && x == defaultcolumns && Built(rows[y], es, width, defaultcolumns)
      ensures y == old(y) && rows[..y] == old(rows)[..y]
    {
      hide FitsAt, TiledUpTo, GoodParts, Fitting, CellOf, RowWith, Entered;
      var i := n;
      while i < |es|
        invariant n <= i <= |es| && Valid() && rows[y].columns == defaultcolumns
        invariant y == old(y) && rows[..y] == old(rows)[..y]
        invariant Filling(rows[y], width, x) && FillRow(es[i..], width, defaultcolumns, x)
        invariant x == StartOf(es, i) && Entered(rows[y], es, i)
      {
        assert es[i..][0] == es[i] && es[i..][1..] == es[i + 1..];
        FillEnds(es[i + 1..], width, defaultcolumns, x + es[i].colspan);
        ghost var row := rows[y];
        EntryEntered(row, width, x, es[i]);
        AddNext(es[i]);
        EnteredMore(row, rows[y], es, i);
        i := i + 1;
      }
    }

    /** A row that is built by grid_add from entries whose spans add up to the columns will be as wide as the grid. */
    method AddRow(es: seq<Entry>)
      requires Valid() && FillRow(es, width, defaultcolumns, 0)
      requires x >= rows[y].columns || (x == 0 && rows[y] == EmptyRow(width, defaultcolumns))
      modifies this
      ensures Valid() && x == rows[y].columns == defaultcolumns && Built(rows[y], es, width, defaultcolumns)
      ensures y == (if old(x) >= old(rows)[old(y)].columns then old(y) + 1 else old(y)) && rows[..y] == old(rows)[..y]
    {
      SpansOfFill(es, width, defaultcolumns, 0);
      if x >= rows[y].columns {
        FillEnds(es[1..], width, defaultcolumns, es[0].colspan);
        hide FitsAt, TiledUpTo, Filling, StartOf, CellOf, Entered;
        AddFirst(es[0]);
        FirstEntered(rows[y], es);
        AddRest(es, 1);
      } else {
        assert es[0..] == es && StartOf(es, 0) == 0;
        AddRest(es, 0);
      }
    }

    /** grid_print; each line is written with its end. */
    method GridPrint() returns (lines: seq<string>)
      requires Valid() && forall i :: 0 <= i < |rows| ==> AllPrintable(rows[i], width, 0)
      ensures |lines| == |rows|
      ensures forall i :: 0 <= i < |rows| ==> lines[i] == RowText(rows[i], width, 0)
      ensures forall i :: 0 <= i < |rows| && Tiled(rows[i], width, 0) ==> |Printed(lines[i])| == width
    {
      lines := [];
      for i := 0 to |rows|
        invariant |lines| == i && forall k :: 0 <= k < i ==> lines[k] == RowText(rows[k], width, 0)
      {
        var line := PrintRow(rows[i]);
        lines := lines + [line];
      }
      forall i | 0 <= i < |rows| && Tiled(rows[i], width, 0)
        ensures |Printed(lines[i])| == width
      {
        RowFillsWidth(rows[i], width);
      }
    }

    /** The inner loop of grid_print. */
    method PrintRow(row: Row) returns (line: string)
      requires row.Valid() && AllPrintable(row, width, 0)
      ensures line == RowText(row, width, 0)
    {
      hide WellFormed, Aligned, CellText, AllPrintable, RowText, Printable;
      line := "";
      var j := 0;
      while j < row.columns
        invariant 0 <= j && AllPrintable(row, width, j)
        invariant line + RowText(row, width, j) == RowText(row, width, 0)
        decreases row.columns - j
      {
        RowTextStep(row, width, j);
        ghost var before := line;
        var cell := PrintCell(row, j);
        line := line + cell;
        j := j + row.cells[j].span;
      }
      RowTextEnd(row, width, j);
    }

    /** The body of grid_print's inner loop. */
    method PrintCell(row: Row, j: nat) returns (text: string)
      requires row.Valid() && j < row.columns && Printable(row, width, j)
      ensures text == CellText(row, width, j)
    {
      hide WellFormed, Aligned, Visible;
      var cell := row.cells[j];
      var border := cell.border;
      var widthAdjust := cell.leftMargin + cell.rightMargin;
      text := Edge(border.left, border);
      if border.left {
        widthAdjust := widthAdjust + 1;
      }
      var margin := Margin(cell.leftMargin);
      text := text + margin;
      if border.right {
        widthAdjust := widthAdjust + 1;
      }
      var colwidth := row.columnsize * cell.span - widthAdjust;
      if j + cell.span >= row.columns {
        var loss := width - row.columnsize * row.columns;
        colwidth := colwidth + loss;
      }
      var value := AlignString(cell.align, colwidth, cell.color, "", cell.value);
      text := text + value;
      margin := Margin(cell.rightMargin);
      text := text + margin;
      var edge := Edge(border.right, border);
      text := text + edge;
    }

    static method Edge(present: bool, border: Border) returns (text: string)
      ensures text == if present then BorderText(border) else ""
    {
      text := "";
      if present {
        text := border.color + [border.vertical] + "~x";
      }
    }

    static method Margin(n: nat) returns (text: string)
      ensures text == Spaces(n)
    {
      text := "";
      if n > 0 {
        text := Spaces(n);
      }
    }
  }

  lemma {:induction false} RowTextEnd(row: Row, width: nat, j: nat)
    requires row.Valid() && j >= row.columns && AllPrintable(row, width, j)
    ensures RowText(row, width, j) == ""
  {
  }

  /** A whole table: rows whose spans add up are printed as lines that are all exactly as wide as the table. */
  method PrintTable(width: nat, columns: nat, table: seq<seq<Entry>>) returns (lines: seq<string>)
    requires columns >= 1 && table != []
    requires forall i :: 0 <= i < |table| ==> FillRow(table[i], width, columns, 0)
    ensures |lines| == |table| && forall i :: 0 <= i < |lines| ==> |Printed(lines[i])| == width
    ensures forall i :: 0 <= i < |lines| ==> LineShows(table[i], width, columns, Visible(lines[i]))
  {
    hide Built, Tiled, TiledUpTo, FillRow, AllPrintable, Visible, RowText, LineShows, Printed;
    var g := new Grid(width, columns);
    GridIsSound(g);
    g.AddRow(table[0]);
    var n := 1;
    while n < |table|
      invariant 1 <= n <= |table| && fresh(g) && g.width == width && g.defaultcolumns == columns
      invariant g.Valid() && |g.rows| == n && g.y == n - 1 && g.x >= g.rows[g.y].columns
      invariant forall i :: 0 <= i < n ==> Built(g.rows[i], table[i], width, columns)
    {
      ghost var before := g.rows;
      g.AddRow(table[n]);
      GridIsSound(g);
      assert forall i :: 0 <= i < n ==> g.rows[i] == g.rows[..n][i] == before[i];
      n := n + 1;
    }
    forall i | 0 <= i < |g.rows|
      ensures AllPrintable(g.rows[i], width, 0) && Tiled(g.rows[i], width, 0)
      ensures LineShows(table[i], width, columns, Visible(RowText(g.rows[i], width, 0)))
    {
      BuiltShows(g.rows[i], table[i], width, columns);
      BuiltIsTiled(g.rows[i], table[i], width, columns);
    }
    lines := g.GridPrint();
  }

  lemma {:induction false} BuiltIsTiled(row: Row, es: seq<Entry>, width: nat, columns: nat)
    requires Built(row, es, width, columns)
    ensures row.Valid() && Tiled(row, width, 0)
  {
  }

  lemma {:induction false} GridIsSound(g: Grid)
    requires g.Valid()
    ensures |g.rows| == g.y + 1 && forall i :: 0 <= i < |g.rows| ==> g.rows[i].Valid()
  {
  }
}

