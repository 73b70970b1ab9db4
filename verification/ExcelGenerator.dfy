/** The spreadsheet export (js/excel-generator.js): one row per result with
    nine fixed columns, laid out under a header row as the spreadsheet
    library lays out a list of objects; the four yes/no columns coloured
    green or red; and one width per column fitted to its longest value. */
module ExcelGenerator {
  import opened Wrappers
  import opened Records

  // ------------------------------------------------------------------ rows

  /** The keys of each row object, in insertion order: the header row. */
  const Columns: seq<string> := [
    "Código Projeto",
    "Descrição Projeto",
    "Palavras-chave encontradas",
    "Nome do Arquivo",
    "Número da Prancha",
    "Nome encontrado",
    "Prancha encontrada",
    "Arquivo assinado",
    "Projeto encontrado"
  ]

  /** The columns that get conditional colours, one per flag of `AllFlags`. */
  const FlagColumns: seq<string> := ["Nome encontrado", "Prancha encontrada", "Arquivo assinado", "Projeto encontrado"]

  /** The column a flag is shown in. */
  const FirstFlagColumn := 5

  /** The name of the only worksheet of the workbook. */
  const SheetName := "Resultados PDF"

  /** The row object `prepararDadosTabela` pushes for the entry
      `fileName: d`, as its values in column order. */
  function ExcelRow(fileName: string, d: DocumentResult): (row: seq<string>)
    ensures |row| == |Columns|
    ensures row[0] == OrUnidentified(d.projectCode) && row[1] == d.projectDescription
    ensures row[2] == KeywordsText(d.stampKeywords)
    ensures row[3] == fileName
    ensures row[4] == OrUnidentified(d.sheetNumber)
    ensures forall k :: 0 <= k < |AllFlags| ==>
              (row[FirstFlagColumn + k] == Yes <==> FlagOf(d, AllFlags[k])) &&
              (row[FirstFlagColumn + k] == No <==> !FlagOf(d, AllFlags[k]))
  {
    [OrUnidentified(d.projectCode), d.projectDescription, KeywordsText(d.stampKeywords), fileName,
     OrUnidentified(d.sheetNumber), YesNo(d.nameFound), YesNo(d.sheetFound), YesNo(d.signedByName),
     YesNo(d.projectFound)]
  }

  /** `prepararDadosTabela`: one row per entry of the results object, in
      entry order. */
  method PrepareTableData(results: Results) returns (rows: seq<seq<string>>)
    ensures |rows| == |results|
    ensures forall i :: 0 <= i < |results| ==> rows[i] == ExcelRow(results[i].0, results[i].1)
  {
    rows := [];
    var i := 0;
    while i < |results|
      invariant 0 <= i <= |results|
      invariant |rows| == i
      invariant forall j :: 0 <= j < i ==> rows[j] == ExcelRow(results[j].0, results[j].1)
    {
      var (name, d) := results[i];
      rows := rows + [ExcelRow(name, d)];
      i := i + 1;
    }
  }

  // ----------------------------------------------------------------- cells

  /** A cell fill: none, or a foreground colour as an RGB hex string. */
  datatype Style = Unstyled | Fill(rgb: string)

  const Green := Fill("00FF00")
  const Red := Fill("FF2C2B")

  /** A cell: its value `v` and its style `s`. */
  datatype Cell = Cell(v: string, s: Style)

  /** The colouring of one data cell of a flag column: `"Sim"` turns green,
      `"Não"` red, anything else and an empty position stay as they are. */
  function Recolor(cell: Option<Cell>): (r: Option<Cell>)
    ensures r.Some? <==> cell.Some?
    ensures cell.Some? ==> r.value.v == cell.value.v
    ensures cell.Some? && cell.value.v == Yes ==> r.value.s == Green
    ensures cell.Some? && cell.value.v == No ==> r.value.s == Red
    ensures cell.None? || (cell.value.v != Yes && cell.value.v != No) ==> r == cell
  {
    match cell
    case None => None
    case Some(c) =>
      if c.v == Yes then Some(c.(s := Green))
      else if c.v == No then Some(c.(s := Red))
      else cell
  }

  /** Colouring twice is colouring once. */
  lemma RecolorIdempotent(cell: Option<Cell>)
    ensures Recolor(Recolor(cell)) == Recolor(cell)
  {
  }

  /** A rendered flag cell ends up green exactly when the flag is set and red
      exactly when it is not. */
  lemma FlagCellColour(b: bool, s: Style)
    ensures Recolor(Some(Cell(YesNo(b), s))).value.s == (if b then Green else Red)
  {
  }

  /** A cell holds `name`. */
  predicate Heads(cell: Option<Cell>, name: string) {
    cell.Some? && cell.value.v == name
  }

  /** The leftmost position of a header row holding `name`, or -1. */
  function LeftmostHeader(header: seq<Option<Cell>>, name: string): (c: int)
    ensures -1 <= c < |header|
    ensures c >= 0 ==> Heads(header[c], name) && forall j :: 0 <= j < c ==> !Heads(header[j], name)
    ensures c == -1 <==> forall j :: 0 <= j < |header| ==> !Heads(header[j], name)
  {
    if header == [] then -1
    else if Heads(header[0], name) then 0
    else
      var c := LeftmostHeader(header[1..], name);
      if c == -1 then -1 else c + 1
  }

  /** Column `c` is the one some flag column name is looked up to. */
  predicate IsFlagColumn(header: seq<Option<Cell>>, c: int) {
    exists k :: 0 <= k < |FlagColumns| && LeftmostHeader(header, FlagColumns[k]) == c
  }

  /** The same, for the first `n` flag column names only. */
  predicate IsFlagColumnAmong(header: seq<Option<Cell>>, c: int, n: nat) {
    exists k :: 0 <= k < n && k < |FlagColumns| && LeftmostHeader(header, FlagColumns[k]) == c
  }

  /** `cell && cell.v ? cell.v.toString().length : 0`: an empty value counts
      as no value. */
  function ValueLength(cell: Option<Cell>): nat {
    if cell.Some? && cell.value.v != "" then |cell.value.v| else 0
  }

  /** `Math.min(Math.max(maxLength + 2, 10), 50)`. */
  function Width(maxLength: nat): (w: int)
    ensures 10 <= w <= 50
    ensures 8 <= maxLength <= 48 ==> w == maxLength + 2
    ensures maxLength < 8 ==> w == 10
    ensures maxLength > 48 ==> w == 50
  {
    var wide := if maxLength + 2 > 10 then maxLength + 2 else 10;
    if wide < 50 then wide else 50
  }

  /** A longer value never gives a narrower column. */
  lemma WidthMonotone(m: nat, n: nat)
    requires m <= n
    ensures Width(m) <= Width(n)
  {
  }

  /** Every column name is written once. */
  lemma ColumnsDistinct()
    ensures forall i, j :: 0 <= i < j < |Columns| ==> Columns[i] != Columns[j]
  {
  }

  /** Under the header `json_to_sheet` writes, the flag column names are
      found at the last four columns, in flag order. */
  lemma {:induction false} HeaderFlagColumns(header: seq<Option<Cell>>)
    requires |header| == |Columns|
    requires forall c :: 0 <= c < |Columns| ==> header[c] == Some(Cell(Columns[c], Unstyled))
    ensures forall k :: 0 <= k < |FlagColumns| ==> LeftmostHeader(header, FlagColumns[k]) == FirstFlagColumn + k
    ensures forall c :: 0 <= c < |Columns| ==> (IsFlagColumn(header, c) <==> FirstFlagColumn <= c)
  {
    ColumnsDistinct();
    forall k | 0 <= k < |FlagColumns|
      ensures LeftmostHeader(header, FlagColumns[k]) == FirstFlagColumn + k
    {
      assert FlagColumns[k] == Columns[FirstFlagColumn + k];
      assert Heads(header[FirstFlagColumn + k], FlagColumns[k]);
      forall j | 0 <= j < FirstFlagColumn + k
        ensures !Heads(header[j], FlagColumns[k])
      {
        assert Columns[j] != Columns[FirstFlagColumn + k];
      }
    }
    forall c | 0 <= c < |Columns| && FirstFlagColumn <= c
      ensures IsFlagColumn(header, c)
    {
      assert LeftmostHeader(header, FlagColumns[c - FirstFlagColumn]) == c;
    }
  }

  // ------------------------------------------------------------- the sheet

  /** A worksheet: the cells of its range, which starts at A1 and covers the
      whole grid (`!ref`), and the column widths (`!cols`). */
  class Worksheet {
    const grid: array2<Option<Cell>>
    var colWidths: seq<int>

    /** A range always holds at least one cell. */
    predicate Valid() {
      grid.Length0 >= 1 && grid.Length1 >= 1
    }

    /** `json_to_sheet` on rows of the nine columns: the header row, then one
        sheet row per row object, no cell styled and no widths set. */
    constructor(rows: seq<seq<string>>)
      requires forall i :: 0 <= i < |rows| ==> |rows[i]| == |Columns|
      ensures Valid() && fresh(grid)
      ensures grid.Length0 == |rows| + 1 && grid.Length1 == |Columns|
      ensures forall c :: 0 <= c < |Columns| ==> grid[0, c] == Some(Cell(Columns[c], Unstyled))
      ensures forall r, c :: 0 <= r < |rows| && 0 <= c < |Columns| ==> grid[r + 1, c] == Some(Cell(rows[r][c], Unstyled))
      ensures colWidths == []
    {
      grid := new Option<Cell>[|rows| + 1, |Columns|]((r, c) requires 0 <= r < |rows| + 1 && 0 <= c < |Columns| =>
        if r == 0 then Some(Cell(Columns[c], Unstyled)) else Some(Cell(rows[r - 1][c], Unstyled)));
      colWidths := [];
    }

    /** The cells of the first row of the range. */
    function HeaderRow(): (h: seq<Option<Cell>>)
      requires Valid()
      reads grid
      ensures |h| == grid.Length1
      ensures forall c :: 0 <= c < grid.Length1 ==> h[c] == grid[0, c]
    {
      seq(grid.Length1, c requires 0 <= c < grid.Length1 reads grid => grid[0, c])
    }

    /** `encontrarIndiceColuna`: the leftmost column whose header cell holds
        `name`, or -1 when none does. */
    method FindColumn(name: string) returns (col: int)
      requires Valid()
      ensures -1 <= col < grid.Length1
      ensures col >= 0 ==> Heads(grid[0, col], name) && forall c :: 0 <= c < col ==> !Heads(grid[0, c], name)
      ensures col == -1 <==> forall c :: 0 <= c < grid.Length1 ==> !Heads(grid[0, c], name)
      ensures col == LeftmostHeader(HeaderRow(), name)
    {
      var c := 0;
      while c < grid.Length1
        invariant 0 <= c <= grid.Length1
        invariant forall j :: 0 <= j < c ==> !Heads(grid[0, j], name)
      {
        var headerCell := grid[0, c];
        if headerCell.Some? && headerCell.value.v == name {
          return c;
        }
        c := c + 1;
      }
      return -1;
    }

    /** `aplicarFormatacaoCondicional`: below the header, the cells of each
        flag column are recoloured; every other cell, the header row
        included, is left as it was. */
    method ApplyConditionalFormatting()
      requires Valid()
      modifies grid
      ensures forall r, c :: 0 <= r < grid.Length0 && 0 <= c < grid.Length1 ==>
                grid[r, c] == if r >= 1 && IsFlagColumn(old(HeaderRow()), c) then Recolor(old(grid[r, c])) else old(grid[r, c])
    {
      ghost var header := HeaderRow();
      var k := 0;
      while k < |FlagColumns|
        invariant 0 <= k <= |FlagColumns|
        invariant forall r, c :: 0 <= r < grid.Length0 && 0 <= c < grid.Length1 ==>
                    grid[r, c] == if r >= 1 && IsFlagColumnAmong(header, c, k) then Recolor(old(grid[r, c])) else old(grid[r, c])
      {
        assert HeaderRow() == header;
        var colIndex := FindColumn(FlagColumns[k]);
        if colIndex != -1 {
          RecolorColumn(colIndex, header, k);
        }
        k := k + 1;
      }
    }

    /** The row loop for one flag column. */
    method RecolorColumn(col: int, ghost header: seq<Option<Cell>>, ghost k: nat)
      requires Valid() && 0 <= col < grid.Length1 && k < |FlagColumns|
      requires col == LeftmostHeader(header, FlagColumns[k])
      modifies grid
      ensures forall r, c :: 0 <= r < grid.Length0 && 0 <= c < grid.Length1 ==>
                grid[r, c] == if r >= 1 && c == col then Recolor(old(grid[r, c])) else old(grid[r, c])
    {
      var row := 1;
      while row < grid.Length0
        invariant 1 <= row <= grid.Length0
        invariant forall r, c :: 0 <= r < grid.Length0 && 0 <= c < grid.Length1 ==>
                    grid[r, c] == if 1 <= r < row && c == col then Recolor(old(grid[r, c])) else old(grid[r, c])
      {
        var cell := grid[row, col];
        if cell.Some? {
          if cell.value.v == Yes {
            grid[row, col] := Some(cell.value.(s := Green));
          } else if cell.value.v == No {
            grid[row, col] := Some(cell.value.(s := Red));
          }
        }
        row := row + 1;
      }
    }

    /** The longest value among the first `n` cells of column `c`. */
    function ColumnMax(c: nat, n: nat): (m: nat)
      requires c < grid.Length1 && n <= grid.Length0
      reads grid
      ensures forall r :: 0 <= r < n ==> ValueLength(grid[r, c]) <= m
      ensures m == 0 || exists r :: 0 <= r < n && ValueLength(grid[r, c]) == m
    {
      if n == 0 then 0
      else
        var m := ColumnMax(c, n - 1);
        var l := ValueLength(grid[n - 1, c]);
        if l > m then l else m
    }

    /** `ajustarLarguraColunas`: one width per column of the range, each
        fitted to the longest value of its column. */
    method AdjustColumnWidths()
      requires Valid()
      modifies this`colWidths
      ensures |colWidths| == grid.Length1
      ensures forall c :: 0 <= c < grid.Length1 ==> colWidths[c] == Width(ColumnMax(c, grid.Length0))
    {
      var widths: seq<int> := [];
      var col := 0;
      while col < grid.Length1
        invariant 0 <= col <= grid.Length1
        invariant |widths| == col
        invariant forall c :: 0 <= c < col ==> widths[c] == Width(ColumnMax(c, grid.Length0))
      {
        var maxLength := 0;
        var row := 0;
        while row < grid.Length0
          invariant 0 <= row <= grid.Length0
          invariant maxLength == ColumnMax(col, row)
        {
          var cell := grid[row, col];
          if cell.Some? && cell.value.v != "" {
            var length := |cell.value.v|;
            if length > maxLength {
              maxLength := length;
            }
          }
          row := row + 1;
        }
        widths := widths + [Width(maxLength)];
        col := col + 1;
      }
      colWidths := widths;
    }
  }

  /** `gerarExcel`: the rows laid out under the header, the flag cells
      coloured by their value and the widths fitted; the worksheet is the
      only one of the workbook, named `SheetName`. */
  method GenerateWorkbook(results: Results) returns (ws: Worksheet)
    ensures fresh(ws) && fresh(ws.grid) && ws.Valid()
    ensures ws.grid.Length0 == |results| + 1 && ws.grid.Length1 == |Columns|
    ensures forall c :: 0 <= c < |Columns| ==> ws.grid[0, c] == Some(Cell(Columns[c], Unstyled))
    ensures forall i, c :: 0 <= i < |results| && 0 <= c < FirstFlagColumn ==>
              ws.grid[i + 1, c] == Some(Cell(ExcelRow(results[i].0, results[i].1)[c], Unstyled))
    ensures forall i, k :: 0 <= i < |results| && 0 <= k < |AllFlags| ==>
              var flag := FlagOf(results[i].1, AllFlags[k]);
              ws.grid[i + 1, FirstFlagColumn + k] == Some(Cell(YesNo(flag), if flag then Green else Red))
    ensures |ws.colWidths| == |Columns|
    ensures forall c :: 0 <= c < |Columns| ==> ws.colWidths[c] == Width(ws.ColumnMax(c, ws.grid.Length0))
  {
    var rows := PrepareTableData(results);
    ws := new Worksheet(rows);
    ghost var header := ws.HeaderRow();
    HeaderFlagColumns(header);
    ws.ApplyConditionalFormatting();
    ws.AdjustColumnWidths();
  }
}
