/** The fixed-size character grid: a record of its dimensions and the row
    texts built once at construction. The per-instance count cache of the
    original is never written, so every lookup misses and counting is a plain
    function of the row text and the word; it is not represented here. */
module Matrix {
  import opened Wrappers
  import opened Text

  /** A grid of `rows` lines of `columns` cells; `data[r]` is row `r` as text. */
  datatype StringMatrix = StringMatrix(columns: nat, rows: nat, data: seq<string>)

  const CountMismatchMessage := "The number of values does not match the specified matrix dimensions."

  /** Every row is there and holds exactly `columns` characters: what a grid
      built from single-character cells looks like. */
  ghost predicate Rectangular(m: StringMatrix)
  {
    |m.data| == m.rows && forall r :: 0 <= r < |m.data| ==> |m.data[r]| == m.columns
  }

  // ---------------------------------------------------------------------
  // Construction
  // ---------------------------------------------------------------------

  lemma MulMonotone(a: nat, b: nat, c: nat)
    requires a <= b
    ensures a * c <= b * c
  {
  }

  /** Row `r` of a `columns`-wide grid ends inside the cell sequence. */
  lemma RowCellsInBounds(columns: nat, rows: nat, r: nat)
    requires r < rows
    ensures r * columns + columns <= columns * rows
  {
    MulMonotone(r + 1, rows, columns);
  }

  /** The cells of row `r`, in column order. */
  function RowCells(columns: nat, values: seq<string>, r: nat): seq<string>
    requires r * columns + columns <= |values|
  {
    values[r * columns .. r * columns + columns]
  }

  /** The row texts of a grid built from `values`: row `r` concatenates the
      cells `values[r*columns .. r*columns + columns)` in order. */
  function Layout(columns: nat, rows: nat, values: seq<string>): (data: seq<string>)
    requires |values| == columns * rows
    ensures |data| == rows
  {
    seq(rows, r requires 0 <= r < rows =>
      RowCellsInBounds(columns, rows, r);
      Concat(RowCells(columns, values, r)))
  }

  /** The inner loop of `CreateData`: appends the `count` cells starting at
      `start` to an empty StringBuilder. */
  method AppendCells(values: seq<string>, start: nat, count: nat) returns (builder: string)
    requires start + count <= |values|
    ensures builder == Concat(values[start .. start + count])
  {
    builder := "";
    for col := 0 to count
      invariant builder == Concat(values[start .. start + col])
    {
      ConcatSnoc(values[start .. start + col], values[start + col]);
      assert values[start .. start + col + 1] == values[start .. start + col] + [values[start + col]];
      builder := builder + values[start + col];
    }
  }

  /** `CreateData`: checks the cell count, then fills one row text per row by
      appending that row's cells. */
  method CreateData(columns: nat, rows: nat, values: seq<string>) returns (r: Result<seq<string>>)
    ensures r.Err? <==> columns * rows != |values|
    ensures r.Err? ==> r.error == ArgumentException(CountMismatchMessage)
    ensures r.Ok? ==> r.value == Layout(columns, rows, values)
  {
    if columns * rows != |values| {
      return Err(ArgumentException(CountMismatchMessage));
    }
    var data := new string[rows];
    for row := 0 to rows
      invariant forall k :: 0 <= k < row ==> data[k] == Layout(columns, rows, values)[k]
    {
      RowCellsInBounds(columns, rows, row);
      data[row] := AppendCells(values, row * columns, columns);
    }
    return Ok(data[..]);
  }

  /** Row `k` of the layout is the in-order concatenation of the cells
      `values[k*columns .. k*columns + columns)`. */
  lemma LayoutRow(columns: nat, rows: nat, values: seq<string>, k: nat)
    requires |values| == columns * rows
    requires k < rows
    ensures k * columns + columns <= |values|
    ensures Layout(columns, rows, values)[k] == Concat(values[k * columns .. k * columns + columns])
  {
    RowCellsInBounds(columns, rows, k);
  }

  /** The record constructor: `Data` is `CreateData(Columns, Rows, SeedData)`. */
  method New(columns: nat, rows: nat, values: seq<string>) returns (r: Result<StringMatrix>)
    ensures r.Err? <==> columns * rows != |values|
    ensures r.Err? ==> r.error == ArgumentException(CountMismatchMessage)
    ensures r.Ok? ==> r.value == StringMatrix(columns, rows, Layout(columns, rows, values))
  {
    var data := CreateData(columns, rows, values);
    if data.Err? {
      return Err(data.error);
    }
    return Ok(StringMatrix(columns, rows, data.value));
  }

  /** With single-character cells, row `r` has `columns` characters and its
      character `c` is the cell at `r*columns + c`. */
  lemma LayoutOfSingleCharacters(columns: nat, rows: nat, values: seq<string>)
    requires |values| == columns * rows
    requires SingleCharacters(values)
    ensures Rectangular(StringMatrix(columns, rows, Layout(columns, rows, values)))
    ensures forall r, c :: 0 <= r < rows && 0 <= c < columns ==>
      r * columns + c < |values| && Layout(columns, rows, values)[r][c] == values[r * columns + c][0]
  {
    var data := Layout(columns, rows, values);
    forall r | 0 <= r < rows
      ensures r * columns + columns <= |values|
      ensures |data[r]| == columns
      ensures forall c :: 0 <= c < columns ==> data[r][c] == values[r * columns + c][0]
    {
      SingleCharacterRow(columns, rows, values, r);
    }
  }

  /** Row `r` of such a grid spells the first characters of its cells. */
  lemma SingleCharacterRow(columns: nat, rows: nat, values: seq<string>, r: nat)
    requires |values| == columns * rows && r < rows
    requires SingleCharacters(values)
    ensures r * columns + columns <= |values|
    ensures |Layout(columns, rows, values)[r]| == columns
    ensures forall c :: 0 <= c < columns ==> Layout(columns, rows, values)[r][c] == values[r * columns + c][0]
  {
    LayoutRow(columns, rows, values, r);
    var cells := values[r * columns .. r * columns + columns];
    assert forall c :: 0 <= c < columns ==> cells[c] == values[r * columns + c];
    ConcatSingles(cells);
  }

  /** Reading the rows one after another gives back the cells in their
      original order (for any cells, not only single characters). */
  lemma LayoutPreservesOrder(columns: nat, rows: nat, values: seq<string>)
    requires |values| == columns * rows
    ensures Concat(Layout(columns, rows, values)) == Concat(values)
  {
    var data := Layout(columns, rows, values);
    forall r | 0 <= r < rows
      ensures r * columns + columns <= |values| && data[r] == Concat(values[r * columns .. r * columns + columns])
    {
      LayoutRow(columns, rows, values, r);
    }
    RowsSpellCells(data, values, columns, rows);
    assert data[..rows] == data;
    assert values[..rows * columns] == values;
  }

  /** Rows that each concatenate the next `columns` cells spell, together,
      the cells in order. */
  lemma {:induction false} RowsSpellCells(data: seq<string>, values: seq<string>, columns: nat, k: nat)
    requires k <= |data| && k * columns <= |values|
    requires forall r {:trigger data[r]} :: 0 <= r < k ==>
      r * columns + columns <= |values| && data[r] == Concat(values[r * columns .. r * columns + columns])
    ensures Concat(data[..k]) == Concat(values[..k * columns])
  {
    if k == 0 {
      assert data[..0] == [];
      assert values[..0] == [];
    } else {
      var s: nat, t: nat := (k - 1) * columns, k * columns;
      assert s + columns == t;
      assert data[k - 1] == Concat(values[s .. t]);
      RowsSpellCells(data, values, columns, k - 1);
      ConcatPrefix(data, k);
      ConcatSplit(values, s, t);
    }
  }

  // ---------------------------------------------------------------------
  // Transposition
  // ---------------------------------------------------------------------

  /** Column `c` of the grid read top to bottom. */
  function ColumnText(m: StringMatrix, c: nat): (t: string)
    requires Rectangular(m)
    requires c < m.columns
    ensures |t| == m.rows
    ensures forall r :: 0 <= r < m.rows ==> t[r] == m.data[r][c]
  {
    seq(m.rows, r requires 0 <= r < m.rows => m.data[r][c])
  }

  /** The grid with rows and columns swapped: row `c` of the result is
      column `c` of `m`. */
  function Transposed(m: StringMatrix): (t: StringMatrix)
    requires Rectangular(m)
    ensures Rectangular(t)
    ensures t.columns == m.rows && t.rows == m.columns
    ensures forall c, r :: 0 <= c < m.columns && 0 <= r < m.rows ==> t.data[c][r] == m.data[r][c]
  {
    StringMatrix(m.rows, m.columns, seq(m.columns, c requires 0 <= c < m.columns => ColumnText(m, c)))
  }

  /** Transposing twice gives back the same grid. */
  lemma TransposeInvolution(m: StringMatrix)
    requires Rectangular(m)
    ensures Transposed(Transposed(m)) == m
  {
    var t := Transposed(Transposed(m));
    forall r | 0 <= r < m.rows
      ensures t.data[r] == m.data[r]
    {
    }
  }

  /** Position of cell (`r`, `c`) in the column-major cell sequence of a grid
      with `rows` rows. */
  function Slot(rows: nat, r: nat, c: nat): nat
  {
    c * rows + r
  }

  lemma SlotInBounds(rows: nat, columns: nat, r: nat, c: nat)
    requires r < rows && c < columns
    ensures Slot(rows, r, c) < rows * columns
  {
    MulMonotone(c + 1, columns, rows);
  }

  lemma SlotInjective(rows: nat, r: nat, c: nat, r': nat, c': nat)
    requires r < rows && r' < rows
    requires Slot(rows, r, c) == Slot(rows, r', c')
    ensures r == r' && c == c'
  {
    if c < c' {
      MulMonotone(c + 1, c', rows);
    } else if c' < c {
      MulMonotone(c' + 1, c, rows);
    }
  }

  /** A column-major cell sequence of `m`'s single characters lays out as the
      rows of the transposed grid. */
  lemma LayoutOfColumnMajor(m: StringMatrix, values: seq<string>)
    requires Rectangular(m)
    requires |values| == m.rows * m.columns
    requires forall r, c {:trigger Slot(m.rows, r, c)} :: 0 <= r < m.rows && 0 <= c < m.columns ==>
      Slot(m.rows, r, c) < |values| && values[Slot(m.rows, r, c)] == [m.data[r][c]]
    ensures Layout(m.rows, m.columns, values) == Transposed(m).data
  {
    var data := Layout(m.rows, m.columns, values);
    var t := Transposed(m);
    forall c | 0 <= c < m.columns
      ensures data[c] == t.data[c]
    {
      ColumnMajorRow(m, values, c);
    }
  }

  /** Row `c` of that layout is column `c` of `m`. */
  lemma ColumnMajorRow(m: StringMatrix, values: seq<string>, c: nat)
    requires Rectangular(m)
    requires |values| == m.rows * m.columns && c < m.columns
    requires forall r, c {:trigger Slot(m.rows, r, c)} :: 0 <= r < m.rows && 0 <= c < m.columns ==>
      Slot(m.rows, r, c) < |values| && values[Slot(m.rows, r, c)] == [m.data[r][c]]
    ensures Layout(m.rows, m.columns, values)[c] == ColumnText(m, c)
  {
    LayoutRow(m.rows, m.columns, values, c);
    ColumnCells(m, values, c);
    SpellsText(values[c * m.rows .. c * m.rows + m.rows], ColumnText(m, c));
  }

  /** The cells of column `c` sit next to each other, top to bottom. */
  lemma ColumnCells(m: StringMatrix, values: seq<string>, c: nat)
    requires Rectangular(m)
    requires c * m.rows + m.rows <= |values| && c < m.columns
    requires forall r, c {:trigger Slot(m.rows, r, c)} :: 0 <= r < m.rows && 0 <= c < m.columns ==>
      Slot(m.rows, r, c) < |values| && values[Slot(m.rows, r, c)] == [m.data[r][c]]
    ensures forall r :: 0 <= r < m.rows ==>
      values[c * m.rows .. c * m.rows + m.rows][r] == [ColumnText(m, c)[r]]
  {
    forall r | 0 <= r < m.rows
      ensures values[c * m.rows .. c * m.rows + m.rows][r] == [ColumnText(m, c)[r]]
    {
      assert values[c * m.rows .. c * m.rows + m.rows][r] == values[Slot(m.rows, r, c)];
    }
  }

  /** The inner loop of `Transpose`: writes row `row` of `m` into its slots
      of the column-major cell array and leaves the other rows' slots alone. */
  method TransposeRow(m: StringMatrix, row: nat, transposedValues: array<string>)
    requires Rectangular(m)
    requires row < m.rows
    requires transposedValues.Length == m.rows * m.columns
    modifies transposedValues
    ensures forall c :: 0 <= c < m.columns ==>
      Slot(m.rows, row, c) < transposedValues.Length && transposedValues[Slot(m.rows, row, c)] == [m.data[row][c]]
    ensures forall r, c :: 0 <= r < m.rows && r != row && 0 <= c < m.columns ==>
      Slot(m.rows, r, c) < transposedValues.Length && transposedValues[Slot(m.rows, r, c)] == old(transposedValues[Slot(m.rows, r, c)])
  {
    forall r, c | 0 <= r < m.rows && 0 <= c < m.columns
      ensures Slot(m.rows, r, c) < transposedValues.Length
    {
      SlotInBounds(m.rows, m.columns, r, c);
    }
    for col := 0 to m.columns
      invariant forall c :: 0 <= c < col ==> transposedValues[Slot(m.rows, row, c)] == [m.data[row][c]]
      invariant forall r, c :: 0 <= r < m.rows && r != row && 0 <= c < m.columns ==>
        transposedValues[Slot(m.rows, r, c)] == old(transposedValues[Slot(m.rows, r, c)])
    {
      forall r, c | 0 <= r < m.rows && 0 <= c < m.columns && (r != row || c < col)
        ensures Slot(m.rows, r, c) != Slot(m.rows, row, col)
      {
        if Slot(m.rows, r, c) == Slot(m.rows, row, col) {
          SlotInjective(m.rows, r, c, row, col);
        }
      }
      transposedValues[Slot(m.rows, row, col)] := [m.data[row][col]];
    }
  }

  /** `Transpose`: writes every character of `m` into a column-major cell
      array, then builds a new grid with the dimensions swapped from it. */
  method Transpose(m: StringMatrix) returns (t: StringMatrix)
    requires Rectangular(m)
    ensures t == Transposed(m)
  {
    var transposedValues := new string[m.rows * m.columns];
    for row := 0 to m.rows
      invariant forall r, c :: 0 <= r < row && 0 <= c < m.columns ==>
        Slot(m.rows, r, c) < transposedValues.Length && transposedValues[Slot(m.rows, r, c)] == [m.data[r][c]]
    {
      TransposeRow(m, row, transposedValues);
    }
    LayoutOfColumnMajor(m, transposedValues[..]);
    var created := New(m.rows, m.columns, transposedValues[..]);
    t := created.value;
  }

  // ---------------------------------------------------------------------
  // Counting
  // ---------------------------------------------------------------------

  /** What `CountInRow(row, word)` answers: nothing past the last row or for
      the empty word, otherwise the overlapping occurrences in that row. */
  function RowCount(m: StringMatrix, row: nat, word: string): (count: nat)
    ensures row < |m.data| && word != "" ==>
      count <= if |word| <= |m.data[row]| then |m.data[row]| - |word| + 1 else 0
  {
    if row >= |m.data| then 0
    else if word == "" then 0
    else Occurrences(m.data[row], word)
  }

  /** `CountInRow`: repeatedly searches from one past the previous hit, so
      overlapping occurrences are all counted. */
  method CountInRow(m: StringMatrix, row: int, word: string) returns (count: nat)
    requires 0 <= row || word == ""
    ensures 0 <= row ==> count == RowCount(m, row, word)
    ensures row >= |m.data| || word == "" ==> count == 0
    ensures row < |m.data| && word != "" ==> count == |MatchPositions(m.data[row], word, 0)|
  {
    if row >= |m.data| {
      return 0;
    }
    if word == "" {
      return 0;
    }
    MatchesFromCountsPositions(m.data[row], word, 0);
    count := 0;
    var rowWord := m.data[row];
    var index := IndexOf(rowWord, word, 0);
    MatchesFromIndexOf(rowWord, word, 0);
    while index != -1
      invariant -1 <= index <= |rowWord|
      invariant index == -1 ==> count == Occurrences(rowWord, word)
      invariant index != -1 ==> OccursAt(rowWord, word, index)
      invariant index != -1 ==> count + MatchesFrom(rowWord, word, index) == Occurrences(rowWord, word)
      decreases if index == -1 then 0 else |rowWord| + 1 - index
    {
      count := count + 1;
      index := index + 1;
      MatchesFromIndexOf(rowWord, word, index);
      index := IndexOf(rowWord, word, index);
    }
  }
}
