/** The word finder: a grid kept in two orientations (as given, and
    transposed) so that one left-to-right row scan covers both reading
    directions, and a search that totals each query word over the rows of
    both grids and ranks the words found. */
module Finder {
  import opened Wrappers
  import opened Text
  import opened Matrix
  import opened Ranking

  // ---------------------------------------------------------------------
  // Construction guards
  // ---------------------------------------------------------------------

  const NotSquareMessage := "Constructor assumes the matrix to be square; see the overloads for non-square matrices."
  const SquareTooLargeMessage := "Character matrix is restricted to fewer than 64 characters on either side."
  const EmptyMessage := "Character matrix empty."
  const ColumnsTooLargeMessage := "Column count must be less than 64 for character matrix."
  const RowsTooLargeMessage := "Row count must be less than 64 for character matrix."
  const ColumnsNotPositiveMessage := "Column count must be greater than 0 for character matrix."
  const RowsNotPositiveMessage := "Row count must be greater than 0 for character matrix."

  /** Largest side the square constructor accepts. */
  const MaxSquareSide := 8
  /** Largest column or row count the explicit constructor accepts. */
  const MaxSide := 64

  function Sq(s: nat): nat
  {
    s * s
  }

  lemma SqMonotone(a: nat, b: nat)
    requires a < b
    ensures Sq(a) < Sq(b)
  {
    MulMonotone(a, b, a);
    MulMonotone(a, b, b);
    assert a * b == b * a;
  }

  /** The whole-number square root of `n`, searched upward from `s`; -1 when
      `n` is not a perfect square. */
  function RootFrom(n: nat, s: nat): (r: int)
    requires s == 0 || Sq(s - 1) < n
    ensures r == -1 <==> forall k: nat :: Sq(k) != n
    ensures r != -1 ==> r >= s && Sq(r) == n
    decreases n + 1 - s
  {
    if Sq(s) == n then s
    else if Sq(s) > n then
      assert forall k: nat :: Sq(k) != n by {
        forall k: nat
          ensures Sq(k) != n
        {
          if k < s - 1 { SqMonotone(k, s - 1); }
          else if s < k { SqMonotone(s, k); }
        }
      }
      -1
    else
      assert s <= n by {
        if s > 1 { SqMonotone(1, s); }
      }
      RootFrom(n, s + 1)
  }

  /** The guards of the square constructor, in their order: the cell count
      must be a perfect square, its root at most 8, and not zero. */
  function SquareSide(count: nat): (r: Result<nat>)
    ensures r.Ok? <==> exists s: nat :: 1 <= s <= MaxSquareSide && Sq(s) == count
    ensures r.Ok? ==> 1 <= r.value <= MaxSquareSide && Sq(r.value) == count
    ensures (forall s: nat :: Sq(s) != count) ==> r == Err(ArgumentException(NotSquareMessage))
    ensures forall s: nat :: MaxSquareSide < s && Sq(s) == count ==> r == Err(ArgumentException(SquareTooLargeMessage))
    ensures count == 0 ==> r == Err(ArgumentException(EmptyMessage))
  {
    var root := RootFrom(count, 0);
    assert forall s: nat :: Sq(s) == count ==> s == root by {
      forall s: nat | Sq(s) == count
        ensures s == root
      {
        if s < root { SqMonotone(s, root); }
        else if root < s { SqMonotone(root, s); }
      }
    }
    if root == -1 then Err(ArgumentException(NotSquareMessage))
    else if root > MaxSquareSide then Err(ArgumentException(SquareTooLargeMessage))
    else if root <= 0 then Err(ArgumentException(EmptyMessage))
    else Ok(root)
  }

  /** The guards of the explicit constructor, in their order: at most 64
      columns, at most 64 rows, at least one column, at least one row. */
  function CheckDimensions(columns: int, rows: int): (r: Outcome)
    ensures r.Pass? <==> 1 <= columns <= MaxSide && 1 <= rows <= MaxSide
    ensures columns > MaxSide ==> r == Fail(ArgumentException(ColumnsTooLargeMessage))
    ensures columns <= MaxSide && rows > MaxSide ==> r == Fail(ArgumentException(RowsTooLargeMessage))
    ensures columns <= MaxSide && rows <= MaxSide && columns < 1 ==> r == Fail(ArgumentException(ColumnsNotPositiveMessage))
    ensures 1 <= columns <= MaxSide && rows < 1 ==> r == Fail(ArgumentException(RowsNotPositiveMessage))
  {
    if columns > MaxSide then Fail(ArgumentException(ColumnsTooLargeMessage))
    else if rows > MaxSide then Fail(ArgumentException(RowsTooLargeMessage))
    else if columns <= 0 then Fail(ArgumentException(ColumnsNotPositiveMessage))
    else if rows <= 0 then Fail(ArgumentException(RowsNotPositiveMessage))
    else Pass
  }

  // ---------------------------------------------------------------------
  // Totals
  // ---------------------------------------------------------------------

  /** The total the row loop of `Find` accumulates for `word`: for every row
      index below `bound`, the count in that row of `h` plus the count in
      that row of `v`. */
  function Scan(h: StringMatrix, v: StringMatrix, bound: nat, word: string): (total: nat)
    ensures word == "" ==> total == 0
  {
    if bound == 0 then 0
    else Scan(h, v, bound - 1, word) + RowCount(h, bound - 1, word) + RowCount(v, bound - 1, word)
  }

  /** The occurrences of `word` in the first `n` rows of `m`. */
  function SumRows(m: StringMatrix, n: nat, word: string): nat
  {
    if n == 0 then 0 else SumRows(m, n - 1, word) + RowCount(m, n - 1, word)
  }

  /** The occurrences of `word` in the first `n` columns of `m`, read top to
      bottom. */
  function SumColumns(m: StringMatrix, n: nat, word: string): nat
    requires Rectangular(m)
    requires n <= m.columns
  {
    if n == 0 then 0
    else SumColumns(m, n - 1, word) + (if word == "" then 0 else Occurrences(ColumnText(m, n - 1), word))
  }

  /** What the search means to count: every occurrence of `word` in every
      row read left to right and in every column read top to bottom. */
  function GridTotal(m: StringMatrix, word: string): nat
    requires Rectangular(m)
  {
    SumRows(m, m.rows, word) + SumColumns(m, m.columns, word)
  }

  /** The interleaved loop adds up the rows of both grids separately. */
  lemma {:induction false} ScanSplits(h: StringMatrix, v: StringMatrix, bound: nat, word: string)
    ensures Scan(h, v, bound, word) == SumRows(h, bound, word) + SumRows(v, bound, word)
  {
    if bound > 0 {
      ScanSplits(h, v, bound - 1, word);
    }
  }

  /** Row indices past the last row add nothing. */
  lemma {:induction false} SumRowsPastEnd(m: StringMatrix, n: nat, word: string)
    requires n >= |m.data|
    ensures SumRows(m, n, word) == SumRows(m, |m.data|, word)
  {
    if n > |m.data| {
      SumRowsPastEnd(m, n - 1, word);
    }
  }

  /** Rows of the transposed grid are the columns of the grid. */
  lemma {:induction false} SumRowsOfTransposed(m: StringMatrix, n: nat, word: string)
    requires Rectangular(m)
    requires n <= m.columns
    ensures SumRows(Transposed(m), n, word) == SumColumns(m, n, word)
  {
    if n > 0 {
      SumRowsOfTransposed(m, n - 1, word);
      assert Transposed(m).data[n - 1] == ColumnText(m, n - 1);
    }
  }

  /** As written, `Find` scans the transposed grid only below the row count
      of the original, so it sees the first `min(rows, columns)` columns. */
  lemma ScanAsWritten(h: StringMatrix, word: string)
    requires Rectangular(h)
    ensures var seen := if h.rows <= h.columns then h.rows else h.columns;
      Scan(h, Transposed(h), h.rows, word) == SumRows(h, h.rows, word) + SumColumns(h, seen, word)
  {
    var v := Transposed(h);
    ScanSplits(h, v, h.rows, word);
    if h.rows <= h.columns {
      SumRowsOfTransposed(h, h.rows, word);
    } else {
      SumRowsPastEnd(v, h.rows, word);
      SumRowsOfTransposed(h, h.columns, word);
    }
  }

  /** For a grid with no more columns than rows, the as-written total is the
      full row-and-column total. */
  lemma ScanAsWrittenCoversTallGrid(h: StringMatrix, word: string)
    requires Rectangular(h)
    requires h.columns <= h.rows
    ensures Scan(h, Transposed(h), h.rows, word) == GridTotal(h, word)
  {
    ScanAsWritten(h, word);
  }

  /** The row bound that scans every row of both grids. */
  function FullBound(h: StringMatrix): (n: nat)
    ensures n >= h.rows && n >= h.columns
    ensures n == h.rows || n == h.columns
  {
    if h.rows >= h.columns then h.rows else h.columns
  }

  /** With the larger of the two row counts as bound, the scan counts every
      row and every column of the grid. */
  lemma FullScanCoversGrid(h: StringMatrix, word: string)
    requires Rectangular(h)
    ensures Scan(h, Transposed(h), FullBound(h), word) == GridTotal(h, word)
  {
    var v := Transposed(h);
    var n := FullBound(h);
    ScanSplits(h, v, n, word);
    SumRowsPastEnd(h, n, word);
    SumRowsPastEnd(v, n, word);
    SumRowsOfTransposed(h, h.columns, word);
  }

  /** The grid the explicit constructor builds from the six cells "a" to "f"
      with 3 columns and 2 rows: rows "abc" and "def", columns "ad", "be"
      and "cf". */
  lemma WideGridLayout()
    ensures Layout(3, 2, ["a", "b", "c", "d", "e", "f"]) == ["abc", "def"]
    ensures Rectangular(StringMatrix(3, 2, ["abc", "def"]))
    ensures Transposed(StringMatrix(3, 2, ["abc", "def"])).data == ["ad", "be", "cf"]
  {
    var cells := ["a", "b", "c", "d", "e", "f"];
    LayoutRow(3, 2, cells, 0);
    SpellsText(cells[0..3], "abc");
    LayoutRow(3, 2, cells, 1);
    SpellsText(cells[3..6], "def");
    WideGridColumns();
  }

  lemma WideGridColumns()
    ensures Rectangular(StringMatrix(3, 2, ["abc", "def"]))
    ensures Transposed(StringMatrix(3, 2, ["abc", "def"])).data == ["ad", "be", "cf"]
  {
    var t := Transposed(StringMatrix(3, 2, ["abc", "def"]));
    assert t.data[0] == "ad" && t.data[1] == "be" && t.data[2] == "cf";
  }

  /** "cf" is nowhere in the rows "abc", "def", "ad" or "be" and once in "cf". */
  lemma WideGridCounts()
    ensures Occurrences("abc", "cf") == 0 && Occurrences("def", "cf") == 0
    ensures Occurrences("ad", "cf") == 0 && Occurrences("be", "cf") == 0
    ensures Occurrences("cf", "cf") == 1
  {
    assert "abc"[0..2][0] == 'a' && "abc"[1..3][0] == 'b';
    assert "def"[0..2][0] == 'd' && "def"[1..3][0] == 'e';
    assert "ad"[0..2][0] == 'a' && "be"[0..2][0] == 'b';
    assert OccursAt("cf", "cf", 0);
  }

  /** The row loop's totals for "cf" on that grid: nothing below row 2, one
      when row index 2 of the transposed grid is included. */
  lemma WideGridScans()
    ensures Rectangular(StringMatrix(3, 2, ["abc", "def"]))
    ensures Scan(StringMatrix(3, 2, ["abc", "def"]), Transposed(StringMatrix(3, 2, ["abc", "def"])), 2, "cf") == 0
    ensures Scan(StringMatrix(3, 2, ["abc", "def"]), Transposed(StringMatrix(3, 2, ["abc", "def"])), 3, "cf") == 1
  {
    var h := StringMatrix(3, 2, ["abc", "def"]);
    WideGridLayout();
    WideGridCounts();
    var v := Transposed(h);
    assert RowCount(h, 0, "cf") == 0 && RowCount(h, 1, "cf") == 0 && RowCount(h, 2, "cf") == 0;
    assert RowCount(v, 0, "cf") == 0 && RowCount(v, 1, "cf") == 0 && RowCount(v, 2, "cf") == 1;
  }

  /** The input that shows the finding: on a grid with more columns than
      rows, a word that appears only in the last column is missed as
      written and found with the corrected bound. */
  lemma WideGridMissesLastColumn()
    ensures Rectangular(StringMatrix(3, 2, ["abc", "def"]))
    ensures GridTotal(StringMatrix(3, 2, ["abc", "def"]), "cf") == 1
    ensures Search(StringMatrix(3, 2, ["abc", "def"]), Transposed(StringMatrix(3, 2, ["abc", "def"])), 2, ["cf"]) == []
    ensures Search(StringMatrix(3, 2, ["abc", "def"]), Transposed(StringMatrix(3, 2, ["abc", "def"])), 3, ["cf"]) == ["cf"]
  {
    var h := StringMatrix(3, 2, ["abc", "def"]);
    WideGridScans();
    WideGridTables();
    FullScanCoversGrid(h, "cf");
    assert FullBound(h) == 3;
    TopOfOne(("cf", 1));
  }

  /** The tables the loop builds for the query ["cf"] with the two bounds. */
  lemma WideGridTables()
    ensures Rectangular(StringMatrix(3, 2, ["abc", "def"]))
    ensures Tally(StringMatrix(3, 2, ["abc", "def"]), Transposed(StringMatrix(3, 2, ["abc", "def"])), 2, ["cf"]) == []
    ensures Tally(StringMatrix(3, 2, ["abc", "def"]), Transposed(StringMatrix(3, 2, ["abc", "def"])), 3, ["cf"]) == [("cf", 1)]
  {
    WideGridScans();
    assert ["cf"][..0] == [];
  }

  // ---------------------------------------------------------------------
  // The word table
  // ---------------------------------------------------------------------

  /** The table after the loop over `words`: empty words are skipped, a word
      with a positive total is assigned that total. */
  function Tally(h: StringMatrix, v: StringMatrix, bound: nat, words: seq<string>): (t: seq<Entry>)
    ensures DistinctKeys(t)
  {
    if words == [] then []
    else
      var table := Tally(h, v, bound, words[..|words| - 1]);
      var word := words[|words| - 1];
      if word == "" then table
      else
        var total := Scan(h, v, bound, word);
        if total > 0 then Put(table, word, total) else table
  }

  /** The table holds exactly the non-empty query words with a positive
      total, each with its total. */
  lemma {:induction false} TallyContents(h: StringMatrix, v: StringMatrix, bound: nat, words: seq<string>)
    ensures forall e :: e in Tally(h, v, bound, words) ==>
      e.0 in words && e.0 != "" && e.1 == Scan(h, v, bound, e.0) && e.1 > 0
    ensures forall w :: w in words && w != "" && Scan(h, v, bound, w) > 0 ==>
      (w, Scan(h, v, bound, w)) in Tally(h, v, bound, words)
  {
    if words != [] {
      TallyContents(h, v, bound, words[..|words| - 1]);
      TallyContentsStep(h, v, bound, words);
    }
  }

  lemma TallyContentsStep(h: StringMatrix, v: StringMatrix, bound: nat, words: seq<string>)
    requires words != []
    requires forall e :: e in Tally(h, v, bound, words[..|words| - 1]) ==>
      e.0 in words[..|words| - 1] && e.0 != "" && e.1 == Scan(h, v, bound, e.0) && e.1 > 0
    requires forall w :: w in words[..|words| - 1] && w != "" && Scan(h, v, bound, w) > 0 ==>
      (w, Scan(h, v, bound, w)) in Tally(h, v, bound, words[..|words| - 1])
    ensures forall e :: e in Tally(h, v, bound, words) ==>
      e.0 in words && e.0 != "" && e.1 == Scan(h, v, bound, e.0) && e.1 > 0
    ensures forall w :: w in words && w != "" && Scan(h, v, bound, w) > 0 ==>
      (w, Scan(h, v, bound, w)) in Tally(h, v, bound, words)
  {
    var init, word := words[..|words| - 1], words[|words| - 1];
    TallyExtends(h, v, bound, words);
    forall w | w in words
      ensures w in init || w == word
    {
      var i :| 0 <= i < |words| && words[i] == w;
      if i < |words| - 1 {
        assert init[i] == w;
      }
    }
    forall w | w in init
      ensures w in words
    {
      var i :| 0 <= i < |init| && init[i] == w;
      assert words[i] == w;
    }
  }

  /** One more query word leaves the table as it is, unless it is a new
      non-empty word with a positive total, which is appended with it. */
  lemma TallyExtends(h: StringMatrix, v: StringMatrix, bound: nat, words: seq<string>)
    requires words != []
    requires forall e :: e in Tally(h, v, bound, words[..|words| - 1]) ==> e.0 in words[..|words| - 1]
    requires forall w :: w in words[..|words| - 1] && w != "" && Scan(h, v, bound, w) > 0 ==>
      (w, Scan(h, v, bound, w)) in Tally(h, v, bound, words[..|words| - 1])
    ensures var word := words[|words| - 1];
      word == "" || Scan(h, v, bound, word) == 0 || word in words[..|words| - 1] ==>
      Tally(h, v, bound, words) == Tally(h, v, bound, words[..|words| - 1])
    ensures var word := words[|words| - 1];
      word != "" && Scan(h, v, bound, word) > 0 && word !in words[..|words| - 1] ==>
      Tally(h, v, bound, words) == Tally(h, v, bound, words[..|words| - 1]) + [(word, Scan(h, v, bound, word))]
  {
    var init, word := words[..|words| - 1], words[|words| - 1];
    var table := Tally(h, v, bound, init);
    var total := Scan(h, v, bound, word);
    if word != "" && total > 0 {
      if word in init {
        assert (word, total) in table;
        var i :| 0 <= i < |table| && table[i] == (word, total);
        PutExisting(table, i);
      } else {
        assert Absent(table, word) by {
          forall k | 0 <= k < |table|
            ensures table[k].0 != word
          {
            assert table[k] in table;
          }
        }
      }
    }
  }

  /** A word repeated in the query changes nothing: it is not counted twice. */
  lemma RepeatedWordChangesNothing(h: StringMatrix, v: StringMatrix, bound: nat, words: seq<string>, w: string)
    requires w in words
    ensures Tally(h, v, bound, words + [w]) == Tally(h, v, bound, words)
  {
    assert (words + [w])[..|words|] == words;
    var table := Tally(h, v, bound, words);
    var total := Scan(h, v, bound, w);
    if w != "" && total > 0 {
      TallyContents(h, v, bound, words);
      var i :| 0 <= i < |table| && table[i] == (w, total);
      PutExisting(table, i);
    }
  }

  /** Every key of `t` is a query word, and keys appear in the order of
      their first occurrence in the query. */
  predicate InQueryOrder(t: seq<Entry>, words: seq<string>)
  {
    && (forall e :: e in t ==> e.0 in words)
    && (forall i, j :: 0 <= i < j < |t| ==> FirstIndex(words, t[i].0) < FirstIndex(words, t[j].0))
  }

  /** The table lists words in the order of their first occurrence in the
      query, which is the order ties keep in the ranking. */
  lemma {:induction false} TallyOrder(h: StringMatrix, v: StringMatrix, bound: nat, words: seq<string>)
    ensures InQueryOrder(Tally(h, v, bound, words), words)
  {
    if words != [] {
      TallyOrder(h, v, bound, words[..|words| - 1]);
      TallyOrderStep(h, v, bound, words);
    }
  }

  lemma TallyOrderStep(h: StringMatrix, v: StringMatrix, bound: nat, words: seq<string>)
    requires words != []
    requires InQueryOrder(Tally(h, v, bound, words[..|words| - 1]), words[..|words| - 1])
    ensures InQueryOrder(Tally(h, v, bound, words), words)
  {
    var init, word := words[..|words| - 1], words[|words| - 1];
    var table := Tally(h, v, bound, init);
    TallyContents(h, v, bound, init);
    TallyExtends(h, v, bound, words);
    KeysKeepFirstIndex(table, words);
    if word != "" && Scan(h, v, bound, word) > 0 && word !in init {
      FirstIndexOfLast(words);
      AppendKeepsQueryOrder(table, words, (word, Scan(h, v, bound, word)));
    }
  }

  /** Extending the query keeps the first positions of words already there. */
  lemma KeysKeepFirstIndex(table: seq<Entry>, words: seq<string>)
    requires words != []
    requires InQueryOrder(table, words[..|words| - 1])
    ensures InQueryOrder(table, words)
    ensures forall k :: 0 <= k < |table| ==> FirstIndex(words, table[k].0) < |words| - 1
  {
    forall k | 0 <= k < |table|
      ensures table[k].0 in words[..|words| - 1] && table[k].0 in words
      ensures FirstIndex(words, table[k].0) == FirstIndex(words[..|words| - 1], table[k].0)
    {
      assert table[k] in table;
      FirstIndexInPrefix(words, table[k].0);
    }
  }

  /** A word first seen at the end of the query may go last in the table. */
  lemma AppendKeepsQueryOrder(table: seq<Entry>, words: seq<string>, e: Entry)
    requires words != [] && e.0 == words[|words| - 1]
    requires InQueryOrder(table, words)
    requires forall k :: 0 <= k < |table| ==> FirstIndex(words, table[k].0) < |words| - 1
    requires FirstIndex(words, e.0) == |words| - 1
    ensures InQueryOrder(table + [e], words)
  {
    var t := table + [e];
    assert forall k :: 0 <= k < |table| ==> t[k] == table[k];
    assert t[|table|] == e;
    forall x | x in t
      ensures x.0 in words
    {
      if x != e {
        assert x in table;
      }
    }
  }


  // ---------------------------------------------------------------------
  // The search result
  // ---------------------------------------------------------------------

  /** The words `Find` returns when it scans row indices below `bound`. */
  function Search(h: StringMatrix, v: StringMatrix, bound: nat, words: seq<string>): (r: seq<string>)
    ensures |r| <= MaxResults
    ensures words == [] ==> r == []
  {
    Top(Tally(h, v, bound, words))
  }

  /** The search returns at most ten distinct query words, each non-empty
      with a positive total, in non-increasing order of total; a matched
      word is left out only when ten words are returned, all with a total at
      least its own. */
  lemma SearchProperties(h: StringMatrix, v: StringMatrix, bound: nat, words: seq<string>)
    ensures |Search(h, v, bound, words)| <= MaxResults
    ensures Distinct(Search(h, v, bound, words))
    ensures forall w :: w in Search(h, v, bound, words) ==> w in words && w != "" && Scan(h, v, bound, w) > 0
    ensures forall i, j :: 0 <= i < j < |Search(h, v, bound, words)| ==>
      Scan(h, v, bound, Search(h, v, bound, words)[i]) >= Scan(h, v, bound, Search(h, v, bound, words)[j])
    ensures forall w :: w in words && w != "" && Scan(h, v, bound, w) > 0 && w !in Search(h, v, bound, words) ==>
      |Search(h, v, bound, words)| == MaxResults &&
      forall x :: x in Search(h, v, bound, words) ==> Scan(h, v, bound, x) >= Scan(h, v, bound, w)
  {
    var r := Search(h, v, bound, words);
    TopDistinct(Tally(h, v, bound, words));
    SearchMembers(h, v, bound, words);
    SearchOrdered(h, v, bound, words);
    forall w | w in words && w != "" && Scan(h, v, bound, w) > 0 && w !in r
      ensures |r| == MaxResults && forall x :: x in r ==> Scan(h, v, bound, x) >= Scan(h, v, bound, w)
    {
      SearchExcluded(h, v, bound, words, w);
    }
  }

  lemma SearchMembers(h: StringMatrix, v: StringMatrix, bound: nat, words: seq<string>)
    ensures forall w :: w in Search(h, v, bound, words) ==> w in words && w != "" && Scan(h, v, bound, w) > 0
  {
    var r := Search(h, v, bound, words);
    forall w | w in r
      ensures w in words && w != "" && Scan(h, v, bound, w) > 0
    {
      var i :| 0 <= i < |r| && r[i] == w;
      SearchEntry(h, v, bound, words, i);
    }
  }

  lemma SearchOrdered(h: StringMatrix, v: StringMatrix, bound: nat, words: seq<string>)
    ensures forall i, j :: 0 <= i < j < |Search(h, v, bound, words)| ==>
      Scan(h, v, bound, Search(h, v, bound, words)[i]) >= Scan(h, v, bound, Search(h, v, bound, words)[j])
  {
    var r := Search(h, v, bound, words);
    forall i, j | 0 <= i < j < |r|
      ensures Scan(h, v, bound, r[i]) >= Scan(h, v, bound, r[j])
    {
      SearchEntry(h, v, bound, words, i);
      SearchEntry(h, v, bound, words, j);
    }
  }

  /** A matched query word missing from the result is outranked by all ten
      returned words. */
  lemma SearchExcluded(h: StringMatrix, v: StringMatrix, bound: nat, words: seq<string>, w: string)
    requires w in words && w != "" && Scan(h, v, bound, w) > 0 && w !in Search(h, v, bound, words)
    ensures |Search(h, v, bound, words)| == MaxResults
    ensures forall x :: x in Search(h, v, bound, words) ==> Scan(h, v, bound, x) >= Scan(h, v, bound, w)
  {
    var r := Search(h, v, bound, words);
    TallyContents(h, v, bound, words);
    TopExcluded(Tally(h, v, bound, words), (w, Scan(h, v, bound, w)));
    forall x | x in r
      ensures Scan(h, v, bound, x) >= Scan(h, v, bound, w)
    {
      var i :| 0 <= i < |r| && r[i] == x;
      SearchEntry(h, v, bound, words, i);
    }
  }

  /** Word `i` of the result is the key of the `i`-th sorted table entry,
      whose total is the word's scan total. */
  lemma SearchEntry(h: StringMatrix, v: StringMatrix, bound: nat, words: seq<string>, i: nat)
    requires i < |Search(h, v, bound, words)|
    ensures i < |SortDescending(Tally(h, v, bound, words))|
    ensures Search(h, v, bound, words)[i] == SortDescending(Tally(h, v, bound, words))[i].0
    ensures SortDescending(Tally(h, v, bound, words))[i].1 == Scan(h, v, bound, Search(h, v, bound, words)[i])
    ensures Search(h, v, bound, words)[i] in words && Search(h, v, bound, words)[i] != ""
    ensures Scan(h, v, bound, Search(h, v, bound, words)[i]) > 0
  {
    var table := Tally(h, v, bound, words);
    var sorted := SortDescending(table);
    TallyContents(h, v, bound, words);
    assert sorted[i] in sorted;
  }

  /** Words with the same total come out in the order of their first
      occurrence in the query: the table is in query order and the sort is
      stable. */
  lemma SearchTiesInQueryOrder(h: StringMatrix, v: StringMatrix, bound: nat, words: seq<string>)
    ensures forall i, j :: (0 <= i < j < |Search(h, v, bound, words)| &&
      Scan(h, v, bound, Search(h, v, bound, words)[i]) == Scan(h, v, bound, Search(h, v, bound, words)[j])) ==>
      Search(h, v, bound, words)[i] in words && Search(h, v, bound, words)[j] in words &&
      FirstIndex(words, Search(h, v, bound, words)[i]) < FirstIndex(words, Search(h, v, bound, words)[j])
  {
    var table := Tally(h, v, bound, words);
    var r := Search(h, v, bound, words);
    TallyOrder(h, v, bound, words);
    SortKeepsTiesInOrder(table);
    forall i, j | 0 <= i < j < |r| && Scan(h, v, bound, r[i]) == Scan(h, v, bound, r[j])
      ensures r[i] in words && r[j] in words && FirstIndex(words, r[i]) < FirstIndex(words, r[j])
    {
      TiePair(h, v, bound, words, i, j);
    }
  }

  /** One pair of result words with equal totals. */
  lemma TiePair(h: StringMatrix, v: StringMatrix, bound: nat, words: seq<string>, i: nat, j: nat)
    requires i < j < |Search(h, v, bound, words)|
    requires Scan(h, v, bound, Search(h, v, bound, words)[i]) == Scan(h, v, bound, Search(h, v, bound, words)[j])
    requires InQueryOrder(Tally(h, v, bound, words), words)
    requires TiesOrdered(SortDescending(Tally(h, v, bound, words)), Keys(Tally(h, v, bound, words)))
    ensures Search(h, v, bound, words)[i] in words && Search(h, v, bound, words)[j] in words
    ensures FirstIndex(words, Search(h, v, bound, words)[i]) < FirstIndex(words, Search(h, v, bound, words)[j])
  {
    var table := Tally(h, v, bound, words);
    var r := Search(h, v, bound, words);
    SearchEntry(h, v, bound, words, i);
    SearchEntry(h, v, bound, words, j);
    var a, b := FirstIndex(Keys(table), r[i]), FirstIndex(Keys(table), r[j]);
    assert table[a].0 == r[i] && table[b].0 == r[j];
  }

  // ---------------------------------------------------------------------
  // The finder
  // ---------------------------------------------------------------------

  class WordFinder {
    /** The grid as given: its rows are read left to right. */
    const horizontal: StringMatrix
    /** The transposed grid: its rows are the columns of `horizontal`. */
    const vertical: StringMatrix

    ghost predicate Valid()
    {
      Rectangular(horizontal) && vertical == Transposed(horizontal)
    }

    /** The part both constructors share once their guards have passed:
        keep the grid and its transposition. */
    constructor (grid: StringMatrix)
      requires Rectangular(grid)
      ensures Valid() && horizontal == grid
    {
      var transposed := Transpose(grid);
      horizontal := grid;
      vertical := transposed;
    }

    /** The square constructor: the side is the square root of the cell
        count; throws unless that root is a whole number from 1 to 8. */
    static method Square(characterMatrix: seq<string>) returns (r: Result<WordFinder>)
      requires SingleCharacters(characterMatrix)
      ensures r.Err? <==> SquareSide(|characterMatrix|).Err?
      ensures r.Err? ==> r.error == SquareSide(|characterMatrix|).error
      ensures r.Ok? ==> fresh(r.value) && r.value.Valid()
      ensures r.Ok? ==> var side := SquareSide(|characterMatrix|).value;
        r.value.horizontal == StringMatrix(side, side, Layout(side, side, characterMatrix))
    {
      var side := SquareSide(|characterMatrix|);
      if side.Err? {
        return Err(side.error);
      }
      var grid := New(side.value, side.value, characterMatrix);
      LayoutOfSingleCharacters(side.value, side.value, characterMatrix);
      var finder := new WordFinder(grid.value);
      return Ok(finder);
    }

    /** The explicit constructor: throws unless both dimensions are from 1
        to 64 and the cell count is their product. */
    static method WithDimensions(columns: int, rows: int, characterMatrix: seq<string>) returns (r: Result<WordFinder>)
      requires SingleCharacters(characterMatrix)
      ensures r.Err? <==> CheckDimensions(columns, rows).Fail? || columns * rows != |characterMatrix|
      ensures CheckDimensions(columns, rows).Fail? ==> r.Err? && r.error == CheckDimensions(columns, rows).error
      ensures CheckDimensions(columns, rows).Pass? && columns * rows != |characterMatrix| ==>
        r.Err? && r.error == ArgumentException(CountMismatchMessage)
      ensures r.Ok? ==> fresh(r.value) && r.value.Valid()
      ensures r.Ok? ==> (0 <= columns && 0 <= rows && |characterMatrix| == columns * rows &&
        r.value.horizontal == StringMatrix(columns, rows, Layout(columns, rows, characterMatrix)))
    {
      var check := CheckDimensions(columns, rows);
      if check.Fail? {
        return Err(check.error);
      }
      var grid := New(columns, rows, characterMatrix);
      if grid.Err? {
        return Err(grid.error);
      }
      LayoutOfSingleCharacters(columns, rows, characterMatrix);
      var finder := new WordFinder(grid.value);
      return Ok(finder);
    }

    /** The loop of `Find` over the query: totals each non-empty word over
        row indices below `bound` of both grids and records the words with a
        positive total. */
    method Tabulate(wordstream: seq<string>, bound: nat) returns (wordsAndCounts: seq<Entry>)
      ensures wordsAndCounts == Tally(horizontal, vertical, bound, wordstream)
    {
      wordsAndCounts := [];
      for i := 0 to |wordstream|
        invariant wordsAndCounts == Tally(horizontal, vertical, bound, wordstream[..i])
      {
        var word := wordstream[i];
        assert wordstream[..i + 1][..i] == wordstream[..i];
        if word == "" {
          continue;
        }
        var wordCount := 0;
        for row := 0 to bound
          invariant wordCount == Scan(horizontal, vertical, row, word)
        {
          var horizontalCount := CountInRow(horizontal, row, word);
          wordCount := wordCount + horizontalCount;
          var verticalCount := CountInRow(vertical, row, word);
          wordCount := wordCount + verticalCount;
        }
        if wordCount > 0 {
          wordsAndCounts := Put(wordsAndCounts, word, wordCount);
        }
      }
      assert wordstream[..|wordstream|] == wordstream;
    }

    /** `Find`, as written: both grids are scanned over the row indices of
        the original grid only. */
    method Find(wordstream: seq<string>) returns (result: seq<string>)
      ensures result == Search(horizontal, vertical, horizontal.rows, wordstream)
      ensures wordstream == [] ==> result == []
      ensures |result| <= MaxResults
      ensures Distinct(result)
      ensures forall w :: w in result ==> w in wordstream && w != "" && Scan(horizontal, vertical, horizontal.rows, w) > 0
      ensures forall i, j :: 0 <= i < j < |result| ==>
        Scan(horizontal, vertical, horizontal.rows, result[i]) >= Scan(horizontal, vertical, horizontal.rows, result[j])
      ensures forall w :: w in wordstream && w != "" && Scan(horizontal, vertical, horizontal.rows, w) > 0 && w !in result ==>
        |result| == MaxResults &&
        forall x :: x in result ==> Scan(horizontal, vertical, horizontal.rows, x) >= Scan(horizontal, vertical, horizontal.rows, w)
      ensures forall i, j :: (0 <= i < j < |result| &&
        Scan(horizontal, vertical, horizontal.rows, result[i]) == Scan(horizontal, vertical, horizontal.rows, result[j])) ==>
        result[i] in wordstream && result[j] in wordstream && FirstIndex(wordstream, result[i]) < FirstIndex(wordstream, result[j])
    {
      SearchProperties(horizontal, vertical, horizontal.rows, wordstream);
      SearchTiesInQueryOrder(horizontal, vertical, horizontal.rows, wordstream);
      if |wordstream| == 0 {
        return [];
      }
      var wordsAndCounts := Tabulate(wordstream, horizontal.rows);
      result := Top(wordsAndCounts);
    }

    /** `Find` with the row bound corrected to cover every row of both
        grids: a word's total is its occurrences in all rows and all
        columns. */
    method FindAllLines(wordstream: seq<string>) returns (result: seq<string>)
      requires Valid()
      ensures result == Search(horizontal, vertical, FullBound(horizontal), wordstream)
      ensures |result| <= MaxResults
      ensures Distinct(result)
      ensures forall w :: w in result ==> w in wordstream && w != "" && GridTotal(horizontal, w) > 0
      ensures forall i, j :: 0 <= i < j < |result| ==> GridTotal(horizontal, result[i]) >= GridTotal(horizontal, result[j])
      ensures forall w :: w in wordstream && w != "" && GridTotal(horizontal, w) > 0 && w !in result ==>
        |result| == MaxResults && forall x :: x in result ==> GridTotal(horizontal, x) >= GridTotal(horizontal, w)
      ensures forall i, j :: 0 <= i < j < |result| && GridTotal(horizontal, result[i]) == GridTotal(horizontal, result[j]) ==>
        result[i] in wordstream && result[j] in wordstream && FirstIndex(wordstream, result[i]) < FirstIndex(wordstream, result[j])
    {
      var bound := FullBound(horizontal);
      SearchProperties(horizontal, vertical, bound, wordstream);
      SearchTiesInQueryOrder(horizontal, vertical, bound, wordstream);
      forall w
        ensures Scan(horizontal, vertical, bound, w) == GridTotal(horizontal, w)
      {
        FullScanCoversGrid(horizontal, w);
      }
      if |wordstream| == 0 {
        return [];
      }
      var wordsAndCounts := Tabulate(wordstream, bound);
      result := Top(wordsAndCounts);
    }
  }
}
