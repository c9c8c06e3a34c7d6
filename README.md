# Word finder over a character grid

This project models the core of a small C# word-search library.

- A `StringMatrix` is a record holding a grid of single-character cells. It is built once from a flat, row-major cell sequence and the declared column and row counts.
- The grid can be transposed. It can also count the overlapping occurrences of a word in one row.
- A `WordFinder` keeps the grid in two orientations: as given, and transposed. One left-to-right row scan therefore covers both reading directions.
- `Find` totals each query word over the rows of both grids. It keeps the words with a positive total and returns at most ten of them, most frequent first.

The model is split into modules:

- `Wrappers`: the argument exception the guards throw, and `Result`/`Outcome` values that carry it.
- `Text`: ordinal concatenation (what the StringBuilder produces), `IndexOf`, and overlapping occurrence counting.
- `Matrix`: the `StringMatrix` record.
  - `CreateData`, `Transpose` and `CountInRow` are methods with the source's loops and arrays.
  - Each is proved against a specification function: `Layout`, `Transposed`, `RowCount`.
- `Ranking`: the word-to-total dictionary, as an insertion-ordered sequence of entries. Also `OrderByDescending` as a stable insertion sort, and the top-ten cut.
- `Finder`: the `WordFinder` class.
  - The fields `horizontal` and `vertical`.
  - The two guarded constructors, as static methods returning `Result<WordFinder>` because the source throws.
  - `Find` and its loop `Tabulate`, proved against the specification functions `Scan`, `Tally` and `Search`.

Where the code's own messages and comments disagree with what it does, the model follows the code:

- **Square constructor limit.** The square constructor accepts a side of at most 8 (WordFinder.cs:21), while its message speaks of 64. The explicit constructor accepts up to 64 columns and 64 rows (WordFinder.cs:39-40).
- **Column coverage.** The doc comment of `Find` promises a search left to right and top to bottom (WordFinder.cs:49). The loop scans both grids only for row indices below the original grid's row count (WordFinder.cs:67), so on a grid with more columns than rows the last columns are never read top to bottom. This is the finding below.

The comment at StringMatrix.cs:56 says "aa" occurs 12 times in nine letters "a". The loop below it counts 8, and `Text.OverlapExamples` proves that 8 is the count. The comment is wrong, not the code.

## Model

| member | source | states |
|---|---|---|
| Text.Concat | QuPOSChallenge/StringMatrix.cs:82-87 | The text the StringBuilder produces is as long as all appended parts together. |
| Text.IndexOf | QuPOSChallenge/StringMatrix.cs:55 | Ordinal search from `start`. The result is -1 exactly when no occurrence starts at or after `start`. Otherwise it is a position where the word occurs, with no occurrence between `start` and it. |
| Text.ConcatAppend | QuPOSChallenge/StringMatrix.cs:82-87 | Appending parts to a builder distributes over splitting the parts: the text of `a + b` is the text of `a` followed by the text of `b`. |
| Text.ConcatSingles | QuPOSChallenge/StringMatrix.cs:82-87 | Appending single-character cells gives a text of the same length, whose character `i` is cell `i`. |
| Text.MatchesFromCountsPositions | QuPOSChallenge/StringMatrix.cs:53-60 | The overlapping count equals the number of distinct start positions of the word. Every occurrence is counted, overlapping ones included, and none twice. |
| Text.MatchesFromIndexOf | QuPOSChallenge/StringMatrix.cs:55-58 | Resuming the count at the position `IndexOf` returns skips no occurrence. When `IndexOf` returns -1, none are left. |
| Text.MatchesFrom | QuPOSChallenge/StringMatrix.cs:53-60 | The overlapping count from position `i`: a non-empty word occurs at most `|line| - |word| + 1 - i` times, and never when it does not fit. |
| Text.Occurrences | QuPOSChallenge/StringMatrix.cs:53-60 | The overlapping count in a line: a non-empty word occurs at most `|line| - |word| + 1` times, and never in a shorter line. |
| Text.OverlapExamples | QuPOSChallenge/StringMatrix.cs:56 | "aa" occurs 3 times in "aaaa" and 8 times in nine letters "a": overlapping occurrences count. |
| Text.RunMatches | QuPOSChallenge/StringMatrix.cs:53-60 | In a run of `n` letters "a", the count of "aa" from position `i` is `n - 1 - i`: an occurrence starts at every position up to `n - 2`. |
| Matrix.Layout | QuPOSChallenge/StringMatrix.cs:76-90 | The rows `CreateData` builds: exactly `rows` row texts. |
| Matrix.AppendCells | QuPOSChallenge/StringMatrix.cs:82-86 | The StringBuilder loop yields the in-order concatenation of the row's cells. |
| Matrix.CreateData | QuPOSChallenge/StringMatrix.cs:72-91 | Throws the count-mismatch argument exception exactly when `columns * rows` differs from the cell count. Otherwise returns the row texts `Layout`, where row `r` concatenates cells `r*columns .. r*columns+columns`. |
| Matrix.LayoutRow | QuPOSChallenge/StringMatrix.cs:79-88 | Row `k` of the data is the in-order concatenation of the cells `values[k*columns .. k*columns+columns]`, and those cells are in range. |
| Matrix.New | QuPOSChallenge/StringMatrix.cs:12-15 | The record keeps its dimensions, and its `Data` is `CreateData`'s result. It throws the same exception, under the same condition. |
| Matrix.LayoutOfSingleCharacters | QuPOSChallenge/StringMatrix.cs:79-88 | With single-character cells, the grid has `rows` rows of `columns` characters, and character `(r, c)` is cell `r*columns + c`. |
| Matrix.LayoutPreservesOrder | QuPOSChallenge/StringMatrix.cs:79-88 | The row texts read in order spell the cells in their original order. |
| Matrix.RowsSpellCells | QuPOSChallenge/StringMatrix.cs:79-88 | When each of the first `k` rows concatenates its `columns` cells, those rows read in order spell the first `k*columns` cells in order. |
| Matrix.Transposed | QuPOSChallenge/StringMatrix.cs:22-35 | The transposed grid is rectangular, with dimensions swapped, and its character `(c, r)` is the original character `(r, c)`. |
| Matrix.LayoutOfColumnMajor | QuPOSChallenge/StringMatrix.cs:24-34 | A cell array filled at `col*Rows + row` with character `(row, col)` lays out, with dimensions swapped, as the transposed grid. |
| Matrix.ColumnMajorRow | QuPOSChallenge/StringMatrix.cs:24-34 | Row `c` of the column-major cell array, laid out with dimensions swapped, is column `c` of the grid read top to bottom. |
| Matrix.TransposeRow | QuPOSChallenge/StringMatrix.cs:28-31 | The inner loop writes each character of row `row` into its column-major slot and leaves the slots of every other row unchanged. |
| Matrix.Transpose | QuPOSChallenge/StringMatrix.cs:22-35 | The returned record is the transposed grid. |
| Matrix.TransposeInvolution | QuPOSChallenge/StringMatrix.cs:22-35 | Transposing twice gives back the original grid. |
| Matrix.RowCount | QuPOSChallenge/StringMatrix.cs:43-61 | What `CountInRow` answers. For an existing row and a non-empty word it is at most `|row| - |word| + 1`, and 0 when the word is longer than the row. |
| Matrix.CountInRow | QuPOSChallenge/StringMatrix.cs:43-61 | Returns 0 for a row past the last one or for the empty word, the empty word on any row included. Otherwise returns the number of distinct positions where the word occurs in that row, overlaps included. |
| Ranking.Keys | QuPOSChallenge/WordFinder.cs:82 | `Select(kvp => kvp.Key)`: one key per entry, key `i` being the key of entry `i`. |
| Ranking.Put | QuPOSChallenge/WordFinder.cs:77 | Dictionary assignment keeps keys unique. An existing key keeps its place and gets the new value. A new key is appended at the end. |
| Ranking.PutExisting | QuPOSChallenge/WordFinder.cs:77 | Assigning a key the value it already has leaves the dictionary unchanged. |
| Ranking.InsertDescending | QuPOSChallenge/WordFinder.cs:82 | Inserting into a descending sequence keeps it descending. The result has one more entry and holds exactly the old entries plus the new one. |
| Ranking.InsertShape | QuPOSChallenge/WordFinder.cs:82 | The new entry goes right after every entry whose total is at least its own, and before every entry with a smaller total. |
| Ranking.InsertPermutes | QuPOSChallenge/WordFinder.cs:82 | Insertion adds exactly one copy of the entry, as a multiset. |
| Ranking.InsertStable | QuPOSChallenge/WordFinder.cs:82 | Among entries with the same total, the inserted entry comes last. |
| Ranking.InsertDistinct | QuPOSChallenge/WordFinder.cs:82 | Inserting an entry with a new key keeps the keys unique. |
| Ranking.SortDescending | QuPOSChallenge/WordFinder.cs:82 | `OrderByDescending` yields a sequence with non-increasing totals, of the same length, with the same entries. |
| Ranking.SortPermutes | QuPOSChallenge/WordFinder.cs:82 | The sort is a permutation of the dictionary entries, as a multiset. |
| Ranking.SortStable | QuPOSChallenge/WordFinder.cs:82 | The sort is stable: for every total, the entries with that total come out in dictionary order. |
| Ranking.SortDistinct | QuPOSChallenge/WordFinder.cs:82 | Sorting entries with unique keys keeps the keys unique. |
| Ranking.SortKeepsTiesInOrder | QuPOSChallenge/WordFinder.cs:82 | For unique keys, any two sorted entries with equal totals appear in the order their keys have in the dictionary. |
| Ranking.Top | QuPOSChallenge/WordFinder.cs:82-84 | The result has `min(10, n)` keys, and key `i` is the key of the `i`-th entry of the descending sort. |
| Ranking.TopProperties | QuPOSChallenge/WordFinder.cs:82-84 | The result is the first `min(10, n)` keys of the sorted dictionary. They are distinct, come from the dictionary, and have non-increasing totals. An entry is left out only when ten keys are returned, each with a total at least its own. |
| Ranking.TopExcluded | QuPOSChallenge/WordFinder.cs:82-84 | An entry whose key is not returned sits behind a full list of ten sorted entries, each with a total at least its own. |
| Ranking.TopOfOne | QuPOSChallenge/WordFinder.cs:82-84 | A dictionary of one entry returns its key alone. |
| Finder.RootFrom | QuPOSChallenge/WordFinder.cs:19-20 | The integer square-root search returns -1 exactly when the count is not a perfect square. Otherwise it returns the root. |
| Finder.SquareSide | QuPOSChallenge/WordFinder.cs:19-22 | The square guards, in order. The side is accepted exactly when the count is `s*s` with `1 <= s <= 8`. A non-square count throws the not-square message. A root above 8 throws the too-large message. An empty matrix throws the empty message. |
| Finder.CheckDimensions | QuPOSChallenge/WordFinder.cs:39-42 | The explicit guards, in order. They pass exactly when both counts are in `1..64`, and each failure throws the message of the first guard it breaks. |
| Finder.Scan | QuPOSChallenge/WordFinder.cs:63-73 | The total the row loop computes for a word over row indices below the bound in both grids. An empty word totals 0. |
| Finder.ScanSplits | QuPOSChallenge/WordFinder.cs:66-73 | The interleaved row loop's total is the sum over the original grid's rows plus the sum over the transposed grid's rows. |
| Finder.SumRowsPastEnd | QuPOSChallenge/StringMatrix.cs:45 | Row indices past the last row add nothing to a total. |
| Finder.SumRowsOfTransposed | QuPOSChallenge/WordFinder.cs:66-73 | Counting the rows of the transposed grid counts the columns of the original, read top to bottom. |
| Finder.ScanAsWritten | QuPOSChallenge/WordFinder.cs:66-73 | As written, the loop counts all rows and only the first `min(rows, columns)` columns. |
| Finder.ScanAsWrittenCoversTallGrid | QuPOSChallenge/WordFinder.cs:66-73 | When a grid has no more columns than rows, the as-written total is the full total over all rows and columns. |
| Finder.FullBound | QuPOSChallenge/WordFinder.cs:67 | The corrected loop bound is the larger of the two row counts. |
| Finder.FullScanCoversGrid | QuPOSChallenge/WordFinder.cs:66-73 | With the corrected bound, the loop counts every row and every column of the grid. |
| Finder.WideGridLayout | QuPOSChallenge/WordFinder.cs:44-45 | Cells "a".."f" with 3 columns and 2 rows give rows "abc" and "def". The transposed rows are "ad", "be" and "cf". |
| Finder.WideGridCounts | QuPOSChallenge/StringMatrix.cs:53-60 | "cf" occurs in none of "abc", "def", "ad" or "be", and once in "cf". |
| Finder.WideGridScans | QuPOSChallenge/WordFinder.cs:66-73 | On that grid, the loop's total for "cf" is 0 with the as-written bound 2 and 1 with the bound 3. |
| Finder.WideGridTables | QuPOSChallenge/WordFinder.cs:59-79 | For the query ["cf"] on that grid, the dictionary is empty with bound 2 and holds ("cf", 1) with bound 3. |
| Finder.WideGridMissesLastColumn | QuPOSChallenge/WordFinder.cs:67-73 | On that 3×2 grid, "cf" occurs once (in the last column). The as-written search for ["cf"] returns nothing, and the corrected bound returns ["cf"]. |
| Finder.Tally | QuPOSChallenge/WordFinder.cs:59-79 | The dictionary the loop builds never holds a word twice. |
| Finder.TallyContents | QuPOSChallenge/WordFinder.cs:61-79 | The dictionary holds exactly the non-empty query words with a positive total, each paired with its total. |
| Finder.TallyExtends | QuPOSChallenge/WordFinder.cs:61-78 | One more query word leaves the dictionary unchanged when the word is empty, has total 0 or is already present. Otherwise the word is appended with its total. |
| Finder.RepeatedWordChangesNothing | QuPOSChallenge/WordFinder.cs:75-78 | Repeating a query word leaves the dictionary unchanged: the word is not counted twice. |
| Finder.TallyOrder | QuPOSChallenge/WordFinder.cs:59-79 | The dictionary's words are query words, in the order of their first occurrence in the query. |
| Finder.AppendKeepsQueryOrder | QuPOSChallenge/WordFinder.cs:75-78 | Appending the entry of a word first seen at the end of the query keeps the dictionary in query order. |
| Finder.Search | QuPOSChallenge/WordFinder.cs:53-85 | What `Find` returns for a row bound: at most ten words, and nothing for an empty query. |
| Finder.SearchProperties | QuPOSChallenge/WordFinder.cs:53-85 | The result has at most ten distinct words. Each is a non-empty query word with a positive total. Totals are non-increasing. A matched word is left out only when ten words are returned, each with a total at least its own. |
| Finder.SearchEntry | QuPOSChallenge/WordFinder.cs:82-84 | Word `i` of the result is the key of the `i`-th sorted entry. That entry's total is the word's total, and the word is a non-empty query word with a positive total. |
| Finder.SearchExcluded | QuPOSChallenge/WordFinder.cs:75-84 | A matched query word missing from the result is behind ten returned words, each with a total at least its own. |
| Finder.SearchTiesInQueryOrder | QuPOSChallenge/WordFinder.cs:82-84 | Words with equal totals come out in the order of their first occurrence in the query. |
| Finder.WordFinder.constructor | QuPOSChallenge/WordFinder.cs:26-27 | Keeps the grid as `horizontal` and its transposition as `vertical`. |
| Finder.WordFinder.Square | QuPOSChallenge/WordFinder.cs:17-29 | Throws exactly when the square guards fail, with their message. Otherwise it builds a side × side grid from the cells, in row-major order, together with its transposition. |
| Finder.WordFinder.WithDimensions | QuPOSChallenge/WordFinder.cs:37-46 | Throws exactly when a dimension guard fails (with that guard's message) or when the cell count is not `columns*rows` (with the count-mismatch message). Otherwise it builds the grid and its transposition. |
| Finder.WordFinder.Tabulate | QuPOSChallenge/WordFinder.cs:61-79 | The foreach loop builds the dictionary `Tally`: each non-empty word with its positive total over row indices below the bound, in both grids. |
| Finder.WordFinder.Find | QuPOSChallenge/WordFinder.cs:53-85 | Returns the as-written search result: nothing for an empty query, at most ten distinct matched query words, and totals non-increasing. Ties come out in query order, and a matched word is left out only behind ten words whose totals are at least its own. |
| Finder.WordFinder.FindAllLines | QuPOSChallenge/WordFinder.cs:53-85 | The corrected `Find`. It has the same properties, stated with the full total over every row and every column of the grid. |

## Left out

- `StringMatrix._cache` is not modelled. It is only read and never written, so every lookup misses and counting does not depend on it.
- `SeedData` is not kept in the record. Only `Data` is read by the core.
- `StringMatrix.ToString` is not modelled: it is display only.
- `Program.cs` (console input and output) is not part of this model. `Guards.cs` is modelled only as the guard throwing `ArgumentException` with a message.
- `Finder.SquareSide`: `Math.Sqrt` on a double and the `% 1` test become an exact integer square-root search. For the counts a grid can have, the two agree.
- `Text.IndexOf`: the culture-sensitive `string.IndexOf(string, int)` is modelled as ordinal search. Culture-specific equivalences of characters are not modelled. Positions and lengths count code points, not UTF-16 code units; the two differ only for text outside the Basic Multilingual Plane.
- Null arguments (a null cell sequence, null words, a null query) are not modelled: sequences and strings here are never null.
- `Matrix.CreateData`: dimensions are natural numbers. Negative dimensions, and 32-bit overflow of `columns * rows`, are not modelled. The explicit constructor's guards reject negative dimensions before this point.
- `Matrix.New`: the same restriction as `CreateData`.
- `Matrix.Transpose`: strings are modelled as sequences of Unicode code points, while C# indexes UTF-16 code units. A cell must therefore be one character below U+10000 (`SingleCharacters`). A cell outside the Basic Multilingual Plane is two code units in C#, and `Transpose` would split its surrogate pair across two columns; that behaviour is not modelled.
- `Matrix.Transpose`: it requires a rectangular grid (every row exactly `columns` characters). A grid built from multi-character or empty cells could make `Data[row][col]` read the wrong character or throw an index exception, and that is not modelled.
- `Finder.WordFinder.Square`: it requires single-character cells below U+10000, for the reasons given for `Transpose`.
- `Finder.WordFinder.WithDimensions`: it also requires single-character cells below U+10000, for the same reasons.
- `Matrix.CountInRow`: it requires a non-negative row unless the word is empty. A negative row with a non-empty word makes the source throw an index exception (StringMatrix.cs:54), and `Find` never passes one. With the empty word the source returns 0 for any row (StringMatrix.cs:46), and so does the model. The `int` result is a natural number, because a count cannot overflow at 64 × 64 cells.
- The dictionary's enumeration order is taken to be insertion order. This holds for a .NET dictionary without removals, and `Find` never removes.
- LINQ's deferred evaluation is not modelled. `Find` returns the evaluated sequence.

## Findings

| source | as written | input that shows it | evidently intended | confidence | as-written member | corrected member |
|---|---|---|---|---|---|---|
| QuPOSChallenge/WordFinder.cs:67-73 | The row loop runs `row < _horizontal.Rows` for both grids. The transposed grid has `Columns` rows, so when there are more columns than rows, the last columns are never scanned. | 3 columns × 2 rows with cells "a","b","c","d","e","f"; query ["cf"]. "cf" is the third column, but `Find` returns an empty list. | Scan every row of the original grid and every row of the transposed grid. | not executed | Finder.WideGridMissesLastColumn | Finder.WordFinder.FindAllLines |
