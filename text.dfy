/** Ordinal string operations the grid relies on: concatenation (what a
    StringBuilder produces), substring search (`string.IndexOf`) and the
    number of overlapping occurrences of a word in a line. */
module Text {

  // ---------------------------------------------------------------------
  // Concatenation
  // ---------------------------------------------------------------------

  /** The text a StringBuilder holds after appending every part in order. */
  function Concat(parts: seq<string>): (text: string)
    ensures |text| == TotalLength(parts)
  {
    if parts == [] then ""
    else
      TotalLengthSnoc(parts);
      Concat(parts[..|parts| - 1]) + parts[|parts| - 1]
  }

  /** The lengths of the parts added up, first part first. */
  function TotalLength(parts: seq<string>): nat
  {
    if parts == [] then 0 else |parts[0]| + TotalLength(parts[1..])
  }

  /** The last part's length can be added last. */
  lemma {:induction false} TotalLengthSnoc(parts: seq<string>)
    requires parts != []
    ensures TotalLength(parts) == TotalLength(parts[..|parts| - 1]) + |parts[|parts| - 1]|
  {
    if |parts| > 1 {
      TotalLengthSnoc(parts[1..]);
      assert parts[1..][..|parts| - 2] == parts[..|parts| - 1][1..];
    }
  }

  /** Appending one more part extends the text by exactly that part. */
  lemma ConcatSnoc(parts: seq<string>, last: string)
    ensures Concat(parts + [last]) == Concat(parts) + last
  {
    assert (parts + [last])[..|parts|] == parts;
  }

  /** Concatenation distributes over `+` on the parts. */
  lemma {:induction false} ConcatAppend(a: seq<string>, b: seq<string>)
    ensures Concat(a + b) == Concat(a) + Concat(b)
    decreases |b|
  {
    if b == [] {
      assert a + b == a;
    } else {
      var init, last := b[..|b| - 1], b[|b| - 1];
      assert a + b == (a + init) + [last];
      ConcatSnoc(a + init, last);
      ConcatAppend(a, init);
      assert b == init + [last];
      ConcatSnoc(init, last);
      var x, y := Concat(a), Concat(init);
      assert (x + y) + last == x + (y + last);
    }
  }

  /** The text of a prefix is the text of one part less, followed by that part. */
  lemma ConcatPrefix(parts: seq<string>, k: nat)
    requires 0 < k <= |parts|
    ensures Concat(parts[..k]) == Concat(parts[..k - 1]) + parts[k - 1]
  {
    assert parts[..k][..k - 1] == parts[..k - 1];
  }

  /** The text of a prefix splits at any point into the text of the shorter
      prefix and the text of the slice after it. */
  lemma ConcatSplit(parts: seq<string>, a: nat, b: nat)
    requires a <= b <= |parts|
    ensures Concat(parts[..b]) == Concat(parts[..a]) + Concat(parts[a..b])
  {
    assert parts[..b] == parts[..a] + parts[a..b];
    ConcatAppend(parts[..a], parts[a..b]);
  }

  /** Every part is a single character that is also a single UTF-16 code
      unit, so its index in a row is the same whether the row is read as
      code points or as code units. */
  predicate SingleCharacters(parts: seq<string>)
  {
    forall i :: 0 <= i < |parts| ==> |parts[i]| == 1 && parts[i][0] as int < 0x1_0000
  }

  /** Concatenating single-character parts spells those characters in order. */
  lemma {:induction false} ConcatSingles(parts: seq<string>)
    requires SingleCharacters(parts)
    ensures |Concat(parts)| == |parts|
    ensures forall i :: 0 <= i < |parts| ==> Concat(parts)[i] == parts[i][0]
  {
    if parts != [] {
      var init := parts[..|parts| - 1];
      ConcatSingles(init);
    }
  }

  /** Parts that are the single characters of `text`, in order, spell it. */
  lemma {:induction false} SpellsText(parts: seq<string>, text: string)
    requires |parts| == |text|
    requires forall i :: 0 <= i < |parts| ==> parts[i] == [text[i]]
    ensures Concat(parts) == text
  {
    if parts != [] {
      var n := |parts| - 1;
      SpellsText(parts[..n], text[..n]);
      assert text == text[..n] + [text[n]];
    }
  }

  // ---------------------------------------------------------------------
  // Ordinal search
  // ---------------------------------------------------------------------

  /** `word` occurs in `line` starting at position `i`. */
  predicate OccursAt(line: string, word: string, i: int)
  {
    0 <= i && i + |word| <= |line| && line[i..i + |word|] == word
  }

  /** Ordinal `line.IndexOf(word, start)`: the first position at or after
      `start` where `word` occurs, or -1 when there is none. */
  function IndexOf(line: string, word: string, start: int): (r: int)
    requires 0 <= start <= |line|
    ensures r == -1 || start <= r <= |line|
    ensures r == -1 ==> forall j :: start <= j <= |line| ==> !OccursAt(line, word, j)
    ensures r != -1 ==> OccursAt(line, word, r)
    ensures r != -1 ==> forall j :: start <= j < r ==> !OccursAt(line, word, j)
    decreases |line| - start
  {
    if OccursAt(line, word, start) then start
    else if start == |line| then -1
    else IndexOf(line, word, start + 1)
  }

  // ---------------------------------------------------------------------
  // Overlapping occurrences
  // ---------------------------------------------------------------------

  /** Number of positions at or after `i` where `word` occurs; occurrences
      may overlap. A non-empty word has at most `|line| - |word| + 1 - i`
      such positions, and none when it does not fit. */
  function MatchesFrom(line: string, word: string, i: nat): (n: nat)
    requires i <= |line|
    ensures word != "" ==> n <= if i + |word| <= |line| then |line| - |word| + 1 - i else 0
    decreases |line| - i
  {
    (if OccursAt(line, word, i) then 1 else 0) + (if i == |line| then 0 else MatchesFrom(line, word, i + 1))
  }

  /** Number of overlapping occurrences of `word` in `line`: for a
      non-empty word at most `|line| - |word| + 1`, and none in a shorter
      line. */
  function Occurrences(line: string, word: string): (n: nat)
    ensures word != "" ==> n <= if |word| <= |line| then |line| - |word| + 1 else 0
  {
    MatchesFrom(line, word, 0)
  }

  /** The start positions at or after `i` of the occurrences of `word`. */
  function MatchPositions(line: string, word: string, i: nat): set<nat>
  {
    set j: nat | i <= j <= |line| && OccursAt(line, word, j)
  }

  /** The count is the number of distinct start positions: every occurrence
      is counted, overlapping ones included, and none twice. */
  lemma {:induction false} MatchesFromCountsPositions(line: string, word: string, i: nat)
    requires i <= |line|
    ensures MatchesFrom(line, word, i) == |MatchPositions(line, word, i)|
    decreases |line| - i
  {
    var here: set<nat> := if OccursAt(line, word, i) then {i} else {};
    if i == |line| {
      assert MatchPositions(line, word, i) == here;
    } else {
      MatchesFromCountsPositions(line, word, i + 1);
      assert MatchPositions(line, word, i) == here + MatchPositions(line, word, i + 1);
      assert here !! MatchPositions(line, word, i + 1);
    }
  }

  /** Resuming the search at `IndexOf(line, word, i)` skips no occurrence. */
  lemma {:induction false} MatchesFromIndexOf(line: string, word: string, i: nat)
    requires i <= |line|
    ensures IndexOf(line, word, i) == -1 ==> MatchesFrom(line, word, i) == 0
    ensures IndexOf(line, word, i) != -1 ==> MatchesFrom(line, word, i) == MatchesFrom(line, word, IndexOf(line, word, i))
    decreases |line| - i
  {
    if !OccursAt(line, word, i) && i < |line| {
      MatchesFromIndexOf(line, word, i + 1);
    }
  }

  /** Overlapping counting on runs of one letter: "aa" occurs 3 times in
      "aaaa" and 8 times (not 12) in nine letters "a". */
  lemma OverlapExamples()
    ensures Occurrences("aaaa", "aa") == 3
    ensures Occurrences("aaaaaaaaa", "aa") == 8
  {
    RunMatches(4, 0);
    assert seq(4, _ => 'a') == "aaaa";
    RunMatches(9, 0);
    assert seq(9, _ => 'a') == "aaaaaaaaa";
  }

  /** In a run of `n` letters "a", "aa" occurs at every position from `i`
      up to `n - 2`. */
  lemma {:induction false} RunMatches(n: nat, i: nat)
    requires 2 <= n && i <= n
    ensures MatchesFrom(seq(n, _ => 'a'), "aa", i) == if i <= n - 2 then n - 1 - i else 0
    decreases n - i
  {
    var line := seq(n, _ => 'a');
    if i + 2 <= n {
      assert line[i..i + 2] == "aa";
    }
    if i < n {
      RunMatches(n, i + 1);
    }
  }
}
