/** The word-to-total table `Find` fills and the ranking it returns: the
    table is kept in insertion order, ranking is a stable sort by total,
    largest first, followed by taking at most ten keys. */
module Ranking {

  /** One table entry: a word and its total. */
  type Entry = (string, nat)

  /** Largest number of words `Find` returns. */
  const MaxResults := 10

  /** The keys of the table, in table order (`Select(kvp => kvp.Key)`). */
  function Keys(table: seq<Entry>): (ks: seq<string>)
    ensures |ks| == |table|
    ensures forall i :: 0 <= i < |table| ==> ks[i] == table[i].0
  {
    seq(|table|, i requires 0 <= i < |table| => table[i].0)
  }

  /** No word appears twice. */
  predicate Distinct(ks: seq<string>)
  {
    forall i, j :: 0 <= i < j < |ks| ==> ks[i] != ks[j]
  }

  /** No two entries share a key, as in a dictionary: `Distinct` of the
      keys, written out on the entries (`DistinctKeysOfKeys` proves the two
      agree) so that proofs about the table need not unfold `Keys`. */
  predicate DistinctKeys(table: seq<Entry>)
  {
    forall i, j :: 0 <= i < j < |table| ==> table[i].0 != table[j].0
  }

  lemma DistinctKeysOfKeys(table: seq<Entry>)
    ensures DistinctKeys(table) <==> Distinct(Keys(table))
  {
    var ks := Keys(table);
    assert forall i :: 0 <= i < |table| ==> ks[i] == table[i].0;
  }

  /** No entry has key `key`. */
  predicate Absent(table: seq<Entry>, key: string)
  {
    forall i :: 0 <= i < |table| ==> table[i].0 != key
  }

  /** Position of the first occurrence of `x` in `s`. */
  function FirstIndex(s: seq<string>, x: string): (i: nat)
    requires x in s
    ensures i < |s| && s[i] == x
    ensures forall j :: 0 <= j < i ==> s[j] != x
  {
    if s[0] == x then 0 else 1 + FirstIndex(s[1..], x)
  }

  lemma FirstIndexExtended(s: seq<string>, y: string, x: string)
    requires x in s + [y]
    ensures x in s ==> FirstIndex(s + [y], x) == FirstIndex(s, x)
    ensures x !in s ==> FirstIndex(s + [y], x) == |s|
  {
    if x in s {
      var k := FirstIndex(s, x);
      assert (s + [y])[k] == x;
    }
  }

  /** A word seen before the last position keeps its first position. */
  lemma FirstIndexInPrefix(words: seq<string>, x: string)
    requires words != [] && x in words[..|words| - 1]
    ensures x in words && FirstIndex(words, x) == FirstIndex(words[..|words| - 1], x)
  {
    var init := words[..|words| - 1];
    var k := FirstIndex(init, x);
    assert words[k] == x;
    var i := FirstIndex(words, x);
    assert init[i] == words[i];
  }

  /** A last word not seen before is first seen at the last position. */
  lemma FirstIndexOfLast(words: seq<string>)
    requires words != [] && words[|words| - 1] !in words[..|words| - 1]
    ensures FirstIndex(words, words[|words| - 1]) == |words| - 1
  {
    var init := words[..|words| - 1];
    assert forall j :: 0 <= j < |init| ==> init[j] == words[j];
  }

  // ---------------------------------------------------------------------
  // The table
  // ---------------------------------------------------------------------

  /** `table[key] = value`: a key already present keeps its place and gets
      the new value; a new key is added at the end. */
  function Put(table: seq<Entry>, key: string, value: nat): (t: seq<Entry>)
    requires DistinctKeys(table)
    ensures DistinctKeys(t)
    ensures forall i :: 0 <= i < |table| && table[i].0 == key ==> t == table[i := (key, value)]
    ensures Absent(table, key) ==> t == table + [(key, value)]
  {
    if table == [] then [(key, value)]
    else if table[0].0 == key then [(key, value)] + table[1..]
    else [table[0]] + Put(table[1..], key, value)
  }

  /** Assigning a key the value it already has leaves the table as it is. */
  lemma PutExisting(table: seq<Entry>, i: nat)
    requires DistinctKeys(table)
    requires i < |table|
    ensures Put(table, table[i].0, table[i].1) == table
  {
  }

  // ---------------------------------------------------------------------
  // Stable sort by total, largest first
  // ---------------------------------------------------------------------

  /** Totals never increase along the sequence. */
  predicate Descending(s: seq<Entry>)
  {
    forall i, j :: 0 <= i < j < |s| ==> s[i].1 >= s[j].1
  }

  /** The entries whose total is `n`, in their order in `s`. */
  function WithTotal(s: seq<Entry>, n: nat): seq<Entry>
  {
    if s == [] then []
    else (if s[0].1 == n then [s[0]] else []) + WithTotal(s[1..], n)
  }

  lemma {:induction false} WithTotalAppend(a: seq<Entry>, b: seq<Entry>, n: nat)
    ensures WithTotal(a + b, n) == WithTotal(a, n) + WithTotal(b, n)
  {
    if a == [] {
      assert a + b == b;
    } else {
      var head := if a[0].1 == n then [a[0]] else [];
      assert (a + b)[0] == a[0];
      assert (a + b)[1..] == a[1..] + b;
      WithTotalAppend(a[1..], b, n);
      var rest, tail := WithTotal(a[1..], n), WithTotal(b, n);
      assert head + (rest + tail) == (head + rest) + tail;
    }
  }

  lemma {:induction false} NoneWithTotal(s: seq<Entry>, n: nat)
    requires Descending(s)
    requires s != [] ==> s[0].1 < n
    ensures WithTotal(s, n) == []
  {
    if s != [] {
      NoneWithTotal(s[1..], n);
    }
  }

  /** Stable insertion: `e` goes after every entry whose total is at least
      its own and before the first one with a smaller total. */
  function InsertDescending(sorted: seq<Entry>, e: Entry): (r: seq<Entry>)
    requires Descending(sorted)
    ensures Descending(r)
    ensures |r| == |sorted| + 1
    ensures forall x :: x in r <==> x in sorted || x == e
  {
    if sorted == [] then [e]
    else if sorted[0].1 >= e.1 then
      var rest := InsertDescending(sorted[1..], e);
      HeadIsLargest(sorted);
      ConsDescending(sorted[0], rest);
      [sorted[0]] + rest
    else
      ConsDescending(e, sorted);
      [e] + sorted
  }

  /** No later entry of a descending sequence exceeds its head. */
  lemma HeadIsLargest(s: seq<Entry>)
    requires Descending(s) && s != []
    ensures forall x :: x in s[1..] ==> x.1 <= s[0].1
  {
    forall x | x in s[1..]
      ensures x.1 <= s[0].1
    {
      var k :| 0 <= k < |s[1..]| && s[1..][k] == x;
      assert s[k + 1] == x;
    }
  }

  /** An entry no smaller than any of a descending sequence may lead it. */
  lemma ConsDescending(x: Entry, s: seq<Entry>)
    requires Descending(s)
    requires forall y :: y in s ==> y.1 <= x.1
    ensures Descending([x] + s)
  {
    var r := [x] + s;
    assert forall k :: 0 < k < |r| ==> r[k] == s[k - 1] && r[k] in s;
  }

  /** Insertion adds exactly one copy of `e`. */
  lemma {:induction false} InsertPermutes(sorted: seq<Entry>, e: Entry)
    requires Descending(sorted)
    ensures multiset(InsertDescending(sorted, e)) == multiset(sorted) + multiset{e}
  {
    if sorted != [] && sorted[0].1 >= e.1 {
      InsertPermutes(sorted[1..], e);
      assert sorted == [sorted[0]] + sorted[1..];
    }
  }

  /** Insertion puts `e` after every entry with the same total. */
  lemma InsertStable(sorted: seq<Entry>, e: Entry, n: nat)
    requires Descending(sorted)
    ensures WithTotal(InsertDescending(sorted, e), n) == WithTotal(sorted, n) + WithTotal([e], n)
  {
    InsertShape(sorted, e);
    var p := InsertPoint(sorted, e);
    assert sorted == sorted[..p] + sorted[p..];
    if e.1 == n {
      DescendingSuffix(sorted, p);
      NoneWithTotal(sorted[p..], n);
    }
    WithTotalSplice(sorted[..p], e, sorted[p..], n);
  }

  /** Putting `e` between two parts adds its entry, if its total is `n`,
      after those of both parts, provided the second part has none. */
  lemma WithTotalSplice(before: seq<Entry>, e: Entry, after: seq<Entry>, n: nat)
    requires e.1 == n ==> WithTotal(after, n) == []
    ensures WithTotal(before + [e] + after, n) == WithTotal(before + after, n) + WithTotal([e], n)
  {
    WithTotalAppend(before + [e], after, n);
    WithTotalAppend(before, [e], n);
    WithTotalAppend(before, after, n);
    if e.1 != n {
      assert WithTotal([e], n) == [];
    }
  }

  lemma DescendingSuffix(s: seq<Entry>, p: nat)
    requires Descending(s) && p <= |s|
    ensures Descending(s[p..])
  {
    assert forall i :: 0 <= i < |s| - p ==> s[p..][i] == s[p + i];
  }

  /** Inserting an entry with a new key keeps the keys distinct. */
  lemma InsertDistinct(sorted: seq<Entry>, e: Entry)
    requires Descending(sorted)
    requires DistinctKeys(sorted) && Absent(sorted, e.0)
    ensures DistinctKeys(InsertDescending(sorted, e))
    decreases |sorted|
  {
    if sorted != [] && sorted[0].1 >= e.1 {
      InsertDistinct(sorted[1..], e);
      var rest := InsertDescending(sorted[1..], e);
      forall k | 0 <= k < |rest|
        ensures rest[k].0 != sorted[0].0
      {
        assert rest[k] in rest;
      }
    }
  }

  /** Where `InsertDescending` puts `e`: after the leading entries whose
      total is at least its own. */
  function InsertPoint(sorted: seq<Entry>, e: Entry): (p: nat)
    ensures p <= |sorted|
  {
    if sorted == [] || sorted[0].1 < e.1 then 0 else 1 + InsertPoint(sorted[1..], e)
  }

  /** Insertion splits the sorted entries at the insertion point: those
      before it have a total at least `e`'s, those after a smaller one. */
  lemma InsertShape(sorted: seq<Entry>, e: Entry)
    requires Descending(sorted)
    ensures InsertDescending(sorted, e) == sorted[..InsertPoint(sorted, e)] + [e] + sorted[InsertPoint(sorted, e)..]
    ensures forall k :: 0 <= k < InsertPoint(sorted, e) ==> sorted[k].1 >= e.1
    ensures forall k :: InsertPoint(sorted, e) <= k < |sorted| ==> sorted[k].1 < e.1
  {
    InsertSplit(sorted, e);
    InsertPointBounds(sorted, e);
  }

  lemma {:induction false} InsertSplit(sorted: seq<Entry>, e: Entry)
    requires Descending(sorted)
    ensures InsertDescending(sorted, e) == sorted[..InsertPoint(sorted, e)] + [e] + sorted[InsertPoint(sorted, e)..]
  {
    if sorted != [] && sorted[0].1 >= e.1 {
      InsertSplit(sorted[1..], e);
      var p := InsertPoint(sorted[1..], e);
      ConsSplice(sorted, p, e);
    }
  }

  /** Splitting the tail at `p` is splitting the whole at `p + 1`. */
  lemma ConsSplice(s: seq<Entry>, p: nat, e: Entry)
    requires p < |s|
    ensures [s[0]] + (s[1..][..p] + [e] + s[1..][p..]) == s[..p + 1] + [e] + s[p + 1..]
  {
    assert s[..p + 1] == [s[0]] + s[1..][..p];
    assert s[p + 1..] == s[1..][p..];
  }

  lemma {:induction false} InsertPointBounds(sorted: seq<Entry>, e: Entry)
    requires Descending(sorted)
    ensures forall k :: 0 <= k < InsertPoint(sorted, e) ==> sorted[k].1 >= e.1
    ensures forall k :: InsertPoint(sorted, e) <= k < |sorted| ==> sorted[k].1 < e.1
  {
    if sorted != [] && sorted[0].1 >= e.1 {
      InsertPointBounds(sorted[1..], e);
      assert forall k :: 1 <= k < |sorted| ==> sorted[1..][k - 1] == sorted[k];
    }
  }

  /** `OrderByDescending(kvp => kvp.Value)`: a stable sort, largest total
      first, of the same entries. */
  function SortDescending(s: seq<Entry>): (r: seq<Entry>)
    ensures Descending(r)
    ensures |r| == |s|
    ensures forall x :: x in r <==> x in s
  {
    if s == [] then []
    else
      var init := s[..|s| - 1];
      assert forall x :: x in init ==> x in s;
      assert s == init + [s[|s| - 1]];
      InsertDescending(SortDescending(init), s[|s| - 1])
  }

  /** The sort is a permutation of its input. */
  lemma {:induction false} SortPermutes(s: seq<Entry>)
    ensures multiset(SortDescending(s)) == multiset(s)
  {
    if s != [] {
      var init := s[..|s| - 1];
      SortPermutes(init);
      InsertPermutes(SortDescending(init), s[|s| - 1]);
      assert s == init + [s[|s| - 1]];
    }
  }

  /** The sort is stable: the entries of any one total come out in the
      order they went in. */
  lemma {:induction false} SortStable(s: seq<Entry>, n: nat)
    ensures WithTotal(SortDescending(s), n) == WithTotal(s, n)
  {
    if s != [] {
      var init := s[..|s| - 1];
      SortStable(init, n);
      InsertStable(SortDescending(init), s[|s| - 1], n);
      assert s == init + [s[|s| - 1]];
      WithTotalAppend(init, [s[|s| - 1]], n);
    }
  }

  /** Sorting a table with distinct keys gives distinct keys. */
  lemma {:induction false} SortDistinct(s: seq<Entry>)
    requires DistinctKeys(s)
    ensures DistinctKeys(SortDescending(s))
  {
    if s != [] {
      var init, last := s[..|s| - 1], s[|s| - 1];
      SortDistinct(init);
      var sortedInit := SortDescending(init);
      forall k | 0 <= k < |sortedInit|
        ensures sortedInit[k].0 != last.0
      {
        assert sortedInit[k] in init;
      }
      InsertDistinct(sortedInit, last);
    }
  }

  /** Entries with equal totals appear in `r` in the order their keys have
      in `keys`. */
  predicate TiesOrdered(r: seq<Entry>, keys: seq<string>)
  {
    forall i, j :: 0 <= i < j < |r| && r[i].1 == r[j].1 ==>
      r[i].0 in keys && r[j].0 in keys && FirstIndex(keys, r[i].0) < FirstIndex(keys, r[j].0)
  }

  /** On a table with distinct keys the sort keeps ties in table order. */
  lemma {:induction false} SortKeepsTiesInOrder(s: seq<Entry>)
    requires DistinctKeys(s)
    ensures TiesOrdered(SortDescending(s), Keys(s))
  {
    if s != [] {
      var init, last := s[..|s| - 1], s[|s| - 1];
      SortKeepsTiesInOrder(init);
      var r0 := SortDescending(init);
      InsertShape(r0, last);
      assert Keys(s) == Keys(init) + [last.0];
      forall k | 0 <= k < |r0|
        ensures r0[k].0 in Keys(init) && FirstIndex(Keys(s), r0[k].0) == FirstIndex(Keys(init), r0[k].0) < |init|
      {
        assert r0[k] in init;
        var m :| 0 <= m < |init| && init[m] == r0[k];
        assert Keys(init)[m] == r0[k].0;
        FirstIndexExtended(Keys(init), last.0, r0[k].0);
      }
      assert last.0 !in Keys(init) by {
        forall m | 0 <= m < |init|
          ensures Keys(init)[m] != last.0
        {
          assert s[m] == init[m];
        }
      }
      FirstIndexExtended(Keys(init), last.0, last.0);
      InsertedTiesInOrder(r0, last, InsertPoint(r0, last), Keys(init), Keys(s));
    }
  }

  /** Inserting an entry whose key comes after every other key keeps ties
      ordered: it lands after every entry with its own total. */
  lemma InsertedTiesInOrder(r0: seq<Entry>, e: Entry, p: nat, before: seq<string>, keys: seq<string>)
    requires p <= |r0| && keys == before + [e.0]
    requires TiesOrdered(r0, before)
    requires forall k :: 0 <= k < |r0| ==> r0[k].0 in before && FirstIndex(keys, r0[k].0) == FirstIndex(before, r0[k].0)
    requires FirstIndex(keys, e.0) == |before|
    requires forall k :: p <= k < |r0| ==> r0[k].1 < e.1
    ensures TiesOrdered(r0[..p] + [e] + r0[p..], keys)
  {
    var r := r0[..p] + [e] + r0[p..];
    assert forall k :: 0 <= k < p ==> r[k] == r0[k];
    assert r[p] == e;
    assert forall k :: p < k < |r| ==> r[k] == r0[k - 1];
    forall i, j | 0 <= i < j < |r| && r[i].1 == r[j].1
      ensures r[i].0 in keys && r[j].0 in keys && FirstIndex(keys, r[i].0) < FirstIndex(keys, r[j].0)
    {
      InsertedPair(r0, e, p, r, before, keys, i, j);
    }
  }

  /** One pair of equal-total entries after the insertion. */
  lemma InsertedPair(r0: seq<Entry>, e: Entry, p: nat, r: seq<Entry>, before: seq<string>, keys: seq<string>, i: nat, j: nat)
    requires p <= |r0| && |r| == |r0| + 1 && keys == before + [e.0]
    requires forall k :: 0 <= k < p ==> r[k] == r0[k]
    requires r[p] == e
    requires forall k :: p < k < |r| ==> r[k] == r0[k - 1]
    requires TiesOrdered(r0, before)
    requires forall k :: 0 <= k < |r0| ==> r0[k].0 in before && FirstIndex(keys, r0[k].0) == FirstIndex(before, r0[k].0)
    requires FirstIndex(keys, e.0) == |before|
    requires forall k :: p <= k < |r0| ==> r0[k].1 < e.1
    requires i < j < |r| && r[i].1 == r[j].1
    ensures r[i].0 in keys && r[j].0 in keys && FirstIndex(keys, r[i].0) < FirstIndex(keys, r[j].0)
  {
    if j == p {
      assert r[i] == r0[i];
    } else if i != p {
      var i' := if i < p then i else i - 1;
      var j' := if j < p then j else j - 1;
      assert r[i] == r0[i'] && r[j] == r0[j'];
    }
  }

  /** The ranking: keys by descending total, at most `MaxResults` of them. */
  function Top(table: seq<Entry>): (ranked: seq<string>)
    ensures |ranked| == if |table| <= MaxResults then |table| else MaxResults
    ensures forall i :: 0 <= i < |ranked| ==> ranked[i] == SortDescending(table)[i].0
  {
    var ranked := Keys(SortDescending(table));
    if |ranked| <= MaxResults then ranked else ranked[..MaxResults]
  }

  /** A table of one entry ranks its key alone. */
  lemma TopOfOne(e: Entry)
    ensures Top([e]) == [e.0]
  {
    assert [e][..0] == [];
    assert SortDescending([e]) == [e];
    assert Keys([e]) == [e.0];
  }

  /** What the ranking promises about a table whose keys are distinct: the
      first `min(10, |table|)` keys of the full ranking, distinct, taken from
      the table, in non-increasing order of total; an entry left out has a
      total no larger than any kept, and is left out only when ten keys are
      returned. */
  lemma TopProperties(table: seq<Entry>)
    requires DistinctKeys(table)
    ensures |Top(table)| == if |table| <= MaxResults then |table| else MaxResults
    ensures Top(table) == Keys(SortDescending(table))[..|Top(table)|]
    ensures Distinct(Top(table))
    ensures forall i :: 0 <= i < |Top(table)| ==> SortDescending(table)[i] in table
    ensures forall i, j :: 0 <= i < j < |Top(table)| ==> SortDescending(table)[i].1 >= SortDescending(table)[j].1
    ensures forall e :: e in table && e.0 !in Top(table) ==>
      |Top(table)| == MaxResults && forall i :: 0 <= i < MaxResults ==> SortDescending(table)[i].1 >= e.1
  {
    TopDistinct(table);
    TopFromTable(table);
    forall e | e in table && e.0 !in Top(table)
      ensures |Top(table)| == MaxResults && forall i :: 0 <= i < MaxResults ==> SortDescending(table)[i].1 >= e.1
    {
      TopExcluded(table, e);
    }
  }

  /** The ranked entries come from the table, largest total first. */
  lemma TopFromTable(table: seq<Entry>)
    ensures forall i :: 0 <= i < |Top(table)| ==> SortDescending(table)[i] in table
    ensures forall i, j :: 0 <= i < j < |Top(table)| ==> SortDescending(table)[i].1 >= SortDescending(table)[j].1
  {
    var sorted := SortDescending(table);
    assert forall i :: 0 <= i < |sorted| ==> sorted[i] in sorted;
  }

  lemma TopDistinct(table: seq<Entry>)
    requires DistinctKeys(table)
    ensures Distinct(Top(table))
  {
    SortDistinct(table);
  }

  /** An entry whose key is not ranked sits past the first ten sorted
      entries. */
  lemma TopExcluded(table: seq<Entry>, e: Entry)
    requires e in table && e.0 !in Top(table)
    ensures |Top(table)| == MaxResults
    ensures forall i :: 0 <= i < MaxResults ==> SortDescending(table)[i].1 >= e.1
  {
    var sorted := SortDescending(table);
    assert e in sorted;
    var k :| 0 <= k < |sorted| && sorted[k] == e;
  }
}
