/** `gen_sort_index` of rgit/tools.py: the column permutation the status
    table is shown in. Each column name gets a rank from a pair of lists,
    the names to show first and the names to show last; the permutation
    sorts column positions by rank, then by name, and, the sort being
    stable, by position. */
module SortIndex {

  // ---------------------------------------------------------------------
  // Python's order on str

  /** `a < b` on Python strings: code point by code point, a proper prefix
      first. */
  predicate StrLess(a: string, b: string)
    decreases |a|
  {
    if a == [] then b != []
    else if b == [] then false
    else if a[0] != b[0] then a[0] < b[0]
    else StrLess(a[1..], b[1..])
  }

  lemma {:induction false} StrLessIrreflexive(a: string)
    ensures !StrLess(a, a)
    decreases |a|
  {
    if a != [] {
      StrLessIrreflexive(a[1..]);
    }
  }

  lemma {:induction false} StrLessTransitive(a: string, b: string, c: string)
    requires StrLess(a, b) && StrLess(b, c)
    ensures StrLess(a, c)
    decreases |a|
  {
    if a != [] && b != [] && c != [] && a[0] == b[0] && b[0] == c[0] {
      StrLessTransitive(a[1..], b[1..], c[1..]);
    }
  }

  lemma {:induction false} StrLessTotal(a: string, b: string)
    ensures a == b || StrLess(a, b) || StrLess(b, a)
    decreases |a|
  {
    if a != [] && b != [] && a[0] == b[0] {
      StrLessTotal(a[1..], b[1..]);
      if a[1..] == b[1..] {
        assert a == [a[0]] + a[1..] && b == [b[0]] + b[1..];
      }
    }
  }

  // ---------------------------------------------------------------------
  // Ranks

  /** `sort_order`: the names to show first and the names to show last. */
  datatype SortOrder = SortOrder(first: seq<string>, last: seq<string>)

  /** Where a dict built from `enumerate(xs)` maps `x`: the position of its
      last occurrence, since a later key overwrites an earlier one. */
  function LastIndex(xs: seq<string>, x: string): (i: nat)
    requires x in xs
    ensures i < |xs| && xs[i] == x
    ensures forall j :: i < j < |xs| ==> xs[j] != x
  {
    if xs[|xs| - 1] == x then |xs| - 1 else LastIndex(xs[..|xs| - 1], x)
  }

  /** `sort_order_dict.get(column, len(sort_first))` for a table of `n`
      columns: the `sort_last` entries are written after the `sort_first`
      ones and so win. */
  function Rank(n: nat, order: SortOrder, column: string): int
  {
    if column in order.last then n - |order.last| + LastIndex(order.last, column)
    else if column in order.first then LastIndex(order.first, column)
    else |order.first|
  }

  /** The rank the `sort_last` entries evidently should get: above
      every rank a `sort_first` or unlisted column can have. */
  function CorrectedRank(order: SortOrder, column: string): int
  {
    if column in order.last then |order.first| + 1 + LastIndex(order.last, column)
    else if column in order.first then LastIndex(order.first, column)
    else |order.first|
  }

  // ---------------------------------------------------------------------
  // Sorting positions by (rank, name, position)

  /** Column `i` sorts before column `j` under `sortkey`, ties left in
      position order by the stable sort. */
  predicate Before(values: seq<string>, ranks: seq<int>, i: nat, j: nat)
    requires |ranks| == |values| && i < |values| && j < |values|
  {
    ranks[i] < ranks[j]
    || (ranks[i] == ranks[j]
        && (StrLess(values[i], values[j]) || (values[i] == values[j] && i < j)))
  }

  lemma BeforeStrict(values: seq<string>, ranks: seq<int>, i: nat, j: nat)
    requires |ranks| == |values| && i < |values| && j < |values|
    ensures i == j || Before(values, ranks, i, j) || Before(values, ranks, j, i)
    ensures !(Before(values, ranks, i, j) && Before(values, ranks, j, i))
  {
    StrLessTotal(values[i], values[j]);
    StrLessIrreflexive(values[i]);
    if StrLess(values[i], values[j]) && StrLess(values[j], values[i]) {
      StrLessTransitive(values[i], values[j], values[i]);
    }
  }

  lemma BeforeTransitive(values: seq<string>, ranks: seq<int>, i: nat, j: nat, k: nat)
    requires |ranks| == |values| && i < |values| && j < |values| && k < |values|
    requires Before(values, ranks, i, j) && Before(values, ranks, j, k)
    ensures Before(values, ranks, i, k)
  {
    if ranks[i] == ranks[j] == ranks[k] && StrLess(values[i], values[j]) && StrLess(values[j], values[k]) {
      StrLessTransitive(values[i], values[j], values[k]);
    }
  }

  predicate InRange(values: seq<string>, xs: seq<nat>) {
    forall k :: 0 <= k < |xs| ==> xs[k] < |values|
  }

  predicate Distinct(xs: seq<nat>) {
    forall a, b :: 0 <= a < b < |xs| ==> xs[a] != xs[b]
  }

  predicate Sorted(values: seq<string>, ranks: seq<int>, xs: seq<nat>)
    requires |ranks| == |values| && InRange(values, xs)
  {
    forall a, b :: 0 <= a < b < |xs| ==> Before(values, ranks, xs[a], xs[b])
  }

  function Insert(values: seq<string>, ranks: seq<int>, x: nat, xs: seq<nat>): (r: seq<nat>)
    requires |ranks| == |values| && x < |values| && InRange(values, xs)
    ensures InRange(values, r)
    ensures multiset(r) == multiset(xs) + multiset{x}
  {
    if xs == [] then [x]
    else if Before(values, ranks, x, xs[0]) then [x] + xs
    else
      var rest := Insert(values, ranks, x, xs[1..]);
      assert xs == [xs[0]] + xs[1..];
      [xs[0]] + rest
  }

  function Sort(values: seq<string>, ranks: seq<int>, xs: seq<nat>): (r: seq<nat>)
    requires |ranks| == |values| && InRange(values, xs)
    ensures InRange(values, r)
    ensures multiset(r) == multiset(xs)
  {
    if xs == [] then []
    else
      assert xs == [xs[0]] + xs[1..];
      Insert(values, ranks, xs[0], Sort(values, ranks, xs[1..]))
  }

  lemma {:induction false} InsertSorted(values: seq<string>, ranks: seq<int>, x: nat, xs: seq<nat>)
    requires |ranks| == |values| && x < |values| && InRange(values, xs)
    requires Sorted(values, ranks, xs) && x !in xs
    ensures Sorted(values, ranks, Insert(values, ranks, x, xs))
  {
    if xs == [] {
    } else if Before(values, ranks, x, xs[0]) {
      forall b | 0 < b < |xs|
        ensures Before(values, ranks, x, xs[b])
      {
        BeforeTransitive(values, ranks, x, xs[0], xs[b]);
      }
    } else {
      BeforeStrict(values, ranks, x, xs[0]);
      var tail := xs[1..];
      assert x !in tail;
      assert Sorted(values, ranks, tail) by {
        forall a, b | 0 <= a < b < |tail|
          ensures Before(values, ranks, tail[a], tail[b])
        {
          assert tail[a] == xs[a + 1] && tail[b] == xs[b + 1];
        }
      }
      InsertSorted(values, ranks, x, tail);
      var rest := Insert(values, ranks, x, tail);
      forall m | 0 <= m < |tail|
        ensures Before(values, ranks, xs[0], tail[m])
      {
        assert tail[m] == xs[m + 1];
      }
      BelowAll(values, ranks, xs[0], x, tail, rest);
      ConsSorted(values, ranks, xs[0], rest);
    }
  }

  /** What comes before `x` and before every item of `tail` comes before
      every item of a sequence holding exactly those. */
  lemma BelowAll(values: seq<string>, ranks: seq<int>, h: nat, x: nat, tail: seq<nat>, rest: seq<nat>)
    requires |ranks| == |values| && h < |values| && x < |values| && InRange(values, tail) && InRange(values, rest)
    requires Before(values, ranks, h, x)
    requires forall m :: 0 <= m < |tail| ==> Before(values, ranks, h, tail[m])
    requires multiset(rest) == multiset(tail) + multiset{x}
    ensures forall k :: 0 <= k < |rest| ==> Before(values, ranks, h, rest[k])
  {
    forall k | 0 <= k < |rest|
      ensures Before(values, ranks, h, rest[k])
    {
      assert rest[k] in multiset(rest);
      if rest[k] != x {
        assert rest[k] in multiset(tail);
        var m :| 0 <= m < |tail| && tail[m] == rest[k];
      }
    }
  }

  /** An item before every item of a sorted sequence can lead it. */
  lemma ConsSorted(values: seq<string>, ranks: seq<int>, h: nat, rest: seq<nat>)
    requires |ranks| == |values| && h < |values| && InRange(values, rest)
    requires Sorted(values, ranks, rest)
    requires forall k :: 0 <= k < |rest| ==> Before(values, ranks, h, rest[k])
    ensures InRange(values, [h] + rest) && Sorted(values, ranks, [h] + rest)
  {
    var r := [h] + rest;
    forall a, b | 0 <= a < b < |r|
      ensures Before(values, ranks, r[a], r[b])
    {
      if a > 0 {
        assert r[a] == rest[a - 1] && r[b] == rest[b - 1];
      } else {
        assert r[b] == rest[b - 1];
      }
    }
  }

  lemma {:induction false} SortSorted(values: seq<string>, ranks: seq<int>, xs: seq<nat>)
    requires |ranks| == |values| && InRange(values, xs) && Distinct(xs)
    ensures Sorted(values, ranks, Sort(values, ranks, xs))
  {
    if xs != [] {
      var tail := xs[1..];
      assert Distinct(tail) by {
        forall a, b | 0 <= a < b < |tail|
          ensures tail[a] != tail[b]
        {
          assert tail[a] == xs[a + 1] && tail[b] == xs[b + 1];
        }
      }
      SortSorted(values, ranks, tail);
      var sorted := Sort(values, ranks, tail);
      assert xs[0] !in multiset(tail) by {
        forall m | 0 <= m < |tail|
          ensures tail[m] != xs[0]
        {
          assert tail[m] == xs[m + 1];
        }
      }
      assert xs[0] !in multiset(sorted);
      InsertSorted(values, ranks, xs[0], sorted);
    }
  }

  /** In `r`, every occurrence of `i` comes before every occurrence of
      `j`. */
  predicate Precedes(r: seq<nat>, i: nat, j: nat) {
    forall a, b :: 0 <= a < |r| && 0 <= b < |r| && r[a] == i && r[b] == j ==> a < b
  }

  lemma SortedPrecedes(values: seq<string>, ranks: seq<int>, r: seq<nat>, i: nat, j: nat)
    requires |ranks| == |values| && i < |values| && j < |values| && InRange(values, r)
    requires Sorted(values, ranks, r) && Before(values, ranks, i, j)
    ensures Precedes(r, i, j)
  {
    forall a, b | 0 <= a < |r| && 0 <= b < |r| && r[a] == i && r[b] == j
      ensures a < b
    {
      BeforeStrict(values, ranks, i, j);
    }
  }

  // ---------------------------------------------------------------------
  // gen_sort_index

  /** `range(n)`. */
  function Range(n: nat): (r: seq<nat>)
    ensures |r| == n && forall k :: 0 <= k < n ==> r[k] == k
  {
    seq(n, k requires 0 <= k => k)
  }

  function Ranks(values: seq<string>, order: SortOrder): (r: seq<int>)
    ensures |r| == |values|
    ensures forall k :: 0 <= k < |values| ==> r[k] == Rank(|values|, order, values[k])
  {
    seq(|values|, k requires 0 <= k < |values| => Rank(|values|, order, values[k]))
  }

  function CorrectedRanks(values: seq<string>, order: SortOrder): (r: seq<int>)
    ensures |r| == |values|
    ensures forall k :: 0 <= k < |values| ==> r[k] == CorrectedRank(order, values[k])
  {
    seq(|values|, k requires 0 <= k < |values| => CorrectedRank(order, values[k]))
  }

  /** The positions of a table of `n` columns sorted by `ranks`: a
      permutation of `range(n)` in (rank, name, position) order. */
  function SortPositions(values: seq<string>, ranks: seq<int>): (r: seq<nat>)
    requires |ranks| == |values|
    ensures multiset(r) == multiset(Range(|values|))
    ensures |r| == |values| && InRange(values, r)
    ensures Sorted(values, ranks, r)
  {
    var all := Range(|values|);
    SortSorted(values, ranks, all);
    var r := Sort(values, ranks, all);
    assert |r| == |multiset(r)| == |multiset(all)| == |all|;
    r
  }

  /** `gen_sort_index(values, sort_order)` as written. */
  function GenSortIndex(values: seq<string>, order: SortOrder): (r: seq<nat>)
    ensures multiset(r) == multiset(Range(|values|))
    ensures |r| == |values|
  {
    SortPositions(values, Ranks(values, order))
  }

  /** `gen_sort_index` with the `sort_last` ranks placed above the others. */
  function GenSortIndexCorrected(values: seq<string>, order: SortOrder): (r: seq<nat>)
    ensures multiset(r) == multiset(Range(|values|))
    ensures |r| == |values|
  {
    SortPositions(values, CorrectedRanks(values, order))
  }

  /** Every column position appears exactly once. */
  lemma GenSortIndexPermutation(values: seq<string>, order: SortOrder)
    ensures forall k :: 0 <= k < |values| ==> k in GenSortIndex(values, order)
    ensures Distinct(GenSortIndex(values, order))
  {
    var r := GenSortIndex(values, order);
    PermutationOfRange(r, |values|);
  }

  lemma PermutationOfRange(r: seq<nat>, n: nat)
    requires multiset(r) == multiset(Range(n))
    ensures forall k :: 0 <= k < n ==> k in r
    ensures Distinct(r)
  {
    var all := Range(n);
    forall k | 0 <= k < n
      ensures k in r
    {
      assert all[k] == k;
      assert k in multiset(all);
    }
    forall a, b | 0 <= a < b < |r|
      ensures r[a] != r[b]
    {
      if r[a] == r[b] {
        var x := r[a];
        assert multiset(r) == multiset(r[..a]) + multiset{x} + multiset(r[a + 1..]) by {
          assert r == r[..a] + [x] + r[a + 1..];
        }
        assert x in multiset(r[a + 1..]) by {
          assert r[a + 1..][b - a - 1] == x;
        }
        assert multiset(r)[x] >= 2;
        RangeCountOne(n, x);
      }
    }
  }

  lemma RangeCountOne(n: nat, x: nat)
    ensures multiset(Range(n))[x] <= 1
  {
    if n > 0 {
      assert Range(n) == Range(n - 1) + [n - 1];
      RangeCountOne(n - 1, x);
      if x == n - 1 {
        assert x !in Range(n - 1);
      }
    }
  }

  /** A column sorts before another one exactly when its rank, name and
      position say so, as written and as corrected. */
  lemma BeforePlaced(values: seq<string>, order: SortOrder, i: nat, j: nat)
    requires i < |values| && j < |values|
    ensures Before(values, Ranks(values, order), i, j) ==> Precedes(GenSortIndex(values, order), i, j)
    ensures Before(values, CorrectedRanks(values, order), i, j) ==> Precedes(GenSortIndexCorrected(values, order), i, j)
  {
    var ranks := Ranks(values, order);
    var corrected := CorrectedRanks(values, order);
    if Before(values, ranks, i, j) {
      SortedPrecedes(values, ranks, GenSortIndex(values, order), i, j);
    }
    if Before(values, corrected, i, j) {
      SortedPrecedes(values, corrected, GenSortIndexCorrected(values, order), i, j);
    }
  }

  /** `sort_first` columns come first, in the order listed, ahead of every
      unlisted column; unlisted columns follow in name order. */
  lemma FirstThenUnlisted(values: seq<string>, order: SortOrder, i: nat, j: nat)
    requires i < |values| && j < |values| && i != j
    requires values[i] !in order.last && values[j] !in order.last && values[i] in order.first
    requires values[j] in order.first ==> LastIndex(order.first, values[i]) < LastIndex(order.first, values[j])
    ensures Precedes(GenSortIndex(values, order), i, j)
    ensures Precedes(GenSortIndexCorrected(values, order), i, j)
  {
    BeforePlaced(values, order, i, j);
  }

  lemma UnlistedByName(values: seq<string>, order: SortOrder, i: nat, j: nat)
    requires i < |values| && j < |values|
    requires values[i] !in order.first + order.last && values[j] !in order.first + order.last
    requires StrLess(values[i], values[j])
    ensures Precedes(GenSortIndex(values, order), i, j)
    ensures Precedes(GenSortIndexCorrected(values, order), i, j)
  {
    assert values[i] !in order.first && values[i] !in order.last;
    assert values[j] !in order.first && values[j] !in order.last;
    BeforePlaced(values, order, i, j);
  }

  /** As written, a `sort_last` column comes after every other column only
      when the table has more columns than both lists together. */
  lemma LastAfterOthers(values: seq<string>, order: SortOrder, i: nat, j: nat)
    requires i < |values| && j < |values|
    requires values[i] !in order.last && values[j] in order.last
    requires |values| > |order.first| + |order.last|
    ensures Precedes(GenSortIndex(values, order), i, j)
  {
    BeforePlaced(values, order, i, j);
  }

  /** Corrected, a `sort_last` column comes after every other column
      whatever the table's width, and `sort_last` columns keep their listed
      order. */
  lemma CorrectedLastAfterOthers(values: seq<string>, order: SortOrder, i: nat, j: nat)
    requires i < |values| && j < |values|
    requires values[j] in order.last
    requires values[i] in order.last ==> LastIndex(order.last, values[i]) < LastIndex(order.last, values[j])
    ensures Precedes(GenSortIndexCorrected(values, order), i, j)
  {
    BeforePlaced(values, order, i, j);
  }

  /** The order the status command shows its columns in. */
  const StatusOrder := SortOrder(["#", "Path", "Notes", "Remotes", "Commits", "Refs"], ["Unsupported Remote Config"])

  /** A four-column header: the `sort_last` column gets rank 3 while the
      unlisted status column `•M` gets rank 6, so the column meant to come
      last is shown before it. The corrected ranks put it last. */
  lemma ShortHeaderMisplacesLast()
    ensures var header := ["Unsupported Remote Config", "•M", "#", "Path"];
            Precedes(GenSortIndex(header, StatusOrder), 0, 1)
            && Precedes(GenSortIndexCorrected(header, StatusOrder), 1, 0)
  {
    var header := ["Unsupported Remote Config", "•M", "#", "Path"];
    var order := StatusOrder;
    assert header[0] == order.last[0];
    assert LastIndex(order.last, header[0]) == 0;
    assert header[1] !in order.first && header[1] !in order.last by {
      assert header[1][0] == '•';
      assert forall k :: 0 <= k < |order.first| ==> order.first[k][0] != '•';
    }
    assert Rank(4, order, header[0]) == 3;
    assert Rank(4, order, header[1]) == 6;
    assert CorrectedRank(order, header[0]) == 7;
    assert CorrectedRank(order, header[1]) == 6;
    BeforePlaced(header, order, 0, 1);
    BeforePlaced(header, order, 1, 0);
  }
}
