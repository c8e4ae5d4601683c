/** The table `rgit status` builds (rgit/cli/status.py): one row per
    repository with statistics, under a header row of column names that
    grows as new names turn up (`render_statistics_row`), and the final
    reordering of its columns by the sort permutation, with missing cells
    read as blank. */
module StatusTable {
  import opened Wrappers
  import opened OrderedDict
  import opened RepoStatus
  import opened SortIndex

  /** A row of the table. The header row holds the column names as texts. */
  type Row = seq<Value>

  /** The empty cell the source pads with. */
  const Blank: Value := Text("")

  /** `cells.index(v)`: the first position holding `v`. */
  function IndexIn(cells: Row, v: Value): (i: nat)
    requires v in cells
    ensures i < |cells| && cells[i] == v
    ensures forall j :: 0 <= j < i ==> cells[j] != v
  {
    if cells[0] == v then 0 else 1 + IndexIn(cells[1..], v)
  }

  /** A header: column names, each once. */
  predicate ColumnNames(header: Row) {
    (forall i :: 0 <= i < |header| ==> header[i].Text?)
    && forall i, j :: 0 <= i < j < |header| ==> header[i] != header[j]
  }

  /** `row` grown with blank cells until it has at least `n` cells. */
  function Pad(row: Row, n: nat): (r: Row)
    ensures |r| == if |row| >= n then |row| else n
    ensures forall k :: 0 <= k < |row| ==> r[k] == row[k]
    ensures forall k :: |row| <= k < |r| ==> r[k] == Blank
  {
    if |row| >= n then row else row + seq(n - |row|, _ => Blank)
  }

  /** One statistic placed in the row: its column is found in the header,
      or appended to it, and the row is padded to reach it. */
  function Place(header: Row, row: Row, name: string, v: Value): (Row, Row)
  {
    var h := Grown(header, name);
    var i := IndexIn(h, Text(name));
    (h, Pad(row, i + 1)[i := v])
  }

  /** The header with `name` appended unless it already holds it. */
  function Grown(header: Row, name: string): (h: Row)
    ensures Text(name) in h
  {
    if Text(name) in header then header else header + [Text(name)]
  }

  /** The column loop of `render_statistics_row`, as a fold: the grown
      header and the new row. */
  function Fill(header: Row, row: Row, st: Statistics): (Row, Row)
    decreases |st|
  {
    if st == [] then (header, row)
    else
      var (h, r) := Place(header, row, st[0].0, st[0].1);
      Fill(h, r, st[1..])
  }

  /** The statistics as they go into the row: "#" is the row's position in
      the table and "Path" the repository path as displayed. */
  function Stamped(st: Statistics, position: nat, path: string): Statistics
  {
    Put(Put(st, "#", Count(position)), "Path", Text(path))
  }

  /** A row of blanks as wide as the header. */
  function Blanks(n: nat): (r: Row)
    ensures |r| == n && forall k :: 0 <= k < n ==> r[k] == Blank
  {
    seq(n, _ => Blank)
  }

  lemma PlaceFacts(header: Row, row: Row, name: string, v: Value)
    requires ColumnNames(header) && |row| <= |header|
    ensures var (h, r) := Place(header, row, name, v);
            ColumnNames(h) && |r| <= |h| && header <= h && Text(name) in h
            && (Text(name) in header ==> h == header)
            && (Text(name) !in header ==> h == header + [Text(name)])
            && r[IndexIn(h, Text(name))] == v
            && (forall k :: 0 <= k < |row| && k != IndexIn(h, Text(name)) ==> r[k] == row[k])
            && (forall c :: c in header ==> IndexIn(h, c) == IndexIn(header, c))
  {
    PlaceHeader(header, row, name, v);
    PlaceRow(header, row, name, v);
  }

  lemma PlaceHeader(header: Row, row: Row, name: string, v: Value)
    requires ColumnNames(header)
    ensures var h := Place(header, row, name, v).0;
            ColumnNames(h) && header <= h && |h| <= |header| + 1 && Text(name) in h
            && (Text(name) in header ==> h == header)
            && (Text(name) !in header ==> h == header + [Text(name)])
            && (forall c :: c in header ==> IndexIn(h, c) == IndexIn(header, c))
  {
    GrownFacts(header, name);
  }

  lemma PlaceRow(header: Row, row: Row, name: string, v: Value)
    requires ColumnNames(header) && |row| <= |header|
    ensures var (h, r) := Place(header, row, name, v);
            |r| <= |h| && r[IndexIn(h, Text(name))] == v
            && (forall k :: 0 <= k < |row| && k != IndexIn(h, Text(name)) ==> r[k] == row[k])
  {
    GrownFacts(header, name);
    var h := Grown(header, name);
    PadSet(row, IndexIn(h, Text(name)), v, |h|);
  }

  /** Padding a row to reach index `i` and setting it there. */
  lemma PadSet(row: Row, i: nat, v: Value, width: nat)
    requires |row| <= width && i < width
    ensures var r := Pad(row, i + 1)[i := v];
            |r| <= width && r[i] == v && forall k :: 0 <= k < |row| && k != i ==> r[k] == row[k]
  {
  }

  lemma GrownFacts(header: Row, name: string)
    requires ColumnNames(header)
    ensures var h := Grown(header, name);
            ColumnNames(h) && header <= h && |h| <= |header| + 1
            && (forall c :: c in header ==> IndexIn(h, c) == IndexIn(header, c))
  {
    var h := Grown(header, name);
    forall c | c in header
      ensures IndexIn(h, c) == IndexIn(header, c)
    {
      var i := IndexIn(header, c);
      assert h[i] == c;
      IndexInAt(h, c, i);
    }
  }

  /** The part of `PlaceFacts` the fold needs to go on. */
  lemma PlaceShape(header: Row, row: Row, name: string, v: Value)
    requires ColumnNames(header) && |row| <= |header|
    ensures ColumnNames(Place(header, row, name, v).0)
    ensures |Place(header, row, name, v).1| <= |Place(header, row, name, v).0|
  {
    PlaceFacts(header, row, name, v);
  }

  lemma IndexInAt(cells: Row, v: Value, i: nat)
    requires i < |cells| && cells[i] == v && forall j :: 0 <= j < i ==> cells[j] != v
    ensures IndexIn(cells, v) == i
  {
    var k := IndexIn(cells, v);
    assert !(k < i) && !(i < k);
  }

  /** The header only grows, by appending names it did not hold, and so
      every column it held keeps its position; each statistic's name ends
      up in it, and no row is wider than the header. */
  lemma FillHeader(header: Row, row: Row, st: Statistics)
    requires ColumnNames(header) && |row| <= |header|
    ensures var (h, r) := Fill(header, row, st);
            ColumnNames(h) && |r| <= |h| && header <= h
            && (forall c :: c in header ==> IndexIn(h, c) == IndexIn(header, c))
            && (forall i :: 0 <= i < |st| ==> Text(st[i].0) in h)
            && (forall k :: |header| <= k < |h| ==> exists i :: 0 <= i < |st| && h[k] == Text(st[i].0))
  {
    FillShape(header, row, st);
    FillNamesIn(header, row, st);
    FillNewNames(header, row, st);
  }

  lemma {:induction false} FillShape(header: Row, row: Row, st: Statistics)
    requires ColumnNames(header) && |row| <= |header|
    ensures var (h, r) := Fill(header, row, st);
            ColumnNames(h) && |r| <= |h| && header <= h
            && (forall c :: c in header ==> IndexIn(h, c) == IndexIn(header, c))
    decreases |st|
  {
    if st != [] {
      var p := Place(header, row, st[0].0, st[0].1);
      PlaceFacts(header, row, st[0].0, st[0].1);
      FillStep(header, row, st);
      FillShape(p.0, p.1, st[1..]);
      var h := Fill(header, row, st).0;
      assert header <= p.0 <= h;
      forall c | c in header
        ensures IndexIn(h, c) == IndexIn(header, c)
      {
        assert c in p.0;
      }
    }
  }

  lemma {:induction false} FillNamesIn(header: Row, row: Row, st: Statistics)
    requires ColumnNames(header) && |row| <= |header|
    ensures forall i :: 0 <= i < |st| ==> Text(st[i].0) in Fill(header, row, st).0
    decreases |st|
  {
    if st != [] {
      var p := Place(header, row, st[0].0, st[0].1);
      PlaceShape(header, row, st[0].0, st[0].1);
      FillStep(header, row, st);
      FillNamesIn(p.0, p.1, st[1..]);
      FillShape(p.0, p.1, st[1..]);
      var h := Fill(header, row, st).0;
      forall i | 0 <= i < |st|
        ensures Text(st[i].0) in h
      {
        if i > 0 {
          assert st[i] == st[1..][i - 1];
        } else {
          assert Text(st[0].0) in p.0 && p.0 <= h;
        }
      }
    }
  }

  lemma {:induction false} FillNewNames(header: Row, row: Row, st: Statistics)
    requires ColumnNames(header) && |row| <= |header|
    ensures var h := Fill(header, row, st).0;
            forall k :: |header| <= k < |h| ==> exists i :: 0 <= i < |st| && h[k] == Text(st[i].0)
    decreases |st|
  {
    if st != [] {
      var p := Place(header, row, st[0].0, st[0].1);
      PlaceFacts(header, row, st[0].0, st[0].1);
      FillStep(header, row, st);
      FillShape(p.0, p.1, st[1..]);
      FillNewNames(p.0, p.1, st[1..]);
      var h := Fill(header, row, st).0;
      forall k | |header| <= k < |h|
        ensures exists i :: 0 <= i < |st| && h[k] == Text(st[i].0)
      {
        if k < |p.0| {
          assert h[k] == p.0[k] == Text(st[0].0);
        } else {
          var i :| 0 <= i < |st| - 1 && h[k] == Text(st[1..][i].0);
          assert st[1..][i] == st[i + 1];
        }
      }
    }
  }

  /** A column that no later statistic names keeps its cell. */
  lemma {:induction false} FillKeeps(header: Row, row: Row, st: Statistics, c: Value)
    requires ColumnNames(header) && |row| <= |header|
    requires c in header && IndexIn(header, c) < |row|
    requires forall i :: 0 <= i < |st| ==> Text(st[i].0) != c
    ensures var (h, r) := Fill(header, row, st);
            IndexIn(header, c) < |r| && r[IndexIn(header, c)] == row[IndexIn(header, c)]
    decreases |st|
  {
    if st != [] {
      var (h1, r1) := Place(header, row, st[0].0, st[0].1);
      PlaceFacts(header, row, st[0].0, st[0].1);
      assert IndexIn(h1, c) == IndexIn(header, c);
      assert forall i :: 0 <= i < |st| - 1 ==> st[1..][i] == st[i + 1];
      FillKeeps(h1, r1, st[1..], c);
    }
  }

  /** One step of the fold. */
  lemma FillStep(header: Row, row: Row, st: Statistics)
    requires st != []
    ensures Fill(header, row, st)
         == Fill(Place(header, row, st[0].0, st[0].1).0, Place(header, row, st[0].0, st[0].1).1, st[1..])
  {
  }

  /** The first statistic's value stays in its column to the end. */
  lemma FillValuesFirst(header: Row, row: Row, st: Statistics)
    requires ColumnNames(header) && |row| <= |header| && Valid(st) && st != []
    ensures var (h, r) := Fill(header, row, st);
            Text(st[0].0) in h && IndexIn(h, Text(st[0].0)) < |r| && r[IndexIn(h, Text(st[0].0))] == st[0].1
  {
    var c := Text(st[0].0);
    var p := Place(header, row, st[0].0, st[0].1);
    PlaceFacts(header, row, st[0].0, st[0].1);
    FillStep(header, row, st);
    FillHeader(p.0, p.1, st[1..]);
    forall j | 0 <= j < |st| - 1
      ensures Text(st[1..][j].0) != c
    {
      assert st[1..][j] == st[j + 1];
    }
    FillKeeps(p.0, p.1, st[1..], c);
  }

  lemma ValidTail(st: Statistics)
    requires Valid(st) && st != []
    ensures Valid(st[1..])
  {
    forall i, j | 0 <= i < j < |st| - 1
      ensures st[1..][i].0 != st[1..][j].0
    {
      assert st[1..][i] == st[i + 1] && st[1..][j] == st[j + 1];
    }
  }

  /** The new row holds each statistic's value in that statistic's column. */
  lemma {:induction false} FillValues(header: Row, row: Row, st: Statistics, i: nat)
    requires ColumnNames(header) && |row| <= |header| && Valid(st) && i < |st|
    ensures var (h, r) := Fill(header, row, st);
            Text(st[i].0) in h && IndexIn(h, Text(st[i].0)) < |r| && r[IndexIn(h, Text(st[i].0))] == st[i].1
    decreases |st|
  {
    if i == 0 {
      FillValuesFirst(header, row, st);
    } else {
      var p := Place(header, row, st[0].0, st[0].1);
      PlaceShape(header, row, st[0].0, st[0].1);
      FillStep(header, row, st);
      ValidTail(st);
      assert st[1..][i - 1] == st[i];
      FillValues(p.0, p.1, st[1..], i - 1);
    }
  }

  /** The "#" statistic holds the row's position. */
  lemma StampedNumber(st: Statistics, position: nat, path: string)
    requires Valid(st)
    ensures Valid(Stamped(st, position, path))
    ensures Get(Stamped(st, position, path), "#") == Some(Count(position))
  {
    GetPut(st, "#", Count(position), "#");
    GetPut(Put(st, "#", Count(position)), "Path", Text(path), "#");
  }

  /** `Find` and `IndexIn` name the same position. */
  lemma GetIndex(st: Statistics, key: string)
    requires Valid(st) && Contains(st, key)
    ensures Find(st, key).value < |st| && st[Find(st, key).value] == (key, Get(st, key).value)
  {
  }

  /** The header names each column once, no row is wider than it, and
      every row's "#" cell is its position in the table. */
  predicate TableValid(rows: seq<Row>) {
    rows != [] ==>
      ColumnNames(rows[0])
      && (forall r :: 1 <= r < |rows| ==> |rows[r]| <= |rows[0]|)
      && (forall r :: 1 <= r < |rows| ==>
            Text("#") in rows[0] && IndexIn(rows[0], Text("#")) < |rows[r]|
            && rows[r][IndexIn(rows[0], Text("#"))] == Count(r))
  }

  /** The body of the column loop: the column's index, found in the
      header or appended to it, then the row padded with blanks until it
      reaches that index, and the value set there. */
  method PlaceColumn(header: Row, row: Row, name: string, v: Value) returns (h: Row, r: Row)
    ensures (h, r) == Place(header, row, name, v)
  {
    h := header;
    var i;
    if Text(name) in h {
      i := IndexIn(h, Text(name));
    } else {
      h := h + [Text(name)];
      i := |h| - 1;
      IndexInAt(h, Text(name), i);
    }
    r := row;
    while |r| <= i
      invariant |row| <= |r| <= if |row| > i + 1 then |row| else i + 1
      invariant forall j :: 0 <= j < |row| ==> r[j] == row[j]
      invariant forall j :: |row| <= j < |r| ==> r[j] == Blank
    {
      r := r + [Blank];
    }
    assert r == Pad(row, i + 1);
    r := r[i := v];
  }

  /** `statistics_table`: the header row first, then one row per
      repository, in the order they were rendered. */
  class StatisticsTable {
    var rows: seq<Row>

    ghost predicate Valid()
      reads this
    {
      TableValid(rows)
    }

    constructor()
      ensures Valid() && rows == []
    {
      rows := [];
    }

    /** `render_statistics_row`: nothing for empty statistics; otherwise
        the header gains the new names and one row is appended, while the
        rows already there are left as they are. */
    method RenderStatisticsRow(path: string, statistics: Statistics)
      requires Valid() && OrderedDict.Valid(statistics)
      modifies this
      ensures Valid()
      ensures statistics == [] ==> rows == old(rows)
      ensures statistics != [] ==>
                var base := if old(rows) == [] then [[]] else old(rows);
                var (h, r) := Fill(base[0], Blanks(|base[0]|), Stamped(statistics, |base|, path));
                rows == [h] + base[1..] + [r]
    {
      if statistics == [] {
        return;
      }
      if rows == [] {
        rows := [[]];
      }
      var base := rows;
      var header, row := FillColumns(base[0], Blanks(|base[0]|), Stamped(statistics, |base|, path));
      RenderKeepsValid(base, path, statistics, header, row);
      rows := [header] + base[1..] + [row];
    }
  }

  /** The column loop of `render_statistics_row`: one column placed per
      statistic, in the statistics' order. */
  method FillColumns(header0: Row, row0: Row, st: Statistics) returns (header: Row, row: Row)
    requires ColumnNames(header0) && |row0| <= |header0|
    ensures (header, row) == Fill(header0, row0, st)
  {
    header, row := header0, row0;
    var k := 0;
    while k < |st|
      invariant k <= |st|
      invariant ColumnNames(header) && |row| <= |header|
      invariant Fill(header0, row0, st) == Fill(header, row, st[k..])
    {
      assert st[k..][0] == st[k] && st[k..][1..] == st[k + 1..];
      PlaceShape(header, row, st[k].0, st[k].1);
      FillStep(header, row, st[k..]);
      header, row := PlaceColumn(header, row, st[k].0, st[k].1);
      k := k + 1;
    }
    assert st[k..] == [];
  }

  /** The number stamped into a new row lands in the header's "#" column. */
  lemma NumberCell(base: seq<Row>, path: string, statistics: Statistics, h: Row, r: Row)
    requires base != [] && ColumnNames(base[0]) && Valid(statistics)
    requires (h, r) == Fill(base[0], Blanks(|base[0]|), Stamped(statistics, |base|, path))
    ensures Text("#") in h && IndexIn(h, Text("#")) < |r| && r[IndexIn(h, Text("#"))] == Count(|base|)
  {
    var st := Stamped(statistics, |base|, path);
    StampedNumber(statistics, |base|, path);
    GetIndex(st, "#");
    FillValues(base[0], Blanks(|base[0]|), st, Find(st, "#").value);
  }

  /** A rendered row keeps the table's invariant: the old rows' "#" column
      has not moved and the new row's "#" cell is its position. */
  lemma RenderKeepsValid(base: seq<Row>, path: string, statistics: Statistics, h: Row, r: Row)
    requires base != [] && TableValid(base) && Valid(statistics)
    requires (h, r) == Fill(base[0], Blanks(|base[0]|), Stamped(statistics, |base|, path))
    ensures TableValid([h] + base[1..] + [r])
  {
    var st := Stamped(statistics, |base|, path);
    FillShape(base[0], Blanks(|base[0]|), st);
    NumberCell(base, path, statistics, h, r);
    OldRowsValid(base, h);
    AppendRowValid(base, h, r);
  }

  /** The rows already in the table stay valid under a grown header. */
  lemma OldRowsValid(base: seq<Row>, h: Row)
    requires base != [] && TableValid(base) && ColumnNames(h) && base[0] <= h
    requires forall c :: c in base[0] ==> IndexIn(h, c) == IndexIn(base[0], c)
    ensures forall k :: 1 <= k < |base| ==>
              |base[k]| <= |h| && Text("#") in h && IndexIn(h, Text("#")) < |base[k]|
              && base[k][IndexIn(h, Text("#"))] == Count(k)
  {
    forall k | 1 <= k < |base|
      ensures |base[k]| <= |h| && Text("#") in h && IndexIn(h, Text("#")) < |base[k]|
              && base[k][IndexIn(h, Text("#"))] == Count(k)
    {
      assert |base[k]| <= |base[0]|;
      assert Text("#") in base[0] && IndexIn(base[0], Text("#")) < |base[k]|
             && base[k][IndexIn(base[0], Text("#"))] == Count(k);
      assert |base[0]| <= |h|;
    }
  }

  /** The grown header, the old rows and the new row form a valid table. */
  lemma AppendRowValid(base: seq<Row>, h: Row, r: Row)
    requires base != [] && ColumnNames(h) && |r| <= |h|
    requires Text("#") in h && IndexIn(h, Text("#")) < |r| && r[IndexIn(h, Text("#"))] == Count(|base|)
    requires forall k :: 1 <= k < |base| ==>
               |base[k]| <= |h| && IndexIn(h, Text("#")) < |base[k]|
               && base[k][IndexIn(h, Text("#"))] == Count(k)
    ensures TableValid([h] + base[1..] + [r])
  {
    var rows := [h] + base[1..] + [r];
    var c := IndexIn(h, Text("#"));
    RowsAt(h, base, r, 0);
    forall k | 1 <= k < |rows|
      ensures |rows[k]| <= |h| && c < |rows[k]| && rows[k][c] == Count(k)
    {
      RowsAt(h, base, r, k);
    }
  }

  /** The rows of the table after a render: header, old rows, new row. */
  lemma RowsAt(h: Row, base: seq<Row>, r: Row, k: nat)
    requires base != [] && k <= |base|
    ensures |[h] + base[1..] + [r]| == |base| + 1
    ensures ([h] + base[1..] + [r])[k] == if k == 0 then h else if k < |base| then base[k] else r
  {
  }

  // ---------------------------------------------------------------------
  // Reordering the columns

  /** `row[i] if i < len(row) else ""`: a row rendered before a column
      existed reads blank there. */
  function Cell(row: Row, i: nat): Value
  {
    if i < |row| then row[i] else Blank
  }

  /** Every row with its cells taken in the order `order` gives. */
  function Reordered(rows: seq<Row>, order: seq<nat>): seq<Row>
  {
    seq(|rows|, r requires 0 <= r < |rows| => ReorderedRow(rows[r], order))
  }

  /** One row with its cells taken in the order `order` gives. */
  function ReorderedRow(row: Row, order: seq<nat>): Row
  {
    seq(|order|, p requires 0 <= p < |order| => Cell(row, order[p]))
  }

  /** The column names of a header. */
  function HeaderNames(header: Row): (names: seq<string>)
    ensures |names| == |header|
  {
    seq(|header|, i requires 0 <= i < |header| => if header[i].Text? then header[i].s else "")
  }

  /** The sort permutation of the header: "#", "Path", "Notes", "Remotes",
      "Commits", "Refs" first, "Unsupported Remote Config" last, every
      other column by name in between. */
  function StatusSortIndex(header: Row): (order: seq<nat>)
    ensures multiset(order) == multiset(Range(|header|)) && |order| == |header|
  {
    GenSortIndexCorrected(HeaderNames(header), StatusOrder)
  }

  /** The reordering in `execute`: nothing for an empty table, otherwise
      the two nested loops over the rows and the sort permutation. */
  method SortStatisticsTable(rows: seq<Row>) returns (sorted: seq<Row>)
    ensures rows == [] ==> sorted == []
    ensures rows != [] ==> sorted == Reordered(rows, StatusSortIndex(rows[0]))
  {
    if rows == [] {
      return [];
    }
    sorted := ReorderRows(rows, StatusSortIndex(rows[0]));
  }

  /** The outer loop of the reordering, for any column order. */
  method ReorderRows(rows: seq<Row>, order: seq<nat>) returns (sorted: seq<Row>)
    ensures sorted == Reordered(rows, order)
  {
    sorted := [];
    var r := 0;
    while r < |rows|
      invariant r <= |rows|
      invariant |sorted| == r
      invariant forall q :: 0 <= q < r ==> sorted[q] == ReorderedRow(rows[q], order)
    {
      var rowSorted := SortRow(rows[r], order);
      sorted := sorted + [rowSorted];
      r := r + 1;
    }
    RowsReordered(rows, order, sorted);
  }

  /** The inner loop of the reordering: one row's cells in sort order,
      blank past the row's end. */
  method SortRow(row: Row, order: seq<nat>) returns (rowSorted: Row)
    ensures rowSorted == ReorderedRow(row, order)
  {
    rowSorted := [];
    var p := 0;
    while p < |order|
      invariant p <= |order|
      invariant |rowSorted| == p
      invariant forall q :: 0 <= q < p ==> rowSorted[q] == Cell(row, order[q])
    {
      rowSorted := rowSorted + [if order[p] < |row| then row[order[p]] else Blank];
      p := p + 1;
    }
  }

  lemma RowsReordered(rows: seq<Row>, order: seq<nat>, sorted: seq<Row>)
    requires |sorted| == |rows|
    requires forall q :: 0 <= q < |rows| ==> sorted[q] == ReorderedRow(rows[q], order)
    ensures sorted == Reordered(rows, order)
  {
  }

  /** Columns move whole: each column of the table lands at exactly one
      position, where the sorted header holds its name and every sorted
      row holds that row's cell of it, blank for a row rendered before the
      column existed. */
  lemma ColumnsMoveTogether(rows: seq<Row>, c: nat)
    requires rows != [] && c < |rows[0]|
    ensures var order := StatusSortIndex(rows[0]);
            exists p :: 0 <= p < |order| && order[p] == c
                        && (forall r :: 0 <= r < |rows| ==> Reordered(rows, order)[r][p] == Cell(rows[r], c))
                        && (forall q :: 0 <= q < |order| && q != p ==> order[q] != c)
  {
    PermutedColumn(rows, StatusSortIndex(rows[0]), c);
  }

  /** The same for any permutation of the columns. */
  lemma PermutedColumn(rows: seq<Row>, order: seq<nat>, c: nat)
    requires rows != [] && c < |rows[0]|
    requires multiset(order) == multiset(Range(|rows[0]|))
    ensures exists p :: 0 <= p < |order| && order[p] == c
                        && (forall r :: 0 <= r < |rows| ==> Reordered(rows, order)[r][p] == Cell(rows[r], c))
                        && (forall q :: 0 <= q < |order| && q != p ==> order[q] != c)
  {
    PermutationOfRange(order, |rows[0]|);
    assert c in order;
    var p :| 0 <= p < |order| && order[p] == c;
    forall r | 0 <= r < |rows|
      ensures Reordered(rows, order)[r][p] == Cell(rows[r], c)
    {
      ReorderedCell(rows, order, r, p);
    }
  }

  lemma ReorderedCell(rows: seq<Row>, order: seq<nat>, r: nat, p: nat)
    requires r < |rows| && p < |order|
    ensures |Reordered(rows, order)| == |rows| && |Reordered(rows, order)[r]| == |order|
    ensures Reordered(rows, order)[r][p] == Cell(rows[r], order[p])
  {
  }
}
