/**
  The sample-fetching utility: it builds the download URL from an ordered parameter list, renames
  the downloaded table's columns positionally to the canonical names, parses `Date-Time` and drops
  the rows where it fails, adds a helper `Year` column and splits the rows into those from 2015 on
  and those up to 2014, each without the helper column. The download and the CSV files written at
  the end are outside the model: the downloaded table is a parameter and the two frames are results.
*/
module FetchSamples {
  import opened Wrappers
  import opened Seqs
  import opened Dates

  // ---------------------------------------------------------------- the query string

  const URL: string := "https://fems.fs2c.usda.gov/fuelmodel/sample/download"

  /** The request parameters, in insertion order. */
  const PARAMS: seq<(string, string)> := [
    ("returnAll", ""),
    ("responseFormat", "csv"),
    ("siteId", "All"),
    ("sampleId", ""),
    ("startDate", "2005-01-01T00:00:00.000Z"),
    ("endDate", "2025-03-25T23:00:00.000Z"),
    ("filterByFuelId", ""),
    ("filterByStatus", "Submitted"),
    ("filterByCategory", "All"),
    ("filterBySubCategory", "All"),
    ("filterByMethod", "All"),
    ("sortBy", "fuel_type"),
    ("sortOrder", "asc")
  ]

  /** One `key=value` part, written as is: nothing is percent-encoded. */
  function KeyValue(p: (string, string)): string
  {
    p.0 + "=" + p.1
  }

  /** `sep.join(parts)`. */
  function Join(parts: seq<string>, sep: char): string
  {
    if parts == [] then ""
    else if |parts| == 1 then parts[0]
    else parts[0] + [sep] + Join(parts[1..], sep)
  }

  function QueryString(params: seq<(string, string)>): string
  {
    Join(Map(KeyValue, params), '&')
  }

  function FullUrl(base: string, params: seq<(string, string)>): string
  {
    base + "?" + QueryString(params)
  }

  /** `s.split(sep)`: the pieces between separators; the empty string is one empty piece. */
  function Split(s: string, sep: char): (parts: seq<string>)
    ensures |parts| >= 1
    ensures forall i :: 0 <= i < |parts| ==> sep !in parts[i]
    decreases |s|
  {
    if s == [] then [""]
    else
      var rest := Split(s[1..], sep);
      if s[0] == sep then [""] + rest
      else [[s[0]] + rest[0]] + rest[1..]
  }

  /** A `key=value` part read back: the key runs up to the first `=`. */
  function ParsePair(s: string): (string, string)
  {
    if s == [] then ("", "")
    else if s[0] == '=' then ("", s[1..])
    else
      var (k, v) := ParsePair(s[1..]);
      ([s[0]] + k, v)
  }

  /** The parameter list read back from a query string. */
  function ParseQuery(q: string): seq<(string, string)>
  {
    Map(ParsePair, Split(q, '&'))
  }

  lemma {:induction false} SplitNoSep(p: string, sep: char)
    requires sep !in p
    ensures Split(p, sep) == [p]
    decreases |p|
  {
    if p != [] {
      SplitNoSep(p[1..], sep);
      assert [p[0]] + p[1..] == p;
    }
  }

  lemma {:induction false} SplitAfterPiece(p: string, sep: char, rest: string)
    requires sep !in p
    ensures Split(p + [sep] + rest, sep) == [p] + Split(rest, sep)
    decreases |p|
  {
    var s := p + [sep] + rest;
    if p == [] {
      assert s[1..] == rest;
    } else {
      assert s[1..] == p[1..] + [sep] + rest;
      SplitAfterPiece(p[1..], sep, rest);
      assert [p[0]] + p[1..] == p;
    }
  }

  /** Splitting a join gives the pieces back, when no piece contains the separator. */
  lemma {:induction false} SplitJoin(parts: seq<string>, sep: char)
    requires parts != []
    requires forall i :: 0 <= i < |parts| ==> sep !in parts[i]
    ensures Split(Join(parts, sep), sep) == parts
    decreases |parts|
  {
    if |parts| == 1 {
      SplitNoSep(parts[0], sep);
    } else {
      SplitJoin(parts[1..], sep);
      SplitAfterPiece(parts[0], sep, Join(parts[1..], sep));
      assert [parts[0]] + parts[1..] == parts;
    }
  }

  /** Joining a split gives the string back. */
  lemma {:induction false} JoinSplit(s: string, sep: char)
    ensures Join(Split(s, sep), sep) == s
    decreases |s|
  {
    if s != [] {
      JoinSplit(s[1..], sep);
      var rest := Split(s[1..], sep);
      if s[0] != sep {
        if |rest| > 1 {
          assert rest == [rest[0]] + rest[1..];
          assert Join(rest, sep) == rest[0] + [sep] + Join(rest[1..], sep);
        }
      }
    }
  }

  lemma {:induction false} ParsePairOf(k: string, v: string)
    requires '=' !in k
    ensures ParsePair(k + "=" + v) == (k, v)
    decreases |k|
  {
    var s := k + "=" + v;
    if k == [] {
      assert s[1..] == v;
    } else {
      assert s[1..] == k[1..] + "=" + v;
      ParsePairOf(k[1..], v);
      assert [k[0]] + k[1..] == k;
    }
  }

  lemma KeyValueReadBack(p: (string, string))
    requires '&' !in p.0 && '=' !in p.0 && '&' !in p.1
    ensures '&' !in KeyValue(p) && ParsePair(KeyValue(p)) == p
  {
    ParsePairOf(p.0, p.1);
  }

  /**
    The query string is the `key=value` parts in parameter order, joined by `&`: it can be read back
    into exactly the parameter list whenever keys contain no `&` or `=` and values no `&`.
  */
  lemma QueryRoundTrip(params: seq<(string, string)>)
    requires params != []
    requires forall i :: 0 <= i < |params| ==> '&' !in params[i].0 && '=' !in params[i].0 && '&' !in params[i].1
    ensures ParseQuery(QueryString(params)) == params
  {
    var parts := Map(KeyValue, params);
    forall i | 0 <= i < |parts| ensures '&' !in parts[i] && ParsePair(parts[i]) == params[i] {
      KeyValueReadBack(params[i]);
    }
    SplitJoin(parts, '&');
  }

  /** The URL is the base, `?`, then a query string that reads back as exactly PARAMS, in order. */
  lemma FullUrlOfParams()
    ensures var u := FullUrl(URL, PARAMS);
            |u| > |URL| && u[..|URL| + 1] == URL + "?" && ParseQuery(u[|URL| + 1..]) == PARAMS
  {
    QueryRoundTrip(PARAMS);
    var u := FullUrl(URL, PARAMS);
    assert u[|URL| + 1..] == QueryString(PARAMS);
  }

  // ---------------------------------------------------------------- the table

  /** A cell of the downloaded table: text, an empty cell, a parsed timestamp, or a year. */
  datatype Cell = Text(text: string) | Missing | Stamp(date: ValidDate) | Number(n: int)

  datatype Frame = Frame(columns: seq<string>, rows: seq<seq<Cell>>)

  datatype FetchError = LengthMismatch(newNames: nat, axisLength: nat)

  /** The canonical column names, in their fixed order. */
  const COLUMNS: seq<string> := [
    "Sample Id", "Date-Time", "Site Name", "SiteId", "Fuel Type",
    "Category", "Sub-Category", "Method", "Sample Avg Value", "Sample Status"
  ]

  /** The position of `Date-Time` in COLUMNS. */
  const DATE_TIME: nat := 1

  /** The helper column added for the split. */
  const YEAR: string := "Year"

  const RECENT_FROM: int := 2015
  const OLDER_UNTIL: int := 2014

  predicate Rectangular(f: Frame)
  {
    forall i :: 0 <= i < |f.rows| ==> |f.rows[i]| == |f.columns|
  }

  /** The position of the first column called `name`. */
  function IndexOf(columns: seq<string>, name: string): (j: nat)
    requires name in columns
    ensures j < |columns| && columns[j] == name
    ensures forall i :: 0 <= i < j ==> columns[i] != name
  {
    if columns[0] == name then 0 else 1 + IndexOf(columns[1..], name)
  }

  /** `df[name]`: the column called `name`, one cell per row. */
  function Column(f: Frame, name: string): seq<Cell>
    requires name in f.columns
    requires Rectangular(f)
  {
    var j := IndexOf(f.columns, name);
    seq(|f.rows|, i requires 0 <= i < |f.rows| && Rectangular(f) => f.rows[i][j])
  }

  /** `pd.to_datetime(..., errors="coerce")` on one cell; NaT is an empty cell. */
  function ToDatetime(parse: DateParser, c: Cell): Cell
  {
    match c
    case Text(s) => (match parse(s) case Some(d) => Stamp(d) case None => Missing)
    case Stamp(d) => Stamp(d)
    case _ => Missing
  }

  /** The row with its `Date-Time` cell parsed. */
  function CoerceDate(parse: DateParser): seq<Cell> -> seq<Cell>
  {
    (row: seq<Cell>) =>
      if DATE_TIME < |row| then row[DATE_TIME := ToDatetime(parse, row[DATE_TIME])] else row
  }

  /** `df["Date-Time"].notnull()` on one row. */
  predicate NotNullDate(row: seq<Cell>)
  {
    DATE_TIME < |row| && row[DATE_TIME].Stamp?
  }

  function HasDate(): seq<Cell> -> bool
  {
    (row: seq<Cell>) => NotNullDate(row)
  }

  /** The calendar year of a row's timestamp (`.dt.year`). */
  function StampYear(row: seq<Cell>): int
    requires NotNullDate(row)
  {
    row[DATE_TIME].date.year
  }

  /** The row with the helper `Year` cell appended. */
  function WithYear(row: seq<Cell>): seq<Cell>
  {
    row + [Number(if NotNullDate(row) then StampYear(row) else 0)]
  }

  /** The row without the cell at position `j` (`drop(columns=...)` on one row). */
  function Without(j: nat): seq<Cell> -> seq<Cell>
  {
    (row: seq<Cell>) => if j < |row| then row[..j] + row[j + 1..] else row
  }

  /** The mask `df["Year"] >= 2015` or `df["Year"] <= 2014` on a row whose `Year` cell is at `j`. */
  function YearCellAtLeast(j: nat, y: int): seq<Cell> -> bool
  {
    (row: seq<Cell>) => j < |row| && row[j].Number? && row[j].n >= y
  }

  function YearCellAtMost(j: nat, y: int): seq<Cell> -> bool
  {
    (row: seq<Cell>) => j < |row| && row[j].Number? && row[j].n <= y
  }

  /** `drop(columns=name)`: the frame without the first column called `name`. */
  function DropColumn(f: Frame, name: string): (g: Frame)
    requires name in f.columns
  {
    var j := IndexOf(f.columns, name);
    Frame(f.columns[..j] + f.columns[j + 1..], Map(Without(j), f.rows))
  }

  /** The rows kept after parsing: every row whose timestamp parses, in order, with it parsed. */
  function Retained(parse: DateParser, rows: seq<seq<Cell>>): seq<seq<Cell>>
  {
    Filter(HasDate(), Map(CoerceDate(parse), rows))
  }

  predicate IsRecent(row: seq<Cell>)
  {
    NotNullDate(row) && StampYear(row) >= RECENT_FROM
  }

  predicate IsOlder(row: seq<Cell>)
  {
    NotNullDate(row) && StampYear(row) <= OLDER_UNTIL
  }

  function Recent(parse: DateParser, rows: seq<seq<Cell>>): seq<seq<Cell>>
  {
    Filter((row: seq<Cell>) => IsRecent(row), Retained(parse, rows))
  }

  function Older(parse: DateParser, rows: seq<seq<Cell>>): seq<seq<Cell>>
  {
    Filter((row: seq<Cell>) => IsOlder(row), Retained(parse, rows))
  }

  /** The `Year` column is not one of the canonical columns, so dropping it leaves those. */
  lemma YearNotCanonical()
    ensures YEAR !in COLUMNS
    ensures IndexOf(COLUMNS + [YEAR], YEAR) == |COLUMNS|
  {
    var cols := COLUMNS + [YEAR];
    var j := IndexOf(cols, YEAR);
    assert cols[|COLUMNS|] == YEAR;
  }

  /** The canonical names are distinct: column `j` is found at position `j`. */
  lemma ColumnsDistinct(j: nat)
    requires j < |COLUMNS|
    ensures IndexOf(COLUMNS, COLUMNS[j]) == j
  {
    assert forall a, b :: 0 <= a < b < |COLUMNS| ==> Signature(COLUMNS[a]) != Signature(COLUMNS[b]);
    IndexOfUnique(COLUMNS, j);
  }

  /** Two characters and the length tell the canonical names apart. */
  function Signature(s: string): int
  {
    if |s| < 2 then 0 else |s| * 65536 + (s[0] as int) * 256 + (s[1] as int)
  }

  lemma IndexOfUnique(columns: seq<string>, j: nat)
    requires j < |columns|
    requires forall i :: 0 <= i < j ==> columns[i] != columns[j]
    ensures IndexOf(columns, columns[j]) == j
  {
  }

  /**
    The rename is positional: after it, the column called `COLUMNS[j]` is the downloaded table's
    `j`-th column, whatever that column was called before.
  */
  lemma RenameIsPositional(raw: Frame, j: nat)
    requires Rectangular(raw) && |raw.columns| == |COLUMNS| && j < |COLUMNS|
    ensures var renamed := Frame(COLUMNS, raw.rows);
            Rectangular(renamed) && COLUMNS[j] in renamed.columns &&
            Column(renamed, COLUMNS[j]) == seq(|raw.rows|, i requires 0 <= i < |raw.rows| => raw.rows[i][j])
  {
    ColumnsDistinct(j);
  }

  /** Parsing changes only the `Date-Time` cell of a row, and keeps its length. */
  lemma CoerceKeepsOtherCells(parse: DateParser, row: seq<Cell>)
    ensures |CoerceDate(parse)(row)| == |row|
    ensures forall i :: 0 <= i < |row| && i != DATE_TIME ==> CoerceDate(parse)(row)[i] == row[i]
  {
  }

  /**
    The rows that are kept are exactly the rows whose `Date-Time` parses, in their original order,
    each with the parsed timestamp: nothing else is dropped or reordered.
  */
  lemma RetainedRows(parse: DateParser, rows: seq<seq<Cell>>)
    ensures var parses := (row: seq<Cell>) => NotNullDate(CoerceDate(parse)(row));
            Retained(parse, rows) == Map(CoerceDate(parse), Filter(parses, rows)) &&
            IsSubsequence(Filter(parses, rows), rows)
    ensures forall i :: 0 <= i < |Retained(parse, rows)| ==> NotNullDate(Retained(parse, rows)[i])
  {
    var parses := (row: seq<Cell>) => NotNullDate(CoerceDate(parse)(row));
    FilterMapCommute(CoerceDate(parse), HasDate(), parses, rows);
    FilterIsSubsequence(parses, rows);
  }

  /** Every retained row still has one cell per column. */
  lemma RetainedRectangular(parse: DateParser, rows: seq<seq<Cell>>, width: nat)
    requires forall i :: 0 <= i < |rows| ==> |rows[i]| == width
    ensures forall i :: 0 <= i < |Retained(parse, rows)| ==> |Retained(parse, rows)[i]| == width
  {
    var coerced := Map(CoerceDate(parse), rows);
    FilterMembers(HasDate(), coerced);
    assert forall i :: 0 <= i < |coerced| ==> |coerced[i]| == width;
  }

  /** Every retained row is in `recent` or in `older`, as often as it is retained. */
  lemma SplitCovers(parse: DateParser, rows: seq<seq<Cell>>)
    ensures multiset(Recent(parse, rows)) + multiset(Older(parse, rows)) == multiset(Retained(parse, rows))
  {
    var kept := Retained(parse, rows);
    RetainedRows(parse, rows);
    FilterPartition((row: seq<Cell>) => IsRecent(row), (row: seq<Cell>) => IsOlder(row), kept);
  }

  /** No row is in both `recent` and `older`. */
  lemma SplitDisjoint(parse: DateParser, rows: seq<seq<Cell>>)
    ensures multiset(Recent(parse, rows)) * multiset(Older(parse, rows)) == multiset{}
  {
    var kept := Retained(parse, rows);
    var recent := (row: seq<Cell>) => IsRecent(row);
    var older := (row: seq<Cell>) => IsOlder(row);
    var r, o := Filter(recent, kept), Filter(older, kept);
    forall row | row in multiset(r) * multiset(o)
      ensures false
    {
      FilterCount(recent, kept, row);
      FilterCount(older, kept, row);
    }
    assert multiset(r) * multiset(o) == multiset{};
  }

  /**
    `recent` and `older` split the retained rows: every retained row is in exactly one of them,
    as often as it is retained, and each keeps the retained rows' order.
  */
  lemma SplitPartitions(parse: DateParser, rows: seq<seq<Cell>>)
    ensures var kept := Retained(parse, rows);
            && multiset(Recent(parse, rows)) + multiset(Older(parse, rows)) == multiset(kept)
            && IsSubsequence(Recent(parse, rows), kept)
            && IsSubsequence(Older(parse, rows), kept)
            && (forall i :: 0 <= i < |Recent(parse, rows)| ==> StampYear(Recent(parse, rows)[i]) >= RECENT_FROM)
            && (forall i :: 0 <= i < |Older(parse, rows)| ==> StampYear(Older(parse, rows)[i]) <= OLDER_UNTIL)
    ensures multiset(Recent(parse, rows)) * multiset(Older(parse, rows)) == multiset{}
  {
    var kept := Retained(parse, rows);
    SplitCovers(parse, rows);
    SplitDisjoint(parse, rows);
    FilterIsSubsequence((row: seq<Cell>) => IsRecent(row), kept);
    FilterIsSubsequence((row: seq<Cell>) => IsOlder(row), kept);
  }

  /**
    The utility's table work from the downloaded table to the two frames it writes. The downloaded
    table must have one cell per column in every row. A column count other than ten is the rename's
    length-mismatch error.
  */
  method SplitByYear(parse: DateParser, raw: Frame) returns (result: Result<(Frame, Frame), FetchError>)
    requires Rectangular(raw)
    ensures result.Failure? <==> |raw.columns| != |COLUMNS|
    ensures result.Failure? ==> result.error == LengthMismatch(|COLUMNS|, |raw.columns|)
    ensures result.Success? ==>
              result.value == (Frame(COLUMNS, Recent(parse, raw.rows)), Frame(COLUMNS, Older(parse, raw.rows)))
  {
    if |raw.columns| != |COLUMNS| {
      return Failure(LengthMismatch(|COLUMNS|, |raw.columns|));
    }
    var df := raw.(columns := COLUMNS);                               // positional rename
    df := df.(rows := Map(CoerceDate(parse), df.rows));               // Date-Time parsed, NaT on failure
    df := df.(rows := Filter(HasDate(), df.rows));                    // NaT rows dropped
    df := Frame(df.columns + [YEAR], Map(WithYear, df.rows));         // helper Year column
    YearNotCanonical();
    var yearAt := IndexOf(df.columns, YEAR);
    var recent := DropColumn(df.(rows := Filter(YearCellAtLeast(yearAt, RECENT_FROM), df.rows)), YEAR);
    var older := DropColumn(df.(rows := Filter(YearCellAtMost(yearAt, OLDER_UNTIL), df.rows)), YEAR);
    SplitFramesAre(parse, raw.rows);
    result := Success((recent, older));
  }

  /** The split-and-drop steps of SplitByYear give the Recent and Older rows under COLUMNS. */
  lemma SplitFramesAre(parse: DateParser, rows: seq<seq<Cell>>)
    requires forall i :: 0 <= i < |rows| ==> |rows[i]| == |COLUMNS|
    ensures YEAR !in COLUMNS
    ensures var withYear := Frame(COLUMNS + [YEAR], Map(WithYear, Retained(parse, rows)));
            var at := |COLUMNS|;
            && DropColumn(withYear.(rows := Filter(YearCellAtLeast(at, RECENT_FROM), withYear.rows)), YEAR)
               == Frame(COLUMNS, Recent(parse, rows))
            && DropColumn(withYear.(rows := Filter(YearCellAtMost(at, OLDER_UNTIL), withYear.rows)), YEAR)
               == Frame(COLUMNS, Older(parse, rows))
  {
    YearNotCanonical();
    var withYear := Map(WithYear, Retained(parse, rows));
    var at := |COLUMNS|;
    DropYearColumn(Filter(YearCellAtLeast(at, RECENT_FROM), withYear));
    DropYearColumn(Filter(YearCellAtMost(at, OLDER_UNTIL), withYear));
    RecentRowsAre(parse, rows);
    OlderRowsAre(parse, rows);
  }

  /** Dropping `Year` from the frame with the helper column leaves COLUMNS and drops the last cell. */
  lemma DropYearColumn(rows: seq<seq<Cell>>)
    ensures YEAR in COLUMNS + [YEAR]
    ensures DropColumn(Frame(COLUMNS + [YEAR], rows), YEAR) == Frame(COLUMNS, Map(Without(|COLUMNS|), rows))
  {
    YearNotCanonical();
    var cols := COLUMNS + [YEAR];
    assert cols[..|COLUMNS|] + cols[|COLUMNS| + 1..] == COLUMNS;
  }

  /** On a retained row, the `Year` masks agree with the year of its timestamp. */
  lemma YearMasksAgree(row: seq<Cell>)
    requires NotNullDate(row) && |row| == |COLUMNS|
    ensures YearCellAtLeast(|COLUMNS|, RECENT_FROM)(WithYear(row)) == IsRecent(row)
    ensures YearCellAtMost(|COLUMNS|, OLDER_UNTIL)(WithYear(row)) == IsOlder(row)
  {
  }

  lemma RecentRowsAre(parse: DateParser, rows: seq<seq<Cell>>)
    requires forall i :: 0 <= i < |rows| ==> |rows[i]| == |COLUMNS|
    ensures Map(Without(|COLUMNS|), Filter(YearCellAtLeast(|COLUMNS|, RECENT_FROM), Map(WithYear, Retained(parse, rows))))
            == Recent(parse, rows)
  {
    var kept := Retained(parse, rows);
    var isRecent := (row: seq<Cell>) => IsRecent(row);
    KeptRowsShape(parse, rows);
    forall i | 0 <= i < |kept|
      ensures isRecent(kept[i]) == YearCellAtLeast(|COLUMNS|, RECENT_FROM)(WithYear(kept[i]))
    {
      YearMasksAgree(kept[i]);
    }
    FilterMapCommute(WithYear, YearCellAtLeast(|COLUMNS|, RECENT_FROM), isRecent, kept);
    SubsetUndone(parse, rows, isRecent);
  }

  lemma OlderRowsAre(parse: DateParser, rows: seq<seq<Cell>>)
    requires forall i :: 0 <= i < |rows| ==> |rows[i]| == |COLUMNS|
    ensures Map(Without(|COLUMNS|), Filter(YearCellAtMost(|COLUMNS|, OLDER_UNTIL), Map(WithYear, Retained(parse, rows))))
            == Older(parse, rows)
  {
    var kept := Retained(parse, rows);
    var isOlder := (row: seq<Cell>) => IsOlder(row);
    KeptRowsShape(parse, rows);
    forall i | 0 <= i < |kept|
      ensures isOlder(kept[i]) == YearCellAtMost(|COLUMNS|, OLDER_UNTIL)(WithYear(kept[i]))
    {
      YearMasksAgree(kept[i]);
    }
    FilterMapCommute(WithYear, YearCellAtMost(|COLUMNS|, OLDER_UNTIL), isOlder, kept);
    SubsetUndone(parse, rows, isOlder);
  }

  /** Every retained row has a parsed timestamp and one cell per canonical column. */
  lemma KeptRowsShape(parse: DateParser, rows: seq<seq<Cell>>)
    requires forall i :: 0 <= i < |rows| ==> |rows[i]| == |COLUMNS|
    ensures forall i :: 0 <= i < |Retained(parse, rows)| ==>
              NotNullDate(Retained(parse, rows)[i]) && |Retained(parse, rows)[i]| == |COLUMNS|
  {
    RetainedRows(parse, rows);
    RetainedRectangular(parse, rows, |COLUMNS|);
  }

  /** Appending the `Year` cell and dropping it again gives each row of a subset of the retained rows back. */
  lemma SubsetUndone(parse: DateParser, rows: seq<seq<Cell>>, p: seq<Cell> -> bool)
    requires forall i :: 0 <= i < |rows| ==> |rows[i]| == |COLUMNS|
    ensures var sub := Filter(p, Retained(parse, rows));
            Map(Without(|COLUMNS|), Map(WithYear, sub)) == sub
  {
    var kept := Retained(parse, rows);
    var sub := Filter(p, kept);
    RetainedRectangular(parse, rows, |COLUMNS|);
    FilterMembers(p, kept);
    forall i | 0 <= i < |sub|
      ensures Without(|COLUMNS|)(WithYear(sub[i])) == sub[i]
    {
      assert |sub[i]| == |COLUMNS|;
      assert WithYear(sub[i])[..|COLUMNS|] == sub[i];
    }
    MapUndone(WithYear, Without(|COLUMNS|), sub);
  }

  /** The helper `Year` column appears in neither output frame. */
  lemma YearColumnDropped(parse: DateParser, raw: Frame)
    requires Rectangular(raw) && |raw.columns| == |COLUMNS|
    ensures YEAR !in COLUMNS
    ensures forall i :: 0 <= i < |Recent(parse, raw.rows)| ==> |Recent(parse, raw.rows)[i]| == |COLUMNS|
    ensures forall i :: 0 <= i < |Older(parse, raw.rows)| ==> |Older(parse, raw.rows)[i]| == |COLUMNS|
  {
    YearNotCanonical();
    RetainedRectangular(parse, raw.rows, |COLUMNS|);
    var kept := Retained(parse, raw.rows);
    FilterMembers((row: seq<Cell>) => IsRecent(row), kept);
    FilterMembers((row: seq<Cell>) => IsOlder(row), kept);
  }
}
