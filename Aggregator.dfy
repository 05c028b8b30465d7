/**
  The aggregation stage of the dashboard: the filtered rows are split into the current-year rows
  and the rows of the historical years, each set is grouped by (AlignDate, Category), and the
  groups are summarised: a mean for the current year; for the historical years a mean when exactly
  one historical year is selected, and otherwise mean, minimum and maximum. The categories shown
  are those of the current summary.
*/
module Aggregator {
  import opened Wrappers
  import opened Seqs
  import opened Stats
  import opened Dates
  import opened Samples
  import opened FilterEngine

  /** A group of `groupby(["AlignDate", "Category"])`. */
  datatype Key = Key(alignDate: ValidDate, category: string)

  /** The group of a row; a row without a category belongs to no group (groupby drops it). */
  function KeyOf(r: AlignedRow): Option<Key>
  {
    match r.sample.category
    case Some(c) => Some(Key(r.alignDate, c))
    case None => None
  }

  function HasKey(k: Key): AlignedRow -> bool
  {
    (r: AlignedRow) => KeyOf(r) == Some(k)
  }

  function Value(r: AlignedRow): real
  {
    r.sample.value
  }

  /** The `Sample Avg Value`s of exactly the rows of group `k`, in row order. */
  function Members(rows: seq<AlignedRow>, k: Key): seq<real>
  {
    Map(Value, Filter(HasKey(k), rows))
  }

  /** The groups that have at least one row. */
  function Keys(rows: seq<AlignedRow>): set<Key>
  {
    set i | 0 <= i < |rows| && KeyOf(rows[i]).Some? :: KeyOf(rows[i]).value
  }

  /** Running statistics of one group: count, sum, minimum and maximum. */
  datatype Acc = Acc(count: nat, sum: real, min: real, max: real)

  function First(v: real): Acc
  {
    Acc(1, v, v, v)
  }

  function Add(a: Acc, v: real): Acc
  {
    Acc(a.count + 1, a.sum + v, if v < a.min then v else a.min, if v > a.max then v else a.max)
  }

  function StatsOf(vs: seq<real>): Acc
    requires vs != []
  {
    Acc(|vs|, Sum(vs), Min(vs), Max(vs))
  }

  /** A group has a member row exactly when some row carries its key. */
  lemma {:induction false} MembersExist(rows: seq<AlignedRow>, k: Key)
    ensures Members(rows, k) != [] <==> exists i :: 0 <= i < |rows| && KeyOf(rows[i]) == Some(k)
  {
    var kept := Filter(HasKey(k), rows);
    FilterMembers(HasKey(k), rows);
    if kept != [] {
      assert kept[0] in rows && HasKey(k)(kept[0]);
      var i :| 0 <= i < |rows| && rows[i] == kept[0];
      assert KeyOf(rows[i]) == Some(k);
      assert |Members(rows, k)| == |kept|;
    }
    if exists i :: 0 <= i < |rows| && KeyOf(rows[i]) == Some(k) {
      var i :| 0 <= i < |rows| && KeyOf(rows[i]) == Some(k);
      assert HasKey(k)(rows[i]);
      assert rows[i] in kept;
    }
  }

  lemma KeysAreGroups(rows: seq<AlignedRow>)
    ensures forall k :: k in Keys(rows) <==> Members(rows, k) != []
  {
    forall k
      ensures k in Keys(rows) <==> Members(rows, k) != []
    {
      MembersExist(rows, k);
      if Members(rows, k) != [] {
        var i :| 0 <= i < |rows| && KeyOf(rows[i]) == Some(k);
        assert KeyOf(rows[i]).value == k;
      }
    }
  }

  /** One step of the accumulator: the row's value is added to the entry of its own group. */
  function AddRow(g: map<Key, Acc>, r: AlignedRow): map<Key, Acc>
  {
    match KeyOf(r)
    case None => g
    case Some(k) => g[k := if k in g then Add(g[k], r.sample.value) else First(r.sample.value)]
  }

  /**
    `groupby(["AlignDate", "Category"])` with count, sum, min and max, folded over the rows in
    order: one entry per group that has rows, holding the statistics of exactly those rows' values.
  */
  function Grouped(rows: seq<AlignedRow>): map<Key, Acc>
    decreases |rows|
  {
    if rows == [] then map[]
    else AddRow(Grouped(rows[..|rows| - 1]), rows[|rows| - 1])
  }

  /** The folded groups are exactly the groups with rows, each with the statistics of its values. */
  lemma {:induction false} GroupedMeaning(rows: seq<AlignedRow>)
    ensures var g := Grouped(rows);
            && (forall k :: k in g <==> Members(rows, k) != [])
            && (forall k :: k in g ==>
                  && g[k].count == |Members(rows, k)| > 0
                  && g[k].sum == Sum(Members(rows, k))
                  && g[k].min == Min(Members(rows, k))
                  && g[k].max == Max(Members(rows, k)))
    decreases |rows|
  {
    if rows == [] {
      assert forall k :: Members(rows, k) == [];
    } else {
      var init, r := rows[..|rows| - 1], rows[|rows| - 1];
      GroupedMeaning(init);
      AddRowSummarises(Grouped(init), init, r);
      assert init + [r] == rows;
    }
  }

  lemma MembersSnoc(rows: seq<AlignedRow>, r: AlignedRow, k: Key)
    ensures Members(rows + [r], k) ==
            Members(rows, k) + (if KeyOf(r) == Some(k) then [r.sample.value] else [])
  {
    FilterAppend(HasKey(k), rows, [r]);
    assert [r][1..] == [];
    var a, b := Filter(HasKey(k), rows), Filter(HasKey(k), [r]);
    assert Map(Value, a + b) == Map(Value, a) + Map(Value, b);
  }

  lemma StatsSnoc(vs: seq<real>, v: real)
    requires vs != []
    ensures StatsOf(vs + [v]) == Add(StatsOf(vs), v)
  {
    assert (vs + [v])[..|vs|] == vs;
  }

  lemma StatsSingle(v: real)
    ensures StatsOf([v]) == First(v)
  {
    assert [v][..0] == [];
    assert Sum([v]) == Sum([]) + v;
    assert Min([v]) == v;
    assert Max([v]) == v;
  }

  /** The accumulator step keeps the accumulator summarising the rows seen so far. */
  lemma AddRowSummarises(g: map<Key, Acc>, rows: seq<AlignedRow>, r: AlignedRow)
    requires forall k :: k in g <==> Members(rows, k) != []
    requires forall k :: k in g ==>
               && g[k].count == |Members(rows, k)| > 0
               && g[k].sum == Sum(Members(rows, k))
               && g[k].min == Min(Members(rows, k))
               && g[k].max == Max(Members(rows, k))
    ensures var g' := AddRow(g, r);
            && (forall k :: k in g' <==> Members(rows + [r], k) != [])
            && (forall k :: k in g' ==>
                  && g'[k].count == |Members(rows + [r], k)| > 0
                  && g'[k].sum == Sum(Members(rows + [r], k))
                  && g'[k].min == Min(Members(rows + [r], k))
                  && g'[k].max == Max(Members(rows + [r], k)))
  {
    var g' := AddRow(g, r);
    forall k
      ensures (k in g' <==> Members(rows + [r], k) != []) &&
              (k in g' ==> Members(rows + [r], k) != [] && g'[k] == StatsOf(Members(rows + [r], k)))
    {
      MembersSnoc(rows, r, k);
      var ms, v := Members(rows, k), r.sample.value;
      if KeyOf(r) == Some(k) {
        if ms != [] {
          assert g[k] == StatsOf(ms);
          StatsSnoc(ms, v);
          assert g'[k] == Add(g[k], v);
        } else {
          assert Members(rows + [r], k) == [v];
          StatsSingle(v);
        }
      } else {
        assert Members(rows + [r], k) == ms;
        assert k in g' <==> k in g;
        if ms != [] {
          assert g'[k] == g[k] == StatsOf(ms);
        }
      }
    }
  }

  lemma GroupedPrefix(rows: seq<AlignedRow>, i: nat)
    requires i < |rows|
    ensures Grouped(rows[..i + 1]) == AddRow(Grouped(rows[..i]), rows[i])
  {
    assert rows[..i + 1][..i] == rows[..i];
  }

  /** The accumulator loop: one pass over the rows, updating the map entry of each row's group. */
  method GroupStats(rows: seq<AlignedRow>) returns (groups: map<Key, Acc>)
    ensures groups == Grouped(rows)
  {
    groups := map[];
    var i := 0;
    while i < |rows|
      invariant 0 <= i <= |rows|
      invariant groups == Grouped(rows[..i])
    {
      var r := rows[i];
      ghost var before := groups;
      match KeyOf(r) {
        case None =>
        case Some(k) =>
          var acc := if k in groups then Add(groups[k], r.sample.value) else First(r.sample.value);
          groups := groups[k := acc];
      }
      assert groups == AddRow(before, r);
      GroupedPrefix(rows, i);
      i := i + 1;
    }
    assert rows[..|rows|] == rows;
  }

  /** The rows of the current year (`filtered_df["Year"] == current_year`). */
  function InYear(year: int): AlignedRow -> bool
  {
    (r: AlignedRow) => r.year == year
  }

  /** The rows of the historical years (`filtered_df["Year"].isin(historical_years)`). */
  function InYears(years: seq<int>): AlignedRow -> bool
  {
    (r: AlignedRow) => r.year in years
  }

  function CurrentRows(rows: seq<AlignedRow>, currentYear: int): seq<AlignedRow>
  {
    Filter(InYear(currentYear), rows)
  }

  function HistoricalRows(rows: seq<AlignedRow>, historicalYears: seq<int>): seq<AlignedRow>
  {
    Filter(InYears(historicalYears), rows)
  }

  /** A group of the rows selected by `p` exists exactly when some row satisfying `p` carries the key. */
  lemma SelectedGroupExists(p: AlignedRow -> bool, rows: seq<AlignedRow>, k: Key)
    ensures Members(Filter(p, rows), k) != [] <==>
            exists i :: 0 <= i < |rows| && p(rows[i]) && KeyOf(rows[i]) == Some(k)
  {
    var sel := Filter(p, rows);
    FilterMembers(p, rows);
    MembersExist(sel, k);
    if Members(sel, k) != [] {
      var j :| 0 <= j < |sel| && KeyOf(sel[j]) == Some(k);
      assert sel[j] in rows && p(sel[j]);
      var i :| 0 <= i < |rows| && rows[i] == sel[j];
      assert p(rows[i]) && KeyOf(rows[i]) == Some(k);
    }
    if exists i :: 0 <= i < |rows| && p(rows[i]) && KeyOf(rows[i]) == Some(k) {
      var i :| 0 <= i < |rows| && p(rows[i]) && KeyOf(rows[i]) == Some(k);
      assert rows[i] in sel;
      var j :| 0 <= j < |sel| && sel[j] == rows[i];
      assert KeyOf(sel[j]) == Some(k);
    }
  }

  function MeanOf(a: Acc): real
    requires a.count > 0
  {
    a.sum / (a.count as real)
  }

  /** `groupby(...).mean()`: the mean of every group of `rows`. */
  function GroupMeans(rows: seq<AlignedRow>): (m: map<Key, real>)
    ensures forall k :: k in m <==> Members(rows, k) != []
    ensures forall k :: k in m ==> m[k] == Mean(Members(rows, k))
  {
    GroupedMeaning(rows);
    var g := Grouped(rows);
    map k | k in g :: MeanOf(g[k])
  }

  /** One band entry of the multi-year historical summary. */
  datatype BandRow = BandRow(avg: real, min: real, max: real)

  /** `groupby(...).agg(Avg="mean", Min="min", Max="max")`. */
  function GroupBands(rows: seq<AlignedRow>): (m: map<Key, BandRow>)
    ensures forall k :: k in m <==> Members(rows, k) != []
    ensures forall k :: k in m ==>
              m[k] == BandRow(Mean(Members(rows, k)), Min(Members(rows, k)), Max(Members(rows, k)))
  {
    GroupedMeaning(rows);
    var g := Grouped(rows);
    map k | k in g :: BandRow(MeanOf(g[k]), g[k].min, g[k].max)
  }

  /** `cur_summary`: one mean per (AlignDate, Category) group that has a current-year row. */
  function CurrentSummary(rows: seq<AlignedRow>, currentYear: int): (m: map<Key, real>)
    ensures forall k :: k in m <==>
              exists i :: 0 <= i < |rows| && rows[i].year == currentYear && KeyOf(rows[i]) == Some(k)
    ensures forall k :: k in m <==> Members(CurrentRows(rows, currentYear), k) != []
    ensures forall k :: k in m ==> m[k] == Mean(Members(CurrentRows(rows, currentYear), k))
  {
    var m := GroupMeans(CurrentRows(rows, currentYear));
    assert forall k :: k in m <==>
             exists i :: 0 <= i < |rows| && rows[i].year == currentYear && KeyOf(rows[i]) == Some(k)
    by {
      forall k
        ensures k in m <==>
                exists i :: 0 <= i < |rows| && rows[i].year == currentYear && KeyOf(rows[i]) == Some(k)
      {
        SelectedGroupExists(InYear(currentYear), rows, k);
      }
    }
    m
  }

  /** `hist_summary`: its shape depends on how many historical years are selected. */
  datatype History = SingleYear(means: map<Key, real>) | Band(bands: map<Key, BandRow>)

  /** Whether a History has an entry for group `k`. */
  predicate HasGroup(h: History, k: Key)
  {
    match h
    case SingleYear(means) => k in means
    case Band(bands) => k in bands
  }

  function HistoricalSummary(rows: seq<AlignedRow>, historicalYears: seq<int>): (h: History)
    ensures h.SingleYear? <==> |historicalYears| == 1
    ensures forall k :: HasGroup(h, k) <==>
              exists i :: 0 <= i < |rows| && rows[i].year in historicalYears && KeyOf(rows[i]) == Some(k)
    ensures h.SingleYear? ==> forall k :: k in h.means <==>
              Members(HistoricalRows(rows, historicalYears), k) != []
    ensures h.Band? ==> forall k :: k in h.bands <==>
              Members(HistoricalRows(rows, historicalYears), k) != []
    ensures h.SingleYear? ==> forall k :: k in h.means ==>
              h.means[k] == Mean(Members(HistoricalRows(rows, historicalYears), k))
    ensures h.Band? ==> forall k :: k in h.bands ==>
              var ms := Members(HistoricalRows(rows, historicalYears), k);
              h.bands[k] == BandRow(Mean(ms), Min(ms), Max(ms))
  {
    var hist := HistoricalRows(rows, historicalYears);
    var h := if |historicalYears| == 1 then SingleYear(GroupMeans(hist)) else Band(GroupBands(hist));
    assert forall k :: HasGroup(h, k) <==>
             exists i :: 0 <= i < |rows| && rows[i].year in historicalYears && KeyOf(rows[i]) == Some(k)
    by {
      forall k
        ensures HasGroup(h, k) <==>
                exists i :: 0 <= i < |rows| && rows[i].year in historicalYears && KeyOf(rows[i]) == Some(k)
      {
        SelectedGroupExists(InYears(historicalYears), rows, k);
      }
    }
    h
  }

  /** `cur_summary["Category"].unique()`: the categories that get a chart. */
  function Categories(current: map<Key, real>): set<string>
  {
    set k | k in current :: k.category
  }

  /** What the dashboard shows for the filtered rows. */
  datatype Report =
    | NoData
    | Summary(current: map<Key, real>, historical: History, categories: set<string>)

  function Summarize(rows: seq<AlignedRow>, currentYear: int, historicalYears: seq<int>): (r: Report)
    ensures r.NoData? <==> rows == []
  {
    if rows == [] then NoData
    else
      var current := CurrentSummary(rows, currentYear);
      Summary(current, HistoricalSummary(rows, historicalYears), Categories(current))
  }

  /** In the band summary every group satisfies min <= avg <= max. */
  lemma BandsOrdered(rows: seq<AlignedRow>, historicalYears: seq<int>)
    requires |historicalYears| != 1
    ensures HistoricalSummary(rows, historicalYears).Band?
    ensures var h := HistoricalSummary(rows, historicalYears);
            forall k :: k in h.bands ==> h.bands[k].min <= h.bands[k].avg <= h.bands[k].max
  {
    var h := HistoricalSummary(rows, historicalYears);
    forall k | k in h.bands
      ensures h.bands[k].min <= h.bands[k].avg <= h.bands[k].max
    {
      MeanBetween(Members(HistoricalRows(rows, historicalYears), k));
    }
  }

  /**
    With no historical rows the historical summary is empty, not an error: an empty band when zero
    or several years are selected, an empty mean series when exactly one is.
  */
  lemma EmptyHistory(rows: seq<AlignedRow>, historicalYears: seq<int>)
    requires forall i :: 0 <= i < |rows| ==> rows[i].year !in historicalYears
    ensures HistoricalSummary(rows, historicalYears) ==
            if |historicalYears| == 1 then SingleYear(map[]) else Band(map[])
  {
    var h := HistoricalSummary(rows, historicalYears);
    forall k ensures !HasGroup(h, k) {
    }
    if h.SingleYear? {
      assert h.means.Keys == {};
    } else {
      assert h.bands.Keys == {};
    }
  }

  /** Selecting no historical year gives the band shape with no entries. */
  lemma NoHistoricalYears(rows: seq<AlignedRow>)
    ensures HistoricalSummary(rows, []) == Band(map[])
  {
    EmptyHistory(rows, []);
  }

  /**
    The current year may itself be among the historical years; then its rows are in both sets,
    and every current group also has a historical entry.
  */
  lemma CurrentYearAlsoHistorical(rows: seq<AlignedRow>, currentYear: int, historicalYears: seq<int>)
    requires currentYear in historicalYears
    ensures forall k :: k in CurrentSummary(rows, currentYear) ==>
              HasGroup(HistoricalSummary(rows, historicalYears), k)
    ensures forall i :: 0 <= i < |CurrentRows(rows, currentYear)| ==>
              CurrentRows(rows, currentYear)[i] in HistoricalRows(rows, historicalYears)
  {
    var cur := CurrentRows(rows, currentYear);
    FilterMembers(InYear(currentYear), rows);
    FilterMembers(InYears(historicalYears), rows);
    forall i | 0 <= i < |cur|
      ensures cur[i] in HistoricalRows(rows, historicalYears)
    {
      assert cur[i] in rows && InYear(currentYear)(cur[i]);
      var j :| 0 <= j < |rows| && rows[j] == cur[i];
      assert InYears(historicalYears)(rows[j]);
    }
  }

  /**
    The charted categories are exactly those of some current-year row with a category: a
    category that occurs only in historical rows is never reported.
  */
  lemma ReportedCategories(rows: seq<AlignedRow>, currentYear: int, historicalYears: seq<int>, c: string)
    requires rows != []
    ensures var r := Summarize(rows, currentYear, historicalYears);
            r.Summary? &&
            (c in r.categories <==>
               exists i :: 0 <= i < |rows| && rows[i].year == currentYear && rows[i].sample.category == Some(c))
  {
    CurrentCategories(rows, currentYear, c);
  }

  lemma KeyCategory(r: AlignedRow, k: Key)
    requires KeyOf(r) == Some(k)
    ensures r.sample.category == Some(k.category) && r.alignDate == k.alignDate
  {
  }

  lemma CurrentCategories(rows: seq<AlignedRow>, currentYear: int, c: string)
    ensures c in Categories(CurrentSummary(rows, currentYear)) <==>
            exists i :: 0 <= i < |rows| && rows[i].year == currentYear && rows[i].sample.category == Some(c)
  {
    var cur := CurrentSummary(rows, currentYear);
    if c in Categories(cur) {
      var k :| k in cur && k.category == c;
      var i :| 0 <= i < |rows| && rows[i].year == currentYear && KeyOf(rows[i]) == Some(k);
      KeyCategory(rows[i], k);
    }
    if exists i :: 0 <= i < |rows| && rows[i].year == currentYear && rows[i].sample.category == Some(c) {
      var i :| 0 <= i < |rows| && rows[i].year == currentYear && rows[i].sample.category == Some(c);
      var k := Key(rows[i].alignDate, c);
      assert KeyOf(rows[i]) == Some(k);
      assert k in cur;
    }
  }

  /**
    All rows from the current year and no historical year selected: the band is empty and the
    current summary has a mean for every (AlignDate, Category) group of the data.
  */
  lemma SingleYearData(rows: seq<AlignedRow>, currentYear: int)
    requires rows != []
    requires forall i :: 0 <= i < |rows| ==> rows[i].year == currentYear
    ensures var r := Summarize(rows, currentYear, []);
            r.Summary? && r.historical == Band(map[]) && r.current.Keys == Keys(rows)
  {
    NoHistoricalYears(rows);
    var cur := CurrentSummary(rows, currentYear);
    forall k ensures k in cur <==> k in Keys(rows) {
      if k in Keys(rows) {
        var i :| 0 <= i < |rows| && KeyOf(rows[i]).Some? && KeyOf(rows[i]).value == k;
        assert rows[i].year == currentYear && KeyOf(rows[i]) == Some(k);
      }
    }
  }
}
