/**
  Worked examples of the dashboard pipeline on small concrete tables, and the whole pipeline
  (load, filter, summarise) put together.
*/
module Examples {
  import opened Wrappers
  import opened Seqs
  import opened Stats
  import opened Dates
  import opened Aligner
  import opened Samples
  import opened Loader
  import opened FilterEngine
  import opened Aggregator

  /** A sample of category "A" taken on the given date with the given value. */
  function SampleOn(d: ValidDate, v: real): Sample
  {
    Sample("id", d, Some("site"), "1", Some("fuel"), Some("A"), "sub", "method", v, "Submitted")
  }

  /** Two samples of one half-month of 2020, valued 10 and 20: the current mean of their group is 15. */
  lemma CurrentMeanExample()
    ensures var rows := [Align(SampleOn(Date(2020, 3, 5), 10.0)), Align(SampleOn(Date(2020, 3, 12), 20.0))];
            var cur := CurrentSummary(rows, 2020);
            var k := Key(Date(2000, 3, 1), "A");
            k in cur && cur[k] == 15.0
  {
    var rows := [Align(SampleOn(Date(2020, 3, 5), 10.0)), Align(SampleOn(Date(2020, 3, 12), 20.0))];
    var k := Key(Date(2000, 3, 1), "A");
    assert KeyOf(rows[0]) == Some(k) && KeyOf(rows[1]) == Some(k);
    FilterAll(InYear(2020), rows);
    FilterAll(HasKey(k), rows);
    var vs := Map(Value, rows);
    assert vs[0] == Value(rows[0]) && vs[1] == Value(rows[1]);
    assert rows[0].sample.value == 10.0 && rows[1].sample.value == 20.0;
    assert Members(rows, k) == vs == [10.0, 20.0];
    assert Sum([10.0, 20.0]) == 30.0 by {
      assert [10.0, 20.0][..1] == [10.0];
      assert [10.0][..0] == [];
    }
  }

  /**
    Values 5 (from 2018) and 15 (from 2019) in one group: with both years selected the band is
    avg 10, min 5, max 15; with 2019 alone the summary is a mean only.
  */
  lemma BandExample()
    ensures var rows := [Align(SampleOn(Date(2018, 6, 20), 5.0)), Align(SampleOn(Date(2019, 6, 16), 15.0))];
            var k := Key(Date(2000, 6, 15), "A");
            var band := HistoricalSummary(rows, [2018, 2019]);
            && band.Band? && k in band.bands && band.bands[k] == BandRow(10.0, 5.0, 15.0)
            && HistoricalSummary(rows, [2019]).SingleYear?
  {
    var rows := [Align(SampleOn(Date(2018, 6, 20), 5.0)), Align(SampleOn(Date(2019, 6, 16), 15.0))];
    var k := Key(Date(2000, 6, 15), "A");
    assert KeyOf(rows[0]) == Some(k) && KeyOf(rows[1]) == Some(k);
    FilterAll(InYears([2018, 2019]), rows);
    FilterAll(HasKey(k), rows);
    var ms := [5.0, 15.0];
    var vs := Map(Value, rows);
    assert vs[0] == Value(rows[0]) && vs[1] == Value(rows[1]);
    assert rows[0].sample.value == 5.0 && rows[1].sample.value == 15.0;
    assert Members(rows, k) == vs == ms;
    assert ms[..1] == [5.0] && [5.0][..0] == [];
    assert Sum(ms) == 20.0 && Min(ms) == 5.0 && Max(ms) == 15.0;
  }

  /** The whole pipeline: load both sources, filter with `sel`, add the derived columns, summarise. */
  method Dashboard(parse: DateParser, source1: seq<RawSample>, source2: seq<RawSample>, sel: Selection,
                   currentYear: int, historicalYears: seq<int>)
    returns (report: Report)
    ensures report == Summarize(Map(Align, Selected(Loaded(parse, source1, source2), sel)), currentYear, historicalYears)
    ensures report.NoData? <==> Selected(Loaded(parse, source1, source2), sel) == []
  {
    var df := LoadData(parse, source1, source2);
    var filtered := FilterData(df, sel);
    report := Summarize(filtered, currentYear, historicalYears);
  }

  /**
    Loading data from a single year, selecting every month and no site, category or fuel type,
    and summarising with that year as current and no historical year gives an empty band and a
    current mean for every (AlignDate, Category) group of the loaded data.
  */
  lemma SingleYearRoundTrip(parse: DateParser, source1: seq<RawSample>, source2: seq<RawSample>,
                            sel: Selection, year: int)
    requires sel.sites == [] && sel.categories == [] && sel.fuelTypes == []
    requires forall m :: 1 <= m <= 12 ==> m in sel.months
    requires Loaded(parse, source1, source2) != []
    requires forall i :: 0 <= i < |Loaded(parse, source1, source2)| ==>
               Loaded(parse, source1, source2)[i].dateTime.year == year
    ensures var rows := Map(Align, Loaded(parse, source1, source2));
            var report := Summarize(Map(Align, Selected(Loaded(parse, source1, source2), sel)), year, []);
            report.Summary? && report.historical == Band(map[]) && report.current.Keys == Keys(rows)
  {
    var df := Loaded(parse, source1, source2);
    UnrestrictedSelectionKeepsAll(df, sel);
    var rows := Map(Align, df);
    assert forall i :: 0 <= i < |rows| ==> rows[i] == Align(df[i]);
    SingleYearData(rows, year);
  }
}
