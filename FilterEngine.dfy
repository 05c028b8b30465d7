/**
  The filter stage of the dashboard: optional site, category and fuel-type selections, the
  always-applied month selection, and the derived `Month`, `Year` and `AlignDate` columns.
  Each selection is the list the user picked; an empty site, category or fuel-type list means
  "no restriction", an empty month list keeps nothing.
*/
module FilterEngine {
  import opened Wrappers
  import opened Seqs
  import opened Dates
  import opened Aligner
  import opened Samples

  datatype Selection = Selection(
    sites: seq<string>,
    categories: seq<string>,
    fuelTypes: seq<string>,
    months: seq<int>)

  /** `Series.isin(chosen)` on one cell: a missing value is never in the list. */
  predicate IsIn(v: Option<string>, chosen: seq<string>)
  {
    v.Some? && v.value in chosen
  }

  predicate SiteAdmitted(sel: Selection, s: Sample)
  {
    sel.sites == [] || IsIn(s.siteName, sel.sites)
  }

  predicate CategoryAdmitted(sel: Selection, s: Sample)
  {
    sel.categories == [] || IsIn(s.category, sel.categories)
  }

  predicate FuelTypeAdmitted(sel: Selection, s: Sample)
  {
    sel.fuelTypes == [] || IsIn(s.fuelType, sel.fuelTypes)
  }

  predicate MonthAdmitted(sel: Selection, s: Sample)
  {
    s.dateTime.month in sel.months
  }

  /** The conjunction of the four predicates: what the filter stage keeps. */
  predicate Admitted(sel: Selection, s: Sample)
  {
    SiteAdmitted(sel, s) && CategoryAdmitted(sel, s) && FuelTypeAdmitted(sel, s) && MonthAdmitted(sel, s)
  }

  function Admits(sel: Selection): Sample -> bool
  {
    (s: Sample) => Admitted(sel, s)
  }

  /** The rows of `df` that the filter stage keeps, in their original order. */
  function Selected(df: seq<Sample>, sel: Selection): seq<Sample>
  {
    Filter(Admits(sel), df)
  }

  /** A filtered row with the columns the dashboard derives from its timestamp. */
  datatype AlignedRow = AlignedRow(sample: Sample, month: int, year: int, alignDate: ValidDate)

  /** `Month`, `Year` and `AlignDate` of one row. */
  function Align(s: Sample): AlignedRow
  {
    AlignedRow(s, s.dateTime.month, s.dateTime.year, ToHalfMonth(s.dateTime))
  }

  // The masks of the individual steps of FilterData.
  function SiteIn(sites: seq<string>): Sample -> bool { (s: Sample) => IsIn(s.siteName, sites) }
  function CategoryIn(categories: seq<string>): Sample -> bool { (s: Sample) => IsIn(s.category, categories) }
  function FuelTypeIn(fuelTypes: seq<string>): Sample -> bool { (s: Sample) => IsIn(s.fuelType, fuelTypes) }
  function MonthIn(months: seq<int>): Sample -> bool { (s: Sample) => s.dateTime.month in months }

  // What is kept after the first one, two and three steps.
  function AfterSites(sel: Selection): Sample -> bool
  {
    (s: Sample) => SiteAdmitted(sel, s)
  }
  function AfterCategories(sel: Selection): Sample -> bool
  {
    (s: Sample) => SiteAdmitted(sel, s) && CategoryAdmitted(sel, s)
  }
  function AfterFuelTypes(sel: Selection): Sample -> bool
  {
    (s: Sample) => SiteAdmitted(sel, s) && CategoryAdmitted(sel, s) && FuelTypeAdmitted(sel, s)
  }

  /**
    The filter stage step by step, as the dashboard runs it: copy the data, narrow it once per
    non-empty selection, apply the month selection, and add the derived columns.
  */
  method FilterData(df: seq<Sample>, sel: Selection) returns (filtered: seq<AlignedRow>)
    ensures filtered == Map(Align, Selected(df, sel))
    ensures forall i :: 0 <= i < |filtered| ==>
              Admitted(sel, filtered[i].sample) && filtered[i].month in sel.months &&
              filtered[i].alignDate == ToHalfMonth(filtered[i].sample.dateTime)
  {
    var rows := df;                                             // df.copy()
    if sel.sites != [] {
      rows := Filter(SiteIn(sel.sites), rows);
    }
    SiteStep(df, sel);
    if sel.categories != [] {
      rows := Filter(CategoryIn(sel.categories), rows);
    }
    CategoryStep(df, sel);
    if sel.fuelTypes != [] {
      rows := Filter(FuelTypeIn(sel.fuelTypes), rows);
    }
    FuelTypeStep(df, sel);
    rows := Filter(MonthIn(sel.months), rows);                  // Month column, isin(months)
    FilterConj(AfterFuelTypes(sel), MonthIn(sel.months), Admits(sel), df);
    filtered := Map(Align, rows);                               // Month, Year and AlignDate columns
    AlignedRowsAdmitted(df, sel);
  }

  lemma AlignedRowsAdmitted(df: seq<Sample>, sel: Selection)
    ensures var rows := Map(Align, Selected(df, sel));
            forall i :: 0 <= i < |rows| ==>
              Admitted(sel, rows[i].sample) && rows[i].month in sel.months &&
              rows[i].alignDate == ToHalfMonth(rows[i].sample.dateTime)
  {
    var kept := Selected(df, sel);
    var rows := Map(Align, kept);
    forall i | 0 <= i < |rows|
      ensures Admitted(sel, rows[i].sample) && rows[i].month in sel.months &&
              rows[i].alignDate == ToHalfMonth(rows[i].sample.dateTime)
    {
      assert rows[i] == Align(kept[i]);
      assert Admits(sel)(kept[i]);
    }
  }

  lemma SiteStep(df: seq<Sample>, sel: Selection)
    ensures (if sel.sites != [] then Filter(SiteIn(sel.sites), df) else df) == Filter(AfterSites(sel), df)
  {
    if sel.sites != [] {
      FilterExt(SiteIn(sel.sites), AfterSites(sel), df);
    } else {
      FilterAll(AfterSites(sel), df);
    }
  }

  lemma CategoryStep(df: seq<Sample>, sel: Selection)
    ensures var before := Filter(AfterSites(sel), df);
            (if sel.categories != [] then Filter(CategoryIn(sel.categories), before) else before)
            == Filter(AfterCategories(sel), df)
  {
    if sel.categories != [] {
      FilterConj(AfterSites(sel), CategoryIn(sel.categories), AfterCategories(sel), df);
    } else {
      FilterExt(AfterSites(sel), AfterCategories(sel), df);
    }
  }

  lemma FuelTypeStep(df: seq<Sample>, sel: Selection)
    ensures var before := Filter(AfterCategories(sel), df);
            (if sel.fuelTypes != [] then Filter(FuelTypeIn(sel.fuelTypes), before) else before)
            == Filter(AfterFuelTypes(sel), df)
  {
    if sel.fuelTypes != [] {
      FilterConj(AfterCategories(sel), FuelTypeIn(sel.fuelTypes), AfterFuelTypes(sel), df);
    } else {
      FilterExt(AfterCategories(sel), AfterFuelTypes(sel), df);
    }
  }

  /** The filtered rows keep the order of the loaded data: they are a subsequence of it. */
  lemma SelectedIsSubsequence(df: seq<Sample>, sel: Selection)
    ensures IsSubsequence(Selected(df, sel), df)
  {
    FilterIsSubsequence(Admits(sel), df);
  }

  /** Exactly the admitted rows are kept, each as often as it occurs in the data. */
  lemma SelectedExactly(df: seq<Sample>, sel: Selection, s: Sample)
    ensures multiset(Selected(df, sel))[s] == if Admitted(sel, s) then multiset(df)[s] else 0
  {
    FilterCount(Admits(sel), df, s);
  }

  /** Filtering the filtered data again with the same selection changes nothing. */
  lemma SelectedIdempotent(df: seq<Sample>, sel: Selection)
    ensures Selected(Selected(df, sel), sel) == Selected(df, sel)
  {
    FilterIdempotent(Admits(sel), df);
  }

  /** Unlike the other selections, an empty month selection keeps nothing. */
  lemma NoMonthsSelectNothing(df: seq<Sample>, sel: Selection)
    requires sel.months == []
    ensures Selected(df, sel) == []
  {
    FilterNone(Admits(sel), df);
  }

  /** With no site, category or fuel-type selection and every month selected, all rows are kept. */
  lemma UnrestrictedSelectionKeepsAll(df: seq<Sample>, sel: Selection)
    requires sel.sites == [] && sel.categories == [] && sel.fuelTypes == []
    requires forall m :: 1 <= m <= 12 ==> m in sel.months
    ensures Selected(df, sel) == df
  {
    FilterAll(Admits(sel), df);
  }

  /**
    An empty site, category or fuel-type selection leaves that column unrestricted: changing the
    row's value in that column does not change whether it is kept. A non-empty selection keeps
    only rows whose (present) value is one of the selected values.
  */
  lemma SelectionPerColumn(sel: Selection, s: Sample, site: Option<string>, category: Option<string>,
                           fuelType: Option<string>)
    ensures sel.sites == [] ==> Admitted(sel, s) == Admitted(sel, s.(siteName := site))
    ensures sel.categories == [] ==> Admitted(sel, s) == Admitted(sel, s.(category := category))
    ensures sel.fuelTypes == [] ==> Admitted(sel, s) == Admitted(sel, s.(fuelType := fuelType))
    ensures sel.sites != [] && Admitted(sel, s) ==> s.siteName.Some? && s.siteName.value in sel.sites
    ensures sel.categories != [] && Admitted(sel, s) ==> s.category.Some? && s.category.value in sel.categories
    ensures sel.fuelTypes != [] && Admitted(sel, s) ==> s.fuelType.Some? && s.fuelType.value in sel.fuelTypes
  {
  }
}
