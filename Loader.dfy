/**
  The data loader (`load_data`): the two sample tables are concatenated, `Date-Time` is parsed with
  failures turned into NaT, and the rows whose timestamp is NaT are dropped. Reading the CSV files
  and the time-zone stripping are outside the model (the parser yields calendar dates only).
*/
module Loader {
  import opened Wrappers
  import opened Seqs
  import opened Dates
  import opened Samples

  /** What `load_data` returns for the two sources, in the order `pd.concat([df1, df2])` puts them. */
  function Loaded(parse: DateParser, source1: seq<RawSample>, source2: seq<RawSample>): seq<Sample>
  {
    FilterMap(Coerce(parse), source1 + source2)
  }

  method LoadData(parse: DateParser, source1: seq<RawSample>, source2: seq<RawSample>)
    returns (df: seq<Sample>)
    ensures df == Loaded(parse, source1, source2)
    ensures df == FilterMap(Coerce(parse), source1) + FilterMap(Coerce(parse), source2)
  {
    var rows := source1 + source2;            // pd.concat: no deduplication
    df := FilterMap(Coerce(parse), rows);     // to_datetime(errors="coerce"), then notnull()
    FilterMapAppend(Coerce(parse), source1, source2);
  }

  /**
    The loaded rows are, one by one and in order, the rows of source 1 followed by source 2 whose
    timestamp parses, each carrying its parsed timestamp; `Filter(Parses(parse), ...)` is that
    subsequence of the input, and it holds every parseable row exactly as often as the input does
    and no row whose timestamp fails.
  */
  lemma LoadedRows(parse: DateParser, source1: seq<RawSample>, source2: seq<RawSample>)
    ensures var kept := Filter(Parses(parse), source1 + source2);
            var df := Loaded(parse, source1, source2);
            && |df| == |kept|
            && (forall i :: 0 <= i < |df| ==>
                  Coerce(parse)(kept[i]) == Some(df[i]) && Some(df[i].dateTime) == parse(kept[i].dateTime))
            && IsSubsequence(kept, source1 + source2)
            && (forall r: RawSample :: multiset(kept)[r] ==
                  if parse(r.dateTime).Some? then multiset(source1 + source2)[r] else 0)
  {
    var all := source1 + source2;
    var kept := Filter(Parses(parse), all);
    forall i | 0 <= i < |all| ensures Parses(parse)(all[i]) == Coerce(parse)(all[i]).Some? {
      CoerceKeepsRow(parse, all[i]);
    }
    FilterMapIsFilter(Coerce(parse), Parses(parse), all);
    FilterIsSubsequence(Parses(parse), all);
    forall r: RawSample
      ensures multiset(kept)[r] == if parse(r.dateTime).Some? then multiset(all)[r] else 0
    {
      FilterCount(Parses(parse), all, r);
    }
  }

  /** Rows present in both sources are loaded twice: nothing is deduplicated. */
  lemma NoDeduplication(parse: DateParser, source: seq<RawSample>)
    ensures Loaded(parse, source, source) == Loaded(parse, source, []) + Loaded(parse, source, [])
    ensures |Loaded(parse, source, source)| == 2 * |Loaded(parse, source, [])|
  {
    FilterMapAppend(Coerce(parse), source, source);
    assert source + [] == source;
  }

  /** A source in which no timestamp parses contributes nothing, and raises no error. */
  lemma UnparseableSourceDropped(parse: DateParser, source1: seq<RawSample>, source2: seq<RawSample>)
    requires forall i :: 0 <= i < |source2| ==> parse(source2[i].dateTime).None?
    ensures Loaded(parse, source1, source2) == Loaded(parse, source1, [])
  {
    FilterMapAppend(Coerce(parse), source1, source2);
    FilterMapNothing(parse, source2);
    assert source1 + [] == source1;
  }

  lemma {:induction false} FilterMapNothing(parse: DateParser, rows: seq<RawSample>)
    requires forall i :: 0 <= i < |rows| ==> parse(rows[i].dateTime).None?
    ensures FilterMap(Coerce(parse), rows) == []
  {
    if rows != [] {
      FilterMapNothing(parse, rows[1..]);
    }
  }
}
