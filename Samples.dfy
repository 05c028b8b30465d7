/**
  One field-sample row with the canonical columns `Sample Id, Date-Time, Site Name, SiteId,
  Fuel Type, Category, Sub-Category, Method, Sample Avg Value, Sample Status`.
  `Site Name`, `Fuel Type` and `Category` may be empty in the data (None).
*/
module Samples {
  import opened Wrappers
  import opened Dates

  /** A row as read from a CSV file: `Date-Time` is still text. */
  datatype RawSample = RawSample(
    sampleId: string,
    dateTime: string,
    siteName: Option<string>,
    siteId: string,
    fuelType: Option<string>,
    category: Option<string>,
    subCategory: string,
    sampleMethod: string,
    value: real,
    status: string)

  /** A row whose `Date-Time` has been parsed to its calendar date. */
  datatype Sample = Sample(
    sampleId: string,
    dateTime: ValidDate,
    siteName: Option<string>,
    siteId: string,
    fuelType: Option<string>,
    category: Option<string>,
    subCategory: string,
    sampleMethod: string,
    value: real,
    status: string)

  /** The row with its `Date-Time` cell replaced by the parsed date; every other column is kept. */
  function Stamped(r: RawSample, d: ValidDate): Sample
  {
    Sample(r.sampleId, d, r.siteName, r.siteId, r.fuelType, r.category, r.subCategory,
           r.sampleMethod, r.value, r.status)
  }

  /** Coercing one row: the parsed row, or None where the timestamp is NaT. */
  function Coerce(parse: DateParser): RawSample -> Option<Sample>
  {
    (r: RawSample) => match parse(r.dateTime) case Some(d) => Some(Stamped(r, d)) case None => None
  }

  /** The `notnull()` mask after coercion: the row's timestamp parsed. */
  function Parses(parse: DateParser): RawSample -> bool
  {
    (r: RawSample) => parse(r.dateTime).Some?
  }

  /** A coerced row is its raw row with the parsed timestamp, and nothing else changes. */
  lemma CoerceKeepsRow(parse: DateParser, r: RawSample)
    ensures Coerce(parse)(r).Some? <==> Parses(parse)(r)
    ensures Coerce(parse)(r).Some? ==>
              var s := Coerce(parse)(r).value;
              Some(s.dateTime) == parse(r.dateTime) &&
              s.sampleId == r.sampleId && s.siteName == r.siteName && s.siteId == r.siteId &&
              s.fuelType == r.fuelType && s.category == r.category &&
              s.subCategory == r.subCategory && s.sampleMethod == r.sampleMethod &&
              s.value == r.value && s.status == r.status
  {
  }
}
