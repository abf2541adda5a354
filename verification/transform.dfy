/** The per-record-type column policy of `transform_listings`,
    `transform_calendar` and `transform_reviews`. Each transform first turns
    the missing tokens into nulls, then rewrites the declared columns that are
    present, by name; undeclared columns pass through. The declared lists hold
    distinct names and the text and numeric lists are disjoint, so the
    source's column-by-column passes amount to one operation per column,
    chosen by its name, which is how the policy is written here. */
module Transform {
  import opened Wrappers
  import opened Strings
  import opened Sanitize
  import opened Tables

  /** The library parsers the transforms call, left abstract: Python's
      `float`, `pd.to_numeric(errors='coerce')` and
      `pd.to_datetime(errors='coerce')` on one value. `None` is the coerced NaN
      or NaT (or, for `float`, the exception `clean_price` swallows). */
  datatype Parsers = Parsers(
    float: string -> Option<real>,
    numeric: string -> Option<real>,
    datetime: string -> Option<int>)

  // ---------------------------------------------------------------------------
  // Cell operations, applied to a value after the missing tokens are gone
  // ---------------------------------------------------------------------------

  /** `apply(clean_text_field)` on one value: null stays null. */
  function CleanTextValue(v: Option<string>): (r: Option<string>)
    ensures r.None? <==> v.None?
    ensures r.Some? ==> r.value == CleanText(v.value)
  {
    match v
    case None => None
    case Some(s) => Some(CleanText(s))
  }

  function TextCell(v: Option<string>): (c: Cell)
    ensures c.Null? || c.Text?
    ensures c.Null? <==> v.None?
    ensures v.Some? ==> c == Text(CleanText(v.value))
  {
    Untouched(CleanTextValue(v))
  }

  /** `apply(clean_price)`: a number or null, never text. */
  function PriceCell(p: Parsers, v: Option<string>): (c: Cell)
    ensures c.Null? || c.Num?
    ensures v.None? ==> c.Null?
    ensures c.Num? ==> CleanPrice(p.float, v) == Some(c.x)
    ensures CleanPrice(p.float, v).Some? ==> c == Num(CleanPrice(p.float, v).value)
  {
    match CleanPrice(p.float, v)
    case None => Null
    case Some(x) => Num(x)
  }

  /** `pd.to_numeric(errors='coerce')`: unparsable text becomes null. */
  function NumericCell(p: Parsers, v: Option<string>): (c: Cell)
    ensures c.Null? || c.Num?
    ensures v.None? ==> c.Null?
    ensures c.Num? ==> p.numeric(v.value) == Some(c.x)
    ensures v.Some? && p.numeric(v.value).Some? ==> c.Num?
  {
    match v
    case None => Null
    case Some(s) =>
      match p.numeric(s)
      case None => Null
      case Some(x) => Num(x)
  }

  /** `pd.to_datetime(errors='coerce')`: unparsable text becomes NaT. */
  function DatetimeCell(p: Parsers, v: Option<string>): (c: Cell)
    ensures c.Null? || c.Time?
    ensures v.None? ==> c.Null?
    ensures c.Time? ==> p.datetime(v.value) == Some(c.t)
    ensures v.Some? && p.datetime(v.value).Some? ==> c.Time?
  {
    match v
    case None => Null
    case Some(s) =>
      match p.datetime(s)
      case None => Null
      case Some(t) => Time(t)
  }

  /** `astype(str).str.lower()` and then `replace({'t': 'true', 'f': 'false'})`:
      a null becomes the text "nan"; only the exact values "t" and "f" are
      spelled out, everything else keeps its lowered form. */
  function AvailableText(v: Option<string>): (r: string)
    ensures v.None? ==> r == "nan"
    ensures v.Some? && Lower(v.value) == "t" ==> r == "true"
    ensures v.Some? && Lower(v.value) == "f" ==> r == "false"
    ensures v.Some? && Lower(v.value) != "t" && Lower(v.value) != "f" ==> r == Lower(v.value)
    ensures r != "t" && r != "f"
  {
    var lowered := match v case None => "nan" case Some(s) => Lower(s);
    if lowered == "t" then "true" else if lowered == "f" then "false" else lowered
  }

  /** The calendar's `available` column: cleaned as text first, then
      normalised. It is always text, "nan" for a null, and never the bare
      "t" or "f". */
  function AvailableCell(v: Option<string>): (c: Cell)
    ensures c.Text? && c.s != "t" && c.s != "f"
    ensures v.None? ==> c.s == "nan"
    ensures v.Some? && Lower(CleanText(v.value)) == "t" ==> c.s == "true"
    ensures v.Some? && Lower(CleanText(v.value)) == "f" ==> c.s == "false"
    ensures v.Some? && Lower(CleanText(v.value)) != "t" && Lower(CleanText(v.value)) != "f" ==>
              c.s == Lower(CleanText(v.value))
  {
    Text(AvailableText(CleanTextValue(v)))
  }

  // ---------------------------------------------------------------------------
  // transform_listings
  // ---------------------------------------------------------------------------

  const ListingTextColumns: seq<string> := [
    "id", "name", "host_id", "host_name", "neighbourhood_cleansed",
    "room_type", "property_type", "description", "summary", "space",
    "neighborhood_overview", "notes", "transit", "access", "interaction",
    "house_rules", "host_about", "host_response_time", "listing_url",
    "host_url", "picture_url", "host_thumbnail_url", "host_picture_url",
    "host_verifications", "amenities", "license"
  ]

  const ListingNumericColumns: seq<string> := [
    "price", "accommodates", "bathrooms", "bedrooms", "beds",
    "review_scores_rating", "number_of_reviews", "minimum_nights",
    "maximum_nights", "review_scores_accuracy", "review_scores_cleanliness",
    "review_scores_checkin", "review_scores_communication",
    "review_scores_location", "review_scores_value"
  ]

  const ProcessedDate := "processed_date"

  /** The operation a listings column gets, by name. */
  function ListingCell(p: Parsers, name: string, v: Option<string>): Cell {
    if name in ListingTextColumns then TextCell(v)
    else if name == "price" then PriceCell(p, v)
    else if name in ListingNumericColumns then NumericCell(p, v)
    else Untouched(v)
  }

  /** Some declared column of the listing policy occurs twice. */
  predicate ListingConflict(header: seq<string>) {
    exists name :: name in ListingTextColumns + ListingNumericColumns && Duplicated(header, name)
  }

  /** `transform_listings`: None stands for the exception raised on a
      duplicated declared column. Otherwise every column is kept in place and
      a `processed_date` column holding the stamp is overwritten or appended. */
  function TransformListings(raw: Table<Option<string>>, stamp: string, p: Parsers): (r: Option<Table<Cell>>)
    requires Rectangular(raw)
    ensures r.None? <==> ListingConflict(raw.header)
    ensures r.Some? ==> Rectangular(r.value) && |r.value.rows| == |raw.rows|
    ensures r.Some? && ProcessedDate in raw.header ==> r.value.header == raw.header
    ensures r.Some? && ProcessedDate !in raw.header ==> r.value.header == raw.header + [ProcessedDate]
  {
    if ListingConflict(raw.header) then None
    else
      var cleaned := MapByColumn(raw, (name, v) => ListingCell(p, name, DropMissing(v)));
      Some(SetColumn(cleaned, ProcessedDate, Text(stamp)))
  }

  // ---------------------------------------------------------------------------
  // transform_calendar
  // ---------------------------------------------------------------------------

  /** The text list of the calendar policy. Its "date" entry can never apply:
      the column has been renamed by the time the list is consulted. */
  const CalendarTextColumns: seq<string> := ["listing_id", "available", "date"]

  const CalendarNumericColumns: seq<string> := ["price", "adjusted_price", "minimum_nights", "maximum_nights"]

  function CalendarCell(p: Parsers, name: string, v: Option<string>): Cell {
    if name == "available" then AvailableCell(v)
    else if name in CalendarTextColumns then TextCell(v)
    else if name == "price" || name == "adjusted_price" then PriceCell(p, v)
    else if name in CalendarNumericColumns then NumericCell(p, v)
    else Untouched(v)
  }

  predicate CalendarConflict(header: seq<string>) {
    exists name :: name in CalendarTextColumns + CalendarNumericColumns && Duplicated(header, name)
  }

  /** `transform_calendar`: rename `date` to `calendar_date`, then apply the
      policy to the renamed header. No column is added. */
  function TransformCalendar(raw: Table<Option<string>>, p: Parsers): (r: Option<Table<Cell>>)
    requires Rectangular(raw)
    ensures var header := Rename(raw.header, "date", "calendar_date");
      && (r.None? <==> CalendarConflict(header))
      && (r.Some? ==> r.value.header == header && Rectangular(r.value) && |r.value.rows| == |raw.rows|)
  {
    var renamed := Table(Rename(raw.header, "date", "calendar_date"), raw.rows);
    if CalendarConflict(renamed.header) then None
    else Some(MapByColumn(renamed, (name, v) => CalendarCell(p, name, DropMissing(v))))
  }

  // ---------------------------------------------------------------------------
  // transform_reviews
  // ---------------------------------------------------------------------------

  const ReviewTextColumns: seq<string> := ["listing_id", "id", "reviewer_id", "reviewer_name", "comments"]

  function ReviewCell(p: Parsers, name: string, v: Option<string>): Cell {
    if name in ReviewTextColumns then TextCell(v)
    else if name == "review_date" then DatetimeCell(p, v)
    else Untouched(v)
  }

  predicate ReviewConflict(header: seq<string>) {
    exists name :: name in ReviewTextColumns + ["review_date"] && Duplicated(header, name)
  }

  /** `transform_reviews`: rename `date` to `review_date`, clean the text
      columns and read the review date as a timestamp. No column is added. */
  function TransformReviews(raw: Table<Option<string>>, p: Parsers): (r: Option<Table<Cell>>)
    requires Rectangular(raw)
    ensures var header := Rename(raw.header, "date", "review_date");
      && (r.None? <==> ReviewConflict(header))
      && (r.Some? ==> r.value.header == header && Rectangular(r.value) && |r.value.rows| == |raw.rows|)
  {
    var renamed := Table(Rename(raw.header, "date", "review_date"), raw.rows);
    if ReviewConflict(renamed.header) then None
    else Some(MapByColumn(renamed, (name, v) => ReviewCell(p, name, DropMissing(v))))
  }
}
