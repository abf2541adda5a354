/** What each transform does to a cell, column by column: missing tokens become
    nulls before any column work, declared columns get their cleaner, renamed
    columns land under their new name, and undeclared columns pass through. */
module TransformLaws {
  import opened Wrappers
  import opened Strings
  import opened Sanitize
  import opened Tables
  import opened Transform

  /** A raw value the first `replace` turns into a null. */
  predicate Missing(w: Option<string>) {
    w.None? || w.value in MissingTokens
  }

  // ---------------------------------------------------------------------------
  // The declared lists do not overlap
  // ---------------------------------------------------------------------------

  /** The price and capacity columns are not text columns. */
  lemma CapacityNotText(name: string)
    requires name in ListingNumericColumns[..5]
    ensures name !in ListingTextColumns
  {}

  /** Nor are the review count, the first review score and the stay limits. */
  lemma CountsNotText(name: string)
    requires name in ListingNumericColumns[5..9]
    ensures name !in ListingTextColumns
  {}

  /** Nor are the accuracy, cleanliness and check-in scores. */
  lemma StayScoresNotText(name: string)
    requires name in ListingNumericColumns[9..12]
    ensures name !in ListingTextColumns
  {}

  /** Nor are the communication, location and value scores. */
  lemma HostScoresNotText(name: string)
    requires name in ListingNumericColumns[12..]
    ensures name !in ListingTextColumns
  {}

  /** No listings column is both a text column and a numeric column, so the
      order of the two passes of `transform_listings` does not matter. */
  lemma ListingListsDisjoint(name: string)
    requires name in ListingNumericColumns
    ensures name !in ListingTextColumns
  {
    var k :| 0 <= k < |ListingNumericColumns| && ListingNumericColumns[k] == name;
    if k < 5 {
      assert ListingNumericColumns[..5][k] == name;
      CapacityNotText(name);
    } else if k < 9 {
      assert ListingNumericColumns[5..9][k - 5] == name;
      CountsNotText(name);
    } else if k < 12 {
      assert ListingNumericColumns[9..12][k - 9] == name;
      StayScoresNotText(name);
    } else {
      assert ListingNumericColumns[12..][k - 12] == name;
      HostScoresNotText(name);
    }
  }

  // ---------------------------------------------------------------------------
  // transform_listings
  // ---------------------------------------------------------------------------

  /** The listings policy for one raw value of column `name`. */
  lemma ListingCellPolicy(p: Parsers, name: string, w: Option<string>)
    ensures var c := ListingCell(p, name, DropMissing(w));
      && (Missing(w) ==> c == Null)
      && (name in ListingTextColumns ==> c == Null || c == Text(CleanText(w.value)))
      && (name in ListingTextColumns && !Missing(w) ==> c == Text(CleanText(w.value)))
      && (name in ListingNumericColumns ==> c.Null? || c.Num?)
      && (name == "price" && c.Num? ==> CleanPrice(p.float, Some(w.value)) == Some(c.x))
      && (name == "price" && !Missing(w) ==> (c.Num? <==> CleanPrice(p.float, Some(w.value)).Some?))
      && (name in ListingNumericColumns && name != "price" && !Missing(w) ==>
            (c.Num? <==> p.numeric(w.value).Some?))
      && (name !in ListingTextColumns && name !in ListingNumericColumns ==> c == Untouched(DropMissing(w)))
  {
    if name in ListingNumericColumns {
      ListingListsDisjoint(name);
    }
  }

  /** `transform_listings` cell by cell: every raw column keeps its place and
      gets its policy, except `processed_date`, which holds the stamp in every
      row, whether it was there before or was appended. */
  lemma ListingsCells(raw: Table<Option<string>>, stamp: string, p: Parsers)
    requires Rectangular(raw)
    requires !ListingConflict(raw.header)
    ensures var t := TransformListings(raw, stamp, p).value;
      && (forall i, j :: 0 <= i < |raw.rows| && 0 <= j < |raw.header| && raw.header[j] != ProcessedDate ==>
            t.rows[i][j] == ListingCell(p, raw.header[j], DropMissing(raw.rows[i][j])))
      && (forall i, j :: 0 <= i < |t.rows| && 0 <= j < |t.header| && t.header[j] == ProcessedDate ==>
            t.rows[i][j] == Text(stamp))
  {
    var cleaned := MapByColumn(raw, (name, v) => ListingCell(p, name, DropMissing(v)));
    SetColumnCells(cleaned, ProcessedDate, Text(stamp));
  }

  // ---------------------------------------------------------------------------
  // transform_calendar
  // ---------------------------------------------------------------------------

  /** The calendar's `available` column is always text and never the bare
      "t" or "f"; a missing value reads "nan". */
  lemma CalendarAvailablePolicy(p: Parsers, w: Option<string>)
    ensures var c := CalendarCell(p, "available", DropMissing(w));
      && c.Text? && c.s != "t" && c.s != "f"
      && (Missing(w) ==> c == Text("nan"))
      && (!Missing(w) ==> c == Text(AvailableText(Some(CleanText(w.value)))))
  {}

  /** The other calendar columns: missing tokens become nulls, `listing_id`
      is cleaned text, the price columns go through `clean_price`, the other
      numeric columns are read as numbers, and the rest pass through. */
  lemma CalendarTextPolicy(p: Parsers, name: string, w: Option<string>)
    requires name != "available" && name in CalendarTextColumns
    ensures var c := CalendarCell(p, name, DropMissing(w));
      && (Missing(w) ==> c == Null)
      && (c == Null || c == Text(CleanText(w.value)))
      && (!Missing(w) ==> c == Text(CleanText(w.value)))
  {}

  lemma CalendarNumericPolicy(p: Parsers, name: string, w: Option<string>)
    requires name in CalendarNumericColumns
    ensures var c := CalendarCell(p, name, DropMissing(w));
      && (Missing(w) ==> c == Null)
      && (c.Null? || c.Num?)
      && ((name == "price" || name == "adjusted_price") && c.Num? ==> CleanPrice(p.float, Some(w.value)) == Some(c.x))
      && ((name == "price" || name == "adjusted_price") && !Missing(w) ==>
            (c.Num? <==> CleanPrice(p.float, Some(w.value)).Some?))
      && (name != "price" && name != "adjusted_price" && !Missing(w) ==> (c.Num? <==> p.numeric(w.value).Some?))
  {
    assert name !in CalendarTextColumns;
  }

  lemma CalendarOtherPolicy(p: Parsers, name: string, w: Option<string>)
    requires name !in CalendarTextColumns && name !in CalendarNumericColumns
    ensures CalendarCell(p, name, DropMissing(w)) == Untouched(DropMissing(w))
    ensures Missing(w) ==> CalendarCell(p, name, DropMissing(w)) == Null
  {}

  /** After the rename no column is called `date`, so the `date` entry of the
      calendar's text list never applies; the raw `date` column comes out as
      `calendar_date` with only the missing tokens replaced. */
  lemma CalendarDateColumn(raw: Table<Option<string>>, p: Parsers)
    requires Rectangular(raw)
    requires !CalendarConflict(Rename(raw.header, "date", "calendar_date"))
    ensures var t := TransformCalendar(raw, p).value;
      && "date" !in t.header
      && (forall j :: 0 <= j < |raw.header| && raw.header[j] == "date" ==> t.header[j] == "calendar_date")
      && (forall i, j :: 0 <= i < |raw.rows| && 0 <= j < |raw.header| && raw.header[j] == "date" ==>
            t.rows[i][j] == Untouched(DropMissing(raw.rows[i][j])))
  {
    var t := TransformCalendar(raw, p).value;
    assert "calendar_date" !in CalendarTextColumns && "calendar_date" !in CalendarNumericColumns;
    forall j | 0 <= j < |t.header| ensures t.header[j] != "date" {
    }
  }

  /** Every other calendar column gets its policy under its (unchanged) name. */
  lemma CalendarCells(raw: Table<Option<string>>, p: Parsers)
    requires Rectangular(raw)
    requires !CalendarConflict(Rename(raw.header, "date", "calendar_date"))
    ensures var t := TransformCalendar(raw, p).value;
      forall i, j :: 0 <= i < |raw.rows| && 0 <= j < |raw.header| && raw.header[j] != "date" ==>
        t.header[j] == raw.header[j] && t.rows[i][j] == CalendarCell(p, raw.header[j], DropMissing(raw.rows[i][j]))
  {}

  // ---------------------------------------------------------------------------
  // transform_reviews
  // ---------------------------------------------------------------------------

  /** The reviews policy for one raw value of column `name`. */
  lemma ReviewCellPolicy(p: Parsers, name: string, w: Option<string>)
    ensures var c := ReviewCell(p, name, DropMissing(w));
      && (Missing(w) ==> c == Null)
      && (name in ReviewTextColumns ==> c == Null || c == Text(CleanText(w.value)))
      && (name in ReviewTextColumns && !Missing(w) ==> c == Text(CleanText(w.value)))
      && (name == "review_date" ==> c.Null? || c.Time?)
      && (name == "review_date" && !Missing(w) ==> (c.Time? <==> p.datetime(w.value).Some?))
      && (name !in ReviewTextColumns && name != "review_date" ==> c == Untouched(DropMissing(w)))
  {
    if name == "review_date" {
      assert name !in ReviewTextColumns;
    }
  }

  /** The raw `date` column of a reviews file comes out as `review_date`, read
      as a timestamp; every other column keeps its name. */
  lemma ReviewsCells(raw: Table<Option<string>>, p: Parsers)
    requires Rectangular(raw)
    requires !ReviewConflict(Rename(raw.header, "date", "review_date"))
    ensures var t := TransformReviews(raw, p).value;
      && "date" !in t.header
      && (forall i, j :: 0 <= i < |raw.rows| && 0 <= j < |raw.header| && raw.header[j] == "date" ==>
            t.header[j] == "review_date" && t.rows[i][j] == DatetimeCell(p, DropMissing(raw.rows[i][j])))
      && (forall i, j :: 0 <= i < |raw.rows| && 0 <= j < |raw.header| && raw.header[j] != "date" ==>
            t.header[j] == raw.header[j] && t.rows[i][j] == ReviewCell(p, raw.header[j], DropMissing(raw.rows[i][j])))
  {
    var t := TransformReviews(raw, p).value;
    assert "review_date" !in ReviewTextColumns;
    forall j | 0 <= j < |t.header| ensures t.header[j] != "date" {
    }
  }

  // ---------------------------------------------------------------------------
  // The `available` normalisation
  // ---------------------------------------------------------------------------

  /** The normalisation looks at the lowered text only. */
  lemma AvailableIgnoresCase(a: string, b: string)
    requires Lower(a) == Lower(b)
    ensures AvailableText(Some(a)) == AvailableText(Some(b))
  {}

  /** Normalising an already normalised value changes nothing. */
  lemma AvailableIdempotent(v: Option<string>)
    ensures AvailableText(Some(AvailableText(v))) == AvailableText(v)
  {
    var r := AvailableText(v);
    if v.Some? {
      LowerIdempotent(v.value);
    }
    assert Lower("nan") == "nan";
    assert Lower("true") == "true";
    assert Lower("false") == "false";
  }
}
