/** The file-naming conventions the three pipeline steps share: the raw name
    `{city}_{snapshot}_{filename}` the download step writes, the processed name
    `{city}_{snapshot}_{type}.csv` the transform step writes, and the Hive
    partition path the load step uploads to. City and snapshot are read back
    from the first two `_`-separated parts of a name. */
module Naming {
  import opened Wrappers
  import opened Strings

  /** The record types, in the order the steps try them. */
  const DataTypes: seq<string> := ["listings", "calendar", "reviews"]

  /** `LOCAL_PROCESSED_DIR`: the transform step writes here, the load step reads here. */
  const LocalProcessedDir := "data/processed"

  /** `GCS_PREFIX` of load_gcp.py. */
  const GcsPrefix := "inside_airbnb"

  /** A name segment that the `_`-split reads back as one part. */
  predicate Segment(s: string) {
    '_' !in s && '/' !in s
  }

  /** `f"{city}_{snapshot}_{filename}"` of `download_file`. */
  function RawName(city: string, snapshot: string, filename: string): string {
    city + "_" + snapshot + "_" + filename
  }

  /** `f"{city}_{snapshot}_{data_type}.csv"` of `process_file`. */
  function ProcessedName(city: string, snapshot: string, dataType: string): string {
    RawName(city, snapshot, dataType + ".csv")
  }

  /** City and snapshot as `process_file` reads them: `parts[0]` and
      `parts[1]` of `filename.split('_')`; a name without `_` has no
      `parts[1]`, which the source reports as a failure. */
  function ParseName(filename: string): (r: Option<(string, string)>)
    ensures r.Some? <==> '_' in filename
    ensures r.Some? ==> '_' !in r.value.0 && '_' !in r.value.1
    ensures r.Some? ==> StartsWith(filename, r.value.0 + "_" + r.value.1)
    ensures r.Some? ==>
              var n := |r.value.0| + 1 + |r.value.1|;
              n == |filename| || filename[n] == '_'
  {
    var parts := Split(filename, '_');
    CountIn('_', filename);
    if |parts| < 2 then None
    else
      JoinFront(parts, '_');
      Some((parts[0], parts[1]))
  }

  /** A joined line starts with its first two parts and the separator between them. */
  lemma JoinFront(parts: seq<string>, sep: char)
    requires |parts| >= 2
    ensures StartsWith(Join(parts, [sep]), parts[0] + [sep] + parts[1])
    ensures var n := |parts[0]| + 1 + |parts[1]|;
            n == |Join(parts, [sep])| || Join(parts, [sep])[n] == sep
  {
    var tail := Join(parts[1..], [sep]);
    if |parts| > 2 {
      assert tail == parts[1] + [sep] + Join(parts[2..], [sep]);
    }
    assert Join(parts, [sep]) == parts[0] + [sep] + tail;
  }

  /** `base_url.rstrip('/') + '/' + snapshot + '/data/' + filename`. */
  function DownloadUrl(baseUrl: string, snapshot: string, filename: string): (r: string)
    ensures StartsWith(r, RStrip(baseUrl, '/') + "/" + snapshot + "/data/")
    ensures EndsWith(r, "/data/" + filename)
    ensures |r| == |RStrip(baseUrl, '/')| + |snapshot| + |filename| + 7
  {
    RStrip(baseUrl, '/') + "/" + snapshot + "/data/" + filename
  }

  /** The subdirectory `download_file` files a download under: the first
      record type, in the order listings, calendar, reviews, that occurs in
      the lower-cased file name, else "other". */
  function Classify(filename: string): (r: string)
    ensures r in DataTypes || r == "other"
    ensures r == "listings" <==> Contains(Lower(filename), "listings")
    ensures r == "calendar" <==> !Contains(Lower(filename), "listings") && Contains(Lower(filename), "calendar")
    ensures r == "reviews" <==>
      !Contains(Lower(filename), "listings") && !Contains(Lower(filename), "calendar") && Contains(Lower(filename), "reviews")
  {
    var lowered := Lower(filename);
    if Contains(lowered, "listings") then "listings"
    else if Contains(lowered, "calendar") then "calendar"
    else if Contains(lowered, "reviews") then "reviews"
    else "other"
  }

  /** The Hive-partitioned object name `load_gcp.main` uploads a processed
      file to; None for a name with fewer than three `_`-parts, which is
      skipped. The last segment is the whole original file name. */
  function PartitionPath(dataType: string, file: string): (r: Option<string>)
    ensures r.Some? <==> Count('_', file) >= 2
    ensures r.Some? ==> StartsWith(r.value, GcsPrefix + "/" + dataType + "/city=")
    ensures r.Some? ==> EndsWith(r.value, "/" + file)
  {
    var parts := Split(file, '_');
    if |parts| < 3 then None
    else Some(GcsPrefix + "/" + dataType + "/city=" + parts[0] + "/snapshot_date=" + parts[1] + "/" + file)
  }

  // ---------------------------------------------------------------------------
  // Laws
  // ---------------------------------------------------------------------------

  lemma Regroup(city: string, snapshot: string, rest: string)
    ensures city + "_" + snapshot + "_" + rest == city + ['_'] + (snapshot + ['_'] + rest)
  {}

  /** Splitting a name built from two plain segments gives those segments
      back as its first two parts. */
  lemma SplitName(city: string, snapshot: string, rest: string)
    requires '_' !in city && '_' !in snapshot
    ensures var parts := Split(city + "_" + snapshot + "_" + rest, '_');
      && |parts| == Count('_', rest) + 3
      && parts[0] == city && parts[1] == snapshot
  {
    Regroup(city, snapshot, rest);
    SplitConcat(city, snapshot + ['_'] + rest, '_');
    SplitConcat(snapshot, rest, '_');
    SplitNoSep(city, '_');
    SplitNoSep(snapshot, '_');
  }

  /** The transform step reads city and snapshot back from the raw name the
      download step wrote. */
  lemma RawNameParses(city: string, snapshot: string, filename: string)
    requires '_' !in city && '_' !in snapshot
    ensures ParseName(RawName(city, snapshot, filename)) == Some((city, snapshot))
  {
    SplitName(city, snapshot, filename);
    CountIn('_', RawName(city, snapshot, filename));
  }

  /** A processed name always has at least three parts, and the load step
      reads back the city and snapshot the transform step wrote into it. */
  lemma ProcessedNameRoundTrip(city: string, snapshot: string, dataType: string)
    requires '_' !in city && '_' !in snapshot
    ensures var file := ProcessedName(city, snapshot, dataType);
      && Count('_', file) >= 2
      && ParseName(file) == Some((city, snapshot))
      && PartitionPath(dataType, file) ==
           Some(GcsPrefix + "/" + dataType + "/city=" + city + "/snapshot_date=" + snapshot + "/" + file)
  {
    SplitName(city, snapshot, dataType + ".csv");
    RawNameParses(city, snapshot, dataType + ".csv");
  }

  /** The load step reads a name the same way the transform step does: the
      partition of an uploadable name is built from the city and snapshot
      `ParseName` reads from it. */
  lemma PartitionPathParsed(dataType: string, file: string)
    requires Count('_', file) >= 2
    ensures var (city, snapshot) := ParseName(file).value;
      PartitionPath(dataType, file) ==
        Some(GcsPrefix + "/" + dataType + "/city=" + city + "/snapshot_date=" + snapshot + "/" + file)
  {
    CountIn('_', file);
  }

  /** Classification depends on the lower-cased name only. */
  lemma ClassifyIgnoresCase(a: string, b: string)
    requires Lower(a) == Lower(b)
    ensures Classify(a) == Classify(b)
  {}

  /** A second strip of trailing slashes changes nothing, so `main` stripping
      the base URL before `download_file` strips it again is harmless. */
  lemma DownloadUrlStripped(baseUrl: string, snapshot: string, filename: string)
    ensures DownloadUrl(RStrip(baseUrl, '/'), snapshot, filename) == DownloadUrl(baseUrl, snapshot, filename)
    ensures DownloadUrl(baseUrl + "/", snapshot, filename) == DownloadUrl(baseUrl, snapshot, filename)
  {
    RStripIdempotent(baseUrl, '/');
    var s := baseUrl + "/";
    assert s[..|s| - 1] == baseUrl;
  }
}
