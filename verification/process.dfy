/** The naming and dispatch part of `process_file` (transform_data.py): city
    and snapshot come from the first two `_`-parts of the raw file's name, the
    record type picks the transform, and the result is written as
    `data/processed/{type}/{city}_{snapshot}_{type}.csv`. Reading and writing
    are oracles: the table read (None when every reading tier fails) and
    whether the write succeeded are parameters. */
module Process {
  import opened Wrappers
  import opened Strings
  import opened Paths
  import opened Naming
  import opened Tables
  import opened Transform

  /** A processed file: where it is written and what it holds. */
  datatype Processed = Processed(path: string, table: Table<Cell>)

  /** The transform a record type selects; None for an unknown type and for a
      table the transform rejects. */
  function ApplyTransform(dataType: string, raw: Table<Option<string>>, stamp: string, p: Parsers): (r: Option<Table<Cell>>)
    requires Rectangular(raw)
    ensures dataType !in DataTypes ==> r.None?
    ensures dataType == "listings" ==> r == TransformListings(raw, stamp, p)
    ensures dataType == "calendar" ==> r == TransformCalendar(raw, p)
    ensures dataType == "reviews" ==> r == TransformReviews(raw, p)
  {
    if dataType == "listings" then TransformListings(raw, stamp, p)
    else if dataType == "calendar" then TransformCalendar(raw, p)
    else if dataType == "reviews" then TransformReviews(raw, p)
    else None
  }

  /** Where the processed file of a record type is written. */
  function OutputPath(city: string, snapshot: string, dataType: string): string {
    PathJoin(PathJoin(LocalProcessedDir, dataType), ProcessedName(city, snapshot, dataType))
  }

  /** `process_file`: None when the name has no second `_`-part, the file
      cannot be read, the type is unknown, the transform raises or the write
      fails; otherwise the output path and the processed table. */
  function ProcessFile(path: string, dataType: string, raw: Option<Table<Option<string>>>,
                       stamp: string, p: Parsers, saved: bool): (r: Option<Processed>)
    requires raw.Some? ==> Rectangular(raw.value)
    ensures '_' !in Basename(path) ==> r.None?
    ensures raw.None? || dataType !in DataTypes || !saved ==> r.None?
    ensures r.Some? <==>
      '_' in Basename(path) && raw.Some? && ApplyTransform(dataType, raw.value, stamp, p).Some? && saved
    ensures r.Some? ==>
      var (city, snapshot) := ParseName(Basename(path)).value;
      r.value == Processed(OutputPath(city, snapshot, dataType), ApplyTransform(dataType, raw.value, stamp, p).value)
  {
    match ParseName(Basename(path))
    case None => None
    case Some((city, snapshot)) =>
      if raw.None? then None
      else
        match ApplyTransform(dataType, raw.value, stamp, p)
        case None => None
        case Some(table) =>
          if saved then Some(Processed(OutputPath(city, snapshot, dataType), table)) else None
  }

  // ---------------------------------------------------------------------------
  // Laws
  // ---------------------------------------------------------------------------

  lemma TypeDir(dataType: string)
    requires dataType in DataTypes
    ensures PathJoin(LocalProcessedDir, dataType) == LocalProcessedDir + "/" + dataType
    ensures '/' !in dataType && dataType != ""
  {
    assert LocalProcessedDir[|LocalProcessedDir| - 1] == 'd';
    assert dataType[0] != '/';
  }

  /** A processed name built from slash-free segments has no slash. */
  lemma ProcessedNamePlain(city: string, snapshot: string, dataType: string)
    requires '/' !in city && '/' !in snapshot && '/' !in dataType
    ensures '/' !in ProcessedName(city, snapshot, dataType)
    ensures ProcessedName(city, snapshot, dataType)[0] != '/'
  {
    var name := ProcessedName(city, snapshot, dataType);
    assert name[0] == (city + "_")[0];
  }

  /** For a known record type and slash-free city and snapshot, the output
      is `data/processed/{type}/{city}_{snapshot}_{type}.csv`. */
  lemma OutputPathShape(city: string, snapshot: string, dataType: string)
    requires '/' !in city && '/' !in snapshot && dataType in DataTypes
    ensures OutputPath(city, snapshot, dataType) ==
      LocalProcessedDir + "/" + dataType + "/" + ProcessedName(city, snapshot, dataType)
    ensures Basename(OutputPath(city, snapshot, dataType)) == ProcessedName(city, snapshot, dataType)
    ensures Dirname(OutputPath(city, snapshot, dataType)) == LocalProcessedDir + "/" + dataType
  {
    var dir := LocalProcessedDir + "/" + dataType;
    var name := ProcessedName(city, snapshot, dataType);
    TypeDir(dataType);
    ProcessedNamePlain(city, snapshot, dataType);
    assert dir[|dir| - 1] != '/';
    JoinPlain(dir, name);
    BasenameOfJoin(dir, name);
    DirnameOfJoin(dir, name);
  }

  /** The two parts `process_file` reads are slash-free when they come from a
      base name. */
  lemma ParsedPlain(filename: string)
    requires '/' !in filename && ParseName(filename).Some?
    ensures '/' !in ParseName(filename).value.0 && '/' !in ParseName(filename).value.1
  {
    var (city, snapshot) := ParseName(filename).value;
    var prefix := filename[..|city + "_" + snapshot|];
    assert prefix == city + "_" + snapshot;
    assert forall k :: 0 <= k < |city| ==> city[k] == prefix[k];
    assert forall k :: 0 <= k < |snapshot| ==> snapshot[k] == prefix[|city| + 1 + k];
  }

  /** The processed file is named `{city}_{snapshot}_{type}.csv` after the
      first two parts of the input's name, inside `data/processed/{type}`, and
      the load step files it under the same city and snapshot. */
  lemma ProcessThenLoad(path: string, dataType: string, raw: Option<Table<Option<string>>>,
                        stamp: string, p: Parsers, saved: bool)
    requires raw.Some? ==> Rectangular(raw.value)
    requires ProcessFile(path, dataType, raw, stamp, p, saved).Some?
    ensures var (city, snapshot) := ParseName(Basename(path)).value;
      var out := ProcessFile(path, dataType, raw, stamp, p, saved).value.path;
      && Dirname(out) == LocalProcessedDir + "/" + dataType
      && Basename(out) == ProcessedName(city, snapshot, dataType)
      && ParseName(Basename(out)) == Some((city, snapshot))
      && PartitionPath(dataType, Basename(out)) ==
           Some(GcsPrefix + "/" + dataType + "/city=" + city + "/snapshot_date=" + snapshot + "/" + Basename(out))
  {
    var (city, snapshot) := ParseName(Basename(path)).value;
    ParsedPlain(Basename(path));
    OutputPathShape(city, snapshot, dataType);
    ProcessedNameRoundTrip(city, snapshot, dataType);
  }
}
