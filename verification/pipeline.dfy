/** The naming contract across the three steps: a file downloaded for a city
    and snapshot, extracted, transformed and loaded ends up under the
    partition of that same city and snapshot. */
module Pipeline {
  import opened Wrappers
  import opened Strings
  import opened Paths
  import opened Naming
  import opened Tables
  import opened Transform
  import opened Extract
  import opened Process
  import opened Load

  /** The extracted raw file of a download is processed under the download's
      city and snapshot, and its processed file is uploaded to the partition
      `city={city}/snapshot_date={snapshot}` of its record type. */
  lemma NamesSurviveThePipeline(city: string, snapshot: string, filename: string, inflate: string -> bool,
                                dataType: string, raw: Option<Table<Option<string>>>, stamp: string,
                                p: Parsers, saved: bool)
    requires Segment(city) && Segment(snapshot) && '/' !in filename
    requires EndsWith(filename, ".gz") && inflate(LocalRawPath(city, snapshot, filename))
    requires raw.Some? ==> Rectangular(raw.value)
    requires var extracted := ExtractCompressed(LocalRawPath(city, snapshot, filename), inflate).value;
      ProcessFile(extracted, dataType, raw, stamp, p, saved).Some?
    ensures var extracted := ExtractCompressed(LocalRawPath(city, snapshot, filename), inflate).value;
      var out := Basename(ProcessFile(extracted, dataType, raw, stamp, p, saved).value.path);
      && out == ProcessedName(city, snapshot, dataType)
      && Eligible(out)
      && UploadOf(dataType, out).gcsPath ==
           GcsPrefix + "/" + dataType + "/city=" + city + "/snapshot_date=" + snapshot + "/" + out
  {
    var extracted := ExtractCompressed(LocalRawPath(city, snapshot, filename), inflate).value;
    ExtractedParses(city, snapshot, filename, inflate);
    ProcessedUploaded(extracted, city, snapshot, dataType, raw, stamp, p, saved);
  }

  /** The transform step reads the download's city and snapshot from the
      extracted file's name. */
  lemma ExtractedParses(city: string, snapshot: string, filename: string, inflate: string -> bool)
    requires Segment(city) && Segment(snapshot) && '/' !in filename
    requires EndsWith(filename, ".gz") && inflate(LocalRawPath(city, snapshot, filename))
    ensures var extracted := ExtractCompressed(LocalRawPath(city, snapshot, filename), inflate);
      extracted.Some? && ParseName(Basename(extracted.value)) == Some((city, snapshot))
  {
    var csv := filename[..|filename| - 3];
    var extracted := ExtractCompressed(LocalRawPath(city, snapshot, filename), inflate).value;
    DownloadThenExtract(city, snapshot, filename, inflate);
    RawNamePlain(city, snapshot, csv);
    ExtractedBasename(Classify(filename), RawName(city, snapshot, csv), extracted);
    RawNameParses(city, snapshot, csv);
  }

  /** Whatever file `process_file` reads a city and snapshot from, its output
      is uploaded to the partition of that city and snapshot. */
  lemma ProcessedUploaded(path: string, city: string, snapshot: string, dataType: string,
                          raw: Option<Table<Option<string>>>, stamp: string, p: Parsers, saved: bool)
    requires raw.Some? ==> Rectangular(raw.value)
    requires ParseName(Basename(path)) == Some((city, snapshot))
    requires ProcessFile(path, dataType, raw, stamp, p, saved).Some?
    ensures var out := Basename(ProcessFile(path, dataType, raw, stamp, p, saved).value.path);
      && out == ProcessedName(city, snapshot, dataType)
      && Eligible(out)
      && UploadOf(dataType, out).gcsPath ==
           GcsPrefix + "/" + dataType + "/city=" + city + "/snapshot_date=" + snapshot + "/" + out
  {
    ProcessThenLoad(path, dataType, raw, stamp, p, saved);
    ProcessedNameRoundTrip(city, snapshot, dataType);
    ProcessedNameCsv(city, snapshot, dataType);
  }

  lemma RawNamePlain(city: string, snapshot: string, filename: string)
    requires '/' !in city && '/' !in snapshot && '/' !in filename
    ensures '/' !in RawName(city, snapshot, filename)
  {}

  lemma ExtractedBasename(subdir: string, name: string, path: string)
    requires subdir in DataTypes || subdir == "other"
    requires '/' !in name
    requires path == LocalRawDir + "/" + subdir + "/" + name
    ensures Basename(path) == name
  {
    var dir := LocalRawDir + "/" + subdir;
    SubdirPlain(subdir);
    assert dir[|dir| - 1] != '/';
    if name != "" {
      JoinPlain(dir, name);
    }
    BasenameOfJoin(dir, name);
  }

  /** A processed name is a `.csv` name. */
  lemma ProcessedNameCsv(city: string, snapshot: string, dataType: string)
    ensures EndsWith(ProcessedName(city, snapshot, dataType), ".csv")
  {
    var name := ProcessedName(city, snapshot, dataType);
    assert name[|name| - 4..] == ".csv";
  }
}
