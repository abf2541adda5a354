/** The pure part of the extract step (extract_data.py): where a download is
    fetched from and filed, how a `.gz` name is turned into the name of the
    decompressed file, and which city entries of the configuration are used.
    The network and the decompression are oracles: `fetch(url)` says whether
    the download succeeded and `inflate(path)` whether decompression did. */
module Extract {
  import opened Wrappers
  import opened Strings
  import opened Paths
  import opened Naming
  import opened Seqs

  /** `LOCAL_RAW_DIR`. */
  const LocalRawDir := "data/raw"

  /** One entry of the `cities` list: `name` may be absent, `base_url`
      defaults to "" and `files` to the empty list. */
  datatype CityEntry = CityEntry(name: Option<string>, baseUrl: string, files: seq<string>)

  /** The loaded configuration: the snapshot (if any) and the city entries. */
  datatype Config = Config(snapshot: Option<string>, cities: seq<CityEntry>)

  /** Where `download_file` saves a file: the raw name inside the subdirectory
      its classification picks. */
  function LocalRawPath(city: string, snapshot: string, filename: string): string {
    PathJoin(PathJoin(LocalRawDir, Classify(filename)), RawName(city, snapshot, filename))
  }

  /** For a city name that is not an absolute path, the raw file lands in
      `data/raw/{subdir}/` under its raw name. */
  lemma LocalRawPathShape(city: string, snapshot: string, filename: string)
    requires !StartsWith(city, "/")
    ensures LocalRawPath(city, snapshot, filename) ==
      LocalRawDir + "/" + Classify(filename) + "/" + RawName(city, snapshot, filename)
  {
    var subdir := Classify(filename);
    var name := RawName(city, snapshot, filename);
    SubdirDir(subdir);
    assert StartsWith(name, city + "_");
    RawNameJoin(LocalRawDir + "/" + subdir, city, name);
  }

  /** The directory of a subdirectory name: no trailing slash. */
  lemma SubdirDir(subdir: string)
    requires subdir in DataTypes || subdir == "other"
    ensures PathJoin(LocalRawDir, subdir) == LocalRawDir + "/" + subdir
    ensures '/' !in subdir && subdir != ""
  {
    assert LocalRawDir[|LocalRawDir| - 1] == 'w';
    assert subdir[0] != '/';
  }

  lemma SubdirPlain(subdir: string)
    requires subdir in DataTypes || subdir == "other"
    ensures '/' !in subdir && subdir != ""
  {}

  lemma RawNameJoin(dir: string, city: string, name: string)
    requires dir != "" && dir[|dir| - 1] != '/'
    requires !StartsWith(city, "/") && StartsWith(name, city + "_")
    ensures PathJoin(dir, name) == dir + "/" + name
  {
    assert name == "" || name[0] != '/' by {
      if city != "" {
        assert name[0] == city[0];
      } else {
        assert name[0] == '_';
      }
    }
    JoinPlain(dir, name);
  }

  /** `download_file`: the local path when the request succeeds, None when it fails. */
  function DownloadFile(city: string, snapshot: string, baseUrl: string, filename: string,
                        fetch: string -> bool): (r: Option<string>)
    ensures r.Some? <==> fetch(DownloadUrl(baseUrl, snapshot, filename))
    ensures r.Some? ==> r.value == LocalRawPath(city, snapshot, filename)
  {
    if fetch(DownloadUrl(baseUrl, snapshot, filename)) then Some(LocalRawPath(city, snapshot, filename)) else None
  }

  /** `extract_compressed_file`: a `.gz` file is decompressed into the raw
      directory, under the subdirectory it was in and with the suffix cut; a
      failed decompression gives None; any other path comes back unchanged. */
  function ExtractCompressed(path: string, inflate: string -> bool): (r: Option<string>)
    ensures !EndsWith(path, ".gz") ==> r == Some(path)
    ensures EndsWith(path, ".gz") ==> (r.Some? <==> inflate(path))
  {
    if EndsWith(path, ".gz") then
      var filename := Basename(path);
      BasenameSuffix(path, ".gz");
      var subdir := Basename(Dirname(path));
      if inflate(path) then Some(PathJoin(PathJoin(LocalRawDir, subdir), filename[..|filename| - 3])) else None
    else Some(path)
  }

  /** An entry `main` uses: a non-empty name and a base URL that is not
      empty once its trailing slashes are stripped. */
  predicate Accepted(c: CityEntry) {
    c.name.Some? && c.name.value != "" && RStrip(c.baseUrl, '/') != ""
  }

  /** The files one city contributes: for each listed file in order, the
      extracted path when both the download and the extraction succeed. */
  function CityFiles(snapshot: string, c: CityEntry, fetch: string -> bool, inflate: string -> bool): (r: seq<string>)
    requires Accepted(c)
    ensures |r| <= |c.files|
  {
    Present(Outcomes(snapshot, c, fetch, inflate))
  }

  function Outcomes(snapshot: string, c: CityEntry, fetch: string -> bool, inflate: string -> bool): (os: seq<Option<string>>)
    requires Accepted(c)
    ensures |os| == |c.files|
    ensures forall i :: 0 <= i < |os| ==> os[i] == FileOutcome(snapshot, c, c.files[i], fetch, inflate)
  {
    seq(|c.files|, i requires 0 <= i < |c.files| => FileOutcome(snapshot, c, c.files[i], fetch, inflate))
  }

  /** The values that are present, in order. */
  function Present<T>(os: seq<Option<T>>): (r: seq<T>)
    ensures |r| <= |os|
    decreases |os|
  {
    if |os| == 0 then []
    else
      var rest := Present(os[..|os| - 1]);
      match os[|os| - 1]
      case None => rest
      case Some(x) => rest + [x]
  }

  /** The inner loop body of `main` for one listed file: the path it
      appends, or None when the download or the extraction fails. */
  function FileOutcome(snapshot: string, c: CityEntry, f: string, fetch: string -> bool, inflate: string -> bool): (r: Option<string>)
    requires Accepted(c)
    ensures r.Some? ==> fetch(DownloadUrl(RStrip(c.baseUrl, '/'), snapshot, f))
  {
    match DownloadFile(c.name.value, snapshot, RStrip(c.baseUrl, '/'), f, fetch)
    case None => None
    case Some(path) => ExtractCompressed(path, inflate)
  }

  /** The files of all entries, skipping the entries `main` rejects. */
  function AllFiles(snapshot: string, cities: seq<CityEntry>, fetch: string -> bool, inflate: string -> bool): (r: seq<string>)
    decreases |cities|
  {
    if |cities| == 0 then []
    else
      var rest := AllFiles(snapshot, cities[..|cities| - 1], fetch, inflate);
      var c := cities[|cities| - 1];
      if Accepted(c) then rest + CityFiles(snapshot, c, fetch, inflate) else rest
  }

  /** The number of files the accepted entries list. */
  function ListedFiles(cities: seq<CityEntry>): nat
    decreases |cities|
  {
    if |cities| == 0 then 0
    else
      var c := cities[|cities| - 1];
      ListedFiles(cities[..|cities| - 1]) + (if Accepted(c) then |c.files| else 0)
  }

  /** `main`: None when the configuration has no snapshot; otherwise the
      extracted paths of every accepted entry, in order. */
  method ExtractMain(cfg: Config, fetch: string -> bool, inflate: string -> bool) returns (r: Option<seq<string>>)
    ensures r.None? <==> cfg.snapshot.None? || cfg.snapshot.value == ""
    ensures r.Some? ==> r.value == AllFiles(cfg.snapshot.value, cfg.cities, fetch, inflate)
    ensures r.Some? ==> |r.value| <= ListedFiles(cfg.cities)
  {
    if cfg.snapshot.None? || cfg.snapshot.value == "" {
      return None;
    }
    var snapshot := cfg.snapshot.value;
    var downloaded: seq<string> := [];
    var i := 0;
    while i < |cfg.cities|
      invariant 0 <= i <= |cfg.cities|
      invariant downloaded == AllFiles(snapshot, cfg.cities[..i], fetch, inflate)
      invariant |downloaded| <= ListedFiles(cfg.cities[..i])
    {
      var c := cfg.cities[i];
      PrefixStep(snapshot, cfg.cities, i, fetch, inflate);
      if Accepted(c) {
        downloaded := downloaded + CityFiles(snapshot, c, fetch, inflate);
      }
      i := i + 1;
    }
    TakeAll(cfg.cities);
    return Some(downloaded);
  }

  /** One more entry extends the files by that entry's contribution. */
  lemma PrefixStep(snapshot: string, cities: seq<CityEntry>, i: nat, fetch: string -> bool, inflate: string -> bool)
    requires i < |cities|
    ensures var c := cities[i];
      && AllFiles(snapshot, cities[..i + 1], fetch, inflate) ==
           AllFiles(snapshot, cities[..i], fetch, inflate) + (if Accepted(c) then CityFiles(snapshot, c, fetch, inflate) else [])
      && ListedFiles(cities[..i + 1]) == ListedFiles(cities[..i]) + (if Accepted(c) then |c.files| else 0)
  {
    TakeSnoc(cities, i);
  }

  // ---------------------------------------------------------------------------
  // Laws
  // ---------------------------------------------------------------------------

  /** Every path a city contributes comes from one of its listed files whose
      download and extraction both succeeded. */
  lemma CityFilesSound(snapshot: string, c: CityEntry, fetch: string -> bool, inflate: string -> bool, q: string)
    requires Accepted(c) && q in CityFiles(snapshot, c, fetch, inflate)
    ensures exists f :: f in c.files && FileOutcome(snapshot, c, f, fetch, inflate) == Some(q)
  {
    var os := Outcomes(snapshot, c, fetch, inflate);
    var i := PresentSound(os, q);
    assert c.files[i] in c.files;
  }

  /** Every listed file whose download and extraction both succeed is contributed. */
  lemma CityFilesComplete(snapshot: string, c: CityEntry, fetch: string -> bool, inflate: string -> bool, f: string)
    requires Accepted(c) && f in c.files && FileOutcome(snapshot, c, f, fetch, inflate).Some?
    ensures FileOutcome(snapshot, c, f, fetch, inflate).value in CityFiles(snapshot, c, fetch, inflate)
  {
    var os := Outcomes(snapshot, c, fetch, inflate);
    var i :| 0 <= i < |c.files| && c.files[i] == f;
    PresentComplete(os, i);
  }

  lemma {:induction false} PresentSound<T>(os: seq<Option<T>>, x: T) returns (i: nat)
    requires x in Present(os)
    ensures i < |os| && os[i] == Some(x)
    decreases |os|
  {
    var init := os[..|os| - 1];
    if x in Present(init) {
      i := PresentSound(init, x);
      assert os[i] == init[i];
    } else {
      i := |os| - 1;
    }
  }

  lemma {:induction false} PresentComplete<T>(os: seq<Option<T>>, i: nat)
    requires i < |os| && os[i].Some?
    ensures os[i].value in Present(os)
    decreases |os|
  {
    var init := os[..|os| - 1];
    if i < |os| - 1 {
      assert init[i] == os[i];
      PresentComplete(init, i);
    }
  }

  /** A rejected entry adds nothing, wherever it stands. */
  lemma {:induction false} RejectedContributesNothing(snapshot: string, a: seq<CityEntry>, c: CityEntry, b: seq<CityEntry>,
                                                      fetch: string -> bool, inflate: string -> bool)
    requires !Accepted(c)
    ensures AllFiles(snapshot, a + [c] + b, fetch, inflate) == AllFiles(snapshot, a + b, fetch, inflate)
    decreases |b|
  {
    if |b| == 0 {
      AppendNothing(a + [c], b);
      AppendNothing(a, b);
      AllFilesSnoc(snapshot, a, c, fetch, inflate);
    } else {
      var b', x := b[..|b| - 1], b[|b| - 1];
      RejectedContributesNothing(snapshot, a, c, b', fetch, inflate);
      SnocSplit(a + [c], b);
      SnocSplit(a, b);
      AllFilesSnoc(snapshot, a + [c] + b', x, fetch, inflate);
      AllFilesSnoc(snapshot, a + b', x, fetch, inflate);
    }
  }

  /** Appending one entry adds that entry's files, if it is accepted. */
  lemma AllFilesSnoc(snapshot: string, cities: seq<CityEntry>, c: CityEntry, fetch: string -> bool, inflate: string -> bool)
    ensures AllFiles(snapshot, cities + [c], fetch, inflate) ==
              AllFiles(snapshot, cities, fetch, inflate) + (if Accepted(c) then CityFiles(snapshot, c, fetch, inflate) else [])
  {
    DropSnoc(cities, c);
  }

  lemma AppendNothing(a: seq<CityEntry>, b: seq<CityEntry>)
    requires |b| == 0
    ensures a + b == a
  {
  }

  /** Extracting `{dir}/{name}.gz` from a subdirectory of the raw directory
      writes `{dir}/{name}`. */
  lemma ExtractInSubdir(subdir: string, name: string, path: string, inflate: string -> bool)
    requires '/' !in subdir && subdir != ""
    requires '/' !in name && EndsWith(name, ".gz")
    requires path == LocalRawDir + "/" + subdir + "/" + name && inflate(path)
    ensures ExtractCompressed(path, inflate) == Some(LocalRawDir + "/" + subdir + "/" + name[..|name| - 3])
  {
    var dir := LocalRawDir + "/" + subdir;
    var csv := name[..|name| - 3];
    assert EndsWith(path, ".gz") by {
      assert path[|path| - 3..] == name[|name| - 3..];
    }
    assert subdir[0] != '/' && dir[|dir| - 1] != '/' && name[0] != '/';
    assert csv == "" || csv[0] == name[0];
    JoinPlain(LocalRawDir, subdir);
    JoinPlain(dir, name);
    JoinPlain(dir, csv);
    BasenameOfJoin(dir, name);
    DirnameOfJoin(dir, name);
    BasenameOfJoin(LocalRawDir, subdir);
  }

  /** Downloading a `.gz` file and extracting it leaves the decompressed file
      in the same subdirectory, under the raw name without the suffix, which
      the transform step parses back (`Naming.RawNameParses`). */
  lemma DownloadThenExtract(city: string, snapshot: string, filename: string, inflate: string -> bool)
    requires Segment(city) && Segment(snapshot) && '/' !in filename
    requires EndsWith(filename, ".gz") && inflate(LocalRawPath(city, snapshot, filename))
    ensures ExtractCompressed(LocalRawPath(city, snapshot, filename), inflate) ==
      Some(LocalRawDir + "/" + Classify(filename) + "/" + RawName(city, snapshot, filename[..|filename| - 3]))
  {
    var name := RawName(city, snapshot, filename);
    var subdir := Classify(filename);
    SegmentRelative(city);
    LocalRawPathShape(city, snapshot, filename);
    SubdirPlain(subdir);
    RawNameGz(city, snapshot, filename);
    ExtractRenamed(subdir, name, LocalRawPath(city, snapshot, filename),
                   RawName(city, snapshot, filename[..|filename| - 3]), inflate);
  }

  lemma ExtractRenamed(subdir: string, name: string, path: string, target: string, inflate: string -> bool)
    requires '/' !in subdir && subdir != ""
    requires '/' !in name && EndsWith(name, ".gz") && name[..|name| - 3] == target
    requires path == LocalRawDir + "/" + subdir + "/" + name && inflate(path)
    ensures ExtractCompressed(path, inflate) == Some(LocalRawDir + "/" + subdir + "/" + target)
  {
    ExtractInSubdir(subdir, name, path, inflate);
    SameDestination(subdir, name[..|name| - 3], target);
  }

  lemma SegmentRelative(s: string)
    requires Segment(s)
    ensures !StartsWith(s, "/")
  {
    if |s| > 0 {
      assert s[..1] == [s[0]];
    }
  }

  /** The raw name of a `.gz` download is a `.gz` name, and cutting its
      suffix cuts it from the file name part. */
  lemma RawNameGz(city: string, snapshot: string, filename: string)
    requires Segment(city) && Segment(snapshot) && '/' !in filename
    requires EndsWith(filename, ".gz")
    ensures var name := RawName(city, snapshot, filename);
      && '/' !in name && EndsWith(name, ".gz")
      && name[..|name| - 3] == RawName(city, snapshot, filename[..|filename| - 3])
  {
    var name := RawName(city, snapshot, filename);
    assert name[|name| - |filename|..] == filename;
    EndsWithTrans(name, filename, ".gz");
  }

  lemma SameDestination(subdir: string, a: string, b: string)
    requires a == b
    ensures LocalRawDir + "/" + subdir + "/" + a == LocalRawDir + "/" + subdir + "/" + b
  {}

  /** A raw name ends in `.gz` only when the downloaded file name does. */
  lemma GzOfRawName(path: string, filename: string)
    requires EndsWith(path, "_" + filename)
    ensures EndsWith(path, ".gz") ==> EndsWith(filename, ".gz")
  {
    var t := path[|path| - |filename| - 1..];
    assert t == "_" + filename;
    if |filename| >= 3 {
      assert filename[|filename| - 3..] == t[|t| - 3..] == path[|path| - 3..];
    } else if |path| >= 3 {
      var k := 2 - |filename|;
      assert path[|path| - 3..][k] == t[0] == '_';
      assert ".gz"[k] != '_';
    }
  }

  /** A suffix of a suffix is a suffix. */
  lemma EndsWithTrans(s: string, m: string, p: string)
    requires EndsWith(s, m) && EndsWith(m, p)
    ensures EndsWith(s, p)
  {
    assert s[|s| - |p|..] == m[|m| - |p|..];
  }

  lemma RawNameSuffix(city: string, snapshot: string, filename: string)
    ensures EndsWith(RawName(city, snapshot, filename), "_" + filename)
  {
    var name := RawName(city, snapshot, filename);
    assert name[|name| - |filename| - 1..] == "_" + filename;
  }

  /** Any other download is passed on under its raw name. */
  lemma DownloadPlain(city: string, snapshot: string, filename: string, inflate: string -> bool)
    requires !EndsWith(filename, ".gz")
    ensures ExtractCompressed(LocalRawPath(city, snapshot, filename), inflate) == Some(LocalRawPath(city, snapshot, filename))
  {
    var path := LocalRawPath(city, snapshot, filename);
    RawNameSuffix(city, snapshot, filename);
    EndsWithTrans(path, RawName(city, snapshot, filename), "_" + filename);
    GzOfRawName(path, filename);
  }
}
