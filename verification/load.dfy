/** The pure part of `load_gcp.main`: which processed files are uploaded, to
    which Hive-partitioned object name, and how the uploads are counted. The
    directory listings and the upload itself are oracles: `listing(type)` is
    the content of `data/processed/{type}` (None when the directory does not
    exist) and `upload(localPath, gcsPath)` whether the upload succeeded. */
module Load {
  import opened Wrappers
  import opened Strings
  import opened Paths
  import opened Naming
  import opened Seqs

  /** One upload `main` attempts: the listed file, its local path and its
      object name. */
  datatype Upload = Upload(file: string, localPath: string, gcsPath: string)

  /** A listed file `main` uploads: a `.csv` name with at least three `_`-parts. */
  predicate Eligible(file: string) {
    EndsWith(file, ".csv") && Count('_', file) >= 2
  }

  /** The upload of an eligible file of a record type's directory. */
  function UploadOf(dataType: string, file: string): (u: Upload)
    requires Eligible(file)
    ensures u.file == file
    ensures EndsWith(u.gcsPath, "/" + file)
    ensures Some(u.gcsPath) == PartitionPath(dataType, file)
  {
    Upload(file, PathJoin(PathJoin(LocalProcessedDir, dataType), file), PartitionPath(dataType, file).value)
  }

  /** The uploads of one directory, in listing order; other files are skipped. */
  function Candidates(dataType: string, files: seq<string>): (r: seq<Upload>)
    ensures |r| <= |files|
    decreases |files|
  {
    if |files| == 0 then []
    else
      var rest := Candidates(dataType, files[..|files| - 1]);
      var last := files[|files| - 1];
      if Eligible(last) then rest + [UploadOf(dataType, last)] else rest
  }

  /** The uploads of all record-type directories that exist, in the order
      listings, calendar, reviews. */
  function Plan(types: seq<string>, listing: string -> Option<seq<string>>): seq<Upload>
    decreases |types|
  {
    if |types| == 0 then []
    else
      var rest := Plan(types[..|types| - 1], listing);
      var t := types[|types| - 1];
      match listing(t)
      case None => rest
      case Some(files) => rest + Candidates(t, files)
  }

  /** The number of uploads that succeeded. */
  function Successes(us: seq<Upload>, upload: (string, string) -> bool): (n: nat)
    ensures n <= |us|
    decreases |us|
  {
    if |us| == 0 then 0
    else
      var u := us[|us| - 1];
      Successes(us[..|us| - 1], upload) + (if upload(u.localPath, u.gcsPath) then 1 else 0)
  }

  /** `main`: nothing when `data/processed` is missing; otherwise every
      planned upload is attempted in order and the successes are counted. */
  method LoadMain(processedExists: bool, listing: string -> Option<seq<string>>,
                  upload: (string, string) -> bool) returns (attempted: seq<Upload>, uploadedCount: nat)
    ensures !processedExists ==> attempted == [] && uploadedCount == 0
    ensures processedExists ==> attempted == Plan(DataTypes, listing)
    ensures uploadedCount == Successes(attempted, upload)
    ensures uploadedCount <= |attempted|
  {
    attempted := [];
    uploadedCount := 0;
    if !processedExists {
      return;
    }
    var plan := Plan(DataTypes, listing);
    var i := 0;
    while i < |plan|
      invariant 0 <= i <= |plan|
      invariant attempted == plan[..i]
      invariant uploadedCount == Successes(attempted, upload)
    {
      var u := plan[i];
      TakeSnoc(plan, i);
      DropSnoc(attempted, u);
      if upload(u.localPath, u.gcsPath) {
        uploadedCount := uploadedCount + 1;
      }
      attempted := attempted + [u];
      i := i + 1;
    }
    TakeAll(plan);
  }

  // ---------------------------------------------------------------------------
  // Laws
  // ---------------------------------------------------------------------------

  /** Only eligible listed files are uploaded. */
  lemma {:induction false} CandidatesSound(dataType: string, files: seq<string>, u: Upload)
    requires u in Candidates(dataType, files)
    ensures u.file in files && Eligible(u.file) && u == UploadOf(dataType, u.file)
    decreases |files|
  {
    var init := files[..|files| - 1];
    if u in Candidates(dataType, init) {
      CandidatesSound(dataType, init, u);
      assert u.file in files by {
        var i :| 0 <= i < |init| && init[i] == u.file;
        assert files[i] == u.file;
      }
    }
  }

  /** Every eligible listed file is uploaded. */
  lemma {:induction false} CandidatesComplete(dataType: string, files: seq<string>, f: string)
    requires f in files && Eligible(f)
    ensures UploadOf(dataType, f) in Candidates(dataType, files)
    decreases |files|
  {
    var init := files[..|files| - 1];
    if f != files[|files| - 1] {
      var i :| 0 <= i < |files| && files[i] == f;
      assert init[i] == f;
      CandidatesComplete(dataType, init, f);
    }
  }

  /** Every attempted upload is of a `.csv` file whose name has at least
      three `_`-parts, sent to the partition of its record type; in
      particular a name with fewer than three parts is never uploaded. */
  lemma PlanOnlyEligible(types: seq<string>, listing: string -> Option<seq<string>>, u: Upload)
    requires u in Plan(types, listing)
    ensures Eligible(u.file) && exists t :: t in types && u == UploadOf(t, u.file)
    decreases |types|
  {
    var init := types[..|types| - 1];
    var t := types[|types| - 1];
    if u in Plan(init, listing) {
      PlanOnlyEligible(init, listing, u);
      var t' :| t' in init && u == UploadOf(t', u.file);
      assert t' in types;
    } else {
      CandidatesSound(t, listing(t).value, u);
    }
  }

  /** The count runs from none to all: it is the number of attempts when
      every upload succeeds and zero when none does. */
  lemma {:induction false} SuccessesExtremes(us: seq<Upload>, upload: (string, string) -> bool)
    ensures (forall k :: 0 <= k < |us| ==> upload(us[k].localPath, us[k].gcsPath)) ==> Successes(us, upload) == |us|
    ensures (forall k :: 0 <= k < |us| ==> !upload(us[k].localPath, us[k].gcsPath)) ==> Successes(us, upload) == 0
    decreases |us|
  {
    if |us| > 0 {
      var init := us[..|us| - 1];
      SuccessesExtremes(init, upload);
      assert forall k :: 0 <= k < |init| ==> init[k] == us[k];
    }
  }
}
