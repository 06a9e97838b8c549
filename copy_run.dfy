/**
 * The main loop (lines 116-159): each file's size is added to the byte
 * total, the file is counted as an image or a non-image, and its target
 * folder is reported (dry run) or cleaned of NUL characters and copied into.
 */
module CopyRun {
  import opened PyStrings
  import opened ExifMetadata
  import opened Classifier

  /** One file the walk yields: its base name, its size in bytes, and what
      opening it as an image gave. */
  datatype FileRecord = FileRecord(name: string, size: nat, content: Content)

  /** What happens to one file: in a dry run only the folder is reported;
      otherwise the folder is created and the file copied to `folder/name`. */
  datatype Placement = Reported(folder: string) | Copied(folder: string, copy: string)

  /** The figures the summary table shows. */
  datatype Summary = Summary(totalSizeBytes: nat, totalImages: nat, totalNonImages: nat)

  const Nul: char := '\0'

  /** Line 154: `target_path.replace('\x00', '')`. */
  function StripNul(path: string): (r: string)
    ensures Nul !in r && |r| <= |path|
  {
    RemoveChar(path, Nul)
  }

  /** The cleaned path has no NUL left, a path without NUL is left as it is,
      and cleaning twice is cleaning once. */
  lemma StripNulClean(path: string)
    ensures Nul !in StripNul(path)
    ensures Nul !in path ==> StripNul(path) == path
    ensures StripNul(StripNul(path)) == StripNul(path)
  {
    if Nul !in path {
      RemoveCharAbsent(path, Nul);
    }
    RemoveCharIdempotent(path, Nul);
  }

  /** An embedded NUL is simply deleted: nothing after it is lost and the
      other characters keep their order. */
  lemma StripNulDeletes(before: string, after: string)
    ensures StripNul(before + [Nul] + after) == StripNul(before) + StripNul(after)
  {
    RemoveCharConcat(before + [Nul], after, Nul);
    RemoveCharConcat(before, [Nul], Nul);
    assert RemoveChar([Nul], Nul) == [];
  }

  /** Lines 128-159 for one file. */
  function PlacementOf(destination: string, f: FileRecord, dryRun: bool): (r: Placement)
    ensures r.Reported? <==> dryRun
    ensures r.Copied? ==> Nul !in r.folder
  {
    var target := TargetPath(destination, Classify(f.content));
    if dryRun then Reported(target)
    else
      var folder := StripNul(target);
      Copied(folder, folder + "/" + f.name)
  }

  /** A file that is not a readable image, or whose metadata is incomplete,
      goes to the `UNKNOWN` folder; NULs are removed only when copying, and
      then the folder holds none. */
  lemma PlacementFolder(destination: string, f: FileRecord, dryRun: bool)
    ensures var p := PlacementOf(destination, f, dryRun);
      && (Classify(f.content).Unknown? ==>
            p.folder == (if dryRun then TargetPath(destination, Unknown) else StripNul(TargetPath(destination, Unknown))))
      && (f.content.OpenFailed? ==> Classify(f.content).Unknown?)
      && (p.Copied? ==> Nul !in p.folder && p.copy == p.folder + "/" + f.name)
      && (dryRun ==> p == Reported(TargetPath(destination, Classify(f.content))))
      && (!dryRun ==> p.folder == StripNul(TargetPath(destination, Classify(f.content))))
  {
    StripNulClean(TargetPath(destination, Classify(f.content)));
  }

  /** Where each of the files goes, in order. */
  function PlacementsOf(destination: string, files: seq<FileRecord>, dryRun: bool): (r: seq<Placement>)
    ensures |r| == |files|
  {
    if files == [] then []
    else PlacementsOf(destination, files[..|files| - 1], dryRun) + [PlacementOf(destination, files[|files| - 1], dryRun)]
  }

  /** The placements are the files' placements, position by position. */
  lemma {:induction false} PlacementsOfIndex(destination: string, files: seq<FileRecord>, dryRun: bool)
    ensures forall i :: 0 <= i < |files| ==> PlacementsOf(destination, files, dryRun)[i] == PlacementOf(destination, files[i], dryRun)
    decreases |files|
  {
    if files != [] {
      PlacementsOfIndex(destination, files[..|files| - 1], dryRun);
    }
  }

  /** The sum of the files' sizes. */
  function TotalSize(files: seq<FileRecord>): nat
  {
    if files == [] then 0 else TotalSize(files[..|files| - 1]) + files[|files| - 1].size
  }

  /** How many of the files are classified images. */
  function CountClassified(files: seq<FileRecord>): (r: nat)
    ensures r <= |files|
  {
    if files == [] then 0
    else CountClassified(files[..|files| - 1]) + if Classify(files[|files| - 1].content).Classified? then 1 else 0
  }

  /** Both totals add up over consecutive runs of files. */
  lemma {:induction false} TotalsAdditive(a: seq<FileRecord>, b: seq<FileRecord>)
    ensures TotalSize(a + b) == TotalSize(a) + TotalSize(b)
    ensures CountClassified(a + b) == CountClassified(a) + CountClassified(b)
    decreases |b|
  {
    if b == [] {
      assert a + b == a;
    } else {
      var n := |b| - 1;
      assert (a + b)[..|a + b| - 1] == a + b[..n];
      TotalsAdditive(a, b[..n]);
    }
  }

  /** The byte total does not depend on what the files turned out to be. */
  lemma {:induction false} TotalSizeIgnoresContent(files: seq<FileRecord>, others: seq<FileRecord>)
    requires |files| == |others|
    requires forall i :: 0 <= i < |files| ==> files[i].size == others[i].size
    ensures TotalSize(files) == TotalSize(others)
    decreases |files|
  {
    if files != [] {
      var n := |files| - 1;
      TotalSizeIgnoresContent(files[..n], others[..n]);
    }
  }

  /** Outside dry run, no folder of a run that places each file as
      `PlacementOf` says holds a NUL. */
  lemma CopiedFoldersClean(destination: string, files: seq<FileRecord>, dryRun: bool, placements: seq<Placement>)
    requires placements == PlacementsOf(destination, files, dryRun)
    ensures !dryRun ==> forall i :: 0 <= i < |files| ==> Nul !in placements[i].folder
  {
    PlacementsOfIndex(destination, files, dryRun);
    forall i | 0 <= i < |files| && !dryRun ensures Nul !in placements[i].folder {
      PlacementFolder(destination, files[i], dryRun);
    }
  }

  lemma PrefixSnoc(files: seq<FileRecord>, i: nat)
    requires i < |files|
    ensures files[..i + 1] == files[..i] + [files[i]]
  {
  }

  /** The run's counters, updated once per file (lines 116-145). */
  class RunStatistics {
    var totalSizeBytes: nat
    var totalImages: nat
    var totalNonImages: nat
    /** The files processed so far. */
    ghost var processed: seq<FileRecord>

    ghost predicate Valid()
      reads this
    {
      && totalSizeBytes == TotalSize(processed)
      && totalImages == CountClassified(processed)
      && totalNonImages == |processed| - CountClassified(processed)
    }

    /** Lines 116-118. */
    constructor ()
      ensures Valid() && processed == []
      ensures totalSizeBytes == 0 && totalImages == 0 && totalNonImages == 0
    {
      totalSizeBytes, totalImages, totalNonImages := 0, 0, 0;
      processed := [];
    }

    /** The body of the loop at lines 121-159: the size is always added, and
        exactly one of the two counters goes up. */
    method ProcessFile(destination: string, f: FileRecord, dryRun: bool) returns (p: Placement)
      requires Valid()
      modifies this
      ensures Valid() && processed == old(processed) + [f]
      ensures totalSizeBytes == old(totalSizeBytes) + f.size
      ensures Classify(f.content).Classified? ==>
        totalImages == old(totalImages) + 1 && totalNonImages == old(totalNonImages)
      ensures Classify(f.content).Unknown? ==>
        totalImages == old(totalImages) && totalNonImages == old(totalNonImages) + 1
      ensures p == PlacementOf(destination, f, dryRun)
    {
      totalSizeBytes := totalSizeBytes + f.size;
      var target := TargetPath(destination, Unknown);
      match f.content {
        case OpenFailed =>
          totalNonImages := totalNonImages + 1;
        case Opened(tags) =>
          var r := GetMetadata(tags);
          match r {
            case Raised =>
              totalNonImages := totalNonImages + 1;
            case Extracted(md) =>
              if md.year.None? || md.month.None? || md.day.None? || md.monthName.None? || md.model.None? {
                totalNonImages := totalNonImages + 1;
              } else {
                totalImages := totalImages + 1;
                target := TargetPath(destination, Classified(md.year.value, md.month.value, md.monthName.value, md.model.value));
              }
          }
      }
      if dryRun {
        p := Reported(target);
      } else {
        target := StripNul(target);
        p := Copied(target, target + "/" + f.name);
      }
      processed := processed + [f];
      assert processed[..|processed| - 1] == old(processed);
    }
  }

  /** The whole run over the files in the order the walk yields them: the
      byte total is the sum of all sizes, every file is counted exactly once,
      and each file goes where `PlacementOf` says. */
  method Run(destination: string, files: seq<FileRecord>, dryRun: bool) returns (summary: Summary, placements: seq<Placement>)
    ensures summary.totalSizeBytes == TotalSize(files)
    ensures summary.totalImages == CountClassified(files)
    ensures summary.totalImages + summary.totalNonImages == |files|
    ensures placements == PlacementsOf(destination, files, dryRun)
    ensures forall i :: 0 <= i < |files| ==> placements[i] == PlacementOf(destination, files[i], dryRun)
    ensures !dryRun ==> forall i :: 0 <= i < |files| ==> Nul !in placements[i].folder
  {
    var stats := new RunStatistics();
    placements := [];
    var i := 0;
    while i < |files|
      invariant 0 <= i <= |files|
      invariant stats.Valid() && stats.processed == files[..i]
      invariant |placements| == i
      invariant placements == PlacementsOf(destination, files[..i], dryRun)
    {
      PrefixSnoc(files, i);
      var p := stats.ProcessFile(destination, files[i], dryRun);
      placements := placements + [p];
      i := i + 1;
    }
    assert files[..i] == files;
    PlacementsOfIndex(destination, files, dryRun);
    summary := Summary(stats.totalSizeBytes, stats.totalImages, stats.totalNonImages);
    CopiedFoldersClean(destination, files, dryRun, placements);
  }
}
