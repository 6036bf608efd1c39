/*
 * The video compressor of video_compressor.py: choosing the videos of a
 * folder tree that still need a compressed copy, compressing each with ffmpeg
 * and copying its metadata with exiftool, and counting the results.
 *
 * ffmpeg and exiftool are not modelled: whether each binary was found is an
 * input, and so is how each of their runs ends. The compressed files ffmpeg
 * writes are not added to the tree.
 */
module VideoCompressor {
  import opened Wrappers
  import opened Text
  import opened Host
  import opened MetadataReader

  /** The extensions the compressor accepts (a narrower set than the organizer's videos). */
  const CompressibleExtensions: set<string> := {".mp4", ".mov", ".avi", ".mkv", ".m4v"}

  /** What a compressed copy's name ends with. */
  const CompressedSuffix: string := "-small.mp4"

  /** The name of the compressed copy: the stem followed by "-small.mp4". */
  function OutputName(filename: string): string
  {
    SplitExt(filename).0 + CompressedSuffix
  }

  /**
   * A file name the compressor considers: a compressible extension in any
   * case, and not a compressed copy itself (that check is case-sensitive).
   */
  predicate IsCompressible(filename: string)
  {
    Extension(filename) in CompressibleExtensions && !EndsWith(filename, CompressedSuffix)
  }

  /** A compressed copy is never compressed again, whatever its extension says. */
  lemma CompressedCopyNotCompressible(filename: string)
    ensures EndsWith(OutputName(filename), CompressedSuffix)
    ensures !IsCompressible(OutputName(filename))
  {
    var out := OutputName(filename);
    assert out[|out| - |CompressedSuffix|..] == CompressedSuffix;
  }

  /** One video to compress and where its compressed copy goes. */
  datatype Job = Job(input: Path, output: Path)

  /** The job for `name` in `folder`, if it is still to be done. */
  function JobFor(root: Node, folder: Path, name: string): Option<Job>
  {
    if IsCompressible(name) && !Exists(root, folder + [OutputName(name)]) then
      Some(Job(folder + [name], folder + [OutputName(name)]))
    else None
  }

  /** The jobs `choose` gives for `names`, in order; names without a job are passed over. */
  function Picked(choose: string -> Option<Job>, names: seq<string>): (jobs: seq<Job>)
    ensures |jobs| <= |names|
  {
    if names == [] then []
    else
      var j := choose(names[|names| - 1]);
      Picked(choose, names[..|names| - 1]) + (if j.Some? then [j.value] else [])
  }

  lemma PickedSnoc(choose: string -> Option<Job>, names: seq<string>, f: string)
    ensures Picked(choose, names + [f]) == Picked(choose, names) + (if choose(f).Some? then [choose(f).value] else [])
  {
    assert (names + [f])[..|names|] == names;
  }

  /** The picked jobs are exactly the jobs of the names. */
  lemma {:induction false} PickedMembers(choose: string -> Option<Job>, names: seq<string>, j: Job)
    ensures j in Picked(choose, names) <==> exists f :: f in names && choose(f) == Some(j)
  {
    if names != [] {
      var init := names[..|names| - 1];
      var last := names[|names| - 1];
      PickedMembers(choose, init, j);
      if j in Picked(choose, names) && j !in Picked(choose, init) {
        assert choose(last) == Some(j);
      }
      if exists f :: f in names && choose(f) == Some(j) {
        var f :| f in names && choose(f) == Some(j);
        if f != last {
          var i :| 0 <= i < |names| && names[i] == f;
          assert init[i] == f;
        }
      }
    }
  }

  /** The scan's decision for each name of `folder`. */
  function Chooser(root: Node, folder: Path): string -> Option<Job>
  {
    name => JobFor(root, folder, name)
  }

  /** The jobs for the names of one folder, in listing order. */
  function EntryJobs(root: Node, folder: Path, names: seq<string>): (jobs: seq<Job>)
  {
    Picked(Chooser(root, folder), names)
  }

  /** The jobs of a recursive walk, in walk order. */
  function WalkJobs(root: Node, walk: seq<WalkEntry>): (jobs: seq<Job>)
  {
    if walk == [] then []
    else
      var last := walk[|walk| - 1];
      WalkJobs(root, walk[..|walk| - 1]) + EntryJobs(root, last.folder, last.files)
  }

  /** A folder's jobs are exactly the jobs of its names. */
  lemma EntryJobsMembers(root: Node, folder: Path, names: seq<string>, j: Job)
    ensures j in EntryJobs(root, folder, names) <==> exists f :: f in names && JobFor(root, folder, f) == Some(j)
  {
    PickedMembers(Chooser(root, folder), names, j);
  }

  /** A job of some walked folder is a job of the walk. */
  lemma {:induction false} WalkJobsHas(root: Node, walk: seq<WalkEntry>, k: nat, j: Job)
    requires k < |walk| && j in EntryJobs(root, walk[k].folder, walk[k].files)
    ensures j in WalkJobs(root, walk)
  {
    var init := walk[..|walk| - 1];
    if k < |init| {
      assert init[k] == walk[k];
      WalkJobsHas(root, init, k, j);
    }
  }

  /** A job of the walk is a job of some walked folder. */
  lemma {:induction false} WalkJobsFrom(root: Node, walk: seq<WalkEntry>, j: Job)
    requires j in WalkJobs(root, walk)
    ensures exists k :: 0 <= k < |walk| && j in EntryJobs(root, walk[k].folder, walk[k].files)
  {
    var init := walk[..|walk| - 1];
    var last := walk[|walk| - 1];
    if j in WalkJobs(root, init) {
      WalkJobsFrom(root, init, j);
      var k :| 0 <= k < |init| && j in EntryJobs(root, init[k].folder, init[k].files);
      assert init[k] == walk[k];
    } else {
      assert j in EntryJobs(root, last.folder, last.files);
    }
  }

  /** A walk's jobs are exactly the jobs of its folders. */
  lemma WalkJobsMembers(root: Node, walk: seq<WalkEntry>, j: Job)
    ensures j in WalkJobs(root, walk) <==>
              exists k :: 0 <= k < |walk| && j in EntryJobs(root, walk[k].folder, walk[k].files)
  {
    if j in WalkJobs(root, walk) {
      WalkJobsFrom(root, walk, j);
    }
    if exists k :: 0 <= k < |walk| && j in EntryJobs(root, walk[k].folder, walk[k].files) {
      var k :| 0 <= k < |walk| && j in EntryJobs(root, walk[k].folder, walk[k].files);
      WalkJobsHas(root, walk, k, j);
    }
  }

  /**
   * Every job is for a compressible video whose compressed copy does not yet
   * exist, and its output sits next to it under the copy's name.
   */
  lemma WalkJobsAreNew(root: Node, walk: seq<WalkEntry>, j: Job)
    requires j in WalkJobs(root, walk)
    ensures |j.input| == |j.output| >= 1 && Parent(j.input) == Parent(j.output)
    ensures IsCompressible(Basename(j.input)) && !Exists(root, j.output)
    ensures j.output == Parent(j.input) + [OutputName(Basename(j.input))]
  {
    WalkJobsMembers(root, walk, j);
    var k :| 0 <= k < |walk| && j in EntryJobs(root, walk[k].folder, walk[k].files);
    var folder := walk[k].folder;
    EntryJobsMembers(root, folder, walk[k].files, j);
    var f :| f in walk[k].files && JobFor(root, folder, f) == Some(j);
    assert (folder + [f])[..|folder|] == folder;
    assert (folder + [OutputName(f)])[..|folder|] == folder;
  }

  /**
   * Once a video's compressed copy exists, a later scan has no job for the
   * video and none for the copy.
   */
  lemma RescanSkipsCompressed(root: Node, folder: Path, name: string)
    requires Exists(root, folder + [OutputName(name)])
    ensures JobFor(root, folder, name).None?
    ensures JobFor(root, folder, OutputName(name)).None?
  {
    CompressedCopyNotCompressible(name);
  }

  /** The jobs of one folder, appended name by name. */
  method CollectEntryJobs(root: Node, folder: Path, names: seq<string>) returns (jobs: seq<Job>)
    ensures jobs == EntryJobs(root, folder, names)
  {
    jobs := [];
    var n := 0;
    while n < |names|
      invariant 0 <= n <= |names|
      invariant jobs == Picked(Chooser(root, folder), names[..n])
    {
      var f := names[n];
      assert names[..n + 1] == names[..n] + [f];
      PickedSnoc(Chooser(root, folder), names[..n], f);
      ghost var j := Chooser(root, folder)(f);
      assert j == JobFor(root, folder, f);
      if IsCompressible(f) {
        var output := folder + [OutputName(f)];
        if !Exists(root, output) {
          jobs := jobs + [Job(folder + [f], output)];
        }
      }
      n := n + 1;
    }
    assert names[..n] == names;
  }

  /** Collects the jobs as `scan_and_compress` does, appending in nested loops. */
  method CollectJobs(root: Node, walk: seq<WalkEntry>) returns (jobs: seq<Job>)
    ensures jobs == WalkJobs(root, walk)
  {
    jobs := [];
    var i := 0;
    while i < |walk|
      invariant 0 <= i <= |walk|
      invariant jobs == WalkJobs(root, walk[..i])
    {
      assert walk[..i + 1][..i] == walk[..i];
      var found := CollectEntryJobs(root, walk[i].folder, walk[i].files);
      jobs := jobs + found;
      i := i + 1;
    }
    assert walk[..i] == walk;
  }

  /** The two binaries, each found at some path or missing. */
  datatype Binaries = Binaries(ffmpeg: Option<string>, exiftool: Option<string>)

  /** `check_dependencies`: both binaries must be there; otherwise the missing ones are named. */
  function CheckDependencies(bins: Binaries): (r: (bool, string))
    ensures r.0 <==> bins.ffmpeg.Some? && bins.exiftool.Some?
    ensures r.0 <==> r.1 == ""
  {
    var missing := (if bins.ffmpeg.None? then ["ffmpeg"] else []) + (if bins.exiftool.None? then ["exiftool"] else []);
    if missing == [] then (true, "")
    else (false, "Missing dependencies: " + JoinComma(missing))
  }

  /** Python's `', '.join(names)`. */
  function JoinComma(names: seq<string>): string
  {
    if names == [] then "" else if |names| == 1 then names[0] else names[0] + ", " + JoinComma(names[1..])
  }

  /** The message names exactly the missing binaries, ffmpeg first. */
  lemma CheckDependenciesMessage(bins: Binaries)
    ensures bins.ffmpeg.None? && bins.exiftool.None? ==> CheckDependencies(bins).1 == "Missing dependencies: ffmpeg, exiftool"
    ensures bins.ffmpeg.None? && bins.exiftool.Some? ==> CheckDependencies(bins).1 == "Missing dependencies: ffmpeg"
    ensures bins.ffmpeg.Some? && bins.exiftool.None? ==> CheckDependencies(bins).1 == "Missing dependencies: exiftool"
  {
    assert JoinComma(["ffmpeg", "exiftool"]) == "ffmpeg" + ", " + JoinComma(["exiftool"]);
  }

  /** How one tool run ended: with an exit status, or by raising an exception. */
  datatype ProcessRun = RunExited(returnCode: int) | RunRaised

  /** How the two runs for one video would end. */
  datatype CompressRuns = CompressRuns(ffmpeg: ProcessRun, exiftool: ProcessRun)

  /** What `compress_video_file` did: its verdict and the commands it started, in order. */
  datatype CompressResult = CompressResult(success: bool, commands: seq<seq<string>>)

  /** The ffmpeg command: H.264 video at CRF 22, AAC audio at 128k, metadata mapped from the input. */
  function FfmpegCommand(ffmpeg: string, input: Path, output: Path): seq<string>
  {
    [ffmpeg, "-y", "-i", PathText(input), "-c:v", "libx264", "-crf", "22", "-preset", "medium",
     "-c:a", "aac", "-b:a", "128k", "-map_metadata", "0", PathText(output)]
  }

  /** The exiftool command copying every tag of the input into the output. */
  function ExiftoolCommand(exiftool: string, input: Path, output: Path): seq<string>
  {
    [exiftool, "-tagsFromFile", PathText(input), "-all:all", PathText(output), "-overwrite_original"]
  }

  /**
   * `compress_video_file`: without both binaries nothing runs; otherwise
   * ffmpeg runs, and exiftool runs only after ffmpeg exited with status 0.
   * An exception in either run fails the video; a failed metadata copy does not.
   */
  function CompressVideoFile(bins: Binaries, input: Path, output: Path, runs: CompressRuns): (r: CompressResult)
  {
    if bins.ffmpeg.None? || bins.exiftool.None? then CompressResult(false, [])
    else
      var first := [FfmpegCommand(bins.ffmpeg.value, input, output)];
      match runs.ffmpeg
      case RunRaised => CompressResult(false, first)
      case RunExited(code) =>
        if code != 0 then CompressResult(false, first)
        else
          var both := first + [ExiftoolCommand(bins.exiftool.value, input, output)];
          match runs.exiftool
          case RunRaised => CompressResult(false, both)
          case RunExited(_) => CompressResult(true, both)
  }

  /**
   * The outcome policy: a video succeeds exactly when both binaries are there,
   * ffmpeg exits with status 0 and the exiftool run does not raise, whatever
   * status exiftool exits with; exiftool is started only after ffmpeg succeeded.
   */
  lemma CompressOutcome(bins: Binaries, input: Path, output: Path, runs: CompressRuns)
    ensures var r := CompressVideoFile(bins, input, output, runs);
            && (r.success <==> bins.ffmpeg.Some? && bins.exiftool.Some? && runs.ffmpeg == RunExited(0) && runs.exiftool.RunExited?)
            && (r.commands == [] <==> bins.ffmpeg.None? || bins.exiftool.None?)
            && (r.commands != [] ==> r.commands[0] == FfmpegCommand(bins.ffmpeg.value, input, output))
            && (|r.commands| == 2 <==> bins.ffmpeg.Some? && bins.exiftool.Some? && runs.ffmpeg == RunExited(0))
            && (|r.commands| == 2 ==> r.commands[1] == ExiftoolCommand(bins.exiftool.value, input, output))
            && |r.commands| <= 2
  {
  }

  /** The number of jobs that compress successfully. */
  function Successes(bins: Binaries, jobs: seq<Job>, runs: Path -> CompressRuns): (n: nat)
    ensures n <= |jobs|
  {
    if jobs == [] then 0
    else
      var j := jobs[|jobs| - 1];
      Successes(bins, jobs[..|jobs| - 1], runs) + (if CompressVideoFile(bins, j.input, j.output, runs(j.input)).success then 1 else 0)
  }

  lemma SuccessesSnoc(bins: Binaries, jobs: seq<Job>, j: Job, runs: Path -> CompressRuns)
    ensures Successes(bins, jobs + [j], runs)
            == Successes(bins, jobs, runs) + (if CompressVideoFile(bins, j.input, j.output, runs(j.input)).success then 1 else 0)
  {
    assert (jobs + [j])[..|jobs|] == jobs;
  }

  /** With both binaries missing no job succeeds; with ffmpeg always failing neither. */
  lemma {:induction false} NoSuccessWithoutFfmpeg(bins: Binaries, jobs: seq<Job>, runs: Path -> CompressRuns)
    requires bins.ffmpeg.None? || forall j :: j in jobs ==> runs(j.input).ffmpeg != RunExited(0)
    ensures Successes(bins, jobs, runs) == 0
  {
    if jobs != [] {
      var j := jobs[|jobs| - 1];
      assert forall x :: x in jobs[..|jobs| - 1] ==> x in jobs;
      NoSuccessWithoutFfmpeg(bins, jobs[..|jobs| - 1], runs);
      CompressOutcome(bins, j.input, j.output, runs(j.input));
    }
  }

  /** What `scan_and_compress` ends with. */
  datatype ScanReport = MissingDependencies(message: string) | NoNewVideos | Done(succeeded: nat, failed: nat)

  /** Counts the compressions of `jobs` one after another, as the compression loop does. */
  method CompressAll(bins: Binaries, jobs: seq<Job>, runs: Path -> CompressRuns) returns (succeeded: nat, failed: nat)
    ensures succeeded == Successes(bins, jobs, runs)
    ensures succeeded + failed == |jobs|
  {
    succeeded, failed := 0, 0;
    var i := 0;
    while i < |jobs|
      invariant 0 <= i <= |jobs|
      invariant succeeded == Successes(bins, jobs[..i], runs)
      invariant succeeded + failed == i
    {
      var j := jobs[i];
      assert jobs[..i + 1] == jobs[..i] + [j];
      SuccessesSnoc(bins, jobs[..i], j, runs);
      var r := CompressVideoFile(bins, j.input, j.output, runs(j.input));
      if r.success {
        succeeded := succeeded + 1;
      } else {
        failed := failed + 1;
      }
      i := i + 1;
    }
    assert jobs[..i] == jobs;
  }

  /**
   * `scan_and_compress`: check the binaries before looking at any file, then
   * collect the jobs of the walk and compress them in order. Every job is
   * counted once, as a success or as a failure.
   */
  method ScanAndCompress(root: Node, bins: Binaries, walk: seq<WalkEntry>, runs: Path -> CompressRuns)
    returns (report: ScanReport, ghost jobs: seq<Job>)
    ensures !CheckDependencies(bins).0 <==> report.MissingDependencies?
    ensures report.MissingDependencies? ==> jobs == [] && report.message == CheckDependencies(bins).1
    ensures !report.MissingDependencies? ==> jobs == WalkJobs(root, walk)
    ensures report.NoNewVideos? <==> CheckDependencies(bins).0 && WalkJobs(root, walk) == []
    ensures report.Done? ==> report.succeeded == Successes(bins, jobs, runs)
    ensures report.Done? ==> report.succeeded + report.failed == |jobs| && jobs != []
  {
    var deps := CheckDependencies(bins);
    if !deps.0 {
      return MissingDependencies(deps.1), [];
    }
    var found := CollectJobs(root, walk);
    jobs := found;
    if found == [] {
      return NoNewVideos, jobs;
    }
    var succeeded, failed := CompressAll(bins, found, runs);
    report := Done(succeeded, failed);
  }
}
