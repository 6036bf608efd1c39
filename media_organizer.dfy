/*
 * The sorting run of media_organizer.py: how a file's date is determined and
 * how `process_files` places every media file of the source, counts the
 * outcomes in `LoggerStats` and, in smart mode, runs the consolidation pass.
 */
module MediaOrganizer {
  import opened Wrappers
  import opened Text
  import opened Calendar
  import opened Host
  import opened DateExtractor
  import opened MetadataReader
  import opened FileCopier
  import opened LoggerConfig

  /**
   * `determine_file_date`: the date in the file's name if it has one,
   * otherwise the date its metadata holds, otherwise none.
   */
  function DetermineFileDate(path: Path, tools: Tools, fileExists: bool, probe: Probe): (r: Option<DateTime>)
    ensures r.Some? ==> IsDateTime(r.value)
    ensures r.Some? && r != ExtractDateFromFilename(Basename(path)) ==> IsMediaFile(Basename(path))
  {
    var named := ExtractDateFromFilename(Basename(path));
    if named.Some? then named else ExtractDateFromMetadata(tools, fileExists, path, probe)
  }

  /** A date in the file name wins: the metadata is not consulted at all. */
  lemma NameDateWins(path: Path, tools1: Tools, exists1: bool, probe1: Probe, tools2: Tools, exists2: bool, probe2: Probe)
    requires ExtractDateFromFilename(Basename(path)).Some?
    ensures DetermineFileDate(path, tools1, exists1, probe1) == ExtractDateFromFilename(Basename(path))
    ensures DetermineFileDate(path, tools1, exists1, probe1) == DetermineFileDate(path, tools2, exists2, probe2)
  {
  }

  /** Without a date in the name, the metadata decides; a non-media name then has no date. */
  lemma MetadataFallback(path: Path, tools: Tools, fileExists: bool, probe: Probe)
    requires ExtractDateFromFilename(Basename(path)).None?
    ensures DetermineFileDate(path, tools, fileExists, probe) == ExtractDateFromMetadata(tools, fileExists, path, probe)
    ensures !IsMediaFile(Basename(path)) ==> DetermineFileDate(path, tools, fileExists, probe).None?
  {
  }

  /** The grouping of the first pass: smart mode first sorts by day. */
  function InitialGrouping(grouping: Grouping): (g: Grouping)
    ensures g != Smart
    ensures grouping != Smart ==> g == grouping
  {
    if grouping == Smart then ByDay else grouping
  }

  /** Sorting by day first places every file exactly where smart mode itself would. */
  lemma SmartFirstPassIsDayPlacement(dest: Path, year: string, month: string, day: string)
    ensures InitialGrouping(Smart) == ByDay
    ensures TargetFolder(dest, year, month, day, InitialGrouping(Smart)) == TargetFolder(dest, year, month, day, Smart)
  {
  }

  /** `skip_organized`: on exactly when source and destination are the same folder. */
  function SkipOrganized(source: Path, dest: Path): bool
  {
    source == dest
  }

  /** The photo and video extensions the run looks for. */
  const AllExtensions: set<string> := PhotoExtensions + VideoExtensions

  /** What the metadata readers would report: the tools available and each file's probe results. */
  datatype Environment = Environment(tools: Tools, probe: Path -> Probe)

  /** The choices made in the menus before a run. */
  datatype Options = Options(move: bool, processNoDate: bool, grouping: Grouping)

  /** What the first pass did with one file. */
  datatype FileOutcome = Copied | Failed(message: string) | FiledNoDate | SkippedNoDate

  /** The counter of `LoggerStats` each outcome adds one to. */
  datatype Counter = SuccessfulCounter | FailedCounter | NoDateCounter | SkippedCounter

  function CounterOf(o: FileOutcome): Counter
  {
    match o
    case Copied => SuccessfulCounter
    case Failed(_) => FailedCounter
    case FiledNoDate => NoDateCounter
    case SkippedNoDate => SkippedCounter
  }

  /** The date the run finds for `file` in tree `root`. */
  function FileDate(root: Node, file: Path, env: Environment): Option<DateTime>
  {
    DetermineFileDate(file, env.tools, Exists(root, file), env.probe(file))
  }

  /**
   * One step of the first pass once the date of `file` (or its lack of one)
   * is known: the tree afterwards and what happened to the file.
   */
  function PlaceByDate(root: Node, file: Path, date: Option<DateTime>, dest: Path, opts: Options): (r: (Node, FileOutcome))
    requires date.Some? ==> IsDateTime(date.value)
  {
    if date.Some? then
      var labels := FormatDateForFolder(date.value);
      var placed := Place(root, file, TargetFolder(dest, labels.0, labels.1, labels.2, InitialGrouping(opts.grouping)), opts.move);
      (placed.0, if placed.1.success then Copied else Failed(placed.1.error.value))
    else if opts.processNoDate then
      var placed := Place(root, file, dest + [UnknownDateFolder], opts.move);
      (placed.0, if placed.1.success then FiledNoDate else Failed(placed.1.error.value))
    else
      (root, SkippedNoDate)
  }

  /**
   * A dated file either lands, under a name that was free, in the folder its
   * date labels choose, or is reported failed; an undated one goes to the
   * unknown-date folder when asked to, and is otherwise skipped without
   * touching the tree.
   */
  lemma PlaceByDateOutcome(root: Node, file: Path, date: Option<DateTime>, dest: Path, opts: Options)
    requires date.Some? ==> IsDateTime(date.value)
    ensures var r := PlaceByDate(root, file, date, dest, opts);
            && (r.1.Copied? ==>
                  && date.Some?
                  && var labels := FormatDateForFolder(date.value);
                     Lands(root, r.0, file, TargetFolder(dest, labels.0, labels.1, labels.2, InitialGrouping(opts.grouping))))
            && (r.1.FiledNoDate? ==> date.None? && opts.processNoDate && Lands(root, r.0, file, dest + [UnknownDateFolder]))
            && (r.1.SkippedNoDate? <==> date.None? && !opts.processNoDate)
            && (r.1.SkippedNoDate? ==> r.0 == root)
            && (r.1.Failed? ==> r.1.message != "")
  {
    if date.Some? {
      var labels := FormatDateForFolder(date.value);
      PlaceFailureMessage(root, file, TargetFolder(dest, labels.0, labels.1, labels.2, InitialGrouping(opts.grouping)), opts.move);
    } else if opts.processNoDate {
      PlaceFailureMessage(root, file, dest + [UnknownDateFolder], opts.move);
    }
  }

  /** The entry at `file` now also sits directly inside `target`, under a name that was free. */
  ghost predicate Lands(before: Node, after: Node, file: Path, target: Path)
  {
    exists name :: !Exists(before, target + [name]) && Exists(before, file)
                   && Get(after, target + [name]) == Get(before, file)
  }

  /** A failed placement always carries a non-empty message, so it is always recorded. */
  lemma PlaceFailureMessage(root: Node, file: Path, target: Path, move: bool)
    ensures var r := Place(root, file, target, move);
            && (r.1.success ==> Lands(root, r.0, file, target))
            && (!r.1.success ==> r.1.error.Some? && r.1.error.value != "")
  {
    var r := Place(root, file, target, move);
    if r.1.success {
      var dst := r.1.newPath.value;
      assert dst == target + [dst[|target|]];
    }
  }

  /** Applying `step` to `files` in order, threading the tree: the final tree and every outcome. */
  function Steps(step: (Node, Path) -> (Node, FileOutcome), root: Node, files: seq<Path>): (r: (Node, seq<FileOutcome>))
    ensures |r.1| == |files|
  {
    if files == [] then (root, [])
    else
      var prev := Steps(step, root, files[..|files| - 1]);
      var next := step(prev.0, files[|files| - 1]);
      (next.0, prev.1 + [next.1])
  }

  /** One step of the first pass: the file's date, then its placement, with the run's fixed arguments bound. */
  function Stepper(dest: Path, env: Environment, opts: Options): (Node, Path) -> (Node, FileOutcome)
  {
    (root: Node, file: Path) => PlaceByDate(root, file, FileDate(root, file, env), dest, opts)
  }

  /** What one step of the first pass does to a tree and a file. */
  lemma StepperApply(dest: Path, env: Environment, opts: Options, root: Node, file: Path)
    ensures Stepper(dest, env, opts)(root, file) == PlaceByDate(root, file, FileDate(root, file, env), dest, opts)
  {
  }

  /** The first pass over `files`, in order: the final tree and every file's outcome. */
  function ProcessAll(root: Node, files: seq<Path>, dest: Path, env: Environment, opts: Options): (r: (Node, seq<FileOutcome>))
    ensures |r.1| == |files|
  {
    Steps(Stepper(dest, env, opts), root, files)
  }

  /** How many outcomes add to `counter`. */
  function Count(outcomes: seq<FileOutcome>, counter: Counter): nat
  {
    if outcomes == [] then 0
    else Count(outcomes[..|outcomes| - 1], counter) + (if CounterOf(outcomes[|outcomes| - 1]) == counter then 1 else 0)
  }

  /** Every outcome adds to exactly one counter, so the four counts add up to the number of files. */
  lemma {:induction false} CountsAddUp(outcomes: seq<FileOutcome>)
    ensures Count(outcomes, SuccessfulCounter) + Count(outcomes, FailedCounter)
            + Count(outcomes, NoDateCounter) + Count(outcomes, SkippedCounter) == |outcomes|
  {
    if outcomes != [] {
      CountsAddUp(outcomes[..|outcomes| - 1]);
    }
  }

  /** The messages the failures record, in order. */
  function FailureMessages(outcomes: seq<FileOutcome>): seq<string>
  {
    if outcomes == [] then []
    else
      var last := outcomes[|outcomes| - 1];
      FailureMessages(outcomes[..|outcomes| - 1]) + (if last.Failed? && last.message != "" then [last.message] else [])
  }

  /** One message per failure: the error list stays no longer than the failure count. */
  lemma {:induction false} OneMessagePerFailure(outcomes: seq<FileOutcome>)
    ensures |FailureMessages(outcomes)| <= Count(outcomes, FailedCounter)
  {
    if outcomes != [] {
      OneMessagePerFailure(outcomes[..|outcomes| - 1]);
    }
  }

  lemma StepsSnoc(step: (Node, Path) -> (Node, FileOutcome), root: Node, files: seq<Path>, f: Path)
    ensures var prev := Steps(step, root, files);
            var next := step(prev.0, f);
            Steps(step, root, files + [f]) == (next.0, prev.1 + [next.1])
  {
    assert (files + [f])[..|files|] == files;
  }

  lemma OutcomesSnoc(outcomes: seq<FileOutcome>, o: FileOutcome)
    ensures forall c :: Count(outcomes + [o], c) == Count(outcomes, c) + (if CounterOf(o) == c then 1 else 0)
    ensures FailureMessages(outcomes + [o]) == FailureMessages(outcomes) + (if o.Failed? && o.message != "" then [o.message] else [])
  {
    assert (outcomes + [o])[..|outcomes|] == outcomes;
  }

  /** The consolidation pass: not run, run with a count of merges, or stopped by an unlistable destination. */
  datatype SecondPass = NotRun | Merged(count: nat) | ListingFailed

  /** What `process_files` reports. */
  datatype RunResult = NoMedia | Finished(secondPass: SecondPass)

  /** The counters `after` are `before` moved on by the outcomes; the total is left alone. */
  predicate Counted(after: (nat, nat, nat, nat, nat), before: (nat, nat, nat, nat, nat), outcomes: seq<FileOutcome>)
  {
    after.1 == before.1 + Count(outcomes, SuccessfulCounter)
    && after.2 == before.2 + Count(outcomes, NoDateCounter)
    && after.3 == before.3 + Count(outcomes, SkippedCounter)
    && after.4 == before.4 + Count(outcomes, FailedCounter)
  }

  /** The counters of `stats` moved on by the outcomes. */
  predicate CountedFrom(stats: LoggerStats, before: (nat, nat, nat, nat, nat), outcomes: seq<FileOutcome>)
    reads stats
  {
    Counted(stats.Counters(), before, outcomes)
  }

  /**
   * One file of the first pass, with its counter update: the date is the one
   * the run finds for the file, and the tree and the outcome are those of
   * placing the file by that date.
   */
  method ProcessOne(fs: FileSystem, stats: LoggerStats, file: Path, dest: Path, env: Environment, opts: Options)
    returns (ghost date: Option<DateTime>, ghost outcome: FileOutcome)
    modifies fs, stats
    ensures date == FileDate(old(fs.root), file, env)
    ensures (fs.root, outcome) == PlaceByDate(old(fs.root), file, date, dest, opts)
    ensures stats.totalFiles == old(stats.totalFiles)
    ensures stats.successful == old(stats.successful) + (if CounterOf(outcome) == SuccessfulCounter then 1 else 0)
    ensures stats.noDate == old(stats.noDate) + (if CounterOf(outcome) == NoDateCounter then 1 else 0)
    ensures stats.skipped == old(stats.skipped) + (if CounterOf(outcome) == SkippedCounter then 1 else 0)
    ensures stats.failed == old(stats.failed) + (if CounterOf(outcome) == FailedCounter then 1 else 0)
    ensures stats.errors == old(stats.errors) + (if outcome.Failed? && outcome.message != "" then [outcome.message] else [])
  {
    var found := DetermineFileDate(file, env.tools, Exists(fs.root, file), env.probe(file));
    date := found;
    outcome := PlaceDated(fs, stats, file, found, dest, opts);
  }

  /** Placing one file by its date and bumping the counter of what happened. */
  method PlaceDated(fs: FileSystem, stats: LoggerStats, file: Path, date: Option<DateTime>, dest: Path, opts: Options)
    returns (ghost outcome: FileOutcome)
    requires date.Some? ==> IsDateTime(date.value)
    modifies fs, stats
    ensures (fs.root, outcome) == PlaceByDate(old(fs.root), file, date, dest, opts)
    ensures stats.totalFiles == old(stats.totalFiles)
    ensures stats.successful == old(stats.successful) + (if CounterOf(outcome) == SuccessfulCounter then 1 else 0)
    ensures stats.noDate == old(stats.noDate) + (if CounterOf(outcome) == NoDateCounter then 1 else 0)
    ensures stats.skipped == old(stats.skipped) + (if CounterOf(outcome) == SkippedCounter then 1 else 0)
    ensures stats.failed == old(stats.failed) + (if CounterOf(outcome) == FailedCounter then 1 else 0)
    ensures stats.errors == old(stats.errors) + (if outcome.Failed? && outcome.message != "" then [outcome.message] else [])
  {
    if date.Some? {
      var labels := FormatDateForFolder(date.value);
      var r := CopyFileToDestination(fs, file, dest, labels.0, labels.1, labels.2, opts.move, InitialGrouping(opts.grouping));
      if r.success {
        stats.IncrementSuccess();
        outcome := Copied;
      } else {
        stats.IncrementFailed(r.error.value);
        outcome := Failed(r.error.value);
      }
    } else if opts.processNoDate {
      var r := CopyFileNoDate(fs, file, dest, opts.move);
      if r.success {
        stats.IncrementNoDate();
        outcome := FiledNoDate;
      } else {
        stats.IncrementFailed(r.error.value);
        outcome := Failed(r.error.value);
      }
    } else {
      stats.IncrementSkipped();
      outcome := SkippedNoDate;
    }
  }

  /**
   * The values of the first-pass state after the first `i` files, started
   * from `root0` and the counters `counters0`.
   */
  ghost predicate FirstPassValues(root: Node, counters: (nat, nat, nat, nat, nat), errors: seq<string>,
                                  step: (Node, Path) -> (Node, FileOutcome), root0: Node, files: seq<Path>, i: nat,
                                  done: (Node, seq<FileOutcome>), counters0: (nat, nat, nat, nat, nat), errors0: seq<string>)
  {
    && i <= |files|
    && done == Steps(step, root0, files[..i])
    && root == done.0
    && counters.0 == counters0.0
    && Counted(counters, counters0, done.1)
    && errors == errors0 + FailureMessages(done.1)
  }

  /** One more file keeps the first-pass state: the tree, the counters and the error list all move on together. */
  lemma FirstPassAdvance(step: (Node, Path) -> (Node, FileOutcome), root0: Node, files: seq<Path>, i: nat,
                         done: (Node, seq<FileOutcome>), counters0: (nat, nat, nat, nat, nat), errors0: seq<string>,
                         counters: (nat, nat, nat, nat, nat), errors: seq<string>, next: Node, o: FileOutcome,
                         after: (nat, nat, nat, nat, nat))
    requires i < |files| && FirstPassValues(done.0, counters, errors, step, root0, files, i, done, counters0, errors0)
    requires (next, o) == step(done.0, files[i])
    requires after.0 == counters.0
    requires after.1 == counters.1 + (if CounterOf(o) == SuccessfulCounter then 1 else 0)
    requires after.2 == counters.2 + (if CounterOf(o) == NoDateCounter then 1 else 0)
    requires after.3 == counters.3 + (if CounterOf(o) == SkippedCounter then 1 else 0)
    requires after.4 == counters.4 + (if CounterOf(o) == FailedCounter then 1 else 0)
    ensures FirstPassValues(next, after, errors + (if o.Failed? && o.message != "" then [o.message] else []),
                            step, root0, files, i + 1, (next, done.1 + [o]), counters0, errors0)
  {
    assert files[..i + 1] == files[..i] + [files[i]];
    StepsSnoc(step, root0, files[..i], files[i]);
    OutcomesSnoc(done.1, o);
  }

  /** The state of the first pass after the first `i` files, started from `root0` and the counters `counters0`. */
  ghost predicate FirstPassState(fs: FileSystem, stats: LoggerStats, step: (Node, Path) -> (Node, FileOutcome),
                                 root0: Node, files: seq<Path>, i: nat, done: (Node, seq<FileOutcome>),
                                 counters0: (nat, nat, nat, nat, nat), errors0: seq<string>)
    reads fs, stats
  {
    FirstPassValues(fs.root, stats.Counters(), stats.errors, step, root0, files, i, done, counters0, errors0)
  }

  /** One turn of the first-pass loop: file `i` is processed and the state moves to `i + 1`. */
  method FirstPassTurn(fs: FileSystem, stats: LoggerStats, files: seq<Path>, i: nat, dest: Path, env: Environment, opts: Options,
                       ghost step: (Node, Path) -> (Node, FileOutcome), ghost root0: Node, ghost done: (Node, seq<FileOutcome>),
                       ghost counters0: (nat, nat, nat, nat, nat), ghost errors0: seq<string>)
    returns (ghost next: (Node, seq<FileOutcome>))
    requires i < |files| && step == Stepper(dest, env, opts)
    requires FirstPassState(fs, stats, step, root0, files, i, done, counters0, errors0)
    modifies fs, stats
    ensures FirstPassState(fs, stats, step, root0, files, i + 1, next, counters0, errors0)
  {
    ghost var counters, errors := stats.Counters(), stats.errors;
    var date, o := ProcessOne(fs, stats, files[i], dest, env, opts);
    StepperApply(dest, env, opts, done.0, files[i]);
    FirstPassAdvance(step, root0, files, i, done, counters0, errors0, counters, errors, fs.root, o, stats.Counters());
    next := (fs.root, done.1 + [o]);
  }

  /** The first pass of `process_files` over the media files, in order. */
  method FirstPass(fs: FileSystem, stats: LoggerStats, files: seq<Path>, dest: Path, env: Environment, opts: Options)
    modifies fs, stats
    ensures fs.root == ProcessAll(old(fs.root), files, dest, env, opts).0
    ensures stats.totalFiles == old(stats.totalFiles)
    ensures CountedFrom(stats, old(stats.Counters()), ProcessAll(old(fs.root), files, dest, env, opts).1)
    ensures stats.errors == old(stats.errors) + FailureMessages(ProcessAll(old(fs.root), files, dest, env, opts).1)
    ensures old(stats.Valid()) ==> stats.Valid()
  {
    ghost var root0 := fs.root;
    ghost var counters0 := stats.Counters();
    ghost var errors0 := stats.errors;
    ghost var step := Stepper(dest, env, opts);
    ghost var done: (Node, seq<FileOutcome>) := (root0, []);
    var i := 0;
    while i < |files|
      invariant FirstPassState(fs, stats, step, root0, files, i, done, counters0, errors0)
    {
      done := FirstPassTurn(fs, stats, files, i, dest, env, opts, step, root0, done, counters0, errors0);
      i := i + 1;
    }
    assert files[..i] == files;
    OneMessagePerFailure(done.1);
  }

  /**
   * `process_files`: find the media files of the source walk, place each one
   * by its date and count the outcomes, then, in smart mode and only if
   * something was placed, consolidate lone day folders at the destination.
   */
  method ProcessFiles(fs: FileSystem, stats: LoggerStats, walk: seq<WalkEntry>, source: Path, dest: Path,
                      env: Environment, opts: Options)
    returns (result: RunResult, ghost media: seq<Path>, ghost firstPass: (Node, seq<FileOutcome>), ghost merges: seq<MonthMerge>)
    modifies fs, stats
    ensures media == WalkMedia(walk, set e | e in AllExtensions :: Lower(e), SkipOrganized(source, dest))
    ensures firstPass == ProcessAll(old(fs.root), media, dest, env, opts)
    ensures media == [] ==> result == NoMedia && fs.root == old(fs.root) && merges == []
                            && stats.Counters() == old(stats.Counters()) && stats.errors == old(stats.errors)
    ensures media != [] ==> result.Finished?
    ensures media != [] ==> stats.totalFiles == |media| && CountedFrom(stats, old(stats.Counters()), firstPass.1)
    ensures media != [] ==> stats.errors == old(stats.errors) + FailureMessages(firstPass.1)
    ensures old(stats.Valid()) ==> stats.Valid()
    ensures media != [] ==>
              (result.secondPass.NotRun? <==> !(opts.grouping == Smart && (stats.successful > 0 || stats.noDate > 0)))
    ensures media != [] && result.secondPass.NotRun? ==> fs.root == firstPass.0 && merges == []
    ensures media != [] && result.secondPass.ListingFailed? ==> fs.root == firstPass.0 && !IsDir(firstPass.0, dest)
    ensures media != [] && result.secondPass.Merged? ==>
              result.secondPass.count == SucceededCount(merges) && fs.root == ApplyMerges(firstPass.0, merges)
              && (forall k :: 0 <= k < |merges| ==> DestRecord(firstPass.0, dest, merges[k]))
              && (forall y, mo :: YearMonthToMerge(firstPass.0, dest, y, mo) ==>
                    exists k :: 0 <= k < |merges| && merges[k].month == dest + [y] + [mo])
  {
    ghost var counters0 := stats.Counters();
    var skipOrganized := SkipOrganized(source, dest);
    var files := GetAllMediaFiles(walk, AllExtensions, skipOrganized);
    media := files;
    firstPass := ProcessAll(fs.root, media, dest, env, opts);
    merges := [];
    if files == [] {
      return NoMedia, media, firstPass, merges;
    }
    stats.totalFiles := |files|;
    assert CountedFrom(stats, counters0, []);
    FirstPass(fs, stats, files, dest, env, opts);
    if opts.grouping == Smart && (stats.successful > 0 || stats.noDate > 0) {
      var count, ms := RestructureForSmartMode(fs, dest);
      merges := ms;
      result := Finished(if count.Some? then Merged(count.value) else ListingFailed);
    } else {
      result := Finished(NotRun);
    }
  }

  /**
   * With fresh statistics, the four counters of a run add up to the number
   * of files found, and the error list stays no longer than the failures.
   */
  lemma FreshCountsAddUp(stats: LoggerStats, outcomes: seq<FileOutcome>)
    requires CountedFrom(stats, (0, 0, 0, 0, 0), outcomes)
    ensures stats.successful + stats.failed + stats.noDate + stats.skipped == |outcomes|
    ensures |FailureMessages(outcomes)| <= stats.failed
  {
    CountsAddUp(outcomes);
    OneMessagePerFailure(outcomes);
  }
}
