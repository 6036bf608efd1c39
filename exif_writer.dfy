/*
 * The date writer of exif_writer.py: writing a date taken from the file name
 * into a photo's EXIF block or a video's QuickTime metadata with exiftool,
 * and the scan that decides, file by file, whether to write.
 *
 * exiftool itself is not modelled: each write takes how the run ended as a
 * parameter, and what the readers of metadata_reader.py would see afterwards
 * is stated through the tags the write sets.
 */
module ExifWriter {
  import opened Wrappers
  import opened Text
  import opened Calendar
  import opened Host
  import opened DateExtractor
  import opened MetadataReader

  /** The two writers: EXIF for photos, QuickTime metadata for videos. */
  datatype MediaKind = PhotoKind | VideoKind

  /** The tags each writer sets, all to the same value. */
  function WrittenTags(kind: MediaKind): seq<string>
  {
    match kind
    case PhotoKind => ["DateTimeOriginal", "CreateDate", "ModifyDate"]
    case VideoKind => ["QuickTime:CreateDate", "QuickTime:MediaCreateDate", "QuickTime:TrackCreateDate", "Keys:CreationDate"]
  }

  /** The value written: `strftime("%Y:%m:%d %H:%M:%S")`, the layout the readers parse. */
  function WrittenValue(dt: DateTime): string
    requires IsDateTime(dt)
  {
    FormatStamp(dt, ':', ' ')
  }

  /** The exiftool arguments (after the program path) of a write. */
  function WriteArguments(kind: MediaKind, path: Path, dt: DateTime): (args: seq<string>)
    requires IsDateTime(dt)
  {
    var tags := WrittenTags(kind);
    ["-overwrite_original"]
    + seq(|tags|, i requires 0 <= i < |tags| => "-" + tags[i] + "=" + WrittenValue(dt))
    + [PathText(path)]
  }

  /**
   * A write keeps no backup, sets every tag of its kind to the same stamp,
   * and names the file last.
   */
  lemma WriteArgumentsShape(kind: MediaKind, path: Path, dt: DateTime)
    requires IsDateTime(dt)
    ensures var args := WriteArguments(kind, path, dt);
            && |args| == |WrittenTags(kind)| + 2
            && args[0] == "-overwrite_original" && args[|args| - 1] == PathText(path)
            && forall i :: 1 <= i <= |WrittenTags(kind)| ==> args[i] == "-" + WrittenTags(kind)[i - 1] + "=" + WrittenValue(dt)
  {
  }

  /** How the exiftool write ended: an exit status with its error output, the 30-second timeout, or another exception. */
  datatype WriteRun = WriteExited(returnCode: int, stderr: string) | WriteTimedOut | WriteRaised(error: string)

  /** A writer's answer, and the arguments exiftool was started with, if it was. */
  datatype WriteResult = WriteResult(success: bool, message: string, invoked: Option<seq<string>>)

  /** The texts of the two writers' timeout and exception reports. */
  function TimeoutMessage(kind: MediaKind): string
  {
    match kind
    case PhotoKind => "Таймаут при записи EXIF"
    case VideoKind => "Таймаут при записи метаданных видео"
  }

  function ExceptionPrefix(kind: MediaKind): string
  {
    match kind
    case PhotoKind => "Ошибка записи EXIF: "
    case VideoKind => "Ошибка записи метаданных видео: "
  }

  /**
   * `write_date_to_photo_exif` and `write_date_to_video_metadata`: refuse
   * without exiftool or without the file, otherwise run exiftool and report
   * its outcome.
   */
  function WriteDate(kind: MediaKind, toolFound: bool, fileExists: bool, path: Path, dt: DateTime, run: WriteRun): (r: WriteResult)
    requires IsDateTime(dt)
  {
    if !toolFound then WriteResult(false, "exiftool не найден", None)
    else if !fileExists then WriteResult(false, "Файл не найден: " + PathText(path), None)
    else
      var args := Some(WriteArguments(kind, path, dt));
      match run
      case WriteExited(code, stderr) =>
        if code != 0 then WriteResult(false, "exiftool вернул ошибку: " + stderr, args)
        else WriteResult(true, "", args)
      case WriteTimedOut => WriteResult(false, TimeoutMessage(kind), args)
      case WriteRaised(e) => WriteResult(false, ExceptionPrefix(kind) + e, args)
  }

  /**
   * A writer runs exiftool exactly when exiftool is there and the file exists;
   * it succeeds exactly when that run exits with status 0, and then reports
   * no message; every failure carries a non-empty message.
   */
  lemma WriteDateOutcome(kind: MediaKind, toolFound: bool, fileExists: bool, path: Path, dt: DateTime, run: WriteRun)
    requires IsDateTime(dt)
    ensures var r := WriteDate(kind, toolFound, fileExists, path, dt, run);
            && (r.invoked.Some? <==> toolFound && fileExists)
            && (r.invoked.Some? ==> r.invoked.value == WriteArguments(kind, path, dt))
            && (r.success <==> toolFound && fileExists && run.WriteExited? && run.returnCode == 0)
            && (r.success ==> r.message == "")
            && (!r.success ==> r.message != "")
            && (!toolFound ==> r.message == "exiftool не найден")
  {
    var r := WriteDate(kind, toolFound, fileExists, path, dt, run);
    if !r.success {
      assert |r.message| > 0;
    }
  }

  /** Without exiftool or without the file, how the run would have ended makes no difference. */
  lemma WriteDateWithoutRun(kind: MediaKind, toolFound: bool, fileExists: bool, path: Path, dt: DateTime, run1: WriteRun, run2: WriteRun)
    requires IsDateTime(dt) && (!toolFound || !fileExists)
    ensures WriteDate(kind, toolFound, fileExists, path, dt, run1) == WriteDate(kind, toolFound, fileExists, path, dt, run2)
    ensures !WriteDate(kind, toolFound, fileExists, path, dt, run1).success
  {
  }

  /** Which writer a file name goes to, if any: photos first, then videos. */
  function WriterFor(filename: string): (k: Option<MediaKind>)
  {
    if IsPhoto(filename) then Some(PhotoKind) else if IsVideo(filename) then Some(VideoKind) else None
  }

  /**
   * `write_date_to_file`: photos go to the EXIF writer, videos to the video
   * writer, anything else is refused as unsupported.
   */
  function WriteDateToFile(toolFound: bool, fileExists: bool, path: Path, dt: DateTime, run: WriteRun): (r: WriteResult)
    requires IsDateTime(dt)
    ensures r.success ==> IsMediaFile(Basename(path))
  {
    match WriterFor(Basename(path))
    case Some(kind) => WriteDate(kind, toolFound, fileExists, path, dt, run)
    case None => WriteResult(false, "Неподдерживаемый тип файла: " + Basename(path), None)
  }

  /** The dispatch of `write_date_to_file`, writer by writer. */
  lemma WriteDateToFileDispatch(toolFound: bool, fileExists: bool, path: Path, dt: DateTime, run: WriteRun)
    requires IsDateTime(dt)
    ensures IsPhoto(Basename(path)) ==> WriteDateToFile(toolFound, fileExists, path, dt, run) == WriteDate(PhotoKind, toolFound, fileExists, path, dt, run)
    ensures IsVideo(Basename(path)) ==> WriteDateToFile(toolFound, fileExists, path, dt, run) == WriteDate(VideoKind, toolFound, fileExists, path, dt, run)
    ensures !IsMediaFile(Basename(path)) ==>
              WriteDateToFile(toolFound, fileExists, path, dt, run) == WriteResult(false, "Неподдерживаемый тип файла: " + Basename(path), None)
  {
    MediaIsPhotoXorVideo(Basename(path));
  }

  /** The EXIF tag numbers of the photo tags exiftool writes: DateTimeOriginal, CreateDate (DateTimeDigitized) and ModifyDate (DateTime). */
  function ExifTagNumber(name: string): Option<int>
  {
    if name == "DateTimeOriginal" then Some(36867)
    else if name == "CreateDate" then Some(36868)
    else if name == "ModifyDate" then Some(306)
    else None
  }

  /** The EXIF block of a photo after a successful write, as Pillow decodes it (other tags left out). */
  function PhotoTagsAfterWrite(dt: DateTime): map<int, TagValue>
    requires IsDateTime(dt)
  {
    map[36867 := Text(WrittenValue(dt)), 36868 := Text(WrittenValue(dt)), 306 := Text(WrittenValue(dt))]
  }

  /** The photo writer sets exactly the three tags the EXIF reader consults. */
  lemma PhotoWriteCoversReaderTags(dt: DateTime)
    requires IsDateTime(dt)
    ensures forall t :: t in WrittenTags(PhotoKind) ==> ExifTagNumber(t).Some? && ExifTagNumber(t).value in ExifDateTags
    ensures forall n :: n in ExifDateTags ==> exists t :: t in WrittenTags(PhotoKind) && ExifTagNumber(t) == Some(n)
    ensures PhotoTagsAfterWrite(dt).Keys == set t | t in WrittenTags(PhotoKind) :: ExifTagNumber(t).value
  {
    var tags := WrittenTags(PhotoKind);
    assert ExifTagNumber(tags[0]) == Some(36867);
    assert ExifTagNumber(tags[1]) == Some(36868);
    assert ExifTagNumber(tags[2]) == Some(306);
  }

  /** A photo written with a four-digit-year date reads back as that date. */
  lemma PhotoWriteReadsBack(dt: DateTime)
    requires IsDateTime(dt) && dt.year >= 1000
    ensures ExtractDateFromExif(true, true, Tags(PhotoTagsAfterWrite(dt))) == Some(dt)
  {
    StampRoundTrip(dt, ':');
    assert ExifHits(PhotoTagsAfterWrite(dt), ExifDateTags[0]);
  }

  /** The metadata record of a video after a successful write, as exiftool prints it (other tags left out). */
  function VideoRecordAfterWrite(dt: DateTime): map<string, TagValue>
    requires IsDateTime(dt)
  {
    map t | t in WrittenTags(VideoKind) :: Text(WrittenValue(dt))
  }

  /** A video written with a four-digit-year date reads back as that date. */
  lemma VideoWriteReadsBack(dt: DateTime)
    requires IsDateTime(dt) && dt.year >= 1000
    ensures ExtractDateFromVideo(true, true, Exited(0, Records([VideoRecordAfterWrite(dt)]))) == Some(dt)
  {
    StampRoundTrip(dt, ':');
    var md := VideoRecordAfterWrite(dt);
    assert VideoDateTags[0] == WrittenTags(VideoKind)[0];
    assert VideoHits(md, VideoDateTags[0]);
  }

  /** What the scan decided for one file. */
  datatype ScanOutcome = Updated | SkippedHasDate | SkippedNoDateInName | WriteError(message: string)

  /** What the tools report for one file: the readers' probe and how the write would end. */
  datatype ExifEnvironment = ExifEnvironment(tools: Tools, probe: Path -> Probe, writeRun: Path -> WriteRun)

  /**
   * The per-file decision of `scan_and_update_exif`: a file whose metadata
   * already has a date is left alone; otherwise the date in its name, if
   * any, is written.
   */
  function ScanDecision(root: Node, path: Path, env: ExifEnvironment): (o: ScanOutcome)
  {
    DecisionFor(Exists(root, path), path, env)
  }

  /** The decision for a file whose presence on disk is `present`. */
  function DecisionFor(present: bool, path: Path, env: ExifEnvironment): (o: ScanOutcome)
  {
    if ExtractDateFromMetadata(env.tools, present, path, env.probe(path)).Some? then SkippedHasDate
    else if ExtractDateFromFilename(Basename(path)).None? then SkippedNoDateInName
    else WriteOutcome(WriteDateToFile(env.tools.exiftoolFound, present, path,
                                      ExtractDateFromFilename(Basename(path)).value, env.writeRun(path)))
  }

  /** A successful write updates the file; a failed one is reported with the writer's message. */
  function WriteOutcome(r: WriteResult): (o: ScanOutcome)
  {
    if r.success then Updated else WriteError(r.message)
  }

  /**
   * A file is written only when its metadata has no date and its name has
   * one, and it is then written with the name's date; the metadata is
   * consulted first, so a dated file is skipped whatever its name says.
   */
  lemma ScanDecisionWritesOnlyUndated(root: Node, path: Path, env: ExifEnvironment)
    ensures var present := Exists(root, path);
            var existing := ExtractDateFromMetadata(env.tools, present, path, env.probe(path));
            var named := ExtractDateFromFilename(Basename(path));
            && (existing.Some? <==> ScanDecision(root, path, env) == SkippedHasDate)
            && (ScanDecision(root, path, env) == SkippedNoDateInName <==> existing.None? && named.None?)
            && (ScanDecision(root, path, env) == Updated ==>
                  && existing.None? && named.Some?
                  && WriteDateToFile(env.tools.exiftoolFound, present, path, named.value, env.writeRun(path)).success)
  {
  }

  /**
   * After a photo has been updated, a second scan that sees the written EXIF
   * block skips it as already dated: the scan does not write twice.
   */
  lemma RescanSkipsUpdatedPhoto(root: Node, path: Path, env: ExifEnvironment, env2: ExifEnvironment)
    requires ScanDecision(root, path, env) == Updated && IsPhoto(Basename(path))
    requires env2.tools.pilAvailable
    requires env2.probe(path).exif == Tags(PhotoTagsAfterWrite(ExtractDateFromFilename(Basename(path)).value))
    ensures ScanDecision(root, path, env2) == SkippedHasDate
  {
    var dt := ExtractDateFromFilename(Basename(path)).value;
    PhotoWriteReadsBack(dt);
  }

  /** The same for a video whose metadata now holds the written tags. */
  lemma RescanSkipsUpdatedVideo(root: Node, path: Path, env: ExifEnvironment, env2: ExifEnvironment)
    requires ScanDecision(root, path, env) == Updated && IsVideo(Basename(path))
    requires env2.tools.exiftoolFound
    requires env2.probe(path).video == Exited(0, Records([VideoRecordAfterWrite(ExtractDateFromFilename(Basename(path)).value)]))
    ensures ScanDecision(root, path, env2) == SkippedHasDate
  {
    var dt := ExtractDateFromFilename(Basename(path)).value;
    VideoWriteReadsBack(dt);
  }

  /** The statistics `scan_and_update_exif` returns. */
  datatype ExifStats = ExifStats(total: nat, updated: nat, skippedHasDate: nat, skippedNoDateInName: nat, errors: nat)

  /** One decision counted under its own counter; the total is left alone. */
  function Counted(s: ExifStats, o: ScanOutcome): (t: ExifStats)
    ensures t.total == s.total
    ensures t.updated + t.skippedHasDate + t.skippedNoDateInName + t.errors
            == s.updated + s.skippedHasDate + s.skippedNoDateInName + s.errors + 1
  {
    match o
    case Updated => s.(updated := s.updated + 1)
    case SkippedHasDate => s.(skippedHasDate := s.skippedHasDate + 1)
    case SkippedNoDateInName => s.(skippedNoDateInName := s.skippedNoDateInName + 1)
    case WriteError(_) => s.(errors := s.errors + 1)
  }

  /** The statistics of a list of decisions. */
  function Tally(outcomes: seq<ScanOutcome>): (s: ExifStats)
    ensures s.total == |outcomes|
    ensures s.updated + s.skippedHasDate + s.skippedNoDateInName + s.errors == s.total
  {
    if outcomes == [] then ExifStats(0, 0, 0, 0, 0)
    else Counted(Tally(outcomes[..|outcomes| - 1]), outcomes[|outcomes| - 1]).(total := |outcomes|)
  }

  /** The media files of a recursive walk, in walk order (hidden files included). */
  function WalkMediaFiles(walk: seq<WalkEntry>): (files: seq<Path>)
    ensures forall p :: p in files <==> exists k, f :: 0 <= k < |walk| && f in walk[k].files && IsMediaFile(f) && p == walk[k].folder + [f]
  {
    if walk == [] then []
    else
      var last := walk[|walk| - 1];
      assert forall k :: 0 <= k < |walk| - 1 ==> walk[..|walk| - 1][k] == walk[k];
      WalkMediaFiles(walk[..|walk| - 1]) + EntryMediaFiles(last.folder, last.files)
  }

  /** The media files among `names` in `folder`. */
  function EntryMediaFiles(folder: Path, names: seq<string>): (files: seq<Path>)
    ensures forall p :: p in files <==> exists f :: f in names && IsMediaFile(f) && p == folder + [f]
  {
    if names == [] then []
    else
      var f := names[|names| - 1];
      EntryMediaFiles(folder, names[..|names| - 1]) + (if IsMediaFile(f) then [folder + [f]] else [])
  }

  /** The media files directly inside `dir`, in listing order: regular files only. */
  function ListingMediaFiles(root: Node, dir: Path, listing: seq<string>): (files: seq<Path>)
    ensures forall p :: p in files <==> exists f :: f in listing && IsFile(root, dir + [f]) && IsMediaFile(f) && p == dir + [f]
  {
    if listing == [] then []
    else
      var f := listing[|listing| - 1];
      ListingMediaFiles(root, dir, listing[..|listing| - 1]) + (if IsFile(root, dir + [f]) && IsMediaFile(f) then [dir + [f]] else [])
  }

  /**
   * Over the listing of the folder itself, the non-recursive scan finds every
   * regular media file directly inside `dir`, each once.
   */
  lemma ListingMediaFilesOfFolder(root: Node, dir: Path, listing: seq<string>)
    requires Enumerates(listing, Children(root, dir))
    ensures var files := ListingMediaFiles(root, dir, listing);
            forall f :: dir + [f] in files <==> f in Children(root, dir) && IsFile(root, dir + [f]) && IsMediaFile(f)
    ensures var files := ListingMediaFiles(root, dir, listing);
            forall i, j :: 0 <= i < j < |files| ==> files[i] != files[j]
  {
    var files := ListingMediaFiles(root, dir, listing);
    forall f | dir + [f] in files
      ensures f in listing && IsFile(root, dir + [f]) && IsMediaFile(f)
    {
      var g :| g in listing && IsFile(root, dir + [g]) && IsMediaFile(g) && dir + [f] == dir + [g];
      assert (dir + [f])[|dir|] == f && (dir + [g])[|dir|] == g;
    }
    ListingMediaFilesDistinct(root, dir, listing);
  }

  /** A listing without repeated names gives media files without repeats. */
  lemma {:induction false} ListingMediaFilesDistinct(root: Node, dir: Path, listing: seq<string>)
    requires forall i, j :: 0 <= i < j < |listing| ==> listing[i] != listing[j]
    ensures var files := ListingMediaFiles(root, dir, listing);
            forall i, j :: 0 <= i < j < |files| ==> files[i] != files[j]
    decreases |listing|
  {
    if listing != [] {
      var init := listing[..|listing| - 1];
      var f := listing[|listing| - 1];
      assert forall k :: 0 <= k < |init| ==> init[k] == listing[k];
      ListingMediaFilesDistinct(root, dir, init);
      if IsFile(root, dir + [f]) && IsMediaFile(f) {
        LastNotEarlier(listing);
        NotListedBefore(root, dir, init, f);
        AppendFresh(ListingMediaFiles(root, dir, init), dir + [f]);
      }
    }
  }

  /** A name missing from the listing gives no path among its media files. */
  lemma NotListedBefore(root: Node, dir: Path, listing: seq<string>, f: string)
    requires f !in listing
    ensures dir + [f] !in ListingMediaFiles(root, dir, listing)
  {
    forall g | g in listing
      ensures dir + [f] != dir + [g]
    {
      assert (dir + [f])[|dir|] == f && (dir + [g])[|dir|] == g;
    }
  }

  /** In a listing without repeats the last name does not occur earlier. */
  lemma LastNotEarlier(listing: seq<string>)
    requires listing != [] && forall i, j :: 0 <= i < j < |listing| ==> listing[i] != listing[j]
    ensures listing[|listing| - 1] !in listing[..|listing| - 1]
  {
  }

  /** Appending a path not yet present keeps a sequence free of repeats. */
  lemma AppendFresh(front: seq<Path>, p: Path)
    requires forall i, j :: 0 <= i < j < |front| ==> front[i] != front[j]
    requires p !in front
    ensures var all := front + [p];
            forall i, j :: 0 <= i < j < |all| ==> all[i] != all[j]
  {
    var all := front + [p];
    forall i, j | 0 <= i < j < |all|
      ensures all[i] != all[j]
    {
      assert all[i] == front[i];
      if j < |front| {
        assert all[j] == front[j];
      } else {
        assert front[i] in front;
      }
    }
  }

  /** The files `scan_and_update_exif` looks at: a recursive walk, or the listing of `dir` alone. */
  function ScanFiles(root: Node, dir: Path, recursive: bool, walk: seq<WalkEntry>, listing: seq<string>): seq<Path>
  {
    if recursive then WalkMediaFiles(walk) else ListingMediaFiles(root, dir, listing)
  }

  /** Collects the media files as `scan_and_update_exif` does: a walk, or one listing. */
  method CollectFiles(root: Node, dir: Path, recursive: bool, walk: seq<WalkEntry>, listing: seq<string>)
    returns (files: seq<Path>)
    ensures files == ScanFiles(root, dir, recursive, walk, listing)
  {
    if recursive {
      files := CollectWalk(walk);
    } else {
      files := CollectListing(root, dir, listing);
    }
  }

  /** The walk loop: every folder's media files, folder after folder. */
  method CollectWalk(walk: seq<WalkEntry>) returns (files: seq<Path>)
    ensures files == WalkMediaFiles(walk)
  {
    files := [];
    var i := 0;
    while i < |walk|
      invariant 0 <= i <= |walk|
      invariant files == WalkMediaFiles(walk[..i])
    {
      var entry := walk[i];
      assert walk[..i + 1][..i] == walk[..i];
      var found := CollectEntry(entry.folder, entry.files);
      files := files + found;
      i := i + 1;
    }
    assert walk[..i] == walk;
  }

  /** The inner loop over one folder's file names. */
  method CollectEntry(folder: Path, names: seq<string>) returns (files: seq<Path>)
    ensures files == EntryMediaFiles(folder, names)
  {
    files := [];
    var j := 0;
    while j < |names|
      invariant 0 <= j <= |names|
      invariant files == EntryMediaFiles(folder, names[..j])
    {
      var f := names[j];
      assert names[..j + 1][..j] == names[..j];
      if IsMediaFile(f) {
        files := files + [folder + [f]];
      }
      j := j + 1;
    }
    assert names[..j] == names;
  }

  /** The loop over the listing of `dir`, keeping regular media files. */
  method CollectListing(root: Node, dir: Path, listing: seq<string>) returns (files: seq<Path>)
    ensures files == ListingMediaFiles(root, dir, listing)
  {
    files := [];
    var i := 0;
    while i < |listing|
      invariant 0 <= i <= |listing|
      invariant files == ListingMediaFiles(root, dir, listing[..i])
    {
      var f := listing[i];
      assert listing[..i + 1][..i] == listing[..i];
      if IsFile(root, dir + [f]) && IsMediaFile(f) {
        files := files + [dir + [f]];
      }
      i := i + 1;
    }
    assert listing[..i] == listing;
  }


  /** Appending one decision moves exactly its own counter and the total. */
  lemma TallySnoc(outcomes: seq<ScanOutcome>, o: ScanOutcome)
    ensures Tally(outcomes + [o]) == Counted(Tally(outcomes), o).(total := |outcomes| + 1)
  {
    assert (outcomes + [o])[..|outcomes|] == outcomes;
  }

  /** Counting one more decision keeps the statistics those of the decisions so far. */
  lemma TallyStep(outcomes: seq<ScanOutcome>, o: ScanOutcome, stats: ExifStats, n: nat)
    requires stats == Tally(outcomes).(total := n)
    ensures Counted(stats, o) == Tally(outcomes + [o]).(total := n)
  {
    TallySnoc(outcomes, o);
  }

  /** The decision for one file, taken in the order the scan loop takes it. */
  method DecideFile(root: Node, path: Path, env: ExifEnvironment) returns (o: ScanOutcome)
    ensures o == ScanDecision(root, path, env)
  {
    var present := Exists(root, path);
    var existing := ExtractDateFromMetadata(env.tools, present, path, env.probe(path));
    if existing.Some? {
      return SkippedHasDate;
    }
    var named := ExtractDateFromFilename(Basename(path));
    if named.None? {
      return SkippedNoDateInName;
    }
    var r := WriteDateToFile(env.tools.exiftoolFound, present, path, named.value, env.writeRun(path));
    o := if r.success then Updated else WriteError(r.message);
  }

  /** The outcomes of deciding `files` one after another with `decide`. */
  function Outcomes(decide: Path -> ScanOutcome, files: seq<Path>): (r: seq<ScanOutcome>)
    ensures |r| == |files|
  {
    if files == [] then [] else Outcomes(decide, files[..|files| - 1]) + [decide(files[|files| - 1])]
  }

  /** Outcome `k` is the decision for file `k`. */
  lemma {:induction false} OutcomeAt(decide: Path -> ScanOutcome, files: seq<Path>, k: nat)
    requires k < |files|
    ensures Outcomes(decide, files)[k] == decide(files[k])
    decreases |files|
  {
    var init := files[..|files| - 1];
    if k < |init| {
      OutcomeAt(decide, init, k);
      assert init[k] == files[k];
    }
  }

  lemma OutcomesSnoc(decide: Path -> ScanOutcome, files: seq<Path>, f: Path)
    ensures Outcomes(decide, files + [f]) == Outcomes(decide, files) + [decide(f)]
  {
    assert (files + [f])[..|files|] == files;
  }

  /** The scan's decision, file by file. */
  function Decider(root: Node, env: ExifEnvironment): Path -> ScanOutcome
  {
    p => ScanDecision(root, p, env)
  }

  /** The decisions for `files`, in order. */
  function Decisions(root: Node, files: seq<Path>, env: ExifEnvironment): (r: seq<ScanOutcome>)
  {
    Outcomes(Decider(root, env), files)
  }

  /** Decision `k` is the scan's decision for file `k`, so the decisions follow the file order. */
  lemma DecisionAt(root: Node, files: seq<Path>, env: ExifEnvironment, k: nat)
    requires k < |files|
    ensures |Decisions(root, files, env)| == |files|
    ensures Decisions(root, files, env)[k] == ScanDecision(root, files[k], env)
  {
    OutcomeAt(Decider(root, env), files, k);
  }

  /** One more file decided extends the outcomes by its decision. */
  lemma OutcomesStep(decide: Path -> ScanOutcome, media: seq<Path>, i: nat, outcomes: seq<ScanOutcome>, o: ScanOutcome)
    requires i < |media|
    requires outcomes == Outcomes(decide, media[..i]) && o == decide(media[i])
    ensures outcomes + [o] == Outcomes(decide, media[..i + 1])
  {
    assert media[..i + 1] == media[..i] + [media[i]];
    OutcomesSnoc(decide, media[..i], media[i]);
  }

  /** The counting loop of `scan_and_update_exif`: one decision per file, in order. */
  method CountDecisions(root: Node, media: seq<Path>, env: ExifEnvironment) returns (stats: ExifStats)
    ensures stats == Tally(Decisions(root, media, env))
  {
    stats := ExifStats(|media|, 0, 0, 0, 0);
    ghost var decide := Decider(root, env);
    ghost var outcomes: seq<ScanOutcome> := [];
    var i := 0;
    while i < |media|
      invariant 0 <= i <= |media|
      invariant outcomes == Outcomes(decide, media[..i])
      invariant stats == Tally(outcomes).(total := |media|)
    {
      var o, next := DecideAndCount(root, media[i], env, stats);
      OutcomesStep(decide, media, i, outcomes, o);
      TallyStep(outcomes, o, stats, |media|);
      stats := next;
      outcomes := outcomes + [o];
      i := i + 1;
    }
    assert media[..i] == media;
  }

  /** One pass of the scan loop: decide a file and bump the counter its decision names. */
  method DecideAndCount(root: Node, path: Path, env: ExifEnvironment, stats: ExifStats)
    returns (o: ScanOutcome, next: ExifStats)
    ensures o == Decider(root, env)(path)
    ensures next == Counted(stats, o)
  {
    o := DecideFile(root, path, env);
    match o {
      case Updated => next := stats.(updated := stats.updated + 1);
      case SkippedHasDate => next := stats.(skippedHasDate := stats.skippedHasDate + 1);
      case SkippedNoDateInName => next := stats.(skippedNoDateInName := stats.skippedNoDateInName + 1);
      case WriteError(_) => next := stats.(errors := stats.errors + 1);
    }
  }

  /**
   * `scan_and_update_exif`: decide every media file in order and count the
   * decisions; with no media files every counter is zero. Without recursion
   * `listing` is what `os.listdir` returns for `dir`, and listing a path
   * that is not a folder raises, which the result reports as `None`.
   */
  method ScanAndUpdateExif(root: Node, dir: Path, recursive: bool, walk: seq<WalkEntry>, listing: seq<string>,
                           env: ExifEnvironment)
    returns (stats: Option<ExifStats>)
    requires !recursive && IsDir(root, dir) ==> Enumerates(listing, Children(root, dir))
    ensures stats.None? <==> !recursive && !IsDir(root, dir)
    ensures stats.Some? ==> stats.value == Tally(Decisions(root, ScanFiles(root, dir, recursive, walk, listing), env))
    ensures stats.Some? && ScanFiles(root, dir, recursive, walk, listing) == [] ==> stats.value == ExifStats(0, 0, 0, 0, 0)
  {
    if !recursive && !IsDir(root, dir) {
      return None;
    }
    var media := CollectFiles(root, dir, recursive, walk, listing);
    if media == [] {
      return Some(ExifStats(0, 0, 0, 0, 0));
    }
    var counted := CountDecisions(root, media, env);
    stats := Some(counted);
  }
}
