# PhotosByDate — a verified model of the organizer's core

PhotosByDate sorts photos and videos into a dated folder tree. Every media
file under a source folder gets a date. The date comes from the file name
first and from the file's own metadata (EXIF for photos, exiftool's tags for
videos) otherwise. The file is then copied or moved to
`destination/YYYY/YYYY.MM[/YYYY.MM.DD]` under a name that is not yet taken.
Files without a date can go to a folder "Дата неизвестна" (unknown date).

In the "smart" grouping mode a second pass follows. It folds every month
folder whose only entry is a single day folder back into the month. Besides
the organizer, the repository has an EXIF updater and a video compressor:

- the EXIF updater writes the date found in a file's name into files whose metadata has none;
- the video compressor makes a `-small.mp4` copy of every video that lacks one.

The model is one Dafny module per source file, plus three shared modules:

| module | file | models |
|---|---|---|
| `Text` | text.dfy | ASCII digits, `str(n)`, zero padding, `lower`, `split`, prefix and suffix tests |
| `Calendar` | calendar.dfy | the Gregorian calendar and the `datetime` constructor |
| `Host` | host.dfy | a directory tree as a value; `os.path.splitext`; a `FileSystem` class whose methods are `makedirs`, `copy2`, `move`, `rmdir` and `listdir` |
| `DateExtractor` | date_extractor.dfy | `extract_date_from_filename`, `_is_valid_date`, `format_date_for_folder` |
| `DateExtractorExamples` | date_extractor_examples.dfy | the sample names of the module's self-check, proved |
| `MetadataReader` | metadata_reader.dfy | the extension classifiers and the EXIF and video date readers |
| `FileCopier` | file_copier.dfy | folder-name tests, media enumeration, unique names, target folders, copy or move of one file, smart restructuring |
| `LoggerConfig` | logger_config.dfy | the `LoggerStats` class and its summary text |
| `MediaOrganizer` | media_organizer.dfy | `determine_file_date` and `process_files` |
| `ExifWriter` | exif_writer.dfy | the two writers, their dispatch and `scan_and_update_exif` |
| `VideoCompressor` | video_compressor.dfy | `check_dependencies`, `compress_video_file`, `scan_and_compress` |

**The host is made of parameters.**

- A path is the sequence of its components below the root of the tree.
- `os.walk` is a given sequence of (folder, file names) entries.
- `os.listdir` returns any duplicate-free enumeration of a folder.
- Whatever Pillow decodes, exiftool prints or ffmpeg returns is a parameter of the operation that consumes it.
- Every directory carries a `writable` flag. Creating or removing an entry inside a folder that is not writable fails. That is how the model produces the `OSError`s the code catches.
- A move whose rename fails falls back to a copy and an unlink, as `shutil.move` does. A file moved out of a read-only folder into a writable one is therefore copied, and the move still reports an error (`FileCopier.FailedMoveLeavesCopy`).

**Code and description disagree in a few places.** The model follows the code:

- **Zone suffix.** An ISO video date with a zone suffix and no '.' is rejected (`MetadataReader.VideoIsoWithZoneRejected`). Only text from a '.' on is dropped.
- **Non-text EXIF value.** A present EXIF date tag whose value is not text ends the photo reader with no date. The later tags are not tried (`MetadataReader.ScanExifTags`).
- **Lenient month test.** The month-folder test accepts "2025..8" (`FileCopier.MonthFolderAcceptsTwoDots`).
- **Day versus month.** The merge criterion never checks that the day folder belongs to its month (`FileCopier.CriterionIgnoresMonthPrefix`).
- **No date window for metadata.** Metadata dates are not range-checked, unlike dates read from names (`MetadataReader.MetadataYearUnchecked`).

## Model

| member | source | states |
|---|---|---|
| Calendar.DaysInMonth | date_extractor.py:118-123 | a month has 28 to 31 days: 29 exactly for February of a Gregorian leap year, 28 exactly for February otherwise, 30 exactly for April, June, September and November |
| Calendar.YearLength | date_extractor.py:118-123 | the twelve month lengths add up to 366 in leap years and 365 otherwise |
| Calendar.MakeDateTime | date_extractor.py:63-66 | `datetime(y, m, d, h, mi, s)` succeeds exactly for a real calendar date in years 1-9999 and a valid time of day, and keeps the fields |
| DateExtractor.ValidDateIsGregorian | date_extractor.py:94-123 | `_is_valid_date` holds exactly for a Gregorian date with a year from 1900 to 2099 |
| DateExtractor.ValidDateEdgeCases | date_extractor.py:94-123 | leap days of 2000 and 2024 pass; 1900-02-29, 2023-02-29, April 31 and years 1899 and 2100 fail |
| DateExtractor.StripExtension | date_extractor.py:27 | the stem is the prefix before the last '.', or the whole name when it has no '.' |
| DateExtractor.CameraDigitsStart | date_extractor.py:31-32 | a camera-prefix match is followed by a `-`/`_` separator and eight digits |
| DateExtractor.TimeGroups | date_extractor.py:32 | the optional time part yields at most three two-digit groups |
| DateExtractor.SeparatorRunEnd | date_extractor.py:42 | the greedy separator run after a keyword ends at the first non-separator |
| DateExtractor.KeywordDateStart | date_extractor.py:41-42 | a keyword match is followed by a delimited year-first date |
| DateExtractor.Search | date_extractor.py:51-53 | `re.search` reports the leftmost position where the pattern matches, and none when it matches nowhere |
| DateExtractor.SearchFindsLeftmost | date_extractor.py:51-53 | conversely, the leftmost matching position is the one reported |
| DateExtractor.Interpret | date_extractor.py:54-88 | a match is turned into a date only when the date passes `_is_valid_date` and the camera time is a real time of day |
| DateExtractor.FirstDate | date_extractor.py:51-91 | any date the pattern loop returns is valid and has a valid time of day |
| DateExtractor.FirstDateCharacterized | date_extractor.py:51-91 | the loop finds no date exactly when no pattern yields one; a date found is that of a pattern after which every earlier one yielded none |
| DateExtractor.FirstDateIsFirstSuccess | date_extractor.py:51-91 | the first pattern that yields a date decides the result |
| DateExtractor.ExtractDateFromFilename | date_extractor.py:15-91 | a date read from a name is a real date-time with a year from 1900 to 2099 |
| DateExtractor.YearFirstDelimitedShape | date_extractor.py:36 | a `YYYY-MM-DD` match has separators at offsets 4 and 7 and digits elsewhere |
| DateExtractor.DayFirstDelimitedShape | date_extractor.py:45 | a `DD-MM-YYYY` match has separators at offsets 2 and 5 and digits elsewhere |
| DateExtractor.EightDigitRuleMatch | date_extractor.py:31-49 | a camera or bare-digit match contains a run of eight digits |
| DateExtractor.YearFirstRuleMatch | date_extractor.py:36-42 | a delimited year-first or keyword match contains a delimited year-first date |
| DateExtractor.EightDigitRulesNeedRun | date_extractor.py:31-49 | without a run of eight digits the camera and both bare patterns yield nothing |
| DateExtractor.YearFirstRulesNeedDate | date_extractor.py:36-42 | without a delimited year-first date the delimited and keyword patterns yield nothing |
| DateExtractor.DayFirstRuleNeedsDate | date_extractor.py:45 | without a delimited day-first date that pattern yields nothing |
| DateExtractor.NoCandidateNoDate | date_extractor.py:15-91 | a stem with no eight-digit run and no delimited date gives no date |
| DateExtractor.BareRulesShareRun | date_extractor.py:38-48 | both bare eight-digit patterns find the same leftmost run |
| DateExtractor.HexNameHasNoBareDate | date_extractor.py:38-48 | the hexadecimal guard: a hexadecimal name longer than eight characters has no bare date |
| DateExtractor.OnlyCameraRuleSetsTime | date_extractor.py:57-78 | every pattern but the camera one gives a date at 00:00:00 |
| DateExtractor.FormatDateForFolder | date_extractor.py:126-155 | the month label is the year label, '.' and two characters; the day label extends the month label the same way |
| DateExtractor.FolderLabelsParseBack | date_extractor.py:151-153 | the day label splits at '.' into the year label and zero-padded month and day, which read back as the date's numbers |
| DateExtractor.FolderLabelsInjective | date_extractor.py:126-155 | distinct dates get distinct day folders |
| DateExtractorExamples.RulesInOrder | date_extractor.py:30-49 | the six patterns are tried in the source's order |
| DateExtractorExamples.CameraExample | date_extractor.py:161 | `IMG_20250823_192714.jpg` gives 2025-08-23 19:27:14 |
| DateExtractorExamples.VacationExample | date_extractor.py:173 | `23.08.2025_vacation.jpg` gives 2025-08-23 |
| DateExtractorExamples.UuidExample | date_extractor.py:169 | a UUID-like hexadecimal name gives no date |
| DateExtractorExamples.ShortCameraExample | date_extractor.py:170 | `IMG_2021.jpg` gives no date |
| DateExtractorExamples.BadTimeExample | date_extractor.py:51-88 | with an impossible time the camera pattern fails and the bare pattern still gives 2025-08-23 00:00 |
| DateExtractorExamples.AmbiguousRunExample | date_extractor.py:38-48 | `08082025.jpg` is read day-first as 2025-08-08, because year-first 0808-20-25 is not valid |
| MetadataReader.ExtensionSetsDisjoint | metadata_reader.py:34-42 | no extension is both a photo and a video extension |
| MetadataReader.MediaIsPhotoXorVideo | metadata_reader.py:45-68 | a media file is a photo or a video and never both |
| MetadataReader.MediaFileHasExtension | metadata_reader.py:45-56 | a media file name has a real extension |
| MetadataReader.ParseStamp | metadata_reader.py:150 | a parsed stamp has the fixed 19-character layout and its fields are the numbers written in it |
| MetadataReader.ParseVideoDate | metadata_reader.py:220-233 | a parsed video date is a valid date-time |
| MetadataReader.FormatStamp | metadata_reader.py:150 | a stamp of a four-digit year has 19 characters with its separators in place |
| MetadataReader.StampRoundTrip | metadata_reader.py:150 | formatting a date-time and parsing the stamp gives it back |
| MetadataReader.FormatStampInjective | metadata_reader.py:150 | different date-times give different stamps |
| MetadataReader.VideoIsoWithFraction | metadata_reader.py:225-230 | an ISO value with a '.' suffix is read as its date-time |
| MetadataReader.VideoIsoWithZoneRejected | metadata_reader.py:225-233 | an ISO value with a suffix that has no '.' is not read |
| MetadataReader.ScanExifTags | metadata_reader.py:143-162 | a date from the EXIF scan is valid, and an empty tag block gives none |
| MetadataReader.ScanExifTagsFirstHit | metadata_reader.py:143-162 | the EXIF scan gives a date exactly when a tag parses after only absent or unparsable tags, and it is that tag's date |
| MetadataReader.ExtractDateFromExif | metadata_reader.py:115-162 | no date without Pillow, the file or a non-empty EXIF block; otherwise the scan of the three tags in priority order |
| MetadataReader.ScanVideoTags | metadata_reader.py:214-233 | a date from the video scan is valid |
| MetadataReader.ScanVideoTagsFirstHit | metadata_reader.py:214-233 | the video scan gives a date exactly when some tag parses, and it is the first such tag's date |
| MetadataReader.ExtractDateFromVideo | metadata_reader.py:165-246 | no date unless exiftool ran, exited 0 and printed a record; otherwise the scan of the first record |
| MetadataReader.ExtractDateFromMetadata | metadata_reader.py:249-268 | photos use the EXIF reader, videos the exiftool reader, other files have no date |
| MetadataReader.MetadataYearUnchecked | metadata_reader.py:115-162 | a DateTimeOriginal of any four-digit year is returned without a range check |
| FileCopier.ExactDayStartsWithDay | file_copier.py:29-46 | an exact day-folder name also starts with a day date |
| FileCopier.MonthFolderCharacters | file_copier.py:54-56 | a month folder is seven characters, '.' at index 4, only digits and dots, at least one digit |
| FileCopier.MonthFolderAcceptsTwoDots | file_copier.py:54-56 | "2025..8" counts as a month folder |
| FileCopier.FolderLabelsRecognised | file_copier.py:49-56 | folders written for a four-digit-year date pass the year, month and day tests |
| FileCopier.ShortYearNotRecognised | file_copier.py:49-51 | a year below 1000 gives a year folder the tests do not recognise |
| FileCopier.WalkMediaMembers | file_copier.py:83-129 | a path is enumerated exactly when a walked folder that is not skipped lists a visible file with a listed extension |
| FileCopier.GetAllMediaFiles | file_copier.py:83-129 | the walk loop returns the enumeration, in walk order, comparing extensions lower-cased |
| FileCopier.Candidate | file_copier.py:137-143 | every renamed candidate is longer than the original |
| FileCopier.CandidateInjective | file_copier.py:137-143 | different counters give different names |
| FileCopier.CandidatesBound | file_copier.py:141-143 | the probing loop ends: no more names are taken than the folder holds |
| FileCopier.UniqueName | file_copier.py:132-145 | the name is free; it is the original when that is free, else the first free `stem-k.ext` |
| FileCopier.UniqueNameIsFirstFree | file_copier.py:132-145 | no free candidate comes before the chosen one |
| FileCopier.UniqueNameRenamesTaken | file_copier.py:132-145 | a taken name becomes `stem-k.ext` with k from 1 |
| FileCopier.UniqueFilename | file_copier.py:132-145 | the probing loop over the file system returns the unique name for the folder's entries |
| FileCopier.TargetFolder | file_copier.py:180-201 | the target lies below the destination |
| FileCopier.TargetFolderNoDoubleNesting | file_copier.py:180-201 | picking the year or month folder as destination places a file where picking the folder above would |
| FileCopier.TargetFolderRecognised | file_copier.py:180-201 | day grouping puts a file in destination/year/month/day, three folders the smart pass recognises |
| FileCopier.Place | file_copier.py:148-243 | success exactly when a new path is reported and no error; on success the file is now at a free name inside the target with the same content; every error text is non-empty |
| FileCopier.PlaceOutcome | file_copier.py:203-243 | the tree after a placement: the created folders, plus the rename or the copy at the picked free path on success, or the copy a failed move leaves |
| FileCopier.PlaceNeverOverwrites | file_copier.py:204-237 | no existing file changes, except the source of a move; every file outside the picked free path was already there, whether the placement succeeded or not |
| FileCopier.PlaceKeepsFiles | file_copier.py:204-237 | every file that existed keeps its content, except at or below the source of a move |
| FileCopier.PlaceAddsOnlyAtTarget | file_copier.py:204-241 | every file of the new tree outside the picked free path was already there with the same content, whether the placement succeeded or not |
| FileCopier.FailedMoveLeavesCopy | file_copier.py:216-241 | a move out of a read-only folder into a writable one reports the move error, yet the copy stays at the picked path next to the untouched source |
| FileCopier.PlaceSkipNeedsMissingSource | file_copier.py:221-225 | the "identical file" skip only happens for a source that does not exist |
| FileCopier.PlaceFile | file_copier.py:204-243 | the shared steps change the tree and report exactly as `Place` says |
| FileCopier.CopyFileToDestination | file_copier.py:148-243 | a dated file is placed into its target folder |
| FileCopier.CopyFileNoDate | file_copier.py:246-298 | an undated file is placed into the unknown-date folder |
| FileCopier.DayFolders | file_copier.py:340-341 | exactly the listed names that are day-named directories |
| FileCopier.OtherItems | file_copier.py:344-345 | exactly the listed names that are not day-named directories |
| FileCopier.CriterionIsLoneDay | file_copier.py:337-349 | the criterion holds exactly when the month folder's only entry is a day folder |
| FileCopier.MergeMovesEveryItem | file_copier.py:355-368 | every item of the day folder lands under its own free name; the month's entries stay; nothing else appears |
| FileCopier.MergeWithoutClash | file_copier.py:355-368 | without name clashes the month folder ends up with its entries and the day folder's items |
| FileCopier.MergeLiftsDayContents | file_copier.py:355-371 | Year/Month/Day/items becomes Year/Month/items |
| FileCopier.MergeCanQualifyAgain | file_copier.py:304-379 | one pass is not idempotent: a merged month can qualify again |
| FileCopier.CriterionIgnoresMonthPrefix | file_copier.py:333-349 | a day folder of any date qualifies inside a month folder of any other date |
| FileCopier.MoveItemsUp | file_copier.py:357-368 | the move loop moves every item exactly when both folders are writable (an item's own permission is not modelled); otherwise it stops at the first item, which leaves only its fallback copy when it is a file and the month folder is writable |
| FileCopier.MergeDayFolder | file_copier.py:355-377 | a merge succeeds exactly when the model's moves and `rmdir` can, which ignores a read-only sub-folder item; it then leaves the merged month, otherwise the month folder gains at most the copy of the first item |
| FileCopier.RestructureMonth | file_copier.py:326-377 | a merge is attempted exactly when the month folder is month-named and holds a lone day folder; it reports success exactly when the merge can succeed, and the tree shows the merge's outcome |
| FileCopier.RestructureYear | file_copier.py:325-377 | every qualifying month of a year folder is merged once, a failed merge does not stop the loop, and the count is the number of merges that succeed |
| FileCopier.RestructureForSmartMode | file_copier.py:304-379 | an unlistable destination gives no count; otherwise every qualifying month of every year folder is merged, and the successful merges are counted |
| LoggerConfig.NumberedLinesInOrder | logger_config.py:112-113 | the k-th listed error line carries the k-th error numbered from 1 |
| LoggerConfig.ErrorSectionContents | logger_config.py:110-115 | the error section appears exactly when there are errors; it lists the first ten in order, and listed plus reported add up to all errors |
| LoggerConfig.BuildErrorSection | logger_config.py:110-115 | the line-by-line loop builds the error section |
| LoggerConfig.LoggerStats.constructor | logger_config.py:68-74 | every counter starts at zero with no errors |
| LoggerConfig.LoggerStats.IncrementSuccess | logger_config.py:76-78 | only the success counter goes up by one |
| LoggerConfig.LoggerStats.IncrementFailed | logger_config.py:80-84 | the failure counter goes up by one; a non-empty message is appended, an empty one is not |
| LoggerConfig.LoggerStats.IncrementSkipped | logger_config.py:86-88 | only the skipped counter goes up by one |
| LoggerConfig.LoggerStats.IncrementNoDate | logger_config.py:90-92 | only the no-date counter goes up by one |
| LoggerConfig.LoggerStats.SummaryWithoutErrors | logger_config.py:94-118 | the summary has no error section exactly when there are no errors |
| LoggerConfig.LoggerStats.GetSummary | logger_config.py:94-118 | the built text is the summary: heading, counters, error section, ruler |
| MediaOrganizer.DetermineFileDate | media_organizer.py:180-203 | a date found is valid; one that is not the name's date comes from a media file's metadata |
| MediaOrganizer.NameDateWins | media_organizer.py:193-196 | a date in the name wins, whatever the metadata holds |
| MediaOrganizer.MetadataFallback | media_organizer.py:198-203 | without a date in the name the metadata decides; a non-media name has no date |
| MediaOrganizer.InitialGrouping | media_organizer.py:244-255 | the first pass never groups "smart"; other groupings are kept |
| MediaOrganizer.SmartFirstPassIsDayPlacement | media_organizer.py:244-255 | smart mode first places files exactly as day grouping does |
| MediaOrganizer.PlaceByDateOutcome | media_organizer.py:302-350 | a dated file lands in its target or fails; an undated one goes to the unknown-date folder or is skipped without change; failures carry a message |
| MediaOrganizer.CountsAddUp | media_organizer.py:295-353 | every file adds to exactly one counter |
| MediaOrganizer.OneMessagePerFailure | media_organizer.py:318-340 | there are no more error messages than failures |
| MediaOrganizer.ProcessOne | media_organizer.py:295-353 | one file is dated, placed and counted under the counter of its outcome |
| MediaOrganizer.FirstPass | media_organizer.py:295-353 | the loop leaves the tree, counters and errors of the first pass over the files in order, and keeps the error list no longer than the failure count |
| MediaOrganizer.ProcessFiles | media_organizer.py:206-365 | no media changes nothing; otherwise the total is the count found, the counters are the outcomes', and the smart pass runs exactly in smart mode when something was placed, attempting every qualifying month and reporting how many merges succeeded; the error list stays no longer than the failure count |
| MediaOrganizer.FreshCountsAddUp | media_organizer.py:238-353 | with fresh statistics the four counters add up to the total |
| ExifWriter.WriteArgumentsShape | exif_writer.py:54-66 | no backup; every tag gets the same stamp; the file comes last |
| ExifWriter.WriteDateOutcome | exif_writer.py:29-139 | exiftool runs exactly when found and the file exists; success exactly on exit 0, with no message; every failure has a message |
| ExifWriter.WriteDateWithoutRun | exif_writer.py:41-46 | without exiftool or the file, the write fails before any run |
| ExifWriter.WriteDateToFile | exif_writer.py:142-161 | only a media file can be written |
| ExifWriter.WriteDateToFileDispatch | exif_writer.py:154-161 | photos go to the EXIF writer, videos to the video writer, others are refused as unsupported |
| ExifWriter.PhotoWriteCoversReaderTags | exif_writer.py:54-62 | the photo writer sets exactly the three tags the EXIF reader consults |
| ExifWriter.PhotoWriteReadsBack | exif_writer.py:50-62 | a written photo date reads back unchanged |
| ExifWriter.VideoWriteReadsBack | exif_writer.py:106-118 | a written video date reads back unchanged |
| ExifWriter.ScanDecisionWritesOnlyUndated | exif_writer.py:243-278 | a file is skipped exactly when its metadata has a date; it is written only when the metadata has none and the name has one |
| ExifWriter.RescanSkipsUpdatedPhoto | exif_writer.py:243-249 | a second scan skips an updated photo |
| ExifWriter.RescanSkipsUpdatedVideo | exif_writer.py:243-249 | a second scan skips an updated video |
| ExifWriter.Tally | exif_writer.py:182-280 | the total is the file count, and the four outcome counters add up to it |
| ExifWriter.WalkMediaFiles | exif_writer.py:194-199 | exactly the media files of the walk |
| ExifWriter.ListingMediaFiles | exif_writer.py:200-204 | exactly the paths in the folder of the listed names that are regular media files |
| ExifWriter.ListingMediaFilesOfFolder | exif_writer.py:200-204 | over the folder's own listing: exactly the regular media files directly in the folder, each once |
| ExifWriter.ListingMediaFilesDistinct | exif_writer.py:200-204 | a listing without repeated names yields no repeated path |
| ExifWriter.CollectFiles | exif_writer.py:190-204 | the collection loops return the scan's files |
| ExifWriter.DecisionAt | exif_writer.py:239-280 | the k-th decision is the scan's decision for the k-th file |
| ExifWriter.CountDecisions | exif_writer.py:239-280 | the counting loop yields the tally of the decisions in file order |
| ExifWriter.ScanAndUpdateExif | exif_writer.py:164-295 | listing a missing folder without recursion raises (no result); otherwise the result is the tally of every scanned file's decision, and no media files gives all zeros |
| VideoCompressor.CompressedCopyNotCompressible | video_compressor.py:108-114 | a compressed copy is never itself compressed |
| VideoCompressor.WalkJobsMembers | video_compressor.py:99-119 | the jobs are exactly those of the walked folders' names |
| VideoCompressor.WalkJobsAreNew | video_compressor.py:99-119 | every job is a compressible video whose copy is missing and sits next to it |
| VideoCompressor.RescanSkipsCompressed | video_compressor.py:108-117 | once the copy exists a rescan has no job for the video or the copy |
| VideoCompressor.CollectJobs | video_compressor.py:96-119 | the nested walk loops collect exactly the jobs |
| VideoCompressor.CheckDependencies | video_compressor.py:19-29 | ok exactly when both binaries are found, and exactly when the message is empty |
| VideoCompressor.CheckDependenciesMessage | video_compressor.py:19-29 | the message names exactly the missing binaries, ffmpeg first |
| VideoCompressor.CompressOutcome | video_compressor.py:31-81 | success exactly when both binaries exist, ffmpeg exits 0 and exiftool does not raise; exiftool runs only after ffmpeg succeeded |
| VideoCompressor.NoSuccessWithoutFfmpeg | video_compressor.py:36-59 | no ffmpeg, or ffmpeg always failing, means no successes |
| VideoCompressor.CompressAll | video_compressor.py:128-141 | successes are counted, and successes plus failures are all jobs |
| VideoCompressor.ScanAndCompress | video_compressor.py:83-141 | missing binaries stop before the walk; no jobs reports nothing new; otherwise every job is counted once |
| Host.Children | file_copier.py:141 | the listed names are exactly the existing entries |
| Host.SplitExt | file_copier.py:137 | `splitext` splits at the last '.' unless only dots come before it |
| Host.FileSystem.MakeDirs | file_copier.py:204-210 | `makedirs` creates the missing folders or fails, and on success the folder exists |
| Host.FileSystem.Copy | file_copier.py:227-237 | `copy2` succeeds exactly when the source is a file and the folder is writable; it adds the copy |
| Host.FileSystem.Move | file_copier.py:227-237 | `move` succeeds exactly when possible and renames the entry; a failure whose only cause is the unlink of a copied source file leaves the copy at the destination |
| Host.FileSystem.RemoveDir | file_copier.py:371 | `rmdir` only removes an empty folder inside a writable one |
| Host.FileSystem.ListDir | file_copier.py:319 | `listdir` gives each entry once |
| Host.PutFreshFrame | file_copier.py:227-237 | adding an entry at a free place keeps every other file |
| Host.MakeDirsFrame | file_copier.py:204-210 | `makedirs` only adds folders and keeps files |

## Left out

- Interactive menus, prompts and colour output (media_organizer.py:40-177, 398-491): user interface only.
- Progress bars, `print`, logger output, timings and `setup_logger`: output only.
- The log-file path that `process_files` is documented to return: the code returns nothing.
- `validate_paths`: path checks before a run; the model takes its paths as given.
- The macOS notification: outside the program's logic.
- Finding exiftool, ffmpeg and Pillow on the machine: the model takes them as found or missing.
- `abspath` and `normpath`: paths are exact component sequences, so `skip_organized` compares them for equality.
- `copy2`'s copying of timestamps and permissions: file content is a number.
- Metadata written by exiftool and files made by ffmpeg do not change the tree. The read-back lemmas state their effect.
- Exception texts appended to error messages: only the fixed prefix is kept.
- Non-ASCII digits, letters and white space accepted by `isdigit`, `lower`, `\d` and `\s` (such as U+00A0 or U+2003): ASCII only.
- DateExtractor.SeparatorRunEnd: a keyword separator of white space is ASCII white space, U+001C to U+001F included; Unicode spaces beyond ASCII, which `\s` also matches, end the run.
- MetadataReader.ParseStamp: `strptime` also accepts fields without zero padding; the model reads only the fixed-width layout.
- DateExtractor.Search: a hand-written leftmost match stands in for the regular expression engine, one pattern at a time.
- FileCopier.MergeDayFolder: a merge fails in the model only through the permissions of the month and day folders, so it fails at its first move and leaves at most the fallback copy of that item. A read-only, non-empty sub-folder of the day folder makes the source's merge fail at that item, possibly after earlier items have moved (see `Host.FileSystem.Move` below); the model counts such a merge as a success, because `MergeWouldSucceed` does not look at the items' own permissions, and it models no partial merge.
- FileCopier.MoveItemsUp: moves every item whenever the month and day folders are writable, whereas the source stops at a read-only, non-empty sub-folder item, which then stays in the day folder (on Linux, with a copy of it in the month folder), after the items listed before it have moved.
- Host.FileSystem.Move: `CanMove` checks the two parent folders only. rename(2) also needs write permission on a folder that changes parent, to update its `..` entry, so the source's rename of a read-only folder fails and `shutil.move` falls back: on macOS it refuses a non-empty read-only folder, and on Linux it runs `copytree`, whose copy stays, and then `rmtree`, which fails on the folder's entries. The model renames a read-only folder as if it were writable, and it treats any failed folder move as changing nothing. An empty read-only folder ends up moved by the fallback in both systems, as in the model. The organizer moves files, and a merge moves a day folder's items, which are usually files.
- FileCopier.RestructureForSmartMode: an unlistable destination, which raises in the source, is reported as no count.
