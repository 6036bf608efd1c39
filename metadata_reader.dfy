/**
 * Reading a creation date from a file's own metadata: the extension
 * classifiers that decide whether a name is a photo, a video or neither, and
 * the two readers. The EXIF reader tries DateTimeOriginal, DateTime and
 * DateTimeDigitized in that order; the video reader tries five exiftool tags
 * in order and two date layouts for each.
 *
 * What the external libraries and tools return is an input here: the EXIF
 * dictionary Pillow decodes, and the exit status and decoded JSON of the
 * exiftool run. `strptime` is modelled by a fixed-width parser of zero-padded
 * fields.
 */
module MetadataReader {
  import opened Wrappers
  import opened Text
  import opened Calendar
  import opened Host

  const PhotoExtensions: set<string> :=
    {".jpg", ".jpeg", ".png", ".heic", ".heif", ".cr2", ".nef", ".arw", ".dng", ".raw", ".gif", ".tiff", ".tif", ".bmp", ".webp"}

  const VideoExtensions: set<string> :=
    {".mp4", ".mov", ".avi", ".mkv", ".wmv", ".flv", ".m4v", ".3gp", ".mpeg", ".mpg", ".webm", ".mts"}

  /** The lower-cased final extension of a file name, as `os.path.splitext(name)[1].lower()`. */
  function Extension(filename: string): string
  {
    Lower(SplitExt(filename).1)
  }

  predicate IsPhoto(filename: string) { Extension(filename) in PhotoExtensions }

  predicate IsVideo(filename: string) { Extension(filename) in VideoExtensions }

  predicate IsMediaFile(filename: string)
  {
    Extension(filename) in PhotoExtensions || Extension(filename) in VideoExtensions
  }

  /** No extension is both a photo and a video extension. */
  lemma ExtensionSetsDisjoint()
    ensures PhotoExtensions * VideoExtensions == {}
  {
    assert forall e :: e in PhotoExtensions ==> e !in VideoExtensions;
  }

  /** A media file is exactly one of a photo and a video. */
  lemma MediaIsPhotoXorVideo(filename: string)
    ensures IsMediaFile(filename) <==> (IsPhoto(filename) || IsVideo(filename))
    ensures !(IsPhoto(filename) && IsVideo(filename))
  {
    ExtensionSetsDisjoint();
    assert Extension(filename) !in PhotoExtensions * VideoExtensions;
  }

  /** Every media extension starts with a dot, so a media file name has a real extension. */
  lemma MediaFileHasExtension(filename: string)
    requires IsMediaFile(filename)
    ensures '.' in filename && SplitExt(filename).1 != []
  {
    assert Extension(filename) != [];
  }

  /**
   * The layout `"%Y<sep>%m<sep>%d %H:%M:%S"` with every field written in full:
   * 19 characters, separators at positions 4, 7, 10, 13 and 16, digits elsewhere.
   */
  predicate StampShape(s: string, dateSep: char)
  {
    |s| == 19 && s[4] == dateSep && s[7] == dateSep && s[10] == ' ' && s[13] == ':' && s[16] == ':'
    && AllDigits(s[..4]) && AllDigits(s[5..7]) && AllDigits(s[8..10])
    && AllDigits(s[11..13]) && AllDigits(s[14..16]) && AllDigits(s[17..])
  }

  /**
   * `datetime.strptime(s, "%Y<sep>%m<sep>%d %H:%M:%S")` for zero-padded
   * input; `None` where it raises `ValueError`.
   */
  function ParseStamp(s: string, dateSep: char): (r: Option<DateTime>)
    ensures r.Some? ==> StampShape(s, dateSep) && IsDateTime(r.value)
    ensures r.Some? ==> r.value == DateTime(Value(s[..4]), Value(s[5..7]), Value(s[8..10]),
                                            Value(s[11..13]), Value(s[14..16]), Value(s[17..]))
  {
    if StampShape(s, dateSep) then
      MakeDateTime(Value(s[..4]), Value(s[5..7]), Value(s[8..10]), Value(s[11..13]), Value(s[14..16]), Value(s[17..]))
    else None
  }

  /** The EXIF layout "YYYY:MM:DD HH:MM:SS". */
  function ParseExifDate(s: string): Option<DateTime>
  {
    ParseStamp(s, ':')
  }

  /** `s.replace(a, b)` for single characters. */
  function ReplaceChar(s: string, a: char, b: char): (r: string)
    ensures |r| == |s|
    ensures forall i :: 0 <= i < |s| ==> r[i] == if s[i] == a then b else s[i]
  {
    seq(|s|, i requires 0 <= i < |s| => if s[i] == a then b else s[i])
  }

  /**
   * A video date value: first the EXIF layout, then the ISO layout after every
   * 'T' has become a space and everything from the first '.' on is dropped.
   */
  function ParseVideoDate(s: string): (r: Option<DateTime>)
    ensures r.Some? ==> IsDateTime(r.value)
  {
    match ParseExifDate(s)
    case Some(d) => Some(d)
    case None => ParseStamp(Split(ReplaceChar(s, 'T', ' '), '.')[0], '-')
  }

  /**
   * A date-time written in the stamp layout: `strftime("%Y<sep>%m<sep>%d<mid>%H:%M:%S")`.
   * `%Y` is written without padding, as the C library does for years below 1000.
   */
  function FormatStamp(dt: DateTime, dateSep: char, mid: char): (s: string)
    requires IsDateTime(dt)
    ensures dt.year >= 1000 ==> |s| == 19 && s[4] == dateSep && s[7] == dateSep && s[10] == mid
  {
    assert dt.year >= 1000 ==> NatToString(dt.year) == Pad4(dt.year) by {
      if dt.year >= 1000 { NatToStringFourDigits(dt.year); }
    }
    NatToString(dt.year) + [dateSep] + Pad2(dt.month) + [dateSep] + Pad2(dt.day)
      + [mid] + Pad2(dt.hour) + ":" + Pad2(dt.minute) + ":" + Pad2(dt.second)
  }

  /** Where the fields of a stamp laid out from fixed-width pieces sit. */
  lemma StampSlices(y: string, dateSep: char, mo: string, d: string, mid: char, h: string, mi: string, se: string)
    requires |y| == 4 && |mo| == 2 && |d| == 2 && |h| == 2 && |mi| == 2 && |se| == 2
    ensures var s := y + [dateSep] + mo + [dateSep] + d + [mid] + h + ":" + mi + ":" + se;
      |s| == 19 && s[4] == dateSep && s[7] == dateSep && s[10] == mid && s[13] == ':' && s[16] == ':'
      && s[..4] == y && s[5..7] == mo && s[8..10] == d && s[11..13] == h && s[14..16] == mi && s[17..] == se
  {
    var s := y + [dateSep] + mo + [dateSep] + d + [mid] + h + ":" + mi + ":" + se;
    assert s[..4] == y by { assert forall i :: 0 <= i < 4 ==> s[i] == y[i]; }
    assert s[5..7] == mo by { assert forall i :: 0 <= i < 2 ==> s[5 + i] == mo[i]; }
    assert s[8..10] == d by { assert forall i :: 0 <= i < 2 ==> s[8 + i] == d[i]; }
    assert s[11..13] == h by { assert forall i :: 0 <= i < 2 ==> s[11 + i] == h[i]; }
    assert s[14..16] == mi by { assert forall i :: 0 <= i < 2 ==> s[14 + i] == mi[i]; }
    assert s[17..] == se by { assert forall i :: 0 <= i < 2 ==> s[17 + i] == se[i]; }
  }

  /** A stamp of a four-digit year parses back to the same date-time. */
  lemma StampRoundTrip(dt: DateTime, dateSep: char)
    requires IsDateTime(dt) && dt.year >= 1000
    ensures ParseStamp(FormatStamp(dt, dateSep, ' '), dateSep) == Some(dt)
  {
    NatToStringFourDigits(dt.year);
    var y, mo, d, h, mi, se := Pad4(dt.year), Pad2(dt.month), Pad2(dt.day), Pad2(dt.hour), Pad2(dt.minute), Pad2(dt.second);
    StampSlices(y, dateSep, mo, d, ' ', h, mi, se);
    var s := FormatStamp(dt, dateSep, ' ');
    assert s == y + [dateSep] + mo + [dateSep] + d + [' '] + h + ":" + mi + ":" + se;
    assert StampShape(s, dateSep);
  }

  /** The same date-time under two four-digit-year stamps of the same layout is the same text. */
  lemma FormatStampInjective(a: DateTime, b: DateTime, dateSep: char)
    requires IsDateTime(a) && IsDateTime(b) && a.year >= 1000 && b.year >= 1000
    requires FormatStamp(a, dateSep, ' ') == FormatStamp(b, dateSep, ' ')
    ensures a == b
  {
    StampRoundTrip(a, dateSep);
    StampRoundTrip(b, dateSep);
  }

  /** A stamp contains no '.' and no 'T' apart from the chosen middle character. */
  lemma StampCharacters(dt: DateTime, dateSep: char, mid: char)
    requires IsDateTime(dt) && dateSep == '-' && mid != '.'
    ensures '.' !in FormatStamp(dt, dateSep, mid)
    ensures forall i :: 0 <= i < |FormatStamp(dt, dateSep, mid)| && FormatStamp(dt, dateSep, mid)[i] == 'T' ==> mid == 'T'
  {
    var s := FormatStamp(dt, dateSep, mid);
    var y, mo, d, h, mi, se := NatToString(dt.year), Pad2(dt.month), Pad2(dt.day), Pad2(dt.hour), Pad2(dt.minute), Pad2(dt.second);
    assert s == y + ['-'] + mo + ['-'] + d + [mid] + h + ":" + mi + ":" + se;
    assert forall i :: 0 <= i < |s| ==> IsDigit(s[i]) || s[i] in {'-', ':', mid};
  }

  /**
   * An ISO value "YYYY-MM-DDTHH:MM:SS" followed by a '.' and anything at all
   * (fractional seconds, a zone) is read as that date-time: the 'T' becomes a
   * space and everything from the '.' on is dropped.
   */
  lemma VideoIsoWithFraction(dt: DateTime, fraction: string)
    requires IsDateTime(dt) && dt.year >= 1000
    ensures ParseVideoDate(FormatStamp(dt, '-', 'T') + "." + fraction) == Some(dt)
  {
    var iso := FormatStamp(dt, '-', 'T');
    var s := iso + "." + fraction;
    assert ParseExifDate(s).None? by {
      assert s[4] == '-';
    }
    var plain := FormatStamp(dt, '-', ' ');
    StampCharacters(dt, '-', 'T');
    StampCharacters(dt, '-', ' ');
    var replaced := ReplaceChar(s, 'T', ' ');
    assert replaced == plain + "." + ReplaceChar(fraction, 'T', ' ') by {
      NatToStringFourDigits(dt.year);
      assert forall i :: 0 <= i < |iso| && i != 10 ==> iso[i] == plain[i] && iso[i] != 'T';
    }
    SplitCons(plain, '.', ReplaceChar(fraction, 'T', ' '));
    assert plain + "." + ReplaceChar(fraction, 'T', ' ') == plain + ['.'] + ReplaceChar(fraction, 'T', ' ');
    StampRoundTrip(dt, '-');
  }

  /**
   * An ISO value with a suffix that holds no '.', such as a zone "Z" or
   * "+03:00" right after the seconds, is not read at all: only text from a
   * '.' on is dropped, and the remaining text is too long for the layout.
   */
  lemma VideoIsoWithZoneRejected(dt: DateTime, zone: string)
    requires IsDateTime(dt) && dt.year >= 1000
    requires zone != [] && '.' !in zone
    ensures ParseVideoDate(FormatStamp(dt, '-', 'T') + zone) == None
  {
    var s := FormatStamp(dt, '-', 'T') + zone;
    StampCharacters(dt, '-', 'T');
    var replaced := ReplaceChar(s, 'T', ' ');
    assert '.' !in replaced by {
      assert forall i :: 0 <= i < |s| ==> s[i] != '.';
    }
    assert Split(replaced, '.') == [replaced];
  }

  /** A value in a decoded tag dictionary: text, or anything else (a number, a list). */
  datatype TagValue = Text(text: string) | NonText

  /** The EXIF tag numbers of DateTimeOriginal, DateTime and DateTimeDigitized, in priority order. */
  const ExifDateTags: seq<int> := [36867, 306, 36868]

  /** A tag the EXIF reader passes over: absent, or text that does not parse. */
  predicate ExifSkips(tags: map<int, TagValue>, t: int)
  {
    t !in tags || (tags[t].Text? && ParseExifDate(tags[t].text).None?)
  }

  /** A tag at which the EXIF reader stops with a date. */
  predicate ExifHits(tags: map<int, TagValue>, t: int)
  {
    t in tags && tags[t].Text? && ParseExifDate(tags[t].text).Some?
  }

  /**
   * The EXIF reader's scan over `order`. A present non-text value makes
   * `strptime` raise `TypeError`, which the reader's outer handler turns into
   * `None`: the scan stops there without trying later tags.
   */
  function ScanExifTags(tags: map<int, TagValue>, order: seq<int>): (r: Option<DateTime>)
    ensures r.Some? ==> IsDateTime(r.value)
    ensures tags == map[] ==> r.None?
  {
    if order == [] then None
    else if !ExifSkips(tags, order[0]) then
      (if ExifHits(tags, order[0]) then ParseExifDate(tags[order[0]].text) else None)
    else ScanExifTags(tags, order[1..])
  }

  /** The first tag that hits after only skipped tags gives the scan's date. */
  lemma {:induction false} ScanExifTagsAt(tags: map<int, TagValue>, order: seq<int>, k: nat)
    requires k < |order| && ExifHits(tags, order[k]) && forall j :: 0 <= j < k ==> ExifSkips(tags, order[j])
    ensures ScanExifTags(tags, order) == ParseExifDate(tags[order[k]].text)
  {
    if k > 0 {
      assert ExifSkips(tags, order[0]);
      assert forall j :: 0 <= j < k - 1 ==> order[1..][j] == order[j + 1];
      ScanExifTagsAt(tags, order[1..], k - 1);
    }
  }

  /** A date from the scan comes from a tag that hits after only skipped tags. */
  lemma {:induction false} ScanExifTagsWitness(tags: map<int, TagValue>, order: seq<int>)
    requires ScanExifTags(tags, order).Some?
    ensures exists k :: 0 <= k < |order| && ExifHits(tags, order[k]) && forall j :: 0 <= j < k ==> ExifSkips(tags, order[j])
  {
    if ExifSkips(tags, order[0]) {
      var tail := order[1..];
      ScanExifTagsWitness(tags, tail);
      var k :| 0 <= k < |tail| && ExifHits(tags, tail[k]) && forall j :: 0 <= j < k ==> ExifSkips(tags, tail[j]);
      forall j | 0 <= j < k + 1 ensures ExifSkips(tags, order[j]) {
        if j > 0 { assert order[j] == tail[j - 1]; }
      }
      assert order[k + 1] == tail[k];
    } else {
      assert ExifHits(tags, order[0]);
    }
  }

  /**
   * The EXIF scan yields a date exactly when some tag hits after only skipped
   * tags, and then it is the date of the first such tag.
   */
  lemma ScanExifTagsFirstHit(tags: map<int, TagValue>, order: seq<int>)
    ensures ScanExifTags(tags, order).Some? <==>
              exists k :: 0 <= k < |order| && ExifHits(tags, order[k]) && forall j :: 0 <= j < k ==> ExifSkips(tags, order[j])
    ensures forall k :: 0 <= k < |order| && ExifHits(tags, order[k]) && (forall j :: 0 <= j < k ==> ExifSkips(tags, order[j]))
                        ==> ScanExifTags(tags, order) == ParseExifDate(tags[order[k]].text)
  {
    if ScanExifTags(tags, order).Some? {
      ScanExifTagsWitness(tags, order);
    }
    forall k | 0 <= k < |order| && ExifHits(tags, order[k]) && (forall j :: 0 <= j < k ==> ExifSkips(tags, order[j]))
      ensures ScanExifTags(tags, order) == ParseExifDate(tags[order[k]].text)
    {
      ScanExifTagsAt(tags, order, k);
    }
  }

  /** What Pillow yields for a photo: nothing usable (open failed, or no EXIF block), or the decoded tags. */
  datatype ExifRead = Unreadable | Tags(tags: map<int, TagValue>)

  /**
   * `extract_date_from_exif`: `None` when Pillow is missing, the file is
   * missing, the image cannot be read or carries no EXIF; otherwise the scan
   * over the three date tags.
   */
  function ExtractDateFromExif(pilAvailable: bool, fileExists: bool, exif: ExifRead): (r: Option<DateTime>)
    ensures r.Some? ==> pilAvailable && fileExists && exif.Tags? && |exif.tags| > 0
    ensures r.Some? ==> IsDateTime(r.value)
    ensures pilAvailable && fileExists && exif.Tags? ==> r == ScanExifTags(exif.tags, ExifDateTags)
  {
    if !pilAvailable || !fileExists then None
    else match exif
      case Unreadable => None
      case Tags(tags) => if tags == map[] then None else ScanExifTags(tags, ExifDateTags)
  }

  /** The exiftool tags the video reader consults, in priority order. */
  const VideoDateTags: seq<string> :=
    ["QuickTime:CreateDate", "QuickTime:MediaCreateDate", "QuickTime:TrackCreateDate", "Keys:CreationDate", "QuickTime:CreationDate"]

  /** A tag at which the video reader stops with a date. */
  predicate VideoHits(md: map<string, TagValue>, t: string)
  {
    t in md && md[t].Text? && ParseVideoDate(md[t].text).Some?
  }

  /** The video reader's scan: absent tags, non-text values and unparsable text are all passed over. */
  function ScanVideoTags(md: map<string, TagValue>, order: seq<string>): (r: Option<DateTime>)
    ensures r.Some? ==> IsDateTime(r.value)
  {
    if order == [] then None
    else if VideoHits(md, order[0]) then ParseVideoDate(md[order[0]].text)
    else ScanVideoTags(md, order[1..])
  }

  /** The first tag that hits gives the scan's date. */
  lemma {:induction false} ScanVideoTagsAt(md: map<string, TagValue>, order: seq<string>, k: nat)
    requires k < |order| && VideoHits(md, order[k]) && forall j :: 0 <= j < k ==> !VideoHits(md, order[j])
    ensures ScanVideoTags(md, order) == ParseVideoDate(md[order[k]].text)
  {
    if k > 0 {
      assert !VideoHits(md, order[0]);
      assert forall j :: 0 <= j < k - 1 ==> order[1..][j] == order[j + 1];
      ScanVideoTagsAt(md, order[1..], k - 1);
    }
  }

  /** A date from the scan comes from a tag that hits. */
  lemma {:induction false} ScanVideoTagsWitness(md: map<string, TagValue>, order: seq<string>)
    requires ScanVideoTags(md, order).Some?
    ensures exists k :: 0 <= k < |order| && VideoHits(md, order[k])
  {
    if !VideoHits(md, order[0]) {
      var tail := order[1..];
      ScanVideoTagsWitness(md, tail);
      var k :| 0 <= k < |tail| && VideoHits(md, tail[k]);
      assert order[k + 1] == tail[k];
    }
  }

  /**
   * The video scan yields a date exactly when some tag hits, and then it is
   * the date of the first tag that hits.
   */
  lemma ScanVideoTagsFirstHit(md: map<string, TagValue>, order: seq<string>)
    ensures ScanVideoTags(md, order).Some? <==> exists k :: 0 <= k < |order| && VideoHits(md, order[k])
    ensures forall k :: 0 <= k < |order| && VideoHits(md, order[k]) && (forall j :: 0 <= j < k ==> !VideoHits(md, order[j]))
                        ==> ScanVideoTags(md, order) == ParseVideoDate(md[order[k]].text)
  {
    if ScanVideoTags(md, order).Some? {
      ScanVideoTagsWitness(md, order);
    }
    forall k | 0 <= k < |order| && VideoHits(md, order[k]) && (forall j :: 0 <= j < k ==> !VideoHits(md, order[j]))
      ensures ScanVideoTags(md, order) == ParseVideoDate(md[order[k]].text)
    {
      ScanVideoTagsAt(md, order, k);
    }
    if exists k :: 0 <= k < |order| && VideoHits(md, order[k]) {
      var k :| 0 <= k < |order| && VideoHits(md, order[k]);
      FirstVideoHit(md, order, k);
    }
  }

  /** Below any tag that hits there is a first one that hits. */
  lemma {:induction false} FirstVideoHit(md: map<string, TagValue>, order: seq<string>, k: nat)
    requires k < |order| && VideoHits(md, order[k])
    ensures ScanVideoTags(md, order).Some?
  {
    if !VideoHits(md, order[0]) {
      assert k > 0 && order[1..][k - 1] == order[k];
      FirstVideoHit(md, order[1..], k - 1);
    }
  }

  /** The decoded JSON exiftool prints: not JSON at all, or a list of per-file tag dictionaries. */
  datatype JsonOutput = Malformed | Records(records: seq<map<string, TagValue>>)

  /** How the exiftool run ended. */
  datatype ToolRun = TimedOut | Crashed | Exited(returnCode: int, output: JsonOutput)

  /**
   * `extract_date_from_video_exiftool`: `None` when exiftool is missing, the
   * file is missing, the run fails in any way or prints no record; otherwise
   * the scan of the first record.
   */
  function ExtractDateFromVideo(toolFound: bool, fileExists: bool, run: ToolRun): (r: Option<DateTime>)
    ensures r.Some? ==> toolFound && fileExists && run.Exited? && run.returnCode == 0
                        && run.output.Records? && |run.output.records| > 0
    ensures r.Some? ==> IsDateTime(r.value)
    ensures toolFound && fileExists && run.Exited? && run.returnCode == 0 && run.output.Records? && |run.output.records| > 0
            ==> r == ScanVideoTags(run.output.records[0], VideoDateTags)
  {
    if !toolFound || !fileExists then None
    else match run
      case TimedOut => None
      case Crashed => None
      case Exited(code, out) =>
        if code != 0 then None
        else match out
          case Malformed => None
          case Records(rs) => if |rs| == 0 then None else ScanVideoTags(rs[0], VideoDateTags)
  }

  /** Whether Pillow and exiftool are available. */
  datatype Tools = Tools(pilAvailable: bool, exiftoolFound: bool)

  /** What the readers would see for one file: Pillow's EXIF and the exiftool run. */
  datatype Probe = Probe(exif: ExifRead, video: ToolRun)

  /**
   * `extract_date_from_metadata`: photos go to the EXIF reader, videos to the
   * exiftool reader, anything else has no metadata date.
   */
  function ExtractDateFromMetadata(tools: Tools, fileExists: bool, path: Path, probe: Probe): (r: Option<DateTime>)
    ensures r.Some? ==> IsMediaFile(Basename(path)) && IsDateTime(r.value)
    ensures IsPhoto(Basename(path)) ==> r == ExtractDateFromExif(tools.pilAvailable, fileExists, probe.exif)
    ensures IsVideo(Basename(path)) ==> r == ExtractDateFromVideo(tools.exiftoolFound, fileExists, probe.video)
  {
    var filename := Basename(path);
    MediaIsPhotoXorVideo(filename);
    if IsPhoto(filename) then ExtractDateFromExif(tools.pilAvailable, fileExists, probe.exif)
    else if IsVideo(filename) then ExtractDateFromVideo(tools.exiftoolFound, fileExists, probe.video)
    else None
  }

  /**
   * Metadata dates are not range-checked: any date-time with a four-digit
   * year stored as DateTimeOriginal is returned, including years outside
   * the 1900-2099 window the filename rules enforce.
   */
  lemma MetadataYearUnchecked(dt: DateTime)
    requires IsDateTime(dt) && dt.year >= 1000
    ensures ExtractDateFromExif(true, true, Tags(map[36867 := Text(FormatStamp(dt, ':', ' '))])) == Some(dt)
  {
    StampRoundTrip(dt, ':');
    var tags := map[36867 := Text(FormatStamp(dt, ':', ' '))];
    assert ExifHits(tags, ExifDateTags[0]);
  }
}
