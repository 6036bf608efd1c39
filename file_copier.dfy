/**
 * Placing files into the dated folder tree and tidying it afterwards: the
 * folder-name tests, the media-file enumeration, the duplicate-free naming of
 * a placed file, the choice of target folder, copying or moving one file
 * into place (with or without a date), and the second pass of the smart mode
 * that folds a month's only day folder into the month.
 */
module FileCopier {
  import opened Wrappers
  import opened Text
  import opened Calendar
  import opened Host
  import DateExtractor

  /** The folder under the destination that receives files without a date. */
  const UnknownDateFolder: string := "Дата неизвестна"

  /** A name is exactly a day folder: ten characters, three non-empty digit parts between '.'. */
  predicate IsExactDayFolder(name: string)
  {
    var parts := Split(name, '.');
    |parts| == 3 && (forall k :: 0 <= k < 3 ==> IsDigitString(parts[k])) && |name| == 10
  }

  /** A name begins with a day folder's ten characters, like "2023.08.13 Half marathon". */
  predicate StartsWithDayDate(name: string)
  {
    |name| >= 10 &&
    var parts := Split(name[..10], '.');
    |parts| == 3 && forall k :: 0 <= k < 3 ==> IsDigitString(parts[k])
  }

  /** A year folder: exactly four digits. */
  predicate IsYearFolder(name: string)
  {
    |name| == 4 && IsDigitString(name)
  }

  /** A month folder: seven characters, '.' at position 4, digits once the dots are taken out. */
  predicate IsMonthFolder(name: string)
  {
    |name| == 7 && IsDigitString(RemoveChar(name, '.')) && name[4] == '.'
  }

  /** An exact day folder name also starts with a day date. */
  lemma ExactDayStartsWithDay(name: string)
    requires IsExactDayFolder(name)
    ensures StartsWithDayDate(name)
  {
    assert name[..10] == name;
  }

  /**
   * The month test in characters: seven characters, '.' at position 4, all
   * others digits or '.', and at least one digit. So "2025..8" passes, and the
   * month number is not range-checked.
   */
  lemma MonthFolderCharacters(name: string)
    ensures IsMonthFolder(name) <==>
              |name| == 7 && name[4] == '.'
              && (forall i :: 0 <= i < |name| ==> IsDigit(name[i]) || name[i] == '.')
              && exists i :: 0 <= i < |name| && IsDigit(name[i])
  {
    var r := RemoveChar(name, '.');
    if |name| == 7 && name[4] == '.' {
      if forall i :: 0 <= i < |name| ==> IsDigit(name[i]) || name[i] == '.' {
        if exists i :: 0 <= i < |name| && IsDigit(name[i]) {
          var i :| 0 <= i < |name| && IsDigit(name[i]);
          assert name[i] in r;
        }
        forall j | 0 <= j < |r| ensures IsDigit(r[j]) {
          assert r[j] in r;
        }
      }
      if IsDigitString(r) {
        assert r[0] in name;
        forall i | 0 <= i < |name| && name[i] != '.'
          ensures IsDigit(name[i])
        {
          assert name[i] in r;
        }
      }
    }
  }

  /** The lenient month test accepts a name with two dots. */
  lemma MonthFolderAcceptsTwoDots()
    ensures IsMonthFolder("2025..8")
  {
    MonthFolderCharacters("2025..8");
    assert IsDigit("2025..8"[0]);
  }

  /**
   * Folders written for a date with a four-digit year are recognised by the
   * tests the consolidation pass applies: the year label is a year folder,
   * the month label a month folder, the day label an exact day folder.
   */
  lemma FolderLabelsRecognised(dt: DateTime)
    requires IsDateTime(dt) && dt.year >= 1000
    ensures var (year, month, day) := DateExtractor.FormatDateForFolder(dt);
            IsYearFolder(year) && IsMonthFolder(month) && IsExactDayFolder(day) && StartsWithDayDate(day)
  {
    var (year, month, day) := DateExtractor.FormatDateForFolder(dt);
    NatToStringFourDigits(dt.year);
    DateExtractor.FolderLabelsParseBack(dt);
    MonthLabelRecognised(year, Pad2(dt.month));
    ExactDayStartsWithDay(day);
  }

  /** A four-digit year, a dot and a two-digit month make a month folder name. */
  lemma MonthLabelRecognised(year: string, mm: string)
    requires |year| == 4 && AllDigits(year) && |mm| == 2 && AllDigits(mm)
    ensures IsMonthFolder(year + "." + mm)
  {
    var month := year + "." + mm;
    MonthFolderCharacters(month);
    forall i | 0 <= i < |month| ensures IsDigit(month[i]) || month[i] == '.' {
      if i < 4 { assert month[i] == year[i]; }
      else if i > 4 { assert month[i] == mm[i - 5]; }
    }
    assert IsDigit(month[0]);
  }

  /** A year below 1000 gives a year label the consolidation pass does not recognise. */
  lemma ShortYearNotRecognised(dt: DateTime)
    requires IsDateTime(dt) && dt.year < 1000
    ensures !IsYearFolder(DateExtractor.FormatDateForFolder(dt).0)
  {
    var n := dt.year;
    if n >= 100 {
      assert NatToString(n / 10) == NatToString(n / 100) + [DigitChar(n / 10 % 10)];
    } else if n >= 10 {
      assert NatToString(n) == NatToString(n / 10) + [DigitChar(n % 10)];
    }
  }

  // ---------------------------------------------------------------------
  // Enumerating the media files under the source folder.
  // ---------------------------------------------------------------------

  /** A file of one walked folder that the enumeration keeps: not hidden, with a listed extension. */
  predicate KeepsFile(file: string, lowerExtensions: set<string>)
  {
    !StartsWith(file, ".") && Lower(SplitExt(file).1) in lowerExtensions
  }

  /** Whether the enumeration passes over the files directly inside a walked folder. */
  predicate SkipsFolder(folder: Path, skipOrganized: bool)
  {
    skipOrganized && StartsWithDayDate(Basename(folder))
  }

  /** The kept files of one walked folder, as full paths, in listing order. */
  function FolderMedia(folder: Path, files: seq<string>, lowerExtensions: set<string>): seq<Path>
  {
    if files == [] then []
    else
      var f := files[|files| - 1];
      FolderMedia(folder, files[..|files| - 1], lowerExtensions) + (if KeepsFile(f, lowerExtensions) then [folder + [f]] else [])
  }

  /** Every kept file of the folder is among its kept paths. */
  lemma {:induction false} FolderMediaHas(folder: Path, files: seq<string>, lowerExtensions: set<string>, f: string)
    requires f in files && KeepsFile(f, lowerExtensions)
    ensures folder + [f] in FolderMedia(folder, files, lowerExtensions)
  {
    var init := files[..|files| - 1];
    if f != files[|files| - 1] {
      assert files == init + [files[|files| - 1]];
      FolderMediaHas(folder, init, lowerExtensions, f);
    }
  }

  /** Every kept path of the folder comes from a kept file it lists. */
  lemma {:induction false} FolderMediaFrom(folder: Path, files: seq<string>, lowerExtensions: set<string>, p: Path)
    requires p in FolderMedia(folder, files, lowerExtensions)
    ensures exists f :: f in files && KeepsFile(f, lowerExtensions) && p == folder + [f]
  {
    var init := files[..|files| - 1];
    var last := files[|files| - 1];
    assert files == init + [last];
    if p in FolderMedia(folder, init, lowerExtensions) {
      FolderMediaFrom(folder, init, lowerExtensions, p);
      var f :| f in init && KeepsFile(f, lowerExtensions) && p == folder + [f];
      assert f in files;
    } else {
      assert KeepsFile(last, lowerExtensions) && p == folder + [last];
    }
  }

  /** The enumeration of one walked folder: nothing when it is passed over, its kept files otherwise. */
  function EntryMedia(entry: WalkEntry, lowerExtensions: set<string>, skipOrganized: bool): seq<Path>
  {
    if SkipsFolder(entry.folder, skipOrganized) then [] else FolderMedia(entry.folder, entry.files, lowerExtensions)
  }

  /** The enumeration over a whole walk, folder by folder in walk order. */
  function WalkMedia(walk: seq<WalkEntry>, lowerExtensions: set<string>, skipOrganized: bool): seq<Path>
  {
    if walk == [] then []
    else WalkMedia(walk[..|walk| - 1], lowerExtensions, skipOrganized) + EntryMedia(walk[|walk| - 1], lowerExtensions, skipOrganized)
  }

  /** What the walk enumerated before its last folder stays enumerated. */
  lemma WalkMediaKeepsFront(walk: seq<WalkEntry>, lowerExtensions: set<string>, skipOrganized: bool, p: Path)
    requires walk != [] && p in WalkMedia(walk[..|walk| - 1], lowerExtensions, skipOrganized)
    ensures p in WalkMedia(walk, lowerExtensions, skipOrganized)
  {
    var front := WalkMedia(walk[..|walk| - 1], lowerExtensions, skipOrganized);
    var tail := EntryMedia(walk[|walk| - 1], lowerExtensions, skipOrganized);
    assert WalkMedia(walk, lowerExtensions, skipOrganized) == front + tail;
    var k :| 0 <= k < |front| && front[k] == p;
    assert (front + tail)[k] == p;
  }

  /** Every kept file of the last walked folder is enumerated, unless that folder is passed over. */
  lemma WalkMediaHasLast(walk: seq<WalkEntry>, lowerExtensions: set<string>, skipOrganized: bool, f: string)
    requires walk != [] && !SkipsFolder(walk[|walk| - 1].folder, skipOrganized)
    requires f in walk[|walk| - 1].files && KeepsFile(f, lowerExtensions)
    ensures walk[|walk| - 1].folder + [f] in WalkMedia(walk, lowerExtensions, skipOrganized)
  {
    var last := walk[|walk| - 1];
    var p := last.folder + [f];
    var front := WalkMedia(walk[..|walk| - 1], lowerExtensions, skipOrganized);
    var tail := EntryMedia(last, lowerExtensions, skipOrganized);
    assert WalkMedia(walk, lowerExtensions, skipOrganized) == front + tail;
    assert tail == FolderMedia(last.folder, last.files, lowerExtensions);
    FolderMediaHas(last.folder, last.files, lowerExtensions, f);
    var k :| 0 <= k < |tail| && tail[k] == p;
    assert (front + tail)[|front| + k] == p;
  }

  /** Every kept file of a walked folder that is not passed over is enumerated. */
  lemma {:induction false} WalkMediaHas(walk: seq<WalkEntry>, lowerExtensions: set<string>, skipOrganized: bool, i: nat, f: string)
    requires i < |walk| && !SkipsFolder(walk[i].folder, skipOrganized)
    requires f in walk[i].files && KeepsFile(f, lowerExtensions)
    ensures walk[i].folder + [f] in WalkMedia(walk, lowerExtensions, skipOrganized)
  {
    var init := walk[..|walk| - 1];
    if i < |init| {
      assert init[i] == walk[i];
      WalkMediaHas(init, lowerExtensions, skipOrganized, i, f);
      WalkMediaKeepsFront(walk, lowerExtensions, skipOrganized, walk[i].folder + [f]);
    } else {
      WalkMediaHasLast(walk, lowerExtensions, skipOrganized, f);
    }
  }

  /** Every enumerated path comes from a kept file of a walked folder that is not passed over. */
  lemma {:induction false} WalkMediaFrom(walk: seq<WalkEntry>, lowerExtensions: set<string>, skipOrganized: bool, p: Path)
    requires p in WalkMedia(walk, lowerExtensions, skipOrganized)
    ensures exists i, f :: 0 <= i < |walk| && !SkipsFolder(walk[i].folder, skipOrganized)
                           && f in walk[i].files && KeepsFile(f, lowerExtensions) && p == walk[i].folder + [f]
  {
    var init := walk[..|walk| - 1];
    var last := walk[|walk| - 1];
    if p in WalkMedia(init, lowerExtensions, skipOrganized) {
      WalkMediaFrom(init, lowerExtensions, skipOrganized, p);
      var i, f :| 0 <= i < |init| && !SkipsFolder(init[i].folder, skipOrganized)
                  && f in init[i].files && KeepsFile(f, lowerExtensions) && p == init[i].folder + [f];
      assert walk[i] == init[i];
    } else {
      assert !SkipsFolder(last.folder, skipOrganized) && p in FolderMedia(last.folder, last.files, lowerExtensions);
      FolderMediaFrom(last.folder, last.files, lowerExtensions, p);
    }
  }

  /**
   * A path is enumerated exactly when some walked folder that is not passed
   * over lists a kept file of that name. Subfolders of a passed-over folder
   * are separate walk entries and still count.
   */
  lemma WalkMediaMembers(walk: seq<WalkEntry>, lowerExtensions: set<string>, skipOrganized: bool, p: Path)
    ensures p in WalkMedia(walk, lowerExtensions, skipOrganized) <==>
            exists i, f :: 0 <= i < |walk| && !SkipsFolder(walk[i].folder, skipOrganized)
                           && f in walk[i].files && KeepsFile(f, lowerExtensions) && p == walk[i].folder + [f]
  {
    if p in WalkMedia(walk, lowerExtensions, skipOrganized) {
      WalkMediaFrom(walk, lowerExtensions, skipOrganized, p);
    } else {
      forall i, f | 0 <= i < |walk| && !SkipsFolder(walk[i].folder, skipOrganized)
                    && f in walk[i].files && KeepsFile(f, lowerExtensions)
        ensures p != walk[i].folder + [f]
      {
        WalkMediaHas(walk, lowerExtensions, skipOrganized, i, f);
      }
    }
  }

  /**
   * `get_all_media_files`: the media files of the walk, in walk order, with
   * extensions compared after lower-casing both sides.
   */
  method GetAllMediaFiles(walk: seq<WalkEntry>, extensions: set<string>, skipOrganized: bool) returns (mediaFiles: seq<Path>)
    ensures mediaFiles == WalkMedia(walk, set e | e in extensions :: Lower(e), skipOrganized)
  {
    var lowerExtensions := set e | e in extensions :: Lower(e);
    mediaFiles := [];
    var i := 0;
    while i < |walk|
      invariant 0 <= i <= |walk|
      invariant mediaFiles == WalkMedia(walk[..i], lowerExtensions, skipOrganized)
    {
      var entry := walk[i];
      assert walk[..i + 1][..i] == walk[..i];
      if !SkipsFolder(entry.folder, skipOrganized) {
        var kept := KeptFiles(entry.folder, entry.files, lowerExtensions);
        mediaFiles := mediaFiles + kept;
      }
      i := i + 1;
    }
    assert walk[..i] == walk;
  }

  /** The inner loop of `get_all_media_files` over one folder's file names. */
  method KeptFiles(folder: Path, files: seq<string>, lowerExtensions: set<string>) returns (kept: seq<Path>)
    ensures kept == FolderMedia(folder, files, lowerExtensions)
  {
    kept := [];
    var j := 0;
    while j < |files|
      invariant 0 <= j <= |files|
      invariant kept == FolderMedia(folder, files[..j], lowerExtensions)
    {
      var file := files[j];
      assert files[..j + 1][..j] == files[..j];
      if !StartsWith(file, ".") {
        var ext := Lower(SplitExt(file).1);
        if ext in lowerExtensions {
          kept := kept + [folder + [file]];
        }
      }
      j := j + 1;
    }
    assert files[..j] == files;
  }

  // ---------------------------------------------------------------------
  // Duplicate-free names.
  // ---------------------------------------------------------------------

  /** The `k`-th name tried for `original`: the name itself, then stem + "-k" + extension. */
  function Candidate(original: string, k: nat): (name: string)
    ensures k > 0 ==> |name| > |original|
  {
    if k == 0 then original
    else
      var (stem, ext) := SplitExt(original);
      stem + "-" + NatToString(k) + ext
  }

  /** Different probes give different names. */
  lemma CandidateInjective(original: string, a: nat, b: nat)
    requires Candidate(original, a) == Candidate(original, b)
    ensures a == b
  {
    if a != 0 && b != 0 {
      var (stem, ext) := SplitExt(original);
      var na, nb := NatToString(a), NatToString(b);
      var ca, cb := Candidate(original, a), Candidate(original, b);
      assert |na| == |nb|;
      assert ca[|stem| + 1..|stem| + 1 + |na|] == na;
      assert cb[|stem| + 1..|stem| + 1 + |nb|] == nb;
      NatToStringInjective(a, b);
    }
  }

  /** The names of the first `k` probes. */
  ghost function Probes(original: string, k: nat): (names: set<string>)
    ensures forall j :: 0 <= j < k ==> Candidate(original, j) in names
  {
    if k == 0 then {} else Probes(original, k - 1) + {Candidate(original, k - 1)}
  }

  /** The first `k` probes are `k` different names. */
  lemma {:induction false} ProbesSize(original: string, k: nat)
    ensures |Probes(original, k)| == k
  {
    if k > 0 {
      ProbesSize(original, k - 1);
      ProbesMembers(original, k - 1, Candidate(original, k - 1));
      if Candidate(original, k - 1) in Probes(original, k - 1) {
        var j :| 0 <= j < k - 1 && Candidate(original, k - 1) == Candidate(original, j);
        CandidateInjective(original, j, k - 1);
      }
    }
  }

  /** Only probes are among the first `k` probes. */
  lemma {:induction false} ProbesMembers(original: string, k: nat, x: string)
    ensures x in Probes(original, k) ==> exists j :: 0 <= j < k && x == Candidate(original, j)
  {
    if k > 0 {
      ProbesMembers(original, k - 1, x);
    }
  }

  /** If the first `k` probes are all taken, there are at least `k` taken names. */
  lemma CandidatesBound(taken: set<string>, original: string, k: nat)
    requires forall i :: 0 <= i < k ==> Candidate(original, i) in taken
    ensures k <= |taken|
  {
    var probed := Probes(original, k);
    ProbesSize(original, k);
    forall x | x in probed ensures x in taken {
      ProbesMembers(original, k, x);
    }
    assert taken == probed + (taken - probed);
    assert probed * (taken - probed) == {};
  }

  /** The first free probe at or after `k`, given that all probes before `k` are taken. */
  function FirstFree(taken: set<string>, original: string, k: nat): (j: nat)
    requires forall i :: 0 <= i < k ==> Candidate(original, i) in taken
    ensures k <= j && Candidate(original, j) !in taken
    ensures forall i :: 0 <= i < j ==> Candidate(original, i) in taken
    decreases |taken| - k
  {
    if Candidate(original, k) !in taken then k
    else
      CandidatesBound(taken, original, k + 1);
      FirstFree(taken, original, k + 1)
  }

  /** The name `_get_unique_filename` settles on, given the names already in the folder. */
  function UniqueName(taken: set<string>, original: string): (name: string)
    ensures name !in taken
    ensures original !in taken ==> name == original
    ensures exists k: nat :: name == Candidate(original, k) && forall i :: 0 <= i < k ==> Candidate(original, i) in taken
  {
    Candidate(original, FirstFree(taken, original, 0))
  }

  /** The chosen name is the first free probe: every free probe comes no earlier. */
  lemma UniqueNameIsFirstFree(taken: set<string>, original: string, k: nat)
    requires Candidate(original, k) !in taken
    ensures exists j: nat :: j <= k && UniqueName(taken, original) == Candidate(original, j)
  {
    var j := FirstFree(taken, original, 0);
    assert j <= k;
  }

  /** A taken name is never kept: the result is stem + "-k" + extension for some k from 1 on. */
  lemma UniqueNameRenamesTaken(taken: set<string>, original: string)
    requires original in taken
    ensures exists k: nat :: k >= 1 && UniqueName(taken, original) == SplitExt(original).0 + "-" + NatToString(k) + SplitExt(original).1
  {
    var j := FirstFree(taken, original, 0);
    assert j >= 1;
  }

  /**
   * `_get_unique_filename`: probe `folder/original`, then `folder/stem-1.ext`,
   * `folder/stem-2.ext`, ... until a name is free.
   */
  method UniqueFilename(fs: FileSystem, folder: Path, original: string) returns (name: string)
    ensures name == UniqueName(Children(fs.root, folder), original)
  {
    ghost var taken := Children(fs.root, folder);
    var (stem, ext) := SplitExt(original);
    name := original;
    var counter := 1;
    while Exists(fs.root, folder + [name])
      invariant counter >= 1
      invariant name == Candidate(original, counter - 1)
      invariant forall i :: 0 <= i < counter - 1 ==> Candidate(original, i) in taken
      decreases |taken| - counter
    {
      CandidatesBound(taken, original, counter);
      name := stem + "-" + NatToString(counter) + ext;
      counter := counter + 1;
    }
    var j := FirstFree(taken, original, 0);
    assert j == counter - 1;
  }

  // ---------------------------------------------------------------------
  // Placing one file.
  // ---------------------------------------------------------------------

  /** The folder layout chosen by the user; any grouping other than day or smart behaves as by-month. */
  datatype Grouping = ByMonth | ByDay | Smart

  /**
   * The folder a dated file goes to, given the year, month and day labels.
   * A destination that already is the month folder or the year folder is not
   * nested again.
   */
  function TargetFolder(dest: Path, year: string, month: string, day: string, grouping: Grouping): (target: Path)
    ensures IsPrefix(dest, target)
  {
    var dayLevel := grouping == ByDay || grouping == Smart;
    var base := Basename(dest);
    if base == month then (if dayLevel then dest + [day] else dest)
    else if base == year then (if dayLevel then dest + [month, day] else dest + [month])
    else (if dayLevel then dest + [year, month, day] else dest + [year, month])
  }

  /**
   * No double nesting: choosing the year folder or the month folder itself as
   * destination places a file exactly where choosing the folder above the
   * year folder would.
   */
  lemma TargetFolderNoDoubleNesting(root: Path, dt: DateTime, grouping: Grouping)
    requires IsDateTime(dt)
    requires var (year, month, _) := DateExtractor.FormatDateForFolder(dt);
             Basename(root) != year && Basename(root) != month
    ensures var (year, month, day) := DateExtractor.FormatDateForFolder(dt);
            TargetFolder(root + [year], year, month, day, grouping) == TargetFolder(root, year, month, day, grouping)
            && TargetFolder(root + [year, month], year, month, day, grouping) == TargetFolder(root, year, month, day, grouping)
  {
    var (year, month, day) := DateExtractor.FormatDateForFolder(dt);
    assert |month| != |year|;
    assert root + [year] + [month] == root + [year, month];
    assert root + [year] + [month, day] == root + [year, month, day];
    assert root + [year, month] + [day] == root + [year, month, day];
  }

  /**
   * With day-level grouping and a plain destination, a file of a four-digit
   * year lands in destination/year/month/day, three folders the consolidation
   * pass recognises.
   */
  lemma TargetFolderRecognised(dest: Path, dt: DateTime, grouping: Grouping)
    requires IsDateTime(dt) && dt.year >= 1000 && grouping != ByMonth
    requires var (year, month, _) := DateExtractor.FormatDateForFolder(dt);
             Basename(dest) != year && Basename(dest) != month
    ensures var (year, month, day) := DateExtractor.FormatDateForFolder(dt);
            var target := TargetFolder(dest, year, month, day, grouping);
            target == dest + [year, month, day]
            && IsYearFolder(target[|dest|]) && IsMonthFolder(target[|dest| + 1]) && IsExactDayFolder(target[|dest| + 2])
  {
    FolderLabelsRecognised(dt);
  }

  /** What a copy or move of one file reports: success, the new path, and an error text. */
  datatype CopyResult = CopyResult(success: bool, newPath: Option<Path>, error: Option<string>)

  /** The report for a file that reached `path`. */
  function Placed(path: Path): CopyResult
  {
    CopyResult(true, Some(path), None)
  }

  /** The report for a file that was not placed. */
  function NotPlaced(message: string): CopyResult
  {
    CopyResult(false, None, Some(message))
  }

  /** The text reported when a move would put a file onto itself. */
  const SkipMessage: string := "Пропущено" + " (идентичный файл, перемещение не требуется)"

  /** The text reported when the target folder cannot be created (the exception text that follows is not modelled). */
  function FolderErrorMessage(folder: Path): string
  {
    "Ошибка создания папки " + PathText(folder)
  }

  /** The text reported when the copy or move fails (the exception text that follows is not modelled). */
  function OperationErrorMessage(move: bool): string
  {
    if move then "Ошибка перемещение файла" else "Ошибка копирование файла"
  }

  /**
   * Placing `file` into `target`: create the folder, pick a free name, refuse
   * to move a file onto itself, then copy or move.
   */
  function Place(root: Node, file: Path, target: Path, move: bool): (r: (Node, CopyResult))
    ensures r.1.success <==> r.1.newPath.Some?
    ensures r.1.success <==> r.1.error.None?
    ensures r.1.error.Some? ==> r.1.error.value != ""
    ensures r.1.success ==> var dst := r.1.newPath.value;
                            |dst| == |target| + 1 && dst[..|target|] == target
                            && !Exists(root, dst) && Exists(root, file) && Get(r.0, dst) == Get(root, file)
  {
    var made := MakeDirsFrom(root, target, 0);
    var root1 := made.0;
    if !made.1 then (root1, NotPlaced(FolderErrorMessage(target)))
    else
      var name := UniqueName(Children(root1, target), Basename(file));
      var dst := target + [name];
      assert Parent(dst) == target;
      MakeDirsFrame(root, target, 0, dst);
      if move && file == dst then (root1, NotPlaced(SkipMessage))
      else if move then
        if CanMove(root1, file, dst) then
          MakeDirsKeeps(root, target, 0, file);
          assert IsDir(Remove(root1, file), target) by {
            if IsPrefix(target, file) {
              GetRemoveAbove(root1, file, target);
            } else {
              GetRemoveDisjoint(root1, file, target);
            }
          }
          GetPutSame(Remove(root1, file), dst, Get(root1, file).value);
          (Moved(root1, file, dst), Placed(dst))
        else if CopiesOnFailedMove(root1, file, dst) then
          (Put(root1, dst, Get(root1, file).value), NotPlaced(OperationErrorMessage(true)))
        else (root1, NotPlaced(OperationErrorMessage(true)))
      else if CanCopy(root1, file, dst) then
        MakeDirsFrame(root, target, 0, file);
        GetPutSame(root1, dst, Get(root1, file).value);
        (Put(root1, dst, Get(root1, file).value), Placed(dst))
      else (root1, NotPlaced(OperationErrorMessage(false)))
  }

  /** The free path `Place` picks for `file`, once the target folder exists. */
  function PlaceTarget(root: Node, file: Path, target: Path): Option<Path>
  {
    var made := MakeDirsFrom(root, target, 0);
    if made.1 then Some(target + [UniqueName(Children(made.0, target), Basename(file))]) else None
  }

  /**
   * Placing a file never overwrites: every file that existed keeps its
   * content, except what lies at or below the source of a move; and every
   * file of the new tree outside the picked path was already there, whether
   * or not the placement succeeded.
   */
  lemma PlaceNeverOverwrites(root: Node, file: Path, target: Path, move: bool, q: Path)
    ensures var (after, result) := Place(root, file, target, move);
            IsFile(root, q) && !(move && IsPrefix(file, q)) ==> Get(after, q) == Get(root, q)
    ensures var (after, result) := Place(root, file, target, move);
            var t := PlaceTarget(root, file, target);
            IsFile(after, q) && !(t.Some? && IsPrefix(t.value, q)) ==> Get(after, q) == Get(root, q)
  {
    PlaceKeepsFiles(root, file, target, move, q);
    PlaceAddsOnlyAtTarget(root, file, target, move, q);
  }

  /** A file that existed keeps its content, unless it lies at or below the source of a move. */
  lemma PlaceKeepsFiles(root: Node, file: Path, target: Path, move: bool, q: Path)
    ensures var (after, result) := Place(root, file, target, move);
            IsFile(root, q) && !(move && IsPrefix(file, q)) ==> Get(after, q) == Get(root, q)
  {
    var (after, result) := Place(root, file, target, move);
    var root1 := MakeDirsFrom(root, target, 0).0;
    var t := PlaceTarget(root, file, target);
    MakeDirsFrame(root, target, 0, q);
    if IsFile(root, q) && !(move && IsPrefix(file, q)) && t.Some? {
      PlaceOutcome(root, file, target, move);
      var dst := t.value;
      if result.success && move {
        MoveRoom(root1, file, dst);
        MovedFreshFrame(root1, file, dst, q);
      } else if after != root1 {
        PutFreshFrame(root1, dst, Get(root1, file).value, q);
      }
    }
  }

  /** A file of the new tree outside the picked path was already there, with the same content. */
  lemma PlaceAddsOnlyAtTarget(root: Node, file: Path, target: Path, move: bool, q: Path)
    ensures var (after, result) := Place(root, file, target, move);
            var t := PlaceTarget(root, file, target);
            IsFile(after, q) && !(t.Some? && IsPrefix(t.value, q)) ==> Get(after, q) == Get(root, q)
  {
    var (after, result) := Place(root, file, target, move);
    var root1 := MakeDirsFrom(root, target, 0).0;
    var t := PlaceTarget(root, file, target);
    if IsFile(after, q) && !(t.Some? && IsPrefix(t.value, q)) {
      PlaceOutcome(root, file, target, move);
      MakeDirsFrame(root, target, 0, q);
      if result.success {
        var dst := t.value;
        if move {
          MoveRoom(root1, file, dst);
          MovedFreshFrame(root1, file, dst, q);
        } else {
          PutFreshFrame(root1, dst, Get(root1, file).value, q);
        }
      } else if move && t.Some? && CopiesOnFailedMove(root1, file, t.value) {
        PutFreshFrame(root1, t.value, Get(root1, file).value, q);
      }
    }
  }

  /**
   * A move whose source folder cannot be written fails, yet the copy made by
   * the fallback of `shutil.move` stays at the picked path, next to the
   * untouched source.
   */
  lemma FailedMoveLeavesCopy(root: Node, file: Path, target: Path)
    requires PlaceTarget(root, file, target).Some?
    requires CopiesOnFailedMove(MakeDirsFrom(root, target, 0).0, file, PlaceTarget(root, file, target).value)
    ensures var (after, result) := Place(root, file, target, true);
            var dst := PlaceTarget(root, file, target).value;
            result == NotPlaced(OperationErrorMessage(true))
            && IsFile(root, file) && Get(after, dst) == Get(root, file) && Get(after, file) == Get(root, file)
  {
    var root1 := MakeDirsFrom(root, target, 0).0;
    var dst := PlaceTarget(root, file, target).value;
    PlaceOutcome(root, file, target, true);
    MakeDirsFrame(root, target, 0, file);
    GetPutSame(root1, dst, Get(root1, file).value);
    PutFreshFrame(root1, dst, Get(root1, file).value, file);
  }

  /**
   * What `Place` leaves behind: the created folders, plus the copy or the
   * move when it succeeds, or the copy a failed move leaves.
   */
  lemma PlaceOutcome(root: Node, file: Path, target: Path, move: bool)
    ensures var root1 := MakeDirsFrom(root, target, 0).0;
            var t := PlaceTarget(root, file, target);
            t.Some? ==> t.value != [] && Parent(t.value) == target && IsDir(root1, target) && !Exists(root1, t.value)
    ensures var root1 := MakeDirsFrom(root, target, 0).0;
            var t := PlaceTarget(root, file, target);
            var (after, result) := Place(root, file, target, move);
            !result.success ==>
              after == if move && t.Some? && CopiesOnFailedMove(root1, file, t.value)
                       then Put(root1, t.value, Get(root1, file).value) else root1
    ensures var root1 := MakeDirsFrom(root, target, 0).0;
            var t := PlaceTarget(root, file, target);
            var (after, result) := Place(root, file, target, move);
            result.success ==> var dst := result.newPath.value;
              t == Some(dst)
              && if move then CanMove(root1, file, dst) && after == Moved(root1, file, dst)
                 else IsFile(root1, file) && after == Put(root1, dst, Get(root1, file).value)
  {
    var made := MakeDirsFrom(root, target, 0);
    var root1 := made.0;
    if made.1 {
      var dst := target + [UniqueName(Children(root1, target), Basename(file))];
      assert Parent(dst) == target;
      MakeDirsFrame(root, target, 0, dst);
    }
  }

  /** Taking the source of a move away leaves the free target path free and its folder in place. */
  lemma MoveRoom(n: Node, file: Path, dst: Path)
    requires dst != [] && IsDir(n, Parent(dst)) && !Exists(n, dst) && CanMove(n, file, dst)
    ensures IsDir(Remove(n, file), Parent(dst)) && !Exists(Remove(n, file), dst)
  {
    var target := Parent(dst);
    assert dst == target + [dst[|dst| - 1]];
    if IsPrefix(target, file) {
      GetRemoveAbove(n, file, target);
    } else {
      GetRemoveDisjoint(n, file, target);
    }
    if IsPrefix(dst, file) {
      PrefixOfExistingIsDir(n, dst, file);
    }
    GetRemoveDisjoint(n, file, dst);
  }

  /**
   * A move onto a free path keeps every file outside the source, and every
   * file of the new tree outside the target was already there.
   */
  lemma MovedFreshFrame(n: Node, file: Path, dst: Path, q: Path)
    requires file != [] && Exists(n, file) && q != dst
    requires dst != [] && IsDir(Remove(n, file), Parent(dst)) && !Exists(Remove(n, file), dst)
    ensures !IsPrefix(file, q) && IsFile(n, q) ==> Get(Moved(n, file, dst), q) == Get(n, q)
    ensures !IsPrefix(dst, q) && IsFile(Moved(n, file, dst), q) ==> Get(Moved(n, file, dst), q) == Get(n, q)
  {
    var removed := Remove(n, file);
    PutFreshFrame(removed, dst, Get(n, file).value, q);
    if IsPrefix(file, q) {
      GetRemoveBelow(n, file, q);
    } else if IsPrefix(q, file) {
      GetRemoveAbove(n, file, q);
    } else {
      GetRemoveDisjoint(n, file, q);
    }
  }

  /**
   * The "identical file" skip of a move can only fire for a source that does
   * not exist: the computed target name is always free, so an existing source
   * never sits at the computed target path.
   */
  lemma PlaceSkipNeedsMissingSource(root: Node, file: Path, target: Path)
    requires Place(root, file, target, true).1.error == Some(SkipMessage)
    ensures !Exists(root, file)
  {
    var made := MakeDirsFrom(root, target, 0);
    assert SkipMessage[0] == 'П';
    assert FolderErrorMessage(target)[0] == 'О';
    assert OperationErrorMessage(true)[0] == 'О';
    MakeDirsFrame(root, target, 0, file);
  }

  /**
   * The steps `copy_file_to_destination` and `copy_file_no_date` share: create
   * the target folder, pick a free name, refuse to move a file onto itself,
   * then copy or move.
   */
  method PlaceFile(fs: FileSystem, file: Path, target: Path, move: bool) returns (r: CopyResult)
    modifies fs
    ensures (fs.root, r) == Place(old(fs.root), file, target, move)
  {
    var filename := Basename(file);
    var made := fs.MakeDirs(target);
    if !made {
      return NotPlaced(FolderErrorMessage(target));
    }
    var name := UniqueFilename(fs, target, filename);
    var dst := target + [name];
    assert !Exists(fs.root, dst);
    if move && file == dst {
      return NotPlaced(SkipMessage);
    }
    var ok;
    if move {
      ok := fs.Move(file, dst);
    } else {
      ok := fs.Copy(file, dst);
    }
    if ok {
      r := Placed(dst);
    } else {
      r := NotPlaced(OperationErrorMessage(move));
    }
  }

  /** `copy_file_to_destination`: place a dated file into its year/month[/day] folder. */
  method CopyFileToDestination(fs: FileSystem, file: Path, dest: Path, year: string, month: string, day: string,
                               move: bool, grouping: Grouping) returns (r: CopyResult)
    modifies fs
    ensures (fs.root, r) == Place(old(fs.root), file, TargetFolder(dest, year, month, day, grouping), move)
  {
    var target := TargetFolder(dest, year, month, day, grouping);
    r := PlaceFile(fs, file, target, move);
  }

  /** `copy_file_no_date`: place a file without a date into the unknown-date folder. */
  method CopyFileNoDate(fs: FileSystem, file: Path, dest: Path, move: bool) returns (r: CopyResult)
    modifies fs
    ensures (fs.root, r) == Place(old(fs.root), file, dest + [UnknownDateFolder], move)
  {
    r := PlaceFile(fs, file, dest + [UnknownDateFolder], move);
  }

  // ---------------------------------------------------------------------
  // Smart-mode consolidation: merging a lone day folder into its month.
  // ---------------------------------------------------------------------

  /** A listing of a folder whose one entry is `d` is `[d]`. */
  lemma SingleEnumeration(names: seq<string>, d: string)
    ensures Enumerates(names, {d}) ==> names == [d]
  {
    if |names| >= 2 {
      assert names[0] in names && names[1] in names;
    } else if |names| == 1 {
      assert names[0] in names;
    }
  }

  /** A sequence without members is empty. */
  lemma NoMemberEmpty(s: seq<string>)
    ensures (forall x :: x !in s) ==> s == []
  {
    if s != [] {
      assert s[0] in s;
    }
  }

  /** The `day_folders` comprehension: the listed names that are directories with an exact day name. */
  function DayFolders(n: Node, folder: Path, items: seq<string>): (days: seq<string>)
    ensures forall x :: x in days <==> x in items && IsDir(n, folder + [x]) && IsExactDayFolder(x)
    ensures (forall x :: x in items ==> IsDir(n, folder + [x]) && IsExactDayFolder(x)) ==> days == items
  {
    if items == [] then []
    else
      var x := items[0];
      (if IsDir(n, folder + [x]) && IsExactDayFolder(x) then [x] else []) + DayFolders(n, folder, items[1..])
  }

  /** The `other_items` comprehension: every listed name that is not a day folder. */
  function OtherItems(n: Node, folder: Path, items: seq<string>): (rest: seq<string>)
    ensures forall x :: x in rest <==> x in items && !(IsDir(n, folder + [x]) && IsExactDayFolder(x))
  {
    if items == [] then []
    else
      var x := items[0];
      (if IsDir(n, folder + [x]) && IsExactDayFolder(x) then [] else [x]) + OtherItems(n, folder, items[1..])
  }

  /** The month folder `m` holds exactly one entry, a directory `d` with an exact day name. */
  predicate LoneDay(m: Node, d: string)
  {
    m.Dir? && m.children.Keys == {d} && m.children[d].Dir? && IsExactDayFolder(d)
  }

  /**
   * Whether the moves and the `os.rmdir` of a merge all succeed: the month
   * folder must be writable, and so must the day folder unless it is empty.
   */
  predicate MergeWouldSucceed(m: Node, d: string)
    requires LoneDay(m, d)
  {
    m.writable && (m.children[d].children == map[] || m.children[d].writable)
  }

  /**
   * The merge criterion as the source writes it (one day folder among the
   * listed names and no other name) means exactly that the month folder's
   * sole entry is a day folder.
   */
  lemma CriterionIsLoneDay(n: Node, folder: Path, items: seq<string>)
    requires IsDir(n, folder) && Enumerates(items, Children(n, folder))
    ensures |DayFolders(n, folder, items)| == 1 && OtherItems(n, folder, items) == []
            ==> exists d :: LoneDay(Get(n, folder).value, d)
    ensures (exists d :: LoneDay(Get(n, folder).value, d)) ==>
            |DayFolders(n, folder, items)| == 1 && OtherItems(n, folder, items) == []
    ensures |DayFolders(n, folder, items)| == 1 && OtherItems(n, folder, items) == []
            ==> LoneDay(Get(n, folder).value, DayFolders(n, folder, items)[0])
  {
    var m := Get(n, folder).value;
    forall x
      ensures IsDir(n, folder + [x]) <==> x in m.children && m.children[x].Dir?
    {
      GetAppend(n, folder, [x]);
    }
    var days := DayFolders(n, folder, items);
    var rest := OtherItems(n, folder, items);
    if |days| == 1 && rest == [] {
      assert forall x :: x in items ==> IsDir(n, folder + [x]) && IsExactDayFolder(x) by {
        forall x | x in items
          ensures IsDir(n, folder + [x]) && IsExactDayFolder(x)
        {
          assert x !in rest;
        }
      }
      assert days == items;
      assert m.children.Keys == {days[0]};
      assert LoneDay(m, days[0]);
    }
    if d :| LoneDay(m, d) {
      assert forall x :: x in items ==> x == d;
      assert d in items;
      SingleEnumeration(items, d);
      assert items == [d];
      assert IsDir(n, folder + [d]);
      assert days == items;
      NoMemberEmpty(rest);
    }
  }

  /**
   * The month folder's entries after the day folder's `items` have been
   * moved up one by one: `others` are the month's entries besides the day
   * folder `d`, `day` the entries still in the day folder. A name that is
   * already taken in the month folder is replaced by `_get_unique_filename`'s
   * choice, which is the name itself when it is free.
   */
  function MergeMaps(others: map<string, Node>, d: string, day: map<string, Node>, items: seq<string>): (merged: map<string, Node>)
    ensures forall k :: k in others ==> k in merged && merged[k] == others[k]
    ensures d !in others ==> d !in merged
    decreases |items|
  {
    if items == [] then others
    else
      var x := items[0];
      if x in day then
        var name := UniqueName(others.Keys + {d}, x);
        MergeMaps(others[name := day[x]], d, day - {x}, items[1..])
      else
        MergeMaps(others, d, day, items[1..])
  }

  /** One step of a merge in the order of the listing. */
  lemma MergeMapsStep(others: map<string, Node>, d: string, day: map<string, Node>, items: seq<string>)
    requires items != [] && items[0] in day
    ensures MergeMaps(others, d, day, items)
            == MergeMaps(others[UniqueName(others.Keys + {d}, items[0]) := day[items[0]]], d, day - {items[0]}, items[1..])
  {
  }

  /** The name each moved item ends up with. */
  function NewNames(others: map<string, Node>, d: string, day: map<string, Node>, items: seq<string>): map<string, string>
    decreases |items|
  {
    if items == [] then map[]
    else
      var x := items[0];
      if x in day then
        var name := UniqueName(others.Keys + {d}, x);
        NewNames(others[name := day[x]], d, day - {x}, items[1..])[x := name]
      else
        NewNames(others, d, day, items[1..])
  }

  /** The renamed items are exactly the listed items still in the day folder. */
  lemma {:induction false} NewNamesDomain(others: map<string, Node>, d: string, day: map<string, Node>, items: seq<string>)
    ensures forall x :: x in NewNames(others, d, day, items) <==> x in items && x in day
    decreases |items|
  {
    if items != [] {
      var x := items[0];
      assert forall y :: y in items <==> y == x || y in items[1..];
      if x in day {
        var name := UniqueName(others.Keys + {d}, x);
        var others', day' := others[name := day[x]], day - {x};
        NewNamesDomain(others', d, day', items[1..]);
        assert NewNames(others, d, day, items) == NewNames(others', d, day', items[1..])[x := name];
      } else {
        NewNamesDomain(others, d, day, items[1..]);
        assert NewNames(others, d, day, items) == NewNames(others, d, day, items[1..]);
      }
    }
  }

  /** Every moved item lands under its new name, which was free and is not the day folder's name. */
  lemma {:induction false} NewNamesLand(others: map<string, Node>, d: string, day: map<string, Node>, items: seq<string>)
    ensures var names := NewNames(others, d, day, items);
            var merged := MergeMaps(others, d, day, items);
            forall x :: x in names ==>
              x in day && names[x] in merged && merged[names[x]] == day[x] && names[x] !in others && names[x] != d
    decreases |items|
  {
    NewNamesDomain(others, d, day, items);
    if items != [] {
      var x := items[0];
      if x in day {
        var name := UniqueName(others.Keys + {d}, x);
        var others' := others[name := day[x]];
        var day' := day - {x};
        NewNamesLand(others', d, day', items[1..]);
        NewNamesDomain(others', d, day', items[1..]);
        var names' := NewNames(others', d, day', items[1..]);
        var names := NewNames(others, d, day, items);
        var merged := MergeMaps(others, d, day, items);
        assert names == names'[x := name];
        assert merged == MergeMaps(others', d, day', items[1..]);
        assert name !in others.Keys + {d};
        assert name in merged && merged[name] == day[x];
      } else {
        NewNamesLand(others, d, day, items[1..]);
        assert NewNames(others, d, day, items) == NewNames(others, d, day, items[1..]);
      }
    }
  }

  /** No two moved items end up under the same name. */
  lemma {:induction false} NewNamesDistinct(others: map<string, Node>, d: string, day: map<string, Node>, items: seq<string>)
    ensures var names := NewNames(others, d, day, items);
            forall x, y :: x in names && y in names && x != y ==> names[x] != names[y]
    decreases |items|
  {
    if items != [] {
      var x := items[0];
      if x in day {
        var name := UniqueName(others.Keys + {d}, x);
        var others' := others[name := day[x]];
        var day' := day - {x};
        NewNamesDistinct(others', d, day', items[1..]);
        NewNamesLand(others', d, day', items[1..]);
        NewNamesDomain(others', d, day', items[1..]);
        var names' := NewNames(others', d, day', items[1..]);
        assert x !in names';
        assert forall y :: y in names' ==> names'[y] != name;
        assert NewNames(others, d, day, items) == names'[x := name];
      } else {
        NewNamesDistinct(others, d, day, items[1..]);
        assert NewNames(others, d, day, items) == NewNames(others, d, day, items[1..]);
      }
    }
  }

  /** An entry of the merged month folder that was not there before is a moved item's new name. */
  lemma {:induction false} MergedFromNames(others: map<string, Node>, d: string, day: map<string, Node>, items: seq<string>, k: string)
    requires k in MergeMaps(others, d, day, items) && k !in others
    ensures exists y :: y in NewNames(others, d, day, items) && NewNames(others, d, day, items)[y] == k
    decreases |items|
  {
    var x := items[0];
    if x in day {
      var name := UniqueName(others.Keys + {d}, x);
      var others' := others[name := day[x]];
      var day' := day - {x};
      NewNamesDomain(others', d, day', items[1..]);
      var names' := NewNames(others', d, day', items[1..]);
      var names := NewNames(others, d, day, items);
      assert x !in names';
      assert names == names'[x := name];
      if k != name {
        MergedFromNames(others', d, day', items[1..], k);
        var y :| y in names' && names'[y] == k;
        assert names[y] == k;
      } else {
        assert names[x] == k;
      }
    } else {
      MergedFromNames(others, d, day, items[1..], k);
      assert NewNames(others, d, day, items) == NewNames(others, d, day, items[1..]);
    }
  }

  /**
   * A merge loses nothing and overwrites nothing: every listed item of the
   * day folder lands in the month folder under its own new name, which was
   * free and is not the day folder's name; the month's old entries stay;
   * and nothing else appears.
   */
  lemma MergeMovesEveryItem(others: map<string, Node>, d: string, day: map<string, Node>, items: seq<string>)
    ensures var names := NewNames(others, d, day, items);
            forall x :: x in names <==> x in items && x in day
    ensures var names := NewNames(others, d, day, items);
            var merged := MergeMaps(others, d, day, items);
            forall x :: x in names ==>
              names[x] in merged && merged[names[x]] == day[x] && names[x] !in others && names[x] != d
    ensures var names := NewNames(others, d, day, items);
            forall x, y :: x in names && y in names && x != y ==> names[x] != names[y]
    ensures var names := NewNames(others, d, day, items);
            var merged := MergeMaps(others, d, day, items);
            forall k :: k in merged ==> k in others || exists x :: x in names && names[x] == k
  {
    NewNamesDomain(others, d, day, items);
    NewNamesLand(others, d, day, items);
    NewNamesDistinct(others, d, day, items);
    forall k | k in MergeMaps(others, d, day, items) && k !in others
      ensures exists x :: x in NewNames(others, d, day, items) && NewNames(others, d, day, items)[x] == k
    {
      MergedFromNames(others, d, day, items, k);
    }
  }

  /** When no item clashes with an entry of the month folder, the items keep their names. */
  lemma {:induction false} MergeWithoutClash(others: map<string, Node>, d: string, day: map<string, Node>, items: seq<string>)
    requires forall x :: x in day ==> x !in others && x != d && x in items
    ensures MergeMaps(others, d, day, items) == others + day
    decreases |items|
  {
    if items == [] {
      assert day == map[];
    } else {
      var x := items[0];
      if x in day {
        assert x !in others.Keys + {d};
        assert UniqueName(others.Keys + {d}, x) == x;
        var others' := others[x := day[x]];
        var day' := day - {x};
        assert forall y :: y in day' ==> y !in others' && y != d && y in items[1..] by {
          forall y | y in day'
            ensures y !in others' && y != d && y in items[1..]
          {
            assert y in items && y != items[0];
          }
        }
        MergeWithoutClash(others', d, day', items[1..]);
        assert others' + day' == others + day;
      } else {
        assert forall y :: y in day ==> y in items[1..] by {
          forall y | y in day
            ensures y in items[1..]
          {
            assert y in items && y != items[0];
          }
        }
        MergeWithoutClash(others, d, day, items[1..]);
      }
    }
  }

  /** The month folder after a successful merge of its lone day folder `d`, whose items were listed in `order`. */
  function Merged(m: Node, d: string, order: seq<string>): Node
  {
    if m.Dir? && d in m.children && m.children[d].Dir? then
      Dir(MergeMaps(m.children - {d}, d, m.children[d].children, order), m.writable)
    else m
  }

  /**
   * The month folder after a merge that fails: when the month folder can be
   * written but the day folder cannot, the first move's fallback copies a
   * file item up under its new name and then fails to unlink it; otherwise
   * nothing changes.
   */
  function FailedMerge(m: Node, d: string, order: seq<string>): Node
  {
    if m.Dir? && d in m.children && m.children[d].Dir? && m.writable && !m.children[d].writable
       && order != [] && order[0] in m.children[d].children && m.children[d].children[order[0]].File?
    then Dir(m.children[UniqueName(m.children.Keys, order[0]) := m.children[d].children[order[0]]], m.writable)
    else m
  }

  /** The month folder after a merge of its lone day folder `d`, successful or not. */
  function MergeOutcome(m: Node, d: string, order: seq<string>): Node
  {
    if LoneDay(m, d) && !MergeWouldSucceed(m, d) then FailedMerge(m, d, order) else Merged(m, d, order)
  }

  /**
   * The intended effect: when no item of the day folder is named like the
   * day folder itself, `Year/Month/Day/items` becomes `Year/Month/items`.
   */
  lemma MergeLiftsDayContents(m: Node, d: string, order: seq<string>)
    requires LoneDay(m, d) && Enumerates(order, m.children[d].children.Keys)
    requires d !in m.children[d].children
    ensures Merged(m, d, order) == Dir(m.children[d].children, m.writable)
  {
    assert m.children - {d} == map[];
    MergeWithoutClash(map[], d, m.children[d].children, order);
    assert map[] + m.children[d].children == m.children[d].children;
  }

  /**
   * Consolidation is not idempotent: when the lone day folder itself held
   * nothing but another day-shaped folder, the merged month qualifies again.
   */
  lemma MergeCanQualifyAgain(m: Node, d: string, e: string, order: seq<string>)
    requires LoneDay(m, d) && LoneDay(m.children[d], e) && e != d
    requires Enumerates(order, m.children[d].children.Keys)
    ensures LoneDay(Merged(m, d, order), e)
  {
    MergeLiftsDayContents(m, d, order);
  }

  /**
   * The criterion never compares the day folder's date with its month: the
   * day folder written for any date qualifies as the lone day folder of the
   * month folder written for any other date.
   */
  lemma CriterionIgnoresMonthPrefix(monthDate: DateTime, dayDate: DateTime, w: bool, dw: bool)
    requires IsDateTime(monthDate) && monthDate.year >= 1000
    requires IsDateTime(dayDate) && dayDate.year >= 1000
    ensures var day := DateExtractor.FormatDateForFolder(dayDate).2;
            IsMonthFolder(DateExtractor.FormatDateForFolder(monthDate).1)
            && LoneDay(Dir(map[day := Dir(map[], dw)], w), day)
  {
    FolderLabelsRecognised(monthDate);
    FolderLabelsRecognised(dayDate);
    var day := DateExtractor.FormatDateForFolder(dayDate).2;
    assert map[day := Dir(map[], dw)].Keys == {day};
  }

  /** The month folder in the middle of a merge: `others` moved so far, `day` still in the day folder. */
  function MergeState(others: map<string, Node>, d: string, day: map<string, Node>, w: bool, dw: bool): Node
  {
    Dir(others[d := Dir(day, dw)], w)
  }

  /** One move of a merge, inside the month folder. */
  lemma MergeStepInMonth(others: map<string, Node>, d: string, day: map<string, Node>, w: bool, dw: bool,
                         x: string, name: string)
    requires d !in others && x in day && name !in others && name != d
    ensures Get(MergeState(others, d, day, w, dw), [d, x]) == Some(day[x])
    ensures Moved(MergeState(others, d, day, w, dw), [d, x], [name])
            == MergeState(others[name := day[x]], d, day - {x}, w, dw)
  {
    var cur := MergeState(others, d, day, w, dw);
    assert [d, x][0] == d && [d, x][1..] == [x] && [x][1..] == [];
    assert Get(Dir(day, dw), [x]) == Some(day[x]);
    assert Remove(Dir(day, dw), [x]) == Dir(day - {x}, dw);
    assert Remove(cur, [d, x]) == Dir(others[d := Dir(day - {x}, dw)], w);
    assert others[d := Dir(day - {x}, dw)][name := day[x]] == others[name := day[x]][d := Dir(day - {x}, dw)];
  }

  /** What one move of a merge finds in the whole tree. */
  lemma MergeStepGuards(root0: Node, month: Path, others: map<string, Node>, d: string, day: map<string, Node>,
                        w: bool, dw: bool, x: string)
    requires month != [] && IsDir(root0, Parent(month)) && d !in others && x in day
    ensures var n := Put(root0, month, MergeState(others, d, day, w, dw));
            var name := UniqueName(others.Keys + {d}, x);
            && Get(n, month) == Some(MergeState(others, d, day, w, dw))
            && Children(n, month) == others.Keys + {d}
            && (Exists(n, month + [x]) <==> x in others.Keys + {d})
            && !Exists(n, month + [name])
            && (CanMove(n, month + [d, x], month + [name]) <==> w && dw)
            && (CopiesOnFailedMove(n, month + [d, x], month + [name]) <==> w && !dw && day[x].File?)
  {
    var cur := MergeState(others, d, day, w, dw);
    var n := Put(root0, month, cur);
    var name := UniqueName(others.Keys + {d}, x);
    MergeStepInMonth(others, d, day, w, dw, x, name);
    GetPutSame(root0, month, cur);
    GetAppend(n, month, [x]);
    GetAppend(n, month, [name]);
    GetAppend(n, month, [d]);
    GetAppend(n, month, [d, x]);
    assert Parent(month + [d, x]) == month + [d] && Parent(month + [name]) == month;
  }

  /** What one move of a merge does to the whole tree. */
  lemma MergeStepMoves(root0: Node, month: Path, others: map<string, Node>, d: string, day: map<string, Node>,
                       w: bool, dw: bool, x: string)
    requires month != [] && IsDir(root0, Parent(month)) && d !in others && x in day
    ensures var n := Put(root0, month, MergeState(others, d, day, w, dw));
            var name := UniqueName(others.Keys + {d}, x);
            && Exists(n, month + [d, x])
            && Moved(n, month + [d, x], month + [name])
               == Put(root0, month, MergeState(others[name := day[x]], d, day - {x}, w, dw))
            && d !in others[name := day[x]]
  {
    var cur := MergeState(others, d, day, w, dw);
    var n := Put(root0, month, cur);
    var name := UniqueName(others.Keys + {d}, x);
    var next := MergeState(others[name := day[x]], d, day - {x}, w, dw);
    MergeStepInMonth(others, d, day, w, dw, x, name);
    GetPutSame(root0, month, cur);
    MovedInside(n, month, [d, x], [name]);
    PutPut(root0, month, cur, next);
  }

  /** The copy a failed move of a merge leaves in the month folder, seen from the whole tree. */
  lemma MergeStepCopies(root0: Node, month: Path, others: map<string, Node>, d: string, day: map<string, Node>,
                        w: bool, dw: bool, x: string)
    requires month != [] && IsDir(root0, Parent(month)) && d !in others && x in day
    ensures var n := Put(root0, month, MergeState(others, d, day, w, dw));
            var name := UniqueName(others.Keys + {d}, x);
            && Get(n, month + [d, x]) == Some(day[x])
            && Put(n, month + [name], day[x]) == Put(root0, month, MergeState(others[name := day[x]], d, day, w, dw))
  {
    var cur := MergeState(others, d, day, w, dw);
    var n := Put(root0, month, cur);
    var name := UniqueName(others.Keys + {d}, x);
    var next := MergeState(others[name := day[x]], d, day, w, dw);
    MergeStepInMonth(others, d, day, w, dw, x, name);
    GetPutSame(root0, month, cur);
    GetAppend(n, month, [d, x]);
    PutAppend(n, month, [name], day[x]);
    assert Put(cur, [name], day[x]) == next by {
      assert others[d := Dir(day, dw)][name := day[x]] == others[name := day[x]][d := Dir(day, dw)];
    }
    PutPut(root0, month, cur, next);
  }

  /** The `os.rmdir` that ends a merge, seen from the whole tree. */
  lemma MergeFinishEffect(root0: Node, month: Path, others: map<string, Node>, d: string, w: bool, dw: bool)
    requires month != [] && IsDir(root0, Parent(month)) && d !in others
    ensures var n := Put(root0, month, MergeState(others, d, map[], w, dw));
            && IsDir(n, month + [d]) && Get(n, month + [d]).value.children == map[]
            && Parent(month + [d]) == month && (IsWritableDir(n, month) <==> w)
            && Remove(n, month + [d]) == Put(root0, month, Dir(others, w))
  {
    var last := MergeState(others, d, map[], w, dw);
    var n := Put(root0, month, last);
    GetPutSame(root0, month, last);
    GetAppend(n, month, [d]);
    GetAfterRemoveBelow(n, month, [d]);
    assert Parent(month + [d]) == month;
    assert Remove(last, [d]) == Dir(others, w) by {
      assert others[d := Dir(map[], dw)] - {d} == others;
    }
    PutPut(root0, month, last, Dir(others, w));
  }

  /**
   * One pass of the merge loop: move `x` from the day folder `d` up into
   * `month`, under `_get_unique_filename`'s name when `month/x` exists.
   */
  method MoveItemUp(fs: FileSystem, month: Path, d: string, x: string, ghost root0: Node,
                    ghost others: map<string, Node>, ghost day: map<string, Node>, ghost w: bool, ghost dw: bool)
    returns (moved: bool, ghost name: string)
    requires month != [] && IsDir(root0, Parent(month)) && d !in others && x in day
    requires fs.root == Put(root0, month, MergeState(others, d, day, w, dw))
    modifies fs
    ensures name == UniqueName(others.Keys + {d}, x) && d !in others[name := day[x]]
    ensures moved <==> w && dw
    ensures fs.root == if moved then Put(root0, month, MergeState(others[name := day[x]], d, day - {x}, w, dw))
                       else if w && day[x].File? then Put(root0, month, MergeState(others[name := day[x]], d, day, w, dw))
                       else old(fs.root)
  {
    MergeStepGuards(root0, month, others, d, day, w, dw, x);
    MergeStepMoves(root0, month, others, d, day, w, dw, x);
    MergeStepCopies(root0, month, others, d, day, w, dw, x);
    name := UniqueName(others.Keys + {d}, x);
    var src := month + [d] + [x];
    var dst := month + [x];
    if Exists(fs.root, dst) {
      var unique := UniqueFilename(fs, month, x);
      dst := month + [unique];
    }
    assert dst == month + [name];
    assert src == month + [d, x];
    moved := fs.Move(src, dst);
  }

  /** The bookkeeping of one pass of the merge loop. */
  lemma MergeLoopAdvance(others: map<string, Node>, d: string, day: map<string, Node>, day0: map<string, Node>,
                         items: seq<string>, i: nat)
    requires i < |items| && Enumerates(items, day0.Keys) && forall x :: x in day <==> x in items[i..]
    requires MergeMaps(map[], d, day0, items) == MergeMaps(others, d, day, items[i..])
    ensures var x := items[i];
            var name := UniqueName(others.Keys + {d}, x);
            && x in day
            && (forall y :: y in day - {x} <==> y in items[i + 1..])
            && MergeMaps(map[], d, day0, items) == MergeMaps(others[name := day[x]], d, day - {x}, items[i + 1..])
  {
    assert items[i..][0] == items[i] && items[i..][1..] == items[i + 1..];
    MergeMapsStep(others, d, day, items[i..]);
    ListedRest(day, items, i);
  }

  /** Taking the next listed name out of the names still to come leaves the rest of the listing. */
  lemma ListedRest(day: map<string, Node>, items: seq<string>, i: nat)
    requires i < |items| && forall x :: x in day <==> x in items[i..]
    requires forall a, b :: 0 <= a < b < |items| ==> items[a] != items[b]
    ensures forall y :: y in day - {items[i]} <==> y in items[i + 1..]
  {
    forall y
      ensures y in day - {items[i]} <==> y in items[i + 1..]
    {
      if y in items[i + 1..] {
        var j :| i + 1 <= j < |items| && items[j] == y;
        assert items[j] != items[i];
      }
    }
  }

  /**
   * The loop of step 4: move each listed item of the day folder `d` up into
   * `month`. It stops at the first failed move. Since a move fails in the
   * model only through the permissions of the two folders, that is the first
   * move; it still leaves a copy of a file when only its unlink fails.
   */
  method MoveItemsUp(fs: FileSystem, month: Path, d: string, items: seq<string>, ghost root0: Node,
                     ghost day0: map<string, Node>, ghost w: bool, ghost dw: bool)
    returns (moved: bool, ghost others: map<string, Node>)
    requires month != [] && IsDir(root0, Parent(month)) && Enumerates(items, day0.Keys)
    requires fs.root == Put(root0, month, MergeState(map[], d, day0, w, dw))
    modifies fs
    ensures moved <==> items == [] || (w && dw)
    ensures moved ==> d !in others && others == MergeMaps(map[], d, day0, items)
                      && fs.root == Put(root0, month, MergeState(others, d, map[], w, dw))
    ensures !moved ==> items != [] && items[0] in day0
                       && fs.root == if w && day0[items[0]].File?
                                     then Put(root0, month, MergeState(map[UniqueName({d}, items[0]) := day0[items[0]]], d, day0, w, dw))
                                     else old(fs.root)
  {
    others := map[];
    ghost var day := day0;
    var i := 0;
    while i < |items|
      invariant 0 <= i <= |items|
      invariant d !in others
      invariant fs.root == Put(root0, month, MergeState(others, d, day, w, dw))
      invariant forall x :: x in day <==> x in items[i..]
      invariant MergeMaps(map[], d, day0, items) == MergeMaps(others, d, day, items[i..])
      invariant i > 0 ==> w && dw
      invariant i == 0 ==> fs.root == old(fs.root) && others == map[] && day == day0
    {
      var x := items[i];
      assert x in items[i..];
      var ok, name := MoveItemUp(fs, month, d, x, root0, others, day, w, dw);
      if !ok {
        assert i == 0 && others.Keys + {d} == {d};
        moved := false;
        return;
      }
      MergeLoopAdvance(others, d, day, day0, items, i);
      others := others[name := day[x]];
      day := day - {x};
      i := i + 1;
    }
    assert day == map[];
    moved := true;
  }

  /**
   * Step 4 and 5 of `restructure_for_smart_mode` for one month folder whose
   * lone entry is the day folder `d`: move every item of the day folder up
   * (renaming a clash with `_get_unique_filename`), then remove the day
   * folder. The first failing operation ends the merge; since the model's
   * failures come from the permissions of the month and day folders, which
   * the moves do not change, that can only be the first operation. A failed
   * merge changes nothing but the copy its first move may leave (see
   * `FailedMerge`). The permission of a sub-folder item is not modelled.
   */
  method MergeDayFolder(fs: FileSystem, month: Path, d: string) returns (ok: bool, ghost order: seq<string>)
    requires month != [] && IsDir(fs.root, month) && LoneDay(Get(fs.root, month).value, d)
    modifies fs
    ensures ok <==> MergeWouldSucceed(old(Get(fs.root, month).value), d)
    ensures Enumerates(order, old(Get(fs.root, month).value).children[d].children.Keys)
    ensures fs.root == Put(old(fs.root), month, MergeOutcome(old(Get(fs.root, month).value), d, order))
  {
    ghost var root0 := fs.root;
    ghost var m0 := Get(fs.root, month).value;
    ghost var day0 := m0.children[d];
    ghost var w, dw := m0.writable, day0.writable;
    var dayPath := month + [d];
    GetAppend(fs.root, month, [d]);
    ExistsInDir(root0, month);
    var items := fs.ListDir(dayPath);
    order := items;
    assert m0 == MergeState(map[], d, day0.children, w, dw);
    PutGetSelf(root0, month);
    MergeOutcomeCases(m0, d, items);
    var moved, others := MoveItemsUp(fs, month, d, items, root0, day0.children, w, dw);
    if !moved {
      ok := false;
      if !(w && day0.children[items[0]].File?) {
        PutGetSelf(root0, month);
      }
      return;
    }
    MergeFinishEffect(root0, month, others, d, w, dw);
    ok := fs.RemoveDir(dayPath);
    if !ok {
      PutGetSelf(root0, month);
    }
  }

  /** The month folder a merge leaves, case by case. */
  lemma MergeOutcomeCases(m: Node, d: string, order: seq<string>)
    requires LoneDay(m, d) && Enumerates(order, m.children[d].children.Keys)
    ensures MergeWouldSucceed(m, d) ==>
              MergeOutcome(m, d, order) == Dir(MergeMaps(map[], d, m.children[d].children, order), m.writable)
    ensures !MergeWouldSucceed(m, d) ==> order != [] || !m.writable
    ensures !MergeWouldSucceed(m, d) && !(m.writable && m.children[d].children[order[0]].File?) ==>
              MergeOutcome(m, d, order) == m
    ensures !MergeWouldSucceed(m, d) && m.writable && m.children[d].children[order[0]].File? ==>
              var day := m.children[d];
              MergeOutcome(m, d, order)
              == MergeState(map[UniqueName({d}, order[0]) := day.children[order[0]]], d, day.children, m.writable, day.writable)
  {
    var day := m.children[d];
    assert m.children - {d} == map[];
    if !MergeWouldSucceed(m, d) && m.writable {
      assert day.children != map[];
      var x :| x in day.children;
      assert x in order;
      assert order[0] in day.children;
      assert m.children.Keys == {d};
      assert m.children == map[d := day];
      assert map[UniqueName({d}, order[0]) := day.children[order[0]]][d := day]
             == m.children[UniqueName({d}, order[0]) := day.children[order[0]]];
    }
  }

  /**
   * A merge that was attempted: the month folder, its day folder, the order
   * the day's items were listed in, and whether it succeeded.
   */
  datatype MonthMerge = MonthMerge(month: Path, day: string, order: seq<string>, ok: bool)

  /** The tree after one merge. */
  function ApplyMerge(n: Node, r: MonthMerge): Node
  {
    if r.month != [] && IsDir(n, r.month) then Put(n, r.month, MergeOutcome(Get(n, r.month).value, r.day, r.order)) else n
  }

  /** How many of the merges `ms` succeeded. */
  function SucceededCount(ms: seq<MonthMerge>): (c: nat)
    ensures c <= |ms|
  {
    if ms == [] then 0 else SucceededCount(ms[..|ms| - 1]) + (if ms[|ms| - 1].ok then 1 else 0)
  }

  lemma {:induction false} SucceededCountAppend(a: seq<MonthMerge>, b: seq<MonthMerge>)
    ensures SucceededCount(a + b) == SucceededCount(a) + SucceededCount(b)
    decreases |b|
  {
    if b == [] {
      assert a + b == a;
    } else {
      assert (a + b)[..|a + b| - 1] == a + b[..|b| - 1];
      SucceededCountAppend(a, b[..|b| - 1]);
    }
  }

  /** The tree after a sequence of merges, in order. */
  function ApplyMerges(n: Node, ms: seq<MonthMerge>): Node
  {
    if ms == [] then n else ApplyMerge(ApplyMerges(n, ms[..|ms| - 1]), ms[|ms| - 1])
  }

  lemma {:induction false} ApplyMergesAppend(n: Node, a: seq<MonthMerge>, b: seq<MonthMerge>)
    ensures ApplyMerges(n, a + b) == ApplyMerges(ApplyMerges(n, a), b)
    decreases |b|
  {
    if b == [] {
      assert a + b == a;
    } else {
      assert (a + b)[..|a + b| - 1] == a + b[..|b| - 1];
      ApplyMergesAppend(n, a, b[..|b| - 1]);
    }
  }

  /** The month folders of `ms` are distinct paths of the same length `k` that are folders of `n`. */
  ghost predicate SeparateMonths(n: Node, ms: seq<MonthMerge>, k: nat)
  {
    k >= 1
    && (forall i :: 0 <= i < |ms| ==> |ms[i].month| == k && IsDir(n, ms[i].month))
    && (forall i, j :: 0 <= i < j < |ms| ==> ms[i].month != ms[j].month)
  }

  /** Paths neither above nor below a merged month folder are left alone. */
  lemma {:induction false} ApplyMergesElsewhere(n: Node, ms: seq<MonthMerge>, k: nat, q: Path)
    requires SeparateMonths(n, ms, k)
    requires forall i :: 0 <= i < |ms| ==> !IsPrefix(ms[i].month, q) && !IsPrefix(q, ms[i].month)
    ensures Get(ApplyMerges(n, ms), q) == Get(n, q)
    decreases |ms|
  {
    if ms != [] {
      var init := ms[..|ms| - 1];
      var last := ms[|ms| - 1];
      assert SeparateMonths(n, init, k);
      assert forall i :: 0 <= i < |init| ==> init[i] == ms[i];
      ApplyMergesElsewhere(n, init, k, q);
      var before := ApplyMerges(n, init);
      if last.month != [] && IsDir(before, last.month) {
        GetPutDisjoint(before, last.month, q, MergeOutcome(Get(before, last.month).value, last.day, last.order));
      }
    }
  }

  /** The last merged month folder is untouched by the merges before it. */
  lemma LastMonthUntouched(n: Node, ms: seq<MonthMerge>, k: nat)
    requires SeparateMonths(n, ms, k) && ms != []
    ensures SeparateMonths(n, ms[..|ms| - 1], k)
    ensures Get(ApplyMerges(n, ms[..|ms| - 1]), ms[|ms| - 1].month) == Get(n, ms[|ms| - 1].month)
    ensures ApplyMerges(n, ms) == Put(ApplyMerges(n, ms[..|ms| - 1]), ms[|ms| - 1].month,
                                      MergeOutcome(Get(n, ms[|ms| - 1].month).value, ms[|ms| - 1].day, ms[|ms| - 1].order))
  {
    var init := ms[..|ms| - 1];
    var p := ms[|ms| - 1].month;
    forall i | 0 <= i < |init|
      ensures !IsPrefix(init[i].month, p) && !IsPrefix(p, init[i].month)
    {
      assert init[i] == ms[i];
    }
    ApplyMergesElsewhere(n, init, k, p);
  }

  /** Each merged month folder holds its merged content. */
  lemma {:induction false} ApplyMergesAt(n: Node, ms: seq<MonthMerge>, k: nat)
    requires SeparateMonths(n, ms, k)
    ensures forall i :: 0 <= i < |ms| ==>
              Get(ApplyMerges(n, ms), ms[i].month) == Some(MergeOutcome(Get(n, ms[i].month).value, ms[i].day, ms[i].order))
    decreases |ms|
  {
    if ms != [] {
      var init := ms[..|ms| - 1];
      var p := ms[|ms| - 1].month;
      LastMonthUntouched(n, ms, k);
      ApplyMergesAt(n, init, k);
      var before := ApplyMerges(n, init);
      var v := MergeOutcome(Get(n, p).value, ms[|ms| - 1].day, ms[|ms| - 1].order);
      ExistsInDir(before, p);
      GetPutSame(before, p, v);
      forall i | 0 <= i < |init|
        ensures Get(ApplyMerges(n, ms), ms[i].month) == Get(before, ms[i].month)
      {
        assert ms[i] == init[i];
        GetPutDisjoint(before, p, ms[i].month, v);
      }
    }
  }

  /** Every folder above a merged month folder keeps its flag and its names. */
  lemma {:induction false} ApplyMergesAbove(n: Node, ms: seq<MonthMerge>, k: nat, q: Path, j: nat)
    requires SeparateMonths(n, ms, k) && j < |ms| && IsPrefix(q, ms[j].month) && q != ms[j].month
    ensures IsDir(n, q) && IsDir(ApplyMerges(n, ms), q)
    ensures Get(ApplyMerges(n, ms), q).value.writable == Get(n, q).value.writable
    ensures Get(ApplyMerges(n, ms), q).value.children.Keys == Get(n, q).value.children.Keys
    decreases |ms|
  {
    var init := ms[..|ms| - 1];
    var p := ms[|ms| - 1].month;
    LastMonthUntouched(n, ms, k);
    var before := ApplyMerges(n, init);
    var v := MergeOutcome(Get(n, p).value, ms[|ms| - 1].day, ms[|ms| - 1].order);
    PrefixOfExistingIsDir(n, q, ms[j].month);
    if j < |init| {
      assert init[j] == ms[j];
      ApplyMergesAbove(n, init, k, q, j);
      if IsPrefix(q, p) {
        PutKeepsAncestors(before, p, q, v);
      } else {
        GetPutDisjoint(before, p, q, v);
      }
    } else {
      PutKeepsAncestors(before, p, q, v);
      if exists i :: 0 <= i < |init| && IsPrefix(q, init[i].month) && q != init[i].month {
        var i :| 0 <= i < |init| && IsPrefix(q, init[i].month) && q != init[i].month;
        ApplyMergesAbove(n, init, k, q, i);
      } else {
        forall i | 0 <= i < |init|
          ensures !IsPrefix(init[i].month, q) && !IsPrefix(q, init[i].month)
        {
        }
        ApplyMergesElsewhere(n, init, k, q);
      }
    }
  }

  /**
   * The month folder `mo` of the year folder at `yearPath` is one the
   * consolidation pass tries to merge: month-shaped, and a folder whose sole
   * entry is a day folder.
   */
  ghost predicate MonthToMerge(n: Node, yearPath: Path, mo: string)
  {
    IsMonthFolder(mo) && IsDir(n, yearPath + [mo]) && exists d :: LoneDay(Get(n, yearPath + [mo]).value, d)
  }

  /**
   * `r` records the merge of a month folder of the year folder at
   * `yearPath`, as found in `n`, and whether it succeeds.
   */
  ghost predicate MergeRecord(n: Node, yearPath: Path, r: MonthMerge)
  {
    r.month == yearPath + [Basename(r.month)] && MonthToMerge(n, yearPath, Basename(r.month))
    && LoneDay(Get(n, r.month).value, r.day)
    && Enumerates(r.order, Get(n, r.month).value.children[r.day].children.Keys)
    && (r.ok <==> MergeWouldSucceed(Get(n, r.month).value, r.day))
  }

  /**
   * The body of the month loop of `restructure_for_smart_mode` for the month
   * folder `mo`: check its name and shape, and merge it when its sole entry
   * is a day folder; `merged` tells whether the merge succeeded.
   */
  method RestructureMonth(fs: FileSystem, yearPath: Path, mo: string) returns (merged: bool, ghost r: MonthMerge)
    modifies fs
    ensures MonthToMerge(old(fs.root), yearPath, mo) ==>
              r.month == yearPath + [mo] && MergeRecord(old(fs.root), yearPath, r)
              && (merged <==> r.ok) && fs.root == ApplyMerge(old(fs.root), r)
    ensures !MonthToMerge(old(fs.root), yearPath, mo) ==> !merged && fs.root == old(fs.root)
  {
    var monthPath := yearPath + [mo];
    r := MonthMerge(monthPath, "", [], false);
    merged := false;
    if !IsDir(fs.root, monthPath) || !IsMonthFolder(mo) {
      return;
    }
    var allItems := fs.ListDir(monthPath);
    var dayFolders := DayFolders(fs.root, monthPath, allItems);
    var otherItems := OtherItems(fs.root, monthPath, allItems);
    CriterionIsLoneDay(fs.root, monthPath, allItems);
    if |dayFolders| == 1 && otherItems == [] {
      ghost var m := Get(fs.root, monthPath).value;
      var d := dayFolders[0];
      assert forall e :: LoneDay(m, e) ==> e == d by {
        forall e | LoneDay(m, e)
          ensures e == d
        {
          assert e in m.children.Keys;
        }
      }
      ghost var order: seq<string>;
      merged, order := MergeDayFolder(fs, monthPath, d);
      r := MonthMerge(monthPath, d, order, merged);
      assert Basename(monthPath) == mo;
    }
  }

  /** What the month loop knows after the first `j` listed month folders. */
  ghost predicate YearLoopInv(root0: Node, yearPath: Path, months: seq<string>, j: nat, merges: seq<MonthMerge>)
  {
    j <= |months| && SeparateMonths(root0, merges, |yearPath| + 1)
    && (forall i :: 0 <= i < |merges| ==> MergeRecord(root0, yearPath, merges[i]) && Basename(merges[i].month) in months[..j])
    && (forall mo :: mo in months[..j] && MonthToMerge(root0, yearPath, mo) ==>
          exists i :: 0 <= i < |merges| && merges[i].month == yearPath + [mo])
  }

  /** The position of a name listed among the first `j` names. */
  lemma IndexInPrefix(names: seq<string>, j: nat, x: string) returns (k: nat)
    requires j <= |names| && x in names[..j]
    ensures k < j && names[k] == x
  {
    k :| 0 <= k < j && names[..j][k] == x;
  }

  /** The next listed month folder is untouched by the merges so far. */
  lemma YearLoopFrame(root0: Node, yearPath: Path, months: seq<string>, j: nat, merges: seq<MonthMerge>)
    requires YearLoopInv(root0, yearPath, months, j, merges) && j < |months|
    requires forall a, b :: 0 <= a < b < |months| ==> months[a] != months[b]
    ensures Get(ApplyMerges(root0, merges), yearPath + [months[j]]) == Get(root0, yearPath + [months[j]])
  {
    var mo := months[j];
    forall i | 0 <= i < |merges|
      ensures !IsPrefix(merges[i].month, yearPath + [mo]) && !IsPrefix(yearPath + [mo], merges[i].month)
    {
      assert MergeRecord(root0, yearPath, merges[i]) && Basename(merges[i].month) in months[..j];
      assert merges[i].month == yearPath + [Basename(merges[i].month)];
      var k := IndexInPrefix(months, j, Basename(merges[i].month));
    }
    ApplyMergesElsewhere(root0, merges, |yearPath| + 1, yearPath + [mo]);
  }

  /** A pass of the month loop that merges nothing keeps what the loop knows. */
  lemma YearLoopSkip(root0: Node, yearPath: Path, months: seq<string>, j: nat, merges: seq<MonthMerge>)
    requires YearLoopInv(root0, yearPath, months, j, merges) && j < |months|
    requires !MonthToMerge(root0, yearPath, months[j])
    ensures YearLoopInv(root0, yearPath, months, j + 1, merges)
  {
    assert months[..j + 1] == months[..j] + [months[j]];
    forall i | 0 <= i < |merges|
      ensures Basename(merges[i].month) in months[..j + 1]
    {
      assert Basename(merges[i].month) in months[..j];
    }
  }

  /** A pass of the month loop that merges the month folder keeps what the loop knows. */
  lemma YearLoopAdd(root0: Node, yearPath: Path, months: seq<string>, j: nat, merges: seq<MonthMerge>, r: MonthMerge)
    requires YearLoopInv(root0, yearPath, months, j, merges) && j < |months|
    requires forall a, b :: 0 <= a < b < |months| ==> months[a] != months[b]
    requires r.month == yearPath + [months[j]] && MergeRecord(root0, yearPath, r)
    ensures YearLoopInv(root0, yearPath, months, j + 1, merges + [r])
  {
    assert months[..j + 1] == months[..j] + [months[j]];
    YearLoopAddSeparate(root0, yearPath, months, j, merges, r);
    YearLoopAddRecords(root0, yearPath, months, j, merges, r);
    YearLoopAddCovers(root0, yearPath, months, j, merges, r);
  }

  /** The merged month folder is not one merged before. */
  lemma YearLoopAddSeparate(root0: Node, yearPath: Path, months: seq<string>, j: nat, merges: seq<MonthMerge>, r: MonthMerge)
    requires j < |months| && SeparateMonths(root0, merges, |yearPath| + 1)
    requires forall i :: 0 <= i < |merges| ==> Basename(merges[i].month) in months[..j]
    requires forall a, b :: 0 <= a < b < |months| ==> months[a] != months[b]
    requires r.month == yearPath + [months[j]] && MergeRecord(root0, yearPath, r)
    ensures SeparateMonths(root0, merges + [r], |yearPath| + 1)
  {
    var merges' := merges + [r];
    assert Basename(r.month) == months[j];
    forall i | 0 <= i < |merges|
      ensures merges[i].month != r.month
    {
      var k := IndexInPrefix(months, j, Basename(merges[i].month));
    }
    assert forall i :: 0 <= i < |merges| ==> merges'[i] == merges[i];
  }

  /** Every merge recorded so far, and the new one, is a merge of a month folder listed so far. */
  lemma YearLoopAddRecords(root0: Node, yearPath: Path, months: seq<string>, j: nat, merges: seq<MonthMerge>, r: MonthMerge)
    requires YearLoopInv(root0, yearPath, months, j, merges) && j < |months|
    requires r.month == yearPath + [months[j]] && MergeRecord(root0, yearPath, r)
    ensures forall i :: 0 <= i < |merges| + 1 ==>
              MergeRecord(root0, yearPath, (merges + [r])[i]) && Basename((merges + [r])[i].month) in months[..j + 1]
  {
    var merges' := merges + [r];
    assert months[..j + 1] == months[..j] + [months[j]];
    assert Basename(r.month) == months[j];
    forall i | 0 <= i < |merges'|
      ensures MergeRecord(root0, yearPath, merges'[i]) && Basename(merges'[i].month) in months[..j + 1]
    {
      if i < |merges| {
        assert merges'[i] == merges[i];
        assert Basename(merges[i].month) in months[..j];
      }
    }
  }

  /** Every month folder listed so far that qualifies, the new one included, has its merge recorded. */
  lemma YearLoopAddCovers(root0: Node, yearPath: Path, months: seq<string>, j: nat, merges: seq<MonthMerge>, r: MonthMerge)
    requires YearLoopInv(root0, yearPath, months, j, merges) && j < |months|
    requires r.month == yearPath + [months[j]]
    ensures forall m :: m in months[..j + 1] && MonthToMerge(root0, yearPath, m) ==>
              exists i :: 0 <= i < |merges| + 1 && (merges + [r])[i].month == yearPath + [m]
  {
    var merges' := merges + [r];
    assert months[..j + 1] == months[..j] + [months[j]];
    forall m | m in months[..j + 1] && MonthToMerge(root0, yearPath, m)
      ensures exists i :: 0 <= i < |merges'| && merges'[i].month == yearPath + [m]
    {
      if m == months[j] {
        assert merges'[|merges|].month == yearPath + [m];
      } else {
        assert m in months[..j];
        var i :| 0 <= i < |merges| && merges[i].month == yearPath + [m];
        assert merges'[i] == merges[i];
      }
    }
  }

  /**
   * The month loop of `restructure_for_smart_mode` for one year folder:
   * every month folder that qualifies is merged, in listing order, and a
   * failed merge does not stop the loop.
   */
  method RestructureYear(fs: FileSystem, yearPath: Path) returns (count: nat, ghost merges: seq<MonthMerge>)
    requires IsDir(fs.root, yearPath)
    modifies fs
    ensures count == SucceededCount(merges)
    ensures fs.root == ApplyMerges(old(fs.root), merges)
    ensures SeparateMonths(old(fs.root), merges, |yearPath| + 1)
    ensures forall i :: 0 <= i < |merges| ==> MergeRecord(old(fs.root), yearPath, merges[i])
    ensures forall mo :: MonthToMerge(old(fs.root), yearPath, mo) ==>
              exists i :: 0 <= i < |merges| && merges[i].month == yearPath + [mo]
  {
    ghost var root0 := fs.root;
    var months := fs.ListDir(yearPath);
    count := 0;
    merges := [];
    var j := 0;
    YearLoopStart(root0, yearPath, months);
    while j < |months|
      invariant 0 <= j <= |months|
      invariant count == SucceededCount(merges)
      invariant fs.root == ApplyMerges(root0, merges)
      invariant YearLoopInv(root0, yearPath, months, j, merges)
    {
      var merged;
      merged, merges := YearTurn(fs, yearPath, months, j, root0, merges);
      if merged {
        count := count + 1;
      }
      j := j + 1;
    }
    YearLoopDone(root0, yearPath, months, merges);
  }

  /** Before the first listed month folder the loop knows nothing and has merged nothing. */
  lemma YearLoopStart(root0: Node, yearPath: Path, months: seq<string>)
    ensures YearLoopInv(root0, yearPath, months, 0, [])
  {
    assert months[..0] == [];
  }

  /** After the last listed month folder, every month folder that qualifies has its merge recorded. */
  lemma YearLoopDone(root0: Node, yearPath: Path, months: seq<string>, merges: seq<MonthMerge>)
    requires YearLoopInv(root0, yearPath, months, |months|, merges)
    requires forall x :: x in months <==> x in Children(root0, yearPath)
    ensures SeparateMonths(root0, merges, |yearPath| + 1)
    ensures forall i :: 0 <= i < |merges| ==> MergeRecord(root0, yearPath, merges[i])
    ensures forall mo :: MonthToMerge(root0, yearPath, mo) ==>
              exists i :: 0 <= i < |merges| && merges[i].month == yearPath + [mo]
  {
    assert months[..|months|] == months;
    forall mo | MonthToMerge(root0, yearPath, mo)
      ensures mo in months
    {
      assert mo in Children(root0, yearPath);
    }
  }

  /** One turn of the month loop: the `j`-th listed month folder is examined and merged if it qualifies. */
  method YearTurn(fs: FileSystem, yearPath: Path, months: seq<string>, j: nat, ghost root0: Node, ghost merges: seq<MonthMerge>)
    returns (merged: bool, ghost merges': seq<MonthMerge>)
    requires j < |months| && forall a, b :: 0 <= a < b < |months| ==> months[a] != months[b]
    requires fs.root == ApplyMerges(root0, merges) && YearLoopInv(root0, yearPath, months, j, merges)
    modifies fs
    ensures SucceededCount(merges') == SucceededCount(merges) + (if merged then 1 else 0)
    ensures fs.root == ApplyMerges(root0, merges') && YearLoopInv(root0, yearPath, months, j + 1, merges')
  {
    var mo := months[j];
    YearLoopFrame(root0, yearPath, months, j, merges);
    ghost var before := fs.root;
    ghost var r;
    merged, r := RestructureMonth(fs, yearPath, mo);
    MonthFrame(before, root0, yearPath, mo, r);
    if MonthToMerge(root0, yearPath, mo) {
      YearLoopAdd(root0, yearPath, months, j, merges, r);
      assert (merges + [r])[..|merges|] == merges;
      merges' := merges + [r];
    } else {
      YearLoopSkip(root0, yearPath, months, j, merges);
      merges' := merges;
    }
  }

  /** Whether a month folder qualifies, and what its merge records, depend on that folder alone. */
  lemma MonthFrame(a: Node, b: Node, yearPath: Path, mo: string, r: MonthMerge)
    requires Get(a, yearPath + [mo]) == Get(b, yearPath + [mo])
    ensures MonthToMerge(a, yearPath, mo) <==> MonthToMerge(b, yearPath, mo)
    ensures r.month == yearPath + [mo] ==> (MergeRecord(a, yearPath, r) <==> MergeRecord(b, yearPath, r))
  {
    if r.month == yearPath + [mo] {
      assert Basename(r.month) == mo;
    }
  }

  /** The month folder `mo` of the year folder `y` under `dest` is one the consolidation pass merges. */
  ghost predicate YearMonthToMerge(n: Node, dest: Path, y: string, mo: string)
  {
    IsYearFolder(y) && MonthToMerge(n, dest + [y], mo)
  }

  /** `r` records the merge of a month folder of a year folder under `dest`, as found in `n`. */
  ghost predicate DestRecord(n: Node, dest: Path, r: MonthMerge)
  {
    |r.month| == |dest| + 2 && r.month[..|dest| + 1] == dest + [r.month[|dest|]]
    && IsYearFolder(r.month[|dest|]) && MergeRecord(n, r.month[..|dest| + 1], r)
  }

  /** What the year loop knows after the first `i` listed year folders. */
  ghost predicate DestLoopInv(root0: Node, dest: Path, years: seq<string>, i: nat, merges: seq<MonthMerge>)
  {
    i <= |years| && SeparateMonths(root0, merges, |dest| + 2)
    && (forall k :: 0 <= k < |merges| ==> DestRecord(root0, dest, merges[k]) && merges[k].month[|dest|] in years[..i])
    && (forall y, mo :: y in years[..i] && YearMonthToMerge(root0, dest, y, mo) ==>
          exists k :: 0 <= k < |merges| && merges[k].month == dest + [y] + [mo])
  }

  /** The next listed year folder is untouched by the merges so far. */
  lemma DestLoopFrame(root0: Node, dest: Path, years: seq<string>, i: nat, merges: seq<MonthMerge>)
    requires DestLoopInv(root0, dest, years, i, merges) && i < |years|
    requires forall a, b :: 0 <= a < b < |years| ==> years[a] != years[b]
    ensures Get(ApplyMerges(root0, merges), dest + [years[i]]) == Get(root0, dest + [years[i]])
  {
    var yearPath := dest + [years[i]];
    forall k | 0 <= k < |merges|
      ensures !IsPrefix(merges[k].month, yearPath) && !IsPrefix(yearPath, merges[k].month)
    {
      assert DestRecord(root0, dest, merges[k]) && merges[k].month[|dest|] in years[..i];
      var a :| 0 <= a < i && years[a] == merges[k].month[|dest|];
      assert merges[k].month[..|dest| + 1] == dest + [years[a]];
    }
    ApplyMergesElsewhere(root0, merges, |dest| + 2, yearPath);
  }

  /** A pass of the year loop that skips the year folder keeps what the loop knows. */
  lemma DestLoopSkip(root0: Node, dest: Path, years: seq<string>, i: nat, merges: seq<MonthMerge>)
    requires DestLoopInv(root0, dest, years, i, merges) && i < |years|
    requires !IsYearFolder(years[i]) || !IsDir(root0, dest + [years[i]])
    ensures DestLoopInv(root0, dest, years, i + 1, merges)
  {
    var y := years[i];
    assert years[..i + 1] == years[..i] + [y];
    forall mo | YearMonthToMerge(root0, dest, y, mo)
      ensures false
    {
      PrefixOfExistingIsDir(root0, dest + [y], dest + [y] + [mo]);
    }
    forall k | 0 <= k < |merges|
      ensures merges[k].month[|dest|] in years[..i + 1]
    {
      assert merges[k].month[|dest|] in years[..i];
    }
  }

  /** The records of one year folder's merges, found in the partly restructured tree, hold of the original one. */
  lemma DestRecordsTransfer(root0: Node, dest: Path, y: string, before: Node, ms: seq<MonthMerge>)
    requires IsYearFolder(y) && Get(before, dest + [y]) == Get(root0, dest + [y])
    requires SeparateMonths(before, ms, |dest| + 2)
    requires forall k :: 0 <= k < |ms| ==> MergeRecord(before, dest + [y], ms[k])
    requires forall mo :: MonthToMerge(before, dest + [y], mo) ==>
               exists k :: 0 <= k < |ms| && ms[k].month == dest + [y] + [mo]
    ensures SeparateMonths(root0, ms, |dest| + 2)
    ensures forall k :: 0 <= k < |ms| ==> DestRecord(root0, dest, ms[k]) && ms[k].month[|dest|] == y
    ensures forall mo :: YearMonthToMerge(root0, dest, y, mo) ==>
              exists k :: 0 <= k < |ms| && ms[k].month == dest + [y] + [mo]
  {
    var yearPath := dest + [y];
    forall mo
      ensures Get(before, yearPath + [mo]) == Get(root0, yearPath + [mo])
      ensures MonthToMerge(before, yearPath, mo) <==> MonthToMerge(root0, yearPath, mo)
    {
      GetAppend(before, yearPath, [mo]);
      GetAppend(root0, yearPath, [mo]);
    }
    forall k | 0 <= k < |ms|
      ensures DestRecord(root0, dest, ms[k]) && ms[k].month[|dest|] == y && IsDir(root0, ms[k].month)
    {
      var r := ms[k];
      assert r.month == yearPath + [Basename(r.month)];
      assert r.month[..|dest| + 1] == yearPath && r.month[|dest|] == y;
      assert MergeRecord(root0, yearPath, r);
    }
  }

  /** Appending the merges of a new year folder keeps the months separate. */
  lemma DestSeparateAppend(root0: Node, dest: Path, y: string, merges: seq<MonthMerge>, ms: seq<MonthMerge>)
    requires SeparateMonths(root0, merges, |dest| + 2) && SeparateMonths(root0, ms, |dest| + 2)
    requires forall k :: 0 <= k < |merges| ==> merges[k].month[|dest|] != y
    requires forall k :: 0 <= k < |ms| ==> ms[k].month[|dest|] == y
    ensures SeparateMonths(root0, merges + ms, |dest| + 2)
  {
    var all := merges + ms;
    forall a, b | 0 <= a < b < |all|
      ensures all[a].month != all[b].month
    {
      if b < |merges| {
        assert all[a] == merges[a] && all[b] == merges[b];
      } else if a >= |merges| {
        assert all[a] == ms[a - |merges|] && all[b] == ms[b - |merges|];
      } else {
        assert all[a] == merges[a] && all[b] == ms[b - |merges|];
      }
    }
  }

  /** A pass of the year loop that restructures the year folder keeps what the loop knows. */
  lemma DestLoopAdd(root0: Node, dest: Path, years: seq<string>, i: nat, merges: seq<MonthMerge>,
                    before: Node, ms: seq<MonthMerge>)
    requires DestLoopInv(root0, dest, years, i, merges) && i < |years|
    requires forall a, b :: 0 <= a < b < |years| ==> years[a] != years[b]
    requires IsYearFolder(years[i]) && Get(before, dest + [years[i]]) == Get(root0, dest + [years[i]])
    requires SeparateMonths(before, ms, |dest| + 2)
    requires forall k :: 0 <= k < |ms| ==> MergeRecord(before, dest + [years[i]], ms[k])
    requires forall mo :: MonthToMerge(before, dest + [years[i]], mo) ==>
               exists k :: 0 <= k < |ms| && ms[k].month == dest + [years[i]] + [mo]
    ensures DestLoopInv(root0, dest, years, i + 1, merges + ms)
  {
    var y := years[i];
    assert years[..i + 1] == years[..i] + [y];
    DestRecordsTransfer(root0, dest, y, before, ms);
    forall k | 0 <= k < |merges|
      ensures merges[k].month[|dest|] != y
    {
      assert merges[k].month[|dest|] in years[..i];
      var a :| 0 <= a < i && years[a] == merges[k].month[|dest|];
    }
    DestSeparateAppend(root0, dest, y, merges, ms);
    DestLoopAddRecords(root0, dest, years, i, merges, ms);
    DestLoopAddCovers(root0, dest, years, i, merges, ms);
  }

  /** The records so far and those of the year folder just merged are records of year folders listed so far. */
  lemma DestLoopAddRecords(root0: Node, dest: Path, years: seq<string>, i: nat, merges: seq<MonthMerge>, ms: seq<MonthMerge>)
    requires DestLoopInv(root0, dest, years, i, merges) && i < |years|
    requires forall k :: 0 <= k < |ms| ==> DestRecord(root0, dest, ms[k]) && ms[k].month[|dest|] == years[i]
    ensures forall k :: 0 <= k < |merges + ms| ==>
              DestRecord(root0, dest, (merges + ms)[k]) && (merges + ms)[k].month[|dest|] in years[..i + 1]
  {
    var all := merges + ms;
    assert years[..i + 1] == years[..i] + [years[i]];
    forall k | 0 <= k < |all|
      ensures DestRecord(root0, dest, all[k]) && all[k].month[|dest|] in years[..i + 1]
    {
      if k < |merges| {
        assert all[k] == merges[k];
      } else {
        assert all[k] == ms[k - |merges|];
      }
    }
  }

  /** Every qualifying month folder of a year folder listed so far, the new one included, has its merge recorded. */
  lemma DestLoopAddCovers(root0: Node, dest: Path, years: seq<string>, i: nat, merges: seq<MonthMerge>, ms: seq<MonthMerge>)
    requires DestLoopInv(root0, dest, years, i, merges) && i < |years|
    requires forall mo :: YearMonthToMerge(root0, dest, years[i], mo) ==>
               exists k :: 0 <= k < |ms| && ms[k].month == dest + [years[i]] + [mo]
    ensures forall y', mo :: y' in years[..i + 1] && YearMonthToMerge(root0, dest, y', mo) ==>
              exists k :: 0 <= k < |merges + ms| && (merges + ms)[k].month == dest + [y'] + [mo]
  {
    var y := years[i];
    var all := merges + ms;
    assert years[..i + 1] == years[..i] + [y];
    forall y', mo | y' in years[..i + 1] && YearMonthToMerge(root0, dest, y', mo)
      ensures exists k :: 0 <= k < |all| && all[k].month == dest + [y'] + [mo]
    {
      if y' == y {
        var k :| 0 <= k < |ms| && ms[k].month == dest + [y] + [mo];
        assert all[|merges| + k] == ms[k];
      } else {
        assert y' in years[..i];
        var k :| 0 <= k < |merges| && merges[k].month == dest + [y'] + [mo];
        assert all[k] == merges[k];
      }
    }
  }

  /**
   * `restructure_for_smart_mode`: in every 4-digit year folder under `dest`,
   * merge every month-shaped month folder whose sole entry is a day folder,
   * and count the merges that succeed. The merges happen in listing order;
   * which months are merged does not depend on it. Listing a destination
   * that is not a folder raises, which the result reports as `None`.
   */
  method RestructureForSmartMode(fs: FileSystem, dest: Path) returns (count: Option<nat>, ghost merges: seq<MonthMerge>)
    modifies fs
    ensures count.None? <==> !IsDir(old(fs.root), dest)
    ensures count.None? ==> fs.root == old(fs.root) && merges == []
    ensures count.Some? ==> count.value == SucceededCount(merges)
    ensures fs.root == ApplyMerges(old(fs.root), merges)
    ensures SeparateMonths(old(fs.root), merges, |dest| + 2)
    ensures forall k :: 0 <= k < |merges| ==> DestRecord(old(fs.root), dest, merges[k])
    ensures forall y, mo :: YearMonthToMerge(old(fs.root), dest, y, mo) ==>
              exists k :: 0 <= k < |merges| && merges[k].month == dest + [y] + [mo]
  {
    ghost var root0 := fs.root;
    merges := [];
    if !IsDir(fs.root, dest) {
      forall y, mo | YearMonthToMerge(root0, dest, y, mo)
        ensures false
      {
        PrefixOfExistingIsDir(root0, dest, dest + [y] + [mo]);
      }
      return None, merges;
    }
    var years := fs.ListDir(dest);
    var n := 0;
    var i := 0;
    while i < |years|
      invariant 0 <= i <= |years|
      invariant n == SucceededCount(merges)
      invariant fs.root == ApplyMerges(root0, merges)
      invariant DestLoopInv(root0, dest, years, i, merges)
    {
      var c;
      c, merges := DestTurn(fs, dest, years, i, root0, merges);
      n := n + c;
      i := i + 1;
    }
    assert years[..i] == years;
    forall y, mo | YearMonthToMerge(root0, dest, y, mo)
      ensures y in years
    {
      PrefixOfExistingIsDir(root0, dest + [y], dest + [y] + [mo]);
      assert y in Children(root0, dest);
    }
    count := Some(n);
  }

  /** One turn of the year loop: the `i`-th listed entry is consolidated if it is a 4-digit year folder. */
  method DestTurn(fs: FileSystem, dest: Path, years: seq<string>, i: nat, ghost root0: Node, ghost merges: seq<MonthMerge>)
    returns (c: nat, ghost merges': seq<MonthMerge>)
    requires i < |years| && forall a, b :: 0 <= a < b < |years| ==> years[a] != years[b]
    requires fs.root == ApplyMerges(root0, merges) && DestLoopInv(root0, dest, years, i, merges)
    modifies fs
    ensures SucceededCount(merges') == SucceededCount(merges) + c
    ensures fs.root == ApplyMerges(root0, merges') && DestLoopInv(root0, dest, years, i + 1, merges')
  {
    var y := years[i];
    var yearPath := dest + [y];
    DestLoopFrame(root0, dest, years, i, merges);
    if !IsDir(fs.root, yearPath) || !IsYearFolder(y) {
      DestLoopSkip(root0, dest, years, i, merges);
      c, merges' := 0, merges;
    } else {
      ghost var before := fs.root;
      ghost var ms;
      c, ms := RestructureYear(fs, yearPath);
      DestLoopAdd(root0, dest, years, i, merges, before, ms);
      ApplyMergesAppend(root0, merges, ms);
      SucceededCountAppend(merges, ms);
      merges' := merges + ms;
    }
  }
}
