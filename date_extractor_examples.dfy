/**
 * The sample file names listed at the end of date_extractor.py, and two more
 * names that exercise the fall-through from one rule to the next, worked out
 * against the model.
 */
module DateExtractorExamples {
  import opened Wrappers
  import opened Text
  import opened Calendar
  import opened DateExtractor

  /** The rule list in order: camera, year-first delimited and bare, keyword, day-first delimited and bare. */
  lemma RulesInOrder()
    ensures |Rules| == 6
    ensures Rules[0] == CameraStamp && Rules[1] == YearFirstDelimited && Rules[2] == YearFirstBare
    ensures Rules[3] == KeywordDate && Rules[4] == DayFirstDelimited && Rules[5] == DayFirstBare
  {
  }

  /** When the first two rules yield nothing, the bare year-first rule decides. */
  lemma FirstDateFromYearFirstBare(s: string)
    requires RuleDate(CameraStamp, s).None? && RuleDate(YearFirstDelimited, s).None?
    requires RuleDate(YearFirstBare, s).Some?
    ensures FirstDate(Rules, s) == RuleDate(YearFirstBare, s)
  {
    RulesInOrder();
    FirstDateIsFirstSuccess(Rules, s, 2);
  }

  /** When the first four rules yield nothing, the day-first delimited rule decides. */
  lemma FirstDateFromDayFirstDelimited(s: string)
    requires RuleDate(CameraStamp, s).None? && RuleDate(YearFirstDelimited, s).None?
    requires RuleDate(YearFirstBare, s).None? && RuleDate(KeywordDate, s).None?
    requires RuleDate(DayFirstDelimited, s).Some?
    ensures FirstDate(Rules, s) == RuleDate(DayFirstDelimited, s)
  {
    RulesInOrder();
    forall j | 0 <= j < 4 ensures RuleDate(Rules[j], s).None? {
      assert j == 0 || j == 1 || j == 2 || j == 3;
    }
    FirstDateIsFirstSuccess(Rules, s, 4);
  }

  /** When the first five rules yield nothing, the day-first bare rule decides. */
  lemma FirstDateFromDayFirstBare(s: string)
    requires RuleDate(CameraStamp, s).None? && RuleDate(YearFirstDelimited, s).None?
    requires RuleDate(YearFirstBare, s).None? && RuleDate(KeywordDate, s).None?
    requires RuleDate(DayFirstDelimited, s).None? && RuleDate(DayFirstBare, s).Some?
    ensures FirstDate(Rules, s) == RuleDate(DayFirstBare, s)
  {
    RulesInOrder();
    forall j | 0 <= j < 5 ensures RuleDate(Rules[j], s).None? {
      assert j == 0 || j == 1 || j == 2 || j == 3 || j == 4;
    }
    FirstDateIsFirstSuccess(Rules, s, 5);
  }

  // IMG_20250823_192714.jpg: the camera rule, with the time taken from the name.

  /** A name starting with "IMG", a separator and eight digits matches the first camera prefix. */
  lemma ImgPrefixFound(s: string)
    requires 12 <= |s| && s[..3] == "IMG" && IsCameraSeparator(s[3]) && DigitsAt(s, 4, 8)
    ensures CameraDigitsStart(s, 0, CameraPrefixes) == Some(4)
  {
    assert CameraPrefixes[0] == "IMG";
    assert WordAt(s, 0, "IMG");
  }

  lemma CameraPrefixFound()
    ensures CameraDigitsStart("IMG_20250823_192714", 0, CameraPrefixes) == Some(4)
  {
    var s := "IMG_20250823_192714";
    assert s[..3] == "IMG" && DigitsAt(s, 4, 8);
    ImgPrefixFound(s);
  }

  lemma CameraTime()
    ensures TimeGroups("IMG_20250823_192714", 12) == [19, 27, 14]
  {
    var s := "IMG_20250823_192714";
    ValueTwo(s[13..15]);
    ValueTwo(s[15..17]);
    ValueTwo(s[17..19]);
  }

  lemma CameraGroups()
    ensures MatchAt(CameraStamp, "IMG_20250823_192714", 0) == Some(Captures(2025, 8, 23, [19, 27, 14]))
  {
    var s := "IMG_20250823_192714";
    CameraPrefixFound();
    CameraTime();
    ValueFour(s[4..8]);
    ValueTwo(s[8..10]);
    ValueTwo(s[10..12]);
  }

  lemma CameraExample()
    ensures ExtractDateFromFilename("IMG_20250823_192714.jpg") == Some(DateTime(2025, 8, 23, 19, 27, 14))
  {
    var s := "IMG_20250823_192714";
    assert StripExtension("IMG_20250823_192714.jpg") == s;
    CameraGroups();
    assert RuleDate(CameraStamp, s) == Some(DateTime(2025, 8, 23, 19, 27, 14));
    FirstDateIsFirstSuccess(Rules, s, 0);
  }

  // 23.08.2025_vacation.jpg: only the day-first delimited rule matches.

  lemma VacationNoOtherCandidate()
    ensures NoEightDigitRun("23.08.2025_vacation") && NoYearFirstDate("23.08.2025_vacation")
  {
    var s := "23.08.2025_vacation";
    assert !IsDigit(s[2]) && !IsDigit(s[5]) && !IsDigit(s[10]) && !IsDigit(s[11]);
    assert !IsDateSeparator(s[11]) && !IsDateSeparator(s[12]) && !IsDateSeparator(s[13]);
    forall q: nat | q <= |s| ensures !YearFirstDelimitedAt(s, q) {
      YearFirstDelimitedShape(s, q);
    }
  }

  lemma VacationDayFirstValues(s: string)
    requires s == "23.08.2025_vacation"
    ensures DayFirstDelimitedAt(s, 0)
    ensures NumberAt(s, 0, 2) == 23 && NumberAt(s, 3, 2) == 8 && NumberAt(s, 6, 4) == 2025
  {
    assert s[0..2] == "23" && s[3..5] == "08" && s[6..10] == "2025";
    assert DigitsAt(s, 0, 2) && DigitsAt(s, 3, 2) && DigitsAt(s, 6, 4);
    assert IsDateSeparator(s[2]) && IsDateSeparator(s[5]);
    ValueTwo("23");
    ValueTwo("08");
    ValueFour("2025");
  }

  lemma VacationDayFirst()
    ensures RuleDate(DayFirstDelimited, "23.08.2025_vacation") == Some(DateTime(2025, 8, 23, 0, 0, 0))
  {
    var s := "23.08.2025_vacation";
    VacationDayFirstValues(s);
    assert MatchAt(DayFirstDelimited, s, 0) == Some(Captures(23, 8, 2025, []));
    SearchFindsLeftmost(DayFirstDelimited, s, 0);
  }

  lemma VacationFirstDate(s: string)
    requires s == "23.08.2025_vacation"
    ensures FirstDate(Rules, s) == Some(DateTime(2025, 8, 23, 0, 0, 0))
  {
    assert RuleDate(CameraStamp, s).None? && RuleDate(YearFirstBare, s).None? by {
      VacationNoOtherCandidate();
      EightDigitRulesNeedRun(s);
    }
    assert RuleDate(YearFirstDelimited, s).None? && RuleDate(KeywordDate, s).None? by {
      VacationNoOtherCandidate();
      YearFirstRulesNeedDate(s);
    }
    assert RuleDate(DayFirstDelimited, s) == Some(DateTime(2025, 8, 23, 0, 0, 0)) by { VacationDayFirst(); }
    FirstDateFromDayFirstDelimited(s);
  }

  lemma VacationExample()
    ensures ExtractDateFromFilename("23.08.2025_vacation.jpg") == Some(DateTime(2025, 8, 23, 0, 0, 0))
  {
    assert StripExtension("23.08.2025_vacation.jpg") == "23.08.2025_vacation";
    VacationFirstDate("23.08.2025_vacation");
  }

  // 1DE4E6D6-D62E-4DB1-A1B6-BBF202001B9159E.jpg: a UUID-like name yields nothing.

  /** Position `i` holds neither a digit nor a date separator, so no date pattern can span it. */
  predicate Blocks(s: string, i: nat)
  {
    i < |s| && !IsDigit(s[i]) && !IsDateSeparator(s[i])
  }

  /**
   * Increasing positions at most `w` apart, the first below `w`: every window
   * of width `w` starting no later than the last position holds one of them.
   */
  lemma {:induction false} WindowHoldsBlocker(bs: seq<nat>, w: nat, q: nat)
    requires |bs| > 0 && bs[0] < w && q <= bs[|bs| - 1]
    requires forall k :: 0 < k < |bs| ==> bs[k - 1] < bs[k] <= bs[k - 1] + w
    ensures exists k :: 0 <= k < |bs| && q <= bs[k] < q + w
  {
    var n := |bs|;
    if n == 1 {
      assert q <= bs[0] < q + w;
    } else if q <= bs[n - 2] {
      var init := bs[..n - 1];
      WindowHoldsBlocker(init, w, q);
      var k :| 0 <= k < n - 1 && q <= init[k] < q + w;
      assert init[k] == bs[k];
    } else {
      assert q <= bs[n - 1] < q + w;
    }
  }

  /**
   * A name whose blocking positions are never more than eight apart, from the
   * start to the end, holds no eight-digit run and no delimited date.
   */
  lemma NoDatesAcrossBlockers(s: string, bs: seq<nat>)
    requires |bs| > 0 && bs[0] < 8 && |s| <= bs[|bs| - 1] + 8
    requires forall k :: 0 < k < |bs| ==> bs[k - 1] < bs[k] <= bs[k - 1] + 8
    requires forall k :: 0 <= k < |bs| ==> Blocks(s, bs[k])
    ensures NoEightDigitRun(s) && NoYearFirstDate(s) && NoDayFirstDate(s)
  {
    forall q: nat | q <= |s|
      ensures !DigitsAt(s, q, 8) && !YearFirstDelimitedAt(s, q) && !DayFirstDelimitedAt(s, q)
    {
      if q + 8 <= |s| {
        WindowHoldsBlocker(bs, 8, q);
        var k :| 0 <= k < |bs| && q <= bs[k] < q + 8;
        assert Blocks(s, bs[k]);
        YearFirstDelimitedShape(s, q);
        DayFirstDelimitedShape(s, q);
      }
    }
  }

  lemma UuidNoCandidate()
    ensures var s := "1DE4E6D6-D62E-4DB1-A1B6-BBF202001B9159E";
            NoEightDigitRun(s) && NoYearFirstDate(s) && NoDayFirstDate(s)
  {
    var s := "1DE4E6D6-D62E-4DB1-A1B6-BBF202001B9159E";
    var bs: seq<nat> := [6, 12, 19, 26, 33];
    assert Blocks(s, 6) && Blocks(s, 12) && Blocks(s, 19) && Blocks(s, 26) && Blocks(s, 33);
    NoDatesAcrossBlockers(s, bs);
  }

  lemma UuidExample()
    ensures ExtractDateFromFilename("1DE4E6D6-D62E-4DB1-A1B6-BBF202001B9159E.jpg") == None
  {
    assert StripExtension("1DE4E6D6-D62E-4DB1-A1B6-BBF202001B9159E.jpg") == "1DE4E6D6-D62E-4DB1-A1B6-BBF202001B9159E";
    UuidNoCandidate();
    NoCandidateNoDate("1DE4E6D6-D62E-4DB1-A1B6-BBF202001B9159E.jpg");
  }

  // IMG_2021.jpg: a camera prefix followed by too few digits yields nothing.

  lemma ShortCameraExample()
    ensures ExtractDateFromFilename("IMG_2021.jpg") == None
  {
    var s := "IMG_2021";
    assert StripExtension("IMG_2021.jpg") == s;
    assert !IsDigit(s[0]);
    assert NoEightDigitRun(s) && NoYearFirstDate(s) && NoDayFirstDate(s);
    NoCandidateNoDate("IMG_2021.jpg");
  }

  // IMG_20250823_256000.jpg: hour 25 makes the camera rule fail, and the bare
  // year-first rule then finds the same date at midnight.

  lemma BadTimePrefixFound()
    ensures CameraDigitsStart("IMG_20250823_256000", 0, CameraPrefixes) == Some(4)
  {
    var s := "IMG_20250823_256000";
    assert s[..3] == "IMG" && DigitsAt(s, 4, 8);
    ImgPrefixFound(s);
  }

  lemma BadTimeTime()
    ensures TimeGroups("IMG_20250823_256000", 12) == [25, 60, 0]
  {
    var s := "IMG_20250823_256000";
    ValueTwo(s[13..15]);
    ValueTwo(s[15..17]);
    ValueTwo(s[17..19]);
  }

  lemma BadTimeDigits(s: string)
    requires s == "IMG_20250823_256000"
    ensures DigitsAt(s, 4, 4) && DigitsAt(s, 8, 2) && DigitsAt(s, 10, 2)
    ensures NumberAt(s, 4, 4) == 2025 && NumberAt(s, 8, 2) == 8 && NumberAt(s, 10, 2) == 23
  {
    assert s[4..8] == "2025";
    ValueFour("2025");
    assert s[8..10] == "08";
    ValueTwo("08");
    assert s[10..12] == "23";
    ValueTwo("23");
  }

  lemma BadTimeCameraFails()
    ensures RuleDate(CameraStamp, "IMG_20250823_256000").None?
  {
    var s := "IMG_20250823_256000";
    BadTimePrefixFound();
    BadTimeTime();
    BadTimeDigits(s);
    assert MatchAt(CameraStamp, s, 0) == Some(Captures(2025, 8, 23, [25, 60, 0]));
  }

  lemma BadTimeNoYearFirstDate()
    ensures NoYearFirstDate("IMG_20250823_256000")
  {
    var s := "IMG_20250823_256000";
    assert !IsDigit(s[0]) && !IsDigit(s[1]) && !IsDigit(s[2]) && !IsDigit(s[3]) && !IsDigit(s[12]);
    assert !IsDateSeparator(s[0]) && !IsDateSeparator(s[1]) && !IsDateSeparator(s[2]);
    assert IsDigit(s[4]) && IsDigit(s[5]) && IsDigit(s[6]) && IsDigit(s[7]) && IsDigit(s[8]) && IsDigit(s[9]);
    assert IsDigit(s[10]) && IsDigit(s[11]) && IsDigit(s[13]) && IsDigit(s[14]) && IsDigit(s[15]) && IsDigit(s[16]);
    forall q: nat | q <= |s| ensures !YearFirstDelimitedAt(s, q) {
      YearFirstDelimitedShape(s, q);
    }
  }

  lemma BadTimeBareDate()
    ensures RuleDate(YearFirstBare, "IMG_20250823_256000") == Some(DateTime(2025, 8, 23, 0, 0, 0))
  {
    var s := "IMG_20250823_256000";
    assert !IsDigit(s[3]);
    assert GuardedEightDigitsAt(s, 4);
    SearchFindsLeftmost(YearFirstBare, s, 4);
    BadTimeDigits(s);
    assert MatchAt(YearFirstBare, s, 4) == Some(Captures(2025, 8, 23, []));
  }

  lemma BadTimeStem()
    ensures StripExtension("IMG_20250823_256000.jpg") == "IMG_20250823_256000"
  {
  }

  lemma BadTimeNoDelimited(s: string)
    requires s == "IMG_20250823_256000"
    ensures RuleDate(YearFirstDelimited, s).None?
  {
    BadTimeNoYearFirstDate();
    YearFirstRulesNeedDate(s);
  }

  lemma BadTimeFirstDate(s: string)
    requires s == "IMG_20250823_256000"
    ensures FirstDate(Rules, s) == Some(DateTime(2025, 8, 23, 0, 0, 0))
  {
    assert RuleDate(CameraStamp, s).None? by { BadTimeCameraFails(); }
    assert RuleDate(YearFirstDelimited, s).None? by { BadTimeNoDelimited(s); }
    assert RuleDate(YearFirstBare, s) == Some(DateTime(2025, 8, 23, 0, 0, 0)) by { BadTimeBareDate(); }
    FirstDateFromYearFirstBare(s);
  }

  lemma BadTimeExample()
    ensures ExtractDateFromFilename("IMG_20250823_256000.jpg") == Some(DateTime(2025, 8, 23, 0, 0, 0))
  {
    BadTimeStem();
    BadTimeFirstDate("IMG_20250823_256000");
  }

  // 08082025.jpg: read year first the run is 0808-20-25, not a date, so the
  // day-first bare reading 08.08.2025 is used.

  lemma AmbiguousRunValues()
    ensures NumberAt("08082025", 0, 4) == 808 && NumberAt("08082025", 4, 2) == 20 && NumberAt("08082025", 6, 2) == 25
    ensures NumberAt("08082025", 0, 2) == 8 && NumberAt("08082025", 2, 2) == 8 && NumberAt("08082025", 4, 4) == 2025
  {
    var s := "08082025";
    assert s[0..4] == "0808";
    ValueFour("0808");
    assert s[4..6] == "20";
    ValueTwo("20");
    assert s[6..8] == "25";
    ValueTwo("25");
    assert s[0..2] == "08";
    ValueTwo("08");
    assert s[2..4] == "08";
    assert s[4..8] == "2025";
    ValueFour("2025");
  }

  lemma AmbiguousRunReadings()
    ensures RuleDate(YearFirstBare, "08082025").None?
    ensures RuleDate(DayFirstBare, "08082025") == Some(DateTime(2025, 8, 8, 0, 0, 0))
  {
    var s := "08082025";
    assert GuardedEightDigitsAt(s, 0);
    AmbiguousRunValues();
    assert MatchAt(YearFirstBare, s, 0) == Some(Captures(808, 20, 25, []));
    assert MatchAt(DayFirstBare, s, 0) == Some(Captures(8, 8, 2025, []));
  }

  lemma AmbiguousRunNoCamera(s: string)
    requires s == "08082025"
    ensures RuleDate(CameraStamp, s).None?
  {
    var r := Search(CameraStamp, s, 0);
    assert r.Some? ==> MatchAt(CameraStamp, s, r.value).Some?;
  }

  lemma AmbiguousRunNoDelimited(s: string)
    requires s == "08082025"
    ensures RuleDate(YearFirstDelimited, s).None? && RuleDate(KeywordDate, s).None?
    ensures RuleDate(DayFirstDelimited, s).None?
  {
    assert NoYearFirstDate(s) && NoDayFirstDate(s);
    YearFirstRulesNeedDate(s);
    DayFirstRuleNeedsDate(s);
  }

  lemma AmbiguousRunFirstDate(s: string)
    requires s == "08082025"
    ensures FirstDate(Rules, s) == Some(DateTime(2025, 8, 8, 0, 0, 0))
  {
    AmbiguousRunNoCamera(s);
    AmbiguousRunNoDelimited(s);
    AmbiguousRunReadings();
    FirstDateFromDayFirstBare(s);
  }

  lemma AmbiguousRunExample()
    ensures ExtractDateFromFilename("08082025.jpg") == Some(DateTime(2025, 8, 8, 0, 0, 0))
  {
    assert StripExtension("08082025.jpg") == "08082025";
    AmbiguousRunFirstDate("08082025");
  }
}
