/**
 * Filename date inference (date_extractor.py).
 *
 * The extension is cut off at the last '.', then six patterns are tried in a
 * fixed order. For each pattern only its leftmost match is looked at
 * (`re.search`); the match is turned into a date and checked, and the first
 * pattern whose leftmost match yields a valid date wins. A pattern whose
 * leftmost match is not a valid date does not stop the search: the next
 * pattern is tried.
 *
 * The regular expressions are written out as position predicates: `XAt(s, p)`
 * holds when the pattern matches starting at position `p` of `s`, and `Search`
 * finds the smallest such position, which is what `re.search` reports.
 */
module DateExtractor {
  import opened Wrappers
  import opened Text
  import opened Calendar

  /**
   * `_is_valid_date`: the year window 1900-2099, a month 1-12, a day 1-31, and
   * finally `datetime(year, month, day)` must accept the triple.
   */
  predicate IsValidDate(y: int, m: int, d: int)
  {
    if y < 1900 || y > 2099 then false
    else if m < 1 || m > 12 then false
    else if d < 1 || d > 31 then false
    else IsCalendarDate(y, m, d)
  }

  /** The checks of `_is_valid_date` amount to a Gregorian calendar date in the year window. */
  lemma ValidDateIsGregorian(y: int, m: int, d: int)
    ensures IsValidDate(y, m, d) <==> 1900 <= y <= 2099 && 1 <= m <= 12 && 1 <= d <= DaysInMonth(y, m)
  {
  }

  /** The leap-day and month-length edge cases of the calendar check. */
  lemma ValidDateEdgeCases()
    ensures IsValidDate(2000, 2, 29) && IsValidDate(2024, 2, 29)
    ensures !IsValidDate(1900, 2, 29) && !IsValidDate(2023, 2, 29)
    ensures !IsValidDate(2025, 4, 31) && IsValidDate(2025, 12, 31)
    ensures !IsValidDate(1899, 12, 31) && IsValidDate(1900, 1, 1) && IsValidDate(2099, 12, 31) && !IsValidDate(2100, 1, 1)
  {
  }

  /** `filename.rsplit('.', 1)[0]`: everything before the last '.', or the whole name when there is none. */
  function StripExtension(filename: string): (stem: string)
    ensures |stem| <= |filename| && stem == filename[..|stem|]
    ensures '.' !in filename ==> stem == filename
    ensures '.' in filename ==> |stem| < |filename| && filename[|stem|] == '.' && '.' !in filename[|stem| + 1..]
  {
    if '.' !in filename then filename else filename[..LastIndex(filename, '.')]
  }

  /** The six patterns of `date_patterns`, named by what they recognise. */
  datatype Rule =
    | CameraStamp         // (?:IMG|VID|PXL|PHOTO|VIDEO|PANO)[-_]YYYYMMDD[-_]?(HH)?(MM)?(SS)?
    | YearFirstDelimited  // YYYY[-_.:]MM[-_.:]DD
    | YearFirstBare       // YYYYMMDD with no hexadecimal character on either side
    | KeywordDate         // (?:screenshot|photo|image|snap|pic)[-_\s]+YYYY[-_.:]MM[-_.:]DD
    | DayFirstDelimited   // DD[-_.:]MM[-_.:]YYYY
    | DayFirstBare        // DDMMYYYY with no hexadecimal character on either side

  /** The patterns in the order the source tries them. */
  const Rules: seq<Rule> := [CameraStamp, YearFirstDelimited, YearFirstBare, KeywordDate, DayFirstDelimited, DayFirstBare]

  /** The groups one match captures: the three date groups in pattern order, and the time groups that matched. */
  datatype Captures = Captures(first: nat, second: nat, third: nat, time: seq<nat>)

  /** `\d{n}` at position `p`. */
  predicate DigitsAt(s: string, p: nat, n: nat)
  {
    p + n <= |s| && forall i :: p <= i < p + n ==> IsDigit(s[i])
  }

  /** `int()` of the `n` digits at position `p`. */
  function NumberAt(s: string, p: nat, n: nat): nat
    requires DigitsAt(s, p, n)
  {
    Value(s[p..p + n])
  }

  /** `[-_.:]`, the separator of the delimited dates. */
  predicate IsDateSeparator(c: char) { c == '-' || c == '_' || c == '.' || c == ':' }

  /** `[-_]`, the separator after a camera prefix and before the time. */
  predicate IsCameraSeparator(c: char) { c == '-' || c == '_' }

  /**
   * `\s` on ASCII: space, tab, line feed, carriage return, vertical tab,
   * form feed, and the separators U+001C to U+001F, which Python counts as
   * white space in `str` patterns.
   */
  predicate IsSpace(c: char)
  {
    c == ' ' || c == '\t' || c == '\n' || c == '\r' || c == '\U{B}' || c == '\U{C}'
    || ('\U{1C}' <= c <= '\U{1F}')
  }

  /** `[-_\s]`, the separator after a keyword. */
  predicate IsKeywordSeparator(c: char) { c == '-' || c == '_' || IsSpace(c) }

  /** Case-insensitive occurrence of `word` at position `p` (`re.IGNORECASE`). */
  predicate WordAt(s: string, p: nat, word: string)
  {
    p + |word| <= |s| && Lower(s[p..p + |word|]) == Lower(word)
  }

  /** `(\d{4})[-_.:](\d{2})[-_.:](\d{2})` at position `p`. */
  predicate YearFirstDelimitedAt(s: string, p: nat)
  {
    p + 10 <= |s| && DigitsAt(s, p, 4) && IsDateSeparator(s[p + 4]) && DigitsAt(s, p + 5, 2)
    && IsDateSeparator(s[p + 7]) && DigitsAt(s, p + 8, 2)
  }

  /** `(\d{2})[-_.:](\d{2})[-_.:](\d{4})` at position `p`. */
  predicate DayFirstDelimitedAt(s: string, p: nat)
  {
    p + 10 <= |s| && DigitsAt(s, p, 2) && IsDateSeparator(s[p + 2]) && DigitsAt(s, p + 3, 2)
    && IsDateSeparator(s[p + 5]) && DigitsAt(s, p + 6, 4)
  }

  /** `(?<![0-9A-Fa-f])\d{8}(?![0-9A-Fa-f])` at position `p`: the hexadecimal-adjacency guard. */
  predicate GuardedEightDigitsAt(s: string, p: nat)
  {
    DigitsAt(s, p, 8) && (p == 0 || !IsHexDigit(s[p - 1])) && (p + 8 == |s| || !IsHexDigit(s[p + 8]))
  }

  const CameraPrefixes: seq<string> := ["IMG", "VID", "PXL", "PHOTO", "VIDEO", "PANO"]

  const Keywords: seq<string> := ["screenshot", "photo", "image", "snap", "pic"]

  /**
   * The alternation of camera prefixes at `p`: the first alternative that is
   * followed by `[-_]` and eight digits, giving where those digits start.
   */
  function CameraDigitsStart(s: string, p: nat, prefixes: seq<string>): (q: Option<nat>)
    requires forall k :: 0 <= k < |prefixes| ==> |prefixes[k]| >= 3
    ensures q.Some? ==> DigitsAt(s, q.value, 8) && p + 4 <= q.value && IsCameraSeparator(s[q.value - 1])
  {
    if prefixes == [] then None
    else
      var q := p + |prefixes[0]|;
      if WordAt(s, p, prefixes[0]) && q < |s| && IsCameraSeparator(s[q]) && DigitsAt(s, q + 1, 8) then Some(q + 1)
      else CameraDigitsStart(s, p, prefixes[1..])
  }

  /**
   * `[-_]?(\d{2})?(\d{2})?(\d{2})?` from position `t`, greedily: the separator is
   * taken when present, and each two-digit group is there only if the one
   * before it is.
   */
  function TimeGroups(s: string, t: nat): (groups: seq<nat>)
    ensures |groups| <= 3
    ensures forall k :: 0 <= k < |groups| ==> groups[k] < 100
  {
    var t := if t < |s| && IsCameraSeparator(s[t]) then t + 1 else t;
    if !DigitsAt(s, t, 2) then []
    else
      ValueBound(s[t..t + 2]);
      if !DigitsAt(s, t + 2, 2) then [NumberAt(s, t, 2)]
      else
        ValueBound(s[t + 2..t + 4]);
        if !DigitsAt(s, t + 4, 2) then [NumberAt(s, t, 2), NumberAt(s, t + 2, 2)]
        else
          ValueBound(s[t + 4..t + 6]);
          [NumberAt(s, t, 2), NumberAt(s, t + 2, 2), NumberAt(s, t + 4, 2)]
  }

  /** The end of the run of keyword separators that starts at `q` (`[-_\s]+` is greedy). */
  function SeparatorRunEnd(s: string, q: nat): (e: nat)
    requires q <= |s|
    ensures q <= e <= |s|
    ensures forall k :: q <= k < e ==> IsKeywordSeparator(s[k])
    ensures e == |s| || !IsKeywordSeparator(s[e])
    decreases |s| - q
  {
    if q < |s| && IsKeywordSeparator(s[q]) then SeparatorRunEnd(s, q + 1) else q
  }

  /**
   * The alternation of keywords at `p`: the first keyword followed by at least
   * one separator and a delimited year-first date, giving where the date starts.
   * Backtracking inside `[-_\s]+` cannot help, since a date starts with a digit.
   */
  function KeywordDateStart(s: string, p: nat, keywords: seq<string>): (q: Option<nat>)
    ensures q.Some? ==> YearFirstDelimitedAt(s, q.value)
  {
    if keywords == [] then None
    else
      var q := p + |keywords[0]|;
      if WordAt(s, p, keywords[0]) && SeparatorRunEnd(s, q) > q && YearFirstDelimitedAt(s, SeparatorRunEnd(s, q))
      then Some(SeparatorRunEnd(s, q))
      else KeywordDateStart(s, p, keywords[1..])
  }

  /** The groups `rule` captures when its pattern matches starting at position `p`, or `None`. */
  function MatchAt(rule: Rule, s: string, p: nat): Option<Captures>
  {
    match rule
    case CameraStamp =>
      (match CameraDigitsStart(s, p, CameraPrefixes)
       case None => None
       case Some(q) => Some(Captures(NumberAt(s, q, 4), NumberAt(s, q + 4, 2), NumberAt(s, q + 6, 2), TimeGroups(s, q + 8))))
    case YearFirstDelimited =>
      if YearFirstDelimitedAt(s, p) then Some(Captures(NumberAt(s, p, 4), NumberAt(s, p + 5, 2), NumberAt(s, p + 8, 2), [])) else None
    case YearFirstBare =>
      if GuardedEightDigitsAt(s, p) then Some(Captures(NumberAt(s, p, 4), NumberAt(s, p + 4, 2), NumberAt(s, p + 6, 2), [])) else None
    case KeywordDate =>
      (match KeywordDateStart(s, p, Keywords)
       case None => None
       case Some(q) => Some(Captures(NumberAt(s, q, 4), NumberAt(s, q + 5, 2), NumberAt(s, q + 8, 2), [])))
    case DayFirstDelimited =>
      if DayFirstDelimitedAt(s, p) then Some(Captures(NumberAt(s, p, 2), NumberAt(s, p + 3, 2), NumberAt(s, p + 6, 4), [])) else None
    case DayFirstBare =>
      if GuardedEightDigitsAt(s, p) then Some(Captures(NumberAt(s, p, 2), NumberAt(s, p + 2, 2), NumberAt(s, p + 4, 4), [])) else None
  }

  /** `re.search`: the leftmost position at or after `p` where `rule` matches. */
  function Search(rule: Rule, s: string, p: nat): (r: Option<nat>)
    requires p <= |s|
    ensures r.Some? ==> p <= r.value <= |s| && MatchAt(rule, s, r.value).Some?
    ensures r.Some? ==> forall q :: p <= q < r.value ==> MatchAt(rule, s, q).None?
    ensures r.None? ==> forall q :: p <= q <= |s| ==> MatchAt(rule, s, q).None?
    decreases |s| - p
  {
    if MatchAt(rule, s, p).Some? then Some(p)
    else if p == |s| then None
    else Search(rule, s, p + 1)
  }

  /** Conversely, a position where the rule matches with no match before it is what `Search` reports. */
  lemma SearchFindsLeftmost(rule: Rule, s: string, p: nat)
    requires p <= |s| && MatchAt(rule, s, p).Some?
    requires forall q :: 0 <= q < p ==> MatchAt(rule, s, q).None?
    ensures Search(rule, s, 0) == Some(p)
  {
  }

  /**
   * The body of the `try` block for one match: the groups become year, month
   * and day in the rule's field order and must pass `IsValidDate`; the camera
   * rule adds the time, missing parts being 0, and an impossible time is the
   * `ValueError` the source catches.
   */
  function Interpret(rule: Rule, c: Captures): (r: Option<DateTime>)
    ensures r.Some? ==> IsValidDate(r.value.year, r.value.month, r.value.day)
    ensures r.Some? ==> IsTimeOfDay(r.value.hour, r.value.minute, r.value.second)
  {
    match rule
    case CameraStamp =>
      if !IsValidDate(c.first, c.second, c.third) then None
      else
        var hour := if |c.time| >= 1 then c.time[0] else 0;
        var minute := if |c.time| >= 2 then c.time[1] else 0;
        var second := if |c.time| >= 3 then c.time[2] else 0;
        MakeDateTime(c.first, c.second, c.third, hour, minute, second)
    case DayFirstDelimited | DayFirstBare =>
      if IsValidDate(c.third, c.second, c.first) then Some(DateTime(c.third, c.second, c.first, 0, 0, 0)) else None
    case _ =>
      if IsValidDate(c.first, c.second, c.third) then Some(DateTime(c.first, c.second, c.third, 0, 0, 0)) else None
  }

  /** What one rule contributes: its leftmost match, interpreted. */
  function RuleDate(rule: Rule, s: string): Option<DateTime>
  {
    match Search(rule, s, 0)
    case None => None
    case Some(p) => Interpret(rule, MatchAt(rule, s, p).value)
  }

  /** The `for` loop over the patterns: the first rule that yields a date. */
  function FirstDate(rules: seq<Rule>, s: string): (r: Option<DateTime>)
    ensures r.Some? ==> IsValidDate(r.value.year, r.value.month, r.value.day)
    ensures r.Some? ==> IsTimeOfDay(r.value.hour, r.value.minute, r.value.second)
  {
    if rules == [] then None
    else
      match RuleDate(rules[0], s)
      case Some(d) => Some(d)
      case None => FirstDate(rules[1..], s)
  }

  /**
   * The loop finds no date exactly when no rule yields one, and a date it
   * finds is that of a rule after which every earlier rule yielded none.
   */
  lemma {:induction false} FirstDateCharacterized(rules: seq<Rule>, s: string)
    ensures FirstDate(rules, s).None? <==> forall i :: 0 <= i < |rules| ==> RuleDate(rules[i], s).None?
    ensures FirstDate(rules, s).Some? ==>
              exists i :: 0 <= i < |rules| && RuleDate(rules[i], s) == FirstDate(rules, s)
                          && forall j :: 0 <= j < i ==> RuleDate(rules[j], s).None?
  {
    if rules != [] && RuleDate(rules[0], s).None? {
      var tail := rules[1..];
      FirstDateCharacterized(tail, s);
      assert forall i :: 1 <= i < |rules| ==> rules[i] == tail[i - 1];
      if FirstDate(tail, s).Some? {
        var i :| 0 <= i < |tail| && RuleDate(tail[i], s) == FirstDate(tail, s)
                 && forall j :: 0 <= j < i ==> RuleDate(tail[j], s).None?;
        assert RuleDate(rules[i + 1], s) == FirstDate(rules, s);
      }
    }
  }

  /** Conversely, the first rule that yields a date decides the result. */
  lemma {:induction false} FirstDateIsFirstSuccess(rules: seq<Rule>, s: string, i: nat)
    requires i < |rules| && RuleDate(rules[i], s).Some?
    requires forall j :: 0 <= j < i ==> RuleDate(rules[j], s).None?
    ensures FirstDate(rules, s) == RuleDate(rules[i], s)
  {
    if i > 0 {
      assert RuleDate(rules[0], s).None?;
      assert forall j :: 0 <= j < i - 1 ==> rules[1..][j] == rules[j + 1];
      FirstDateIsFirstSuccess(rules[1..], s, i - 1);
    }
  }

  /** `extract_date_from_filename`. */
  function ExtractDateFromFilename(filename: string): (r: Option<DateTime>)
    ensures r.Some? ==> IsValidDate(r.value.year, r.value.month, r.value.day)
    ensures r.Some? ==> IsDateTime(r.value) && 1900 <= r.value.year <= 2099
  {
    FirstDate(Rules, StripExtension(filename))
  }

  /** A year-first delimited match fixes its ten characters: separators at offsets 4 and 7, digits elsewhere. */
  lemma YearFirstDelimitedShape(s: string, p: nat)
    ensures YearFirstDelimitedAt(s, p) ==>
              forall i :: p <= i < p + 10 ==> if i == p + 4 || i == p + 7 then IsDateSeparator(s[i]) else IsDigit(s[i])
  {
  }

  /** A day-first delimited match fixes its ten characters: separators at offsets 2 and 5, digits elsewhere. */
  lemma DayFirstDelimitedShape(s: string, p: nat)
    ensures DayFirstDelimitedAt(s, p) ==>
              forall i :: p <= i < p + 10 ==> if i == p + 2 || i == p + 5 then IsDateSeparator(s[i]) else IsDigit(s[i])
  {
  }

  /** No eight consecutive digits anywhere in `s`. */
  predicate NoEightDigitRun(s: string)
  {
    forall q: nat | q <= |s| :: !DigitsAt(s, q, 8)
  }

  /** No year-first delimited date anywhere in `s`. */
  predicate NoYearFirstDate(s: string)
  {
    forall q: nat | q <= |s| :: !YearFirstDelimitedAt(s, q)
  }

  /** No day-first delimited date anywhere in `s`. */
  predicate NoDayFirstDate(s: string)
  {
    forall q: nat | q <= |s| :: !DayFirstDelimitedAt(s, q)
  }

  /** A match of the camera rule or of a bare rule contains a run of eight digits. */
  lemma EightDigitRuleMatch(rule: Rule, s: string, p: nat)
    requires rule == CameraStamp || rule == YearFirstBare || rule == DayFirstBare
    ensures MatchAt(rule, s, p).Some? ==> exists q: nat :: q <= |s| && DigitsAt(s, q, 8)
  {
    if rule == CameraStamp && MatchAt(rule, s, p).Some? {
      var q := CameraDigitsStart(s, p, CameraPrefixes).value;
      assert DigitsAt(s, q, 8);
    }
  }

  /** A match of the year-first delimited rule or of the keyword rule contains a year-first delimited date. */
  lemma YearFirstRuleMatch(rule: Rule, s: string, p: nat)
    requires rule == YearFirstDelimited || rule == KeywordDate
    ensures MatchAt(rule, s, p).Some? ==> exists q: nat :: q <= |s| && YearFirstDelimitedAt(s, q)
  {
    if rule == KeywordDate && MatchAt(rule, s, p).Some? {
      var q := KeywordDateStart(s, p, Keywords).value;
      assert YearFirstDelimitedAt(s, q);
    }
  }

  /** The camera rule and both bare rules all need a run of eight digits. */
  lemma EightDigitRulesNeedRun(s: string)
    requires NoEightDigitRun(s)
    ensures RuleDate(CameraStamp, s).None? && RuleDate(YearFirstBare, s).None? && RuleDate(DayFirstBare, s).None?
  {
    forall rule | rule == CameraStamp || rule == YearFirstBare || rule == DayFirstBare
      ensures Search(rule, s, 0).None?
    {
      var r := Search(rule, s, 0);
      EightDigitRuleMatch(rule, s, if r.Some? then r.value else 0);
    }
  }

  /** The year-first delimited rule and the keyword rule need a year-first delimited date. */
  lemma YearFirstRulesNeedDate(s: string)
    requires NoYearFirstDate(s)
    ensures RuleDate(YearFirstDelimited, s).None? && RuleDate(KeywordDate, s).None?
  {
    forall rule | rule == YearFirstDelimited || rule == KeywordDate
      ensures Search(rule, s, 0).None?
    {
      var r := Search(rule, s, 0);
      YearFirstRuleMatch(rule, s, if r.Some? then r.value else 0);
    }
  }

  /** The day-first delimited rule needs a day-first delimited date. */
  lemma DayFirstRuleNeedsDate(s: string)
    requires NoDayFirstDate(s)
    ensures RuleDate(DayFirstDelimited, s).None?
  {
    var r := Search(DayFirstDelimited, s, 0);
    assert r.Some? ==> DayFirstDelimitedAt(s, r.value);
  }

  /** A name whose stem has neither an eight-digit run nor a delimited date yields no date. */
  lemma NoCandidateNoDate(filename: string)
    requires var s := StripExtension(filename); NoEightDigitRun(s) && NoYearFirstDate(s) && NoDayFirstDate(s)
    ensures ExtractDateFromFilename(filename).None?
  {
    var s := StripExtension(filename);
    EightDigitRulesNeedRun(s);
    YearFirstRulesNeedDate(s);
    DayFirstRuleNeedsDate(s);
    assert forall i :: 0 <= i < |Rules| ==> RuleDate(Rules[i], s).None?;
    FirstDateCharacterized(Rules, s);
  }

  /** Both bare rules look for the same guarded run of eight digits, so their leftmost matches coincide. */
  lemma {:induction false} BareRulesShareRun(s: string, p: nat)
    requires p <= |s|
    ensures Search(YearFirstBare, s, p) == Search(DayFirstBare, s, p)
    decreases |s| - p
  {
    if p < |s| {
      BareRulesShareRun(s, p + 1);
    }
  }

  /**
   * The hexadecimal guard: in a name made only of hexadecimal characters and
   * longer than eight, every run of eight digits has a hexadecimal neighbour,
   * so neither bare rule matches.
   */
  lemma HexNameHasNoBareDate(s: string)
    requires |s| > 8 && forall i :: 0 <= i < |s| ==> IsHexDigit(s[i])
    ensures RuleDate(YearFirstBare, s).None? && RuleDate(DayFirstBare, s).None?
  {
    forall q: nat ensures !GuardedEightDigitsAt(s, q) {
      if q > 0 && q <= |s| {
        assert IsHexDigit(s[q - 1]);
      } else if q == 0 {
        assert IsHexDigit(s[8]);
      }
    }
    assert Search(YearFirstBare, s, 0).None?;
    assert Search(DayFirstBare, s, 0).None?;
  }

  /** Every rule but the camera rule yields a date at 00:00:00. */
  lemma OnlyCameraRuleSetsTime(rule: Rule, s: string)
    requires rule != CameraStamp && RuleDate(rule, s).Some?
    ensures RuleDate(rule, s).value.hour == 0 && RuleDate(rule, s).value.minute == 0 && RuleDate(rule, s).value.second == 0
  {
  }

  /**
   * `format_date_for_folder`: the year, "Y.MM" and "Y.MM.DD" folder labels.
   * Each label extends the one before it by a '.' and two digits.
   */
  function FormatDateForFolder(dt: DateTime): (labels: (string, string, string))
    requires IsDateTime(dt)
    ensures |labels.1| == |labels.0| + 3 && labels.1[..|labels.0|] == labels.0 && labels.1[|labels.0|] == '.'
    ensures |labels.2| == |labels.1| + 3 && labels.2[..|labels.1|] == labels.1 && labels.2[|labels.1|] == '.'
  {
    var year := NatToString(dt.year);
    var month := year + "." + Pad2(dt.month);
    var day := month + "." + Pad2(dt.day);
    assert day[..|month|] == month;
    assert month[..|year|] == year;
    (year, month, day)
  }

  /** The day label splits at '.' into the year label and the zero-padded month and day, which read back as numbers. */
  lemma FolderLabelsParseBack(dt: DateTime)
    requires IsDateTime(dt)
    ensures var (year, month, day) := FormatDateForFolder(dt);
            var parts := Split(day, '.');
            |parts| == 3 && parts[0] == year
            && AllDigits(parts[1]) && AllDigits(parts[2]) && |parts[1]| == 2 && |parts[2]| == 2
            && Value(parts[0]) == dt.year && Value(parts[1]) == dt.month && Value(parts[2]) == dt.day
            && Split(month, '.') == [year, parts[1]]
  {
    var year := NatToString(dt.year);
    var mm := Pad2(dt.month);
    var dd := Pad2(dt.day);
    assert '.' !in year && '.' !in mm && '.' !in dd by {
      assert forall i :: 0 <= i < |year| ==> IsDigit(year[i]);
    }
    SplitThree(year, mm, dd, '.');
    assert year + "." + mm + "." + dd == year + ['.'] + mm + ['.'] + dd;
    SplitCons(year, '.', mm);
    assert Split(mm, '.') == [mm];
  }

  /** Distinct dates get distinct day folders: the day label determines year, month and day. */
  lemma FolderLabelsInjective(a: DateTime, b: DateTime)
    requires IsDateTime(a) && IsDateTime(b)
    requires FormatDateForFolder(a).2 == FormatDateForFolder(b).2
    ensures a.year == b.year && a.month == b.month && a.day == b.day
  {
    FolderLabelsParseBack(a);
    FolderLabelsParseBack(b);
  }
}
