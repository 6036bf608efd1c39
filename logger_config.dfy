/*
 * The processing statistics of logger_config.py: the `LoggerStats` counters,
 * their error list and the text summary written to the log at the end of a run.
 */
module LoggerConfig {
  import opened Text

  /** The ruler line of the summary: sixty '=' characters. */
  const Ruler: string := "============================================================"

  /** At most this many error messages are listed in the summary. */
  const ListedErrorLimit: nat := 10

  /** The summary line for the `k`-th listed error (numbered from 1). */
  function ErrorLine(k: nat, error: string): string
  {
    "  " + NatToString(k) + ". " + error + "\n"
  }

  /** The numbered lines for `errors`, the first one numbered `first`. */
  function NumberedLines(errors: seq<string>, first: nat): (lines: seq<string>)
    ensures |lines| == |errors|
    decreases |errors|
  {
    if errors == [] then [] else [ErrorLine(first, errors[0])] + NumberedLines(errors[1..], first + 1)
  }

  /** Line `k` of the numbered listing carries the `k`-th error and the number `first + k`. */
  lemma {:induction false} NumberedLineAt(errors: seq<string>, first: nat, k: nat)
    requires k < |errors|
    ensures NumberedLines(errors, first)[k] == ErrorLine(first + k, errors[k])
    decreases k
  {
    if k > 0 {
      NumberedLineAt(errors[1..], first + 1, k - 1);
      assert errors[1..][k - 1] == errors[k];
    }
  }

  /** Every line of the numbered listing carries its error and its number, in order. */
  lemma NumberedLinesInOrder(errors: seq<string>, first: nat)
    ensures |NumberedLines(errors, first)| == |errors|
    ensures forall k :: 0 <= k < |errors| ==> NumberedLines(errors, first)[k] == ErrorLine(first + k, errors[k])
  {
    forall k | 0 <= k < |errors|
      ensures NumberedLines(errors, first)[k] == ErrorLine(first + k, errors[k])
    {
      NumberedLineAt(errors, first, k);
    }
  }

  /** Numbering one more error adds one line at the end. */
  lemma {:induction false} NumberedLinesSnoc(errors: seq<string>, e: string, first: nat)
    ensures NumberedLines(errors + [e], first) == NumberedLines(errors, first) + [ErrorLine(first + |errors|, e)]
    decreases |errors|
  {
    if errors == [] {
    } else {
      assert (errors + [e])[1..] == errors[1..] + [e];
      NumberedLinesSnoc(errors[1..], e, first + 1);
    }
  }

  /** The lines joined into one text. */
  function Concat(lines: seq<string>): string
  {
    if lines == [] then "" else Concat(lines[..|lines| - 1]) + lines[|lines| - 1]
  }

  lemma ConcatSnoc(lines: seq<string>, line: string)
    ensures Concat(lines + [line]) == Concat(lines) + line
  {
    assert (lines + [line])[..|lines|] == lines;
  }

  function Min(a: nat, b: nat): nat { if a <= b then a else b }

  /** The line reporting how many errors were not listed. */
  function MoreErrorsLine(hidden: nat): string
  {
    "  ... и ещё " + NatToString(hidden) + " ошибок\n"
  }

  /** The heading of the error section. */
  const ErrorHeading: string := "\nПервые ошибки:\n"

  /** The error section of the summary, empty when there are no errors. */
  function ErrorSection(errors: seq<string>): string
  {
    if errors == [] then ""
    else
      ErrorHeading + Concat(NumberedLines(errors[..Min(|errors|, ListedErrorLimit)], 1))
      + (if |errors| > ListedErrorLimit then MoreErrorsLine(|errors| - ListedErrorLimit) else "")
  }

  /**
   * The error section: present exactly when there are errors; it lists the
   * first ten in insertion order, numbered from 1, and then reports how many
   * more there are, so that listed and reported add up to all the errors.
   */
  lemma ErrorSectionContents(errors: seq<string>)
    ensures errors == [] <==> ErrorSection(errors) == ""
    ensures errors != [] ==>
              var listed := NumberedLines(errors[..Min(|errors|, ListedErrorLimit)], 1);
              && |listed| == Min(|errors|, ListedErrorLimit)
              && (forall k :: 0 <= k < |listed| ==> listed[k] == ErrorLine(k + 1, errors[k]))
              && (|errors| <= ListedErrorLimit ==> ErrorSection(errors) == ErrorHeading + Concat(listed))
              && (|errors| > ListedErrorLimit ==>
                    ErrorSection(errors) == ErrorHeading + Concat(listed) + MoreErrorsLine(|errors| - ListedErrorLimit)
                    && |listed| + (|errors| - ListedErrorLimit) == |errors|)
  {
    if errors != [] {
      var prefix := errors[..Min(|errors|, ListedErrorLimit)];
      NumberedLinesInOrder(prefix, 1);
      assert ErrorSection(errors)[..|ErrorHeading|] == ErrorHeading;
    }
  }

  /** Listing one more error appends its numbered line to the listed text. */
  lemma ListedLinesStep(errors: seq<string>, i: nat)
    requires i < |errors|
    ensures Concat(NumberedLines(errors[..i + 1], 1)) == Concat(NumberedLines(errors[..i], 1)) + ErrorLine(i + 1, errors[i])
  {
    NumberedLinesSnoc(errors[..i], errors[i], 1);
    assert errors[..i + 1] == errors[..i] + [errors[i]];
    ConcatSnoc(NumberedLines(errors[..i], 1), ErrorLine(1 + i, errors[i]));
  }

  /** A text spliced between two others leaves them unchanged exactly when it is empty. */
  lemma EmptyMiddle(pre: string, middle: string, post: string)
    ensures middle == "" <==> pre + middle + post == pre + post
  {
    if pre + middle + post == pre + post {
      assert |pre + middle + post| == |pre| + |middle| + |post|;
    }
  }

  /** The error section, appended line by line as `get_summary` does. */
  method BuildErrorSection(errors: seq<string>) returns (section: string)
    ensures section == ErrorSection(errors)
  {
    section := "";
    if errors != [] {
      section := ErrorHeading;
      var shown := Min(|errors|, ListedErrorLimit);
      var i := 0;
      while i < shown
        invariant 0 <= i <= shown
        invariant section == ErrorHeading + Concat(NumberedLines(errors[..i], 1))
      {
        ListedLinesStep(errors, i);
        section := section + ErrorLine(i + 1, errors[i]);
        i := i + 1;
      }
      if |errors| > ListedErrorLimit {
        section := section + MoreErrorsLine(|errors| - ListedErrorLimit);
      }
    }
  }

  /** The statistics of one run. */
  class LoggerStats {
    var totalFiles: nat
    var successful: nat
    var failed: nat
    var skipped: nat
    var noDate: nat
    var errors: seq<string>

    /** Every recorded error message belongs to a failure. */
    predicate Valid()
      reads this
    {
      |errors| <= failed
    }

    /** The counters in the order the summary reports them. */
    function Counters(): (nat, nat, nat, nat, nat)
      reads this
    {
      (totalFiles, successful, noDate, skipped, failed)
    }

    /** `LoggerStats()`: every counter at zero and no errors. */
    constructor()
      ensures Valid()
      ensures Counters() == (0, 0, 0, 0, 0) && errors == []
    {
      totalFiles := 0;
      successful := 0;
      failed := 0;
      skipped := 0;
      noDate := 0;
      errors := [];
    }

    /** `increment_success` */
    method IncrementSuccess()
      modifies this
      ensures Valid() == old(Valid())
      ensures Counters() == (old(totalFiles), old(successful) + 1, old(noDate), old(skipped), old(failed))
      ensures errors == old(errors)
    {
      successful := successful + 1;
    }

    /** `increment_failed`: an empty message is counted but not recorded. */
    method IncrementFailed(message: string)
      modifies this
      ensures old(Valid()) ==> Valid()
      ensures Counters() == (old(totalFiles), old(successful), old(noDate), old(skipped), old(failed) + 1)
      ensures errors == if message == "" then old(errors) else old(errors) + [message]
    {
      failed := failed + 1;
      if message != "" {
        errors := errors + [message];
      }
    }

    /** `increment_skipped` */
    method IncrementSkipped()
      modifies this
      ensures Valid() == old(Valid())
      ensures Counters() == (old(totalFiles), old(successful), old(noDate), old(skipped) + 1, old(failed))
      ensures errors == old(errors)
    {
      skipped := skipped + 1;
    }

    /** `increment_no_date` */
    method IncrementNoDate()
      modifies this
      ensures Valid() == old(Valid())
      ensures Counters() == (old(totalFiles), old(successful), old(noDate) + 1, old(skipped), old(failed))
      ensures errors == old(errors)
    {
      noDate := noDate + 1;
    }

    /** The counter block of the summary, between the heading and the error section. */
    function CounterBlock(): string
      reads this
    {
      "Всего обработано файлов: " + NatToString(totalFiles) + "\n"
      + "Успешно скопировано: " + NatToString(successful) + "\n"
      + "Файлов без даты: " + NatToString(noDate) + "\n"
      + "Пропущено: " + NatToString(skipped) + "\n"
      + "Ошибок: " + NatToString(failed) + "\n"
    }

    /** The heading of the summary. */
    function Heading(): string
    {
      "\n" + Ruler + "\n" + "ИТОГОВАЯ СТАТИСТИКА\n" + Ruler + "\n"
    }

    /** The summary text: heading, counters, error section and a closing ruler. */
    function Summary(): string
      reads this
    {
      Heading() + CounterBlock() + ErrorSection(errors) + Ruler + "\n"
    }

    /** With no errors the summary has no error section. */
    lemma SummaryWithoutErrors()
      ensures errors == [] <==> Summary() == Heading() + CounterBlock() + Ruler + "\n"
    {
      ErrorSectionContents(errors);
      EmptyMiddle(Heading() + CounterBlock(), ErrorSection(errors), Ruler + "\n");
    }

    /** `get_summary`, built line by line as the source does. */
    method GetSummary() returns (summary: string)
      ensures summary == Summary()
    {
      summary := "\n" + Ruler + "\n";
      summary := summary + "ИТОГОВАЯ СТАТИСТИКА\n";
      summary := summary + Ruler + "\n";
      assert summary == Heading();
      var counters := "Всего обработано файлов: " + NatToString(totalFiles) + "\n";
      counters := counters + "Успешно скопировано: " + NatToString(successful) + "\n";
      counters := counters + "Файлов без даты: " + NatToString(noDate) + "\n";
      counters := counters + "Пропущено: " + NatToString(skipped) + "\n";
      counters := counters + "Ошибок: " + NatToString(failed) + "\n";
      summary := summary + counters;
      var section := BuildErrorSection(errors);
      summary := summary + section;
      summary := summary + Ruler + "\n";
    }
  }
}
