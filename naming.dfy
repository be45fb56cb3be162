/** The name of the workbook written for a report: the report's file name
    with ".pdf" turned into ".xlsx", and the report's date range, when the
    header has one, inserted before the extension. */
module Naming {
  import opened Text
  import opened Dates

  /** generate_output_filename: with a date range, every ".pdf" is
      removed from the path, the rewritten range and ".xlsx" are appended
      after a space, and double spaces are collapsed; without one, every
      ".pdf" in the path becomes ".xlsx". */
  function GenerateOutputFilename(pdfPath: string, dateRange: string): string {
    if dateRange != "" then
      Replace(Replace(pdfPath, ".pdf", "") + " " + FormatDateRange(dateRange) + ".xlsx", "  ", " ")
    else
      Replace(pdfPath, ".pdf", ".xlsx")
  }

  /** ".pdf" cannot overlap itself, so an occurrence that ends a path is
      found whole and the stem before it is left alone. */
  lemma ReplacePdfSuffix(stem: string, replacement: string)
    requires !Contains(stem, ".pdf")
    ensures Replace(stem + ".pdf", ".pdf", replacement) == stem + replacement
  {
    var s := stem + ".pdf";
    forall k: nat | k < |stem| < k + 4 ensures !OccursAt(s, ".pdf", k) {
      assert s[|stem|] == '.';
      if k + 4 <= |s| {
        assert s[k..k + 4][|stem| - k] == s[|stem|];
      }
    }
    ReplaceAppend(stem, ".pdf", ".pdf", replacement);
    ReplaceAbsent(stem, ".pdf", replacement);
    assert Replace(".pdf", ".pdf", replacement) == replacement + Replace("", ".pdf", replacement);
  }

  /** A text without spaces has no double space. */
  lemma NoSpaceNoDoubleSpace(s: string)
    requires ' ' !in s
    ensures !Contains(s, "  ")
  {
    forall k: nat | k <= |s| ensures !OccursAt(s, "  ", k) {
      if k + 2 <= |s| {
        assert s[k..k + 2][0] == s[k];
      }
    }
  }

  /** Without a date range the output name is the report's name with its
      ".pdf" extension changed to ".xlsx". */
  lemma FilenameWithoutDate(stem: string)
    requires !Contains(stem, ".pdf")
    ensures GenerateOutputFilename(stem + ".pdf", "") == stem + ".xlsx"
  {
    ReplacePdfSuffix(stem, ".xlsx");
  }

  /** With a date range the output name always ends in ".xlsx": no double
      space can reach across the appended extension. */
  lemma FilenameWithDateEndsInXlsx(pdfPath: string, dateRange: string)
    requires dateRange != ""
    ensures EndsWith(GenerateOutputFilename(pdfPath, dateRange), ".xlsx")
  {
    var a := Replace(pdfPath, ".pdf", "") + " " + FormatDateRange(dateRange);
    var s := a + ".xlsx";
    forall k: nat | k < |a| < k + 2 ensures !OccursAt(s, "  ", k) {
      assert s[|a|] == '.';
      if k + 2 <= |s| {
        assert s[k..k + 2][1] == s[|a|];
      }
    }
    ReplaceAppend(a, ".xlsx", "  ", " ");
    NoSpaceNoDoubleSpace(".xlsx");
    ReplaceAbsent(".xlsx", "  ", " ");
    var r := Replace(a, "  ", " ") + ".xlsx";
    assert r[|r| - 5..] == ".xlsx";
  }

  /** With a date range, a report named stem + ".pdf" gets the name
      stem, a space, the rewritten range and ".xlsx", provided that text
      has no double space to collapse. */
  lemma FilenameWithDate(stem: string, dateRange: string)
    requires dateRange != ""
    requires !Contains(stem, ".pdf")
    requires !Contains(stem + " " + FormatDateRange(dateRange) + ".xlsx", "  ")
    ensures GenerateOutputFilename(stem + ".pdf", dateRange)
            == stem + " " + FormatDateRange(dateRange) + ".xlsx"
  {
    ReplacePdfSuffix(stem, "");
    assert stem + "" == stem;
    ReplaceAbsent(stem + " " + FormatDateRange(dateRange) + ".xlsx", "  ", " ");
  }

  /** The rewritten report range has no double space. */
  lemma FormattedRangeNoDoubleSpace(a: Date, b: Date)
    requires ValidDate(a) && ValidDate(b)
    ensures !Contains(" " + (FormatDate(a) + " to " + FormatDate(b)) + ".xlsx", "  ")
  {
    var fa := FormatDate(a);
    var fb := FormatDate(b);
    var r := " " + (fa + " to " + fb) + ".xlsx";
    FormatDateShape(a);
    FormatDateShape(b);
    assert |fa| == 10 && |fb| == 10;
    forall k: nat | k <= |r| ensures !OccursAt(r, "  ", k) {
      if k + 2 <= |r| {
        assert r[k..k + 2][0] == r[k];
        assert r[k..k + 2][1] == r[k + 1];
        if k == 0 {
          assert r[1] == fa[0];
        } else if k < 11 {
          assert r[k] == fa[k - 1];
        } else if k == 11 {
          assert r[k + 1] == 't';
        } else if k < 14 {
          assert r[k] == " to "[k - 11];
        } else if k == 14 {
          assert r[k + 1] == fb[0];
        } else if k < 25 {
          assert r[k] == fb[k - 15];
        } else {
          assert r[k] == ".xlsx"[k - 25];
        }
      }
    }
  }

  /** Gluing two texts without double spaces makes none, unless the
      first ends and the second begins with a space. */
  lemma NoDoubleSpaceConcat(x: string, y: string)
    requires !Contains(x, "  ") && !Contains(y, "  ")
    requires x == [] || y == [] || x[|x| - 1] != ' ' || y[0] != ' '
    ensures !Contains(x + y, "  ")
  {
    var s := x + y;
    forall k: nat | k <= |s| ensures !OccursAt(s, "  ", k) {
      if k + 2 <= |s| {
        if k + 2 <= |x| {
          assert s[k..k + 2] == x[k..k + 2];
          assert !OccursAt(x, "  ", k);
        } else if k + 1 == |x| {
          assert s[k..k + 2][0] == x[k];
          assert s[k..k + 2][1] == y[0];
        } else {
          assert s[k..k + 2] == y[k - |x|..k - |x| + 2];
          assert !OccursAt(y, "  ", k - |x|);
        }
      }
    }
  }

  /** A stem without a trailing space or a double space, followed by a
      space, a text and ".xlsx" that have none, has no double space. */
  lemma NoDoubleSpaceAfterStem(stem: string, f: string)
    requires !Contains(stem, "  ") && (stem == [] || stem[|stem| - 1] != ' ')
    requires !Contains(" " + f + ".xlsx", "  ")
    ensures !Contains(stem + " " + f + ".xlsx", "  ")
  {
    var tail := " " + f + ".xlsx";
    NoDoubleSpaceConcat(stem, tail);
    assert stem + tail == stem + " " + f + ".xlsx";
  }

  /** The whole path from the report's header to the workbook name: for a
      report named stem + ".pdf" whose header gives "DD Mon YYYY - DD Mon
      YYYY", the workbook is named stem, a space, "DD-MM-YYYY to
      DD-MM-YYYY" and ".xlsx". */
  lemma FilenameForReportRange(stem: string, a: Date, b: Date)
    requires ValidDate(a) && ValidDate(b)
    requires !Contains(stem, ".pdf") && !Contains(stem, "  ")
    requires stem == [] || stem[|stem| - 1] != ' '
    ensures GenerateOutputFilename(stem + ".pdf", RenderDate(a) + " - " + RenderDate(b))
            == stem + " " + (FormatDate(a) + " to " + FormatDate(b)) + ".xlsx"
  {
    var dateRange := RenderDate(a) + " - " + RenderDate(b);
    var formatted := FormatDate(a) + " to " + FormatDate(b);
    FormattedRangeNoDoubleSpace(a, b);
    NoDoubleSpaceAfterStem(stem, formatted);
    FormatDateRangeOfRendered(a, b);
    FilenameWithDate(stem, dateRange);
  }
}
