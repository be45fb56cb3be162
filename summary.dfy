/** The summary tables of the report ("Summary" and "Kiosk Summary"). The
    text extracted from the PDF breaks a table row over several lines: a
    weight that did not fit is pushed to the next line on its own, and
    footers and terminal codes sit between the rows. The reconstructor walks
    the lines with an index, skips the noise, glues a stray weight back onto
    its row and reads the row's columns with a fixed pattern. Finding the
    table body in the report text is not part of this model: the body is
    given, or absent when the table is not in the report. */
module Summary {
  import opened Wrappers
  import opened Text

  /** One row of a summary table. The package counts are kept as the
      digit strings the report shows, without thousands separators. */
  datatype SummaryRow = SummaryRow(
    kind: string,
    international: string,
    ground: string,
    air: string,
    unknown: string,
    totalPackages: string,
    weight: string)

  // ---------------------------------------------------------------------
  // Character classes and runs
  // ---------------------------------------------------------------------

  /** The classes the row pattern is made of: \s, \d, [\d,] and [\d.,]. */
  datatype CharClass = SpaceClass | DigitClass | DigitCommaClass | NumberClass

  predicate InClass(c: char, k: CharClass) {
    match k
    case SpaceClass => IsSpace(c)
    case DigitClass => IsDigit(c)
    case DigitCommaClass => IsDigit(c) || c == ','
    case NumberClass => IsDigit(c) || c == '.' || c == ','
  }

  /** The end of the longest run of class k starting at i. */
  function RunEndIn(s: string, i: nat, k: CharClass): (j: nat)
    requires i <= |s|
    ensures i <= j <= |s|
    ensures forall m :: i <= m < j ==> InClass(s[m], k)
    ensures j < |s| ==> !InClass(s[j], k)
    decreases |s| - i
  {
    if i == |s| || !InClass(s[i], k) then i else RunEndIn(s, i + 1, k)
  }

  /** A non-empty run of class k. */
  predicate IsRunOf(s: string, k: CharClass) {
    |s| > 0 && forall j :: 0 <= j < |s| ==> InClass(s[j], k)
  }

  /** The class \w, restricted to ASCII: letters, digits and '_'. */
  predicate IsWordChar(c: char) {
    ('a' <= c <= 'z') || ('A' <= c <= 'Z') || IsDigit(c) || c == '_'
  }

  // ---------------------------------------------------------------------
  // Lines that are not rows
  // ---------------------------------------------------------------------

  /** A blank line or a "Total:" line. */
  predicate IsBlankOrTotal(line: string) {
    line == "" || StartsWith(line, "Total:")
  }

  /** re.match(r'^\d+\.\d+\.\d+\.\d+$', line): four dot-separated runs of
      digits, as in a terminal's version number. */
  predicate IsVersionLine(line: string) {
    var pieces := SplitOn(line, ".");
    |pieces| == 4 && forall j :: 0 <= j < 4 ==> |pieces[j]| > 0 && AllDigits(pieces[j])
  }

  /** re.match(r'^\(\w{2}-\w{2}\)', line): the line begins with a code
      such as "(AB-12)". */
  predicate IsPairCode(line: string) {
    && |line| >= 7
    && line[0] == '(' && IsWordChar(line[1]) && IsWordChar(line[2]) && line[3] == '-'
    && IsWordChar(line[4]) && IsWordChar(line[5]) && line[6] == ')'
  }

  /** The line produces no row and is stepped over. */
  predicate IsSkipLine(line: string) {
    IsBlankOrTotal(line) || IsVersionLine(line) || IsPairCode(line)
  }

  /** re.match(r'^[\d.,]+$', line): a bare number such as a weight. */
  predicate IsWeightLine(line: string) {
    |line| > 0 && forall j :: 0 <= j < |line| ==> InClass(line[j], NumberClass)
  }

  // ---------------------------------------------------------------------
  // Gluing a stray weight back onto its row
  // ---------------------------------------------------------------------

  /** A bare number at or above this value is a package count, not a weight. */
  const MergeLimit: nat := 100000

  /** The message of the ValueError float('') raises. */
  const ConversionError: string := "could not convert string to float: ''"

  /** What happens to the line after a row line. */
  datatype Continuation = Merge | NoMerge | ConversionFails

  /** A line of commas alone. */
  predicate AllCommas(s: string) {
    |s| > 0 && forall j :: 0 <= j < |s| ==> s[j] == ','
  }

  /** Deleting the commas of a bare number without a decimal point leaves
      its digits, and nothing at all exactly when it is commas alone. */
  lemma CommasRemoved(next: string)
    requires IsWeightLine(next) && '.' !in next
    ensures AllDigits(Replace(next, ",", ""))
    ensures Replace(next, ",", "") == "" <==> AllCommas(next)
  {
    var digits := Replace(next, ",", "");
    ReplaceDeletesChar(next, ',');
    forall i | 0 <= i < |digits| ensures IsDigit(digits[i]) {
      assert digits[i] in digits;
      var j :| 0 <= j < |next| && next[j] == digits[i];
      assert InClass(next[j], NumberClass);
    }
    assert |digits| > 0 ==> digits[0] in digits;
    if !AllCommas(next) {
      var j :| 0 <= j < |next| && next[j] != ',';
      assert next[j] in next;
      assert next[j] in digits;
    }
  }

  /** The value of a bare number without a decimal point, its commas
      ignored. */
  function NumberValue(next: string): nat
    requires IsWeightLine(next) && '.' !in next
  {
    CommasRemoved(next);
    DecimalValue(Replace(next, ",", ""))
  }

  /** The decision for the stripped next line: a bare number merges when it
      has a decimal point or its value without commas is below MergeLimit;
      a number of commas alone has no value, and converting it fails. */
  function ContinuationOf(next: string): (c: Continuation)
    ensures c == ConversionFails <==> IsWeightLine(next) && AllCommas(next)
    ensures c == Merge <==>
              IsWeightLine(next) && ('.' in next || (!AllCommas(next) && NumberValue(next) < MergeLimit))
  {
    if !IsWeightLine(next) then NoMerge
    else if '.' in next then Merge
    else
      var digits := Replace(next, ",", "");
      CommasRemoved(next);
      if digits == "" then ConversionFails
      else if DecimalValue(digits) < MergeLimit then Merge
      else NoMerge
  }

  /** One step of the walk from index i. */
  datatype Step =
    | Skip(next: nat)
    | Candidate(line: string, next: nat)

  /** The step the loop takes at index i: a skipped line, or a line to
      match with the index of the line after it, or the conversion error. */
  function StepAt(lines: seq<string>, i: nat): (r: Result<Step, string>)
    requires i < |lines|
    ensures r.Ok? ==> i < r.value.next <= i + 2 && r.value.next <= |lines|
  {
    var line := Strip(lines[i]);
    if IsSkipLine(line) then Ok(Skip(i + 1))
    else if i + 1 < |lines| then
      var next := Strip(lines[i + 1]);
      match ContinuationOf(next)
      case Merge => Ok(Candidate(line + " " + next + "lb", i + 2))
      case NoMerge => Ok(Candidate(line, i + 1))
      case ConversionFails => Err(ConversionError)
    else Ok(Candidate(line, i + 1))
  }

  // ---------------------------------------------------------------------
  // The row pattern
  // ---------------------------------------------------------------------

  /** The groups of the row pattern
        ^(.*?)\s+(\d+)\s+([\d,]+)\s+(\d+)\s+(\d+)\s+([\d,]+)\s*([\d.,]+(?:lb|kg)?)?
      with the absent last group as "". */
  datatype RowGroups = RowGroups(
    kind: string,
    international: string,
    ground: string,
    air: string,
    unknown: string,
    totalPackages: string,
    weight: string)

  /** The weight group starting at n: a run of [\d.,] and "lb" or "kg"
      after it when there is one, or "" when the run is empty. */
  function WeightAt(line: string, n: nat): (w: string)
    requires n <= |line|
  {
    var e := RunEndIn(line, n, NumberClass);
    if e == n then ""
    else if e + 2 <= |line| && (line[e..e + 2] == "lb" || line[e..e + 2] == "kg") then line[n..e + 2]
    else line[n..e]
  }

  /** The five count columns of a row: \d+, [\d,]+, \d+, \d+, [\d,]+. */
  const RowColumns: seq<CharClass> := [DigitClass, DigitCommaClass, DigitClass, DigitClass, DigitCommaClass]

  /** \s+ followed by a run of each class in turn, from p: the start and
      end of each run. Each class is disjoint from the element after it, so
      a run that stopped short would leave a character the next element
      cannot take: every run is the longest one, and the pattern either
      matches this way or not at all. */
  function Columns(line: string, p: nat, classes: seq<CharClass>): (r: Option<seq<(nat, nat)>>)
    requires p <= |line|
    ensures r.Some? ==> |r.value| == |classes|
    ensures r.Some? ==> forall i :: 0 <= i < |r.value| ==> p < r.value[i].0 < r.value[i].1 <= |line|
    ensures r.Some? ==> forall i :: 0 <= i < |r.value| ==> IsRunOf(line[r.value[i].0..r.value[i].1], classes[i])
    decreases |classes|
  {
    if classes == [] then Some([])
    else
      var a := RunEndIn(line, p, SpaceClass);
      var b := RunEndIn(line, a, classes[0]);
      if p < a < b then
        match Columns(line, b, classes[1..])
        case Some(rest) => Some([(a, b)] + rest)
        case None => None
      else None
  }

  /** The columns lie one after another: the first is preceded by a run of
      whitespace starting at p, each later one by a run of whitespace
      starting where the one before it ends; and every column is the
      longest run of its class, the character after it being outside it. */
  lemma {:induction false} ColumnsLayout(line: string, p: nat, classes: seq<CharClass>)
    requires p <= |line| && Columns(line, p, classes).Some?
    ensures var r := Columns(line, p, classes).value;
            && (|r| > 0 ==> IsRunOf(line[p..r[0].0], SpaceClass))
            && (forall i :: 0 < i < |r| ==> r[i - 1].1 < r[i].0 && IsRunOf(line[r[i - 1].1..r[i].0], SpaceClass))
            && (forall i :: 0 <= i < |r| && r[i].1 < |line| ==> !InClass(line[r[i].1], classes[i]))
    decreases |classes|
  {
    if classes != [] {
      var a := RunEndIn(line, p, SpaceClass);
      var b := RunEndIn(line, a, classes[0]);
      var rest := Columns(line, b, classes[1..]).value;
      var r := Columns(line, p, classes).value;
      assert r == [(a, b)] + rest;
      ColumnsLayout(line, b, classes[1..]);
      assert IsRunOf(line[p..a], SpaceClass);
      forall i | 0 < i < |r|
        ensures r[i - 1].1 < r[i].0 && IsRunOf(line[r[i - 1].1..r[i].0], SpaceClass)
      {
        assert r[i] == rest[i - 1];
        if i > 1 {
          assert r[i - 1] == rest[i - 2];
        }
      }
      forall i | 0 <= i < |r| && r[i].1 < |line| ensures !InClass(line[r[i].1], classes[i]) {
        if i > 0 {
          assert r[i] == rest[i - 1] && classes[i] == classes[1..][i - 1];
        }
      }
    }
  }

  /** The pattern after the lazy first group, tried at position p. */
  function GroupsAt(line: string, p: nat): (r: Option<RowGroups>)
    requires p <= |line|
  {
    match Columns(line, p, RowColumns)
    case None => None
    case Some(runs) =>
      var n := RunEndIn(line, runs[4].1, SpaceClass);
      Some(RowGroups(line[..p], line[runs[0].0..runs[0].1], line[runs[1].0..runs[1].1],
                     line[runs[2].0..runs[2].1], line[runs[3].0..runs[3].1], line[runs[4].0..runs[4].1],
                     WeightAt(line, n)))
  }

  /** The first position from p on where `hit` holds, moving one character
      at a time and never past a newline or the end of the line. */
  function FirstHit(line: string, p: nat, hit: nat -> bool): (q: Option<nat>)
    requires p <= |line|
    ensures q.Some? ==> p <= q.value <= |line| && hit(q.value)
    decreases |line| - p
  {
    if hit(p) then Some(p)
    else if p == |line| || line[p] == '\n' then None
    else FirstHit(line, p + 1, hit)
  }

  /** The position found is the first: `hit` fails at every earlier one. */
  lemma {:induction false} FirstHitLeast(line: string, p: nat, hit: nat -> bool, q: nat)
    requires p <= q <= |line| && FirstHit(line, p, hit).Some? && q < FirstHit(line, p, hit).value
    ensures !hit(q)
    decreases q - p
  {
    if p < q {
      FirstHitLeast(line, p + 1, hit, q);
    }
  }

  /** When nothing is found, `hit` fails at every position reachable
      without crossing a newline. */
  lemma {:induction false} FirstHitNone(line: string, p: nat, hit: nat -> bool, q: nat)
    requires p <= q <= |line| && FirstHit(line, p, hit).None?
    requires forall j :: p <= j < q ==> line[j] != '\n'
    ensures !hit(q)
    decreases q - p
  {
    if p < q {
      assert line[p] != '\n';
      FirstHitNone(line, p + 1, hit, q);
    }
  }

  /** Whether the groups after the first match from position q. */
  function RestMatches(line: string): nat -> bool {
    (q: nat) => q <= |line| && Columns(line, q, RowColumns).Some?
  }

  /** Where the lazy first group ends: it grows one character at a time
      from p until the rest of the pattern matches, and may not take a
      newline. None when no such end exists. */
  function MatchEnd(line: string, p: nat): (q: Option<nat>)
    requires p <= |line|
    ensures q.Some? ==> p <= q.value <= |line| && Columns(line, q.value, RowColumns).Some?
  {
    FirstHit(line, p, RestMatches(line))
  }

  /** The end found is the first one: the rest of the pattern fails at
      every earlier position. */
  lemma MatchEndLeast(line: string, p: nat, q: nat)
    requires p <= q <= |line| && MatchEnd(line, p).Some? && q < MatchEnd(line, p).value
    ensures Columns(line, q, RowColumns).None?
  {
    FirstHitLeast(line, p, RestMatches(line), q);
  }

  /** When there is no end, the rest of the pattern fails at every position
      the first group can reach without crossing a newline. */
  lemma MatchEndNone(line: string, p: nat, q: nat)
    requires p <= q <= |line| && MatchEnd(line, p).None?
    requires forall j :: p <= j < q ==> line[j] != '\n'
    ensures Columns(line, q, RowColumns).None?
  {
    FirstHitNone(line, p, RestMatches(line), q);
  }

  /** A successful try at p reads the first group as everything before p
      and every other group as a run of its class; the weight, when there is
      one, starts with a character of [\d.,]. */
  lemma GroupsShape(line: string, p: nat)
    requires p <= |line| && GroupsAt(line, p).Some?
    ensures var g := GroupsAt(line, p).value;
            && g.kind == line[..p]
            && IsRunOf(g.international, DigitClass) && IsRunOf(g.ground, DigitCommaClass)
            && IsRunOf(g.air, DigitClass) && IsRunOf(g.unknown, DigitClass)
            && IsRunOf(g.totalPackages, DigitCommaClass)
            && (g.weight == "" || InClass(g.weight[0], NumberClass))
  {
    var runs := Columns(line, p, RowColumns).value;
    var g := GroupsAt(line, p).value;
    assert g.international == line[runs[0].0..runs[0].1] && RowColumns[0] == DigitClass;
    assert g.ground == line[runs[1].0..runs[1].1] && RowColumns[1] == DigitCommaClass;
    assert g.air == line[runs[2].0..runs[2].1] && RowColumns[2] == DigitClass;
    assert g.unknown == line[runs[3].0..runs[3].1] && RowColumns[3] == DigitClass;
    assert g.totalPackages == line[runs[4].0..runs[4].1] && RowColumns[4] == DigitCommaClass;
    WeightShape(line, RunEndIn(line, runs[4].1, SpaceClass));
  }

  lemma WeightShape(line: string, n: nat)
    requires n <= |line|
    ensures WeightAt(line, n) == "" || InClass(WeightAt(line, n)[0], NumberClass)
  {
    var e := RunEndIn(line, n, NumberClass);
    if e > n {
      assert WeightAt(line, n)[0] == line[n];
    }
  }

  /** re.search of the row pattern, which is anchored at the start. */
  function MatchRow(line: string): (r: Option<RowGroups>)
    ensures r.Some? <==> MatchEnd(line, 0).Some?
    ensures r.Some? ==> r.value.kind == line[..MatchEnd(line, 0).value]
  {
    match MatchEnd(line, 0)
    case Some(q) => GroupsAt(line, q)
    case None => None
  }

  /** The row a matched line gives, unless its type is empty or "Total:". */
  function RowOf(line: string): (rows: seq<SummaryRow>)
    ensures |rows| <= 1
  {
    match MatchRow(line)
    case None => []
    case Some(groups) =>
      var kind := Strip(groups.kind);
      if kind != "" && kind != "Total:" then
        [SummaryRow(kind, groups.international, Replace(groups.ground, ",", ""), groups.air,
                    groups.unknown, Replace(groups.totalPackages, ",", ""), groups.weight)]
      else []
  }

  // ---------------------------------------------------------------------
  // The walk
  // ---------------------------------------------------------------------

  /** The rows before those of a result, or the result's error. */
  function Prepend(rows: seq<SummaryRow>, r: Result<seq<SummaryRow>, string>): Result<seq<SummaryRow>, string> {
    match r
    case Ok(rest) => Ok(rows + rest)
    case Err(e) => Err(e)
  }

  /** The rows of the lines from index i on, in line order, or the error
      that stops the walk; an error discards the rows found so far. The
      rows a line gives are read by rowOf, which is RowOf for the report's
      tables. */
  function RowsFrom(lines: seq<string>, i: nat, rowOf: string -> seq<SummaryRow>): Result<seq<SummaryRow>, string>
    decreases |lines| - i
  {
    if i >= |lines| then Ok([])
    else
      match StepAt(lines, i)
      case Err(e) => Err(e)
      case Ok(Skip(n)) => RowsFrom(lines, n, rowOf)
      case Ok(Candidate(line, n)) => Prepend(rowOf(line), RowsFrom(lines, n, rowOf))
  }

  /** The lines of a table body: stripped, then cut at newlines. */
  function BodyLines(body: string): seq<string> {
    SplitOn(Strip(body), "\n")
  }

  lemma PrependTwice(a: seq<SummaryRow>, b: seq<SummaryRow>, r: Result<seq<SummaryRow>, string>)
    ensures Prepend(a + b, r) == Prepend(a, Prepend(b, r))
  {
    if r.Ok? {
      assert a + b + r.value == a + (b + r.value);
    }
  }

  lemma PrependNothing(r: Result<seq<SummaryRow>, string>)
    ensures Prepend([], r) == r
  {
    if r.Ok? {
      assert [] + r.value == r.value;
    }
  }

  lemma RowsFromCandidate(lines: seq<string>, i: nat, line: string, next: nat, rowOf: string -> seq<SummaryRow>)
    requires i < |lines| && StepAt(lines, i) == Ok(Candidate(line, next))
    ensures RowsFrom(lines, i, rowOf) == Prepend(rowOf(line), RowsFrom(lines, next, rowOf))
  {
  }

  lemma RowsFromError(lines: seq<string>, i: nat, rowOf: string -> seq<SummaryRow>)
    requires i < |lines| && StepAt(lines, i) == Err(ConversionError)
    ensures RowsFrom(lines, i, rowOf) == Err(ConversionError)
  {
  }

  /** The loop of parse_tabular_section: the lines are walked with an
      index that moves on by one, or by two when the next line's number is
      glued onto the current one, and the rows of each row line are
      appended in turn. */
  method WalkRows(lines: seq<string>, rowOf: string -> seq<SummaryRow>) returns (result: Result<seq<SummaryRow>, string>)
    ensures result == RowsFrom(lines, 0, rowOf)
  {
    var data: seq<SummaryRow> := [];
    var i := 0;
    PrependNothing(RowsFrom(lines, 0, rowOf));
    while i < |lines|
      invariant 0 <= i <= |lines|
      invariant RowsFrom(lines, 0, rowOf) == Prepend(data, RowsFrom(lines, i, rowOf))
      decreases |lines| - i
    {
      var line := Strip(lines[i]);
      if line == "" || StartsWith(line, "Total:") {
        SkipLinesGiveNothing(lines, i, rowOf);
        i := i + 1;
        continue;
      }
      if IsVersionLine(line) || IsPairCode(line) {
        SkipLinesGiveNothing(lines, i, rowOf);
        i := i + 1;
        continue;
      }
      var next := i + 1;
      if i + 1 < |lines| && IsWeightLine(Strip(lines[i + 1])) {
        var nextValue := Strip(lines[i + 1]);
        if '.' in nextValue {
          line := line + " " + nextValue + "lb";
          next := i + 2;
        } else {
          var digits := Replace(nextValue, ",", "");
          CommasRemoved(nextValue);
          if digits == "" {
            RowsFromError(lines, i, rowOf);
            return Err(ConversionError);
          }
          if DecimalValue(digits) < MergeLimit {
            line := line + " " + nextValue + "lb";
            next := i + 2;
          }
        }
      }
      RowsFromCandidate(lines, i, line, next, rowOf);
      var rows := rowOf(line);
      PrependTwice(data, rows, RowsFrom(lines, next, rowOf));
      data := data + rows;
      i := next;
    }
    assert data + [] == data;
    result := Ok(data);
  }

  /** parse_tabular_section over the table body: no body gives no rows;
      otherwise the rows of the body's lines, each line read with the row
      pattern. */
  method ParseTabularSection(body: Option<string>) returns (result: Result<seq<SummaryRow>, string>)
    ensures body.None? ==> result == Ok([])
    ensures body.Some? ==> result == RowsFrom(BodyLines(body.value), 0, RowOf)
  {
    if body.None? {
      return Ok([]);
    }
    result := WalkRows(BodyLines(body.value), RowOf);
  }

  // ---------------------------------------------------------------------
  // Properties of the walk
  // ---------------------------------------------------------------------

  /** The index moves on by two exactly when the line is a row line, a
      next line exists, and that line stripped is a bare number with a
      decimal point or a comma-free value below MergeLimit; the row line is
      then the line, a space, the number and "lb". */
  lemma StepMerges(lines: seq<string>, i: nat)
    requires i < |lines| && StepAt(lines, i).Ok?
    ensures var next := if i + 1 < |lines| then Strip(lines[i + 1]) else "";
            var merges := && !IsSkipLine(Strip(lines[i])) && i + 1 < |lines| && IsWeightLine(next)
                           && ('.' in next || NumberValue(next) < MergeLimit);
            && (StepAt(lines, i).value.next == i + 2 <==> merges)
            && (merges ==> StepAt(lines, i).value == Candidate(Strip(lines[i]) + " " + next + "lb", i + 2))
  {
  }

  /** The walk stops with the conversion error exactly when a row line is
      followed by a line of commas alone. */
  lemma StepFails(lines: seq<string>, i: nat)
    requires i < |lines|
    ensures StepAt(lines, i).Err? <==>
            !IsSkipLine(Strip(lines[i])) && i + 1 < |lines| && AllCommas(Strip(lines[i + 1]))
  {
    if i + 1 < |lines| {
      var next := Strip(lines[i + 1]);
      if AllCommas(next) {
        assert IsWeightLine(next);
        assert '.' !in next;
        CommasRemoved(next);
      } else if IsWeightLine(next) && '.' !in next {
        CommasRemoved(next);
      }
    }
  }

  /** A blank line, a "Total:" line, a version line and a code line give
      no row: the walk goes on from the next line as if they were absent. */
  lemma SkipLinesGiveNothing(lines: seq<string>, i: nat, rowOf: string -> seq<SummaryRow>)
    requires i < |lines| && IsSkipLine(Strip(lines[i]))
    ensures RowsFrom(lines, i, rowOf) == RowsFrom(lines, i + 1, rowOf)
  {
  }

  /** A row the walk emits has a type that is neither empty nor "Total:",
      and its ground and total package counts carry no commas. */
  predicate WellFormedRow(row: SummaryRow) {
    && row.kind != "" && row.kind != "Total:"
    && ',' !in row.ground && ',' !in row.totalPackages
  }

  lemma RowOfWellFormed(line: string)
    ensures forall row :: row in RowOf(line) ==> WellFormedRow(row)
  {
    match MatchRow(line)
    case None =>
    case Some(groups) =>
      ReplaceDeletesChar(groups.ground, ',');
      ReplaceDeletesChar(groups.totalPackages, ',');
  }

  /** Deleting the commas of a run of [\d,] leaves digits only. */
  lemma CommaFreeDigits(s: string)
    requires IsRunOf(s, DigitCommaClass)
    ensures AllDigits(Replace(s, ",", ""))
  {
    var digits := Replace(s, ",", "");
    ReplaceDeletesChar(s, ',');
    forall i | 0 <= i < |digits| ensures IsDigit(digits[i]) {
      assert digits[i] in digits;
      var j :| 0 <= j < |s| && s[j] == digits[i];
      assert InClass(s[j], DigitCommaClass);
    }
  }

  /** A line gives no row exactly when the pattern fails or the stripped
      type is empty or "Total:"; otherwise its one row holds the stripped
      type, the count groups as matched with the commas of Ground and Total
      Packages deleted, so every count is digits only, and the weight group
      as matched. */
  lemma RowOfFields(line: string)
    ensures RowOf(line) == [] <==>
              MatchRow(line).None? || Strip(MatchRow(line).value.kind) == ""
              || Strip(MatchRow(line).value.kind) == "Total:"
    ensures RowOf(line) != [] ==>
              var g := MatchRow(line).value;
              var row := RowOf(line)[0];
              && row.kind == Strip(g.kind)
              && row.international == g.international && row.air == g.air && row.unknown == g.unknown
              && row.ground == Replace(g.ground, ",", "")
              && row.totalPackages == Replace(g.totalPackages, ",", "")
              && row.weight == g.weight
              && AllDigits(row.international) && AllDigits(row.ground) && AllDigits(row.air)
              && AllDigits(row.unknown) && AllDigits(row.totalPackages)
  {
    match MatchRow(line)
    case None =>
    case Some(g) =>
      var q := MatchEnd(line, 0).value;
      GroupsShape(line, q);
      CommaFreeDigits(g.ground);
      CommaFreeDigits(g.totalPackages);
  }

  /** Every row of the walk is well formed. */
  lemma {:induction false} RowsWellFormed(lines: seq<string>, i: nat)
    requires RowsFrom(lines, i, RowOf).Ok?
    ensures forall row :: row in RowsFrom(lines, i, RowOf).value ==> WellFormedRow(row)
    decreases |lines| - i
  {
    if i < |lines| {
      match StepAt(lines, i)
      case Ok(Skip(n)) =>
        RowsWellFormed(lines, n);
      case Ok(Candidate(line, n)) =>
        RowsWellFormed(lines, n);
        RowOfWellFormed(line);
    }
  }

  /** At most one row per line: a merged pair of lines gives one row. */
  lemma {:induction false} RowsBound(lines: seq<string>, i: nat)
    requires i <= |lines| && RowsFrom(lines, i, RowOf).Ok?
    ensures |RowsFrom(lines, i, RowOf).value| <= |lines| - i
    decreases |lines| - i
  {
    if i < |lines| {
      match StepAt(lines, i)
      case Ok(Skip(n)) =>
        RowsBound(lines, n);
      case Ok(Candidate(line, n)) =>
        RowsBound(lines, n);
    }
  }
}
