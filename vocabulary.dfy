/** The service vocabulary: the service labels that appear on the report's
    package lines, cleaned up and ordered longest first, so that the line
    parser tries "Ground Express" before "Ground". The texts of the pages
    are given; reading them from the PDF is not part of this model. */
module Vocabulary {
  import opened Wrappers
  import opened Text
  import opened Tracking
  import opened LineEntry

  /** The words a service label may begin with. */
  const ServicePrefixes: seq<string> :=
    ["Ground", "Next", "2nd", "3rd", "3 Day", "Standard", "Worldwide", "Express", "Economy", "Expedited"]

  /** Only the first pages of a report are read. */
  const PageLimit: nat := 30

  /** The builder looks at this many tokens after the AM/PM marker for the
      pickup date. */
  const DateWindow: nat := 3

  /** Vocabulary entries are taken from spans of this length only. */
  const MinLabelLength: nat := 4
  const MaxLabelLength: nat := 50

  function Min(a: nat, b: nat): nat {
    if a <= b then a else b
  }

  // ---------------------------------------------------------------------
  // Which lines are package lines
  // ---------------------------------------------------------------------

  /** A clock time "d:dd AM" or "d:dd PM" starts at index k. */
  predicate ClockTimeAt(line: string, k: nat) {
    && k + 7 <= |line|
    && IsDigit(line[k]) && line[k + 1] == ':' && IsDigit(line[k + 2]) && IsDigit(line[k + 3])
    && line[k + 4] == ' ' && (line[k + 5..k + 7] == "AM" || line[k + 5..k + 7] == "PM")
  }

  /** re.search(r'\d{1,2}:\d{2} (AM|PM)', line). A match with a two-digit
      hour holds a match with a one-digit hour one place later, so it is
      enough to look for the one-digit form. */
  predicate HasClockTime(line: string) {
    exists k: nat | k < |line| :: ClockTimeAt(line, k)
  }

  /** re.search(r'1Z[A-Z0-9]{16}', line): a "1Z" code anywhere in the line. */
  predicate HasUpsTracking(line: string) {
    exists k: nat | k < |line| :: MatchesUps(line[k..])
  }

  /** What the builder takes for a tracking token: "1Z" and eighteen
      characters in all. */
  predicate IsUpsLike(t: string) {
    StartsWith(t, "1Z") && |t| == 18
  }

  /** The index of the first tracking token at or after i. */
  function FirstUpsLikeFrom(parts: seq<string>, i: nat): (r: Option<nat>)
    requires i <= |parts|
    ensures r.Some? ==> i <= r.value < |parts| && IsUpsLike(parts[r.value])
                        && forall k :: i <= k < r.value ==> !IsUpsLike(parts[k])
    ensures r.None? ==> forall k :: i <= k < |parts| ==> !IsUpsLike(parts[k])
    decreases |parts| - i
  {
    if i == |parts| then None
    else if IsUpsLike(parts[i]) then Some(i)
    else FirstUpsLikeFrom(parts, i + 1)
  }

  /** The number of tokens in parts[start..start + budget], cut at the end
      of the line, that do not begin with "1Z". Unlike the line parser's
      pickup date, the count goes on past a "1Z" token. */
  function WindowCount(parts: seq<string>, start: nat, budget: nat): (n: nat)
    ensures n <= budget
    ensures n > 0 ==> start + n <= |parts|
    decreases budget
  {
    if budget == 0 || start >= |parts| then 0
    else (if StartsWith(parts[start], "1Z") then 0 else 1) + WindowCount(parts, start + 1, budget - 1)
  }

  /** The positions of the window parts[start..start + budget], cut at the
      end of the line, whose tokens do not begin with "1Z". */
  ghost function WindowIndices(parts: seq<string>, start: nat, budget: nat): set<nat> {
    set k: nat | start <= k < start + budget && k < |parts| && !StartsWith(parts[k], "1Z")
  }

  /** The window count is the number of non-"1Z" tokens anywhere in the
      window: a "1Z" token inside the window is passed over, not a stop. */
  lemma {:induction false} WindowCountMeaning(parts: seq<string>, start: nat, budget: nat)
    ensures WindowCount(parts, start, budget) == |WindowIndices(parts, start, budget)|
    decreases budget
  {
    var w := WindowIndices(parts, start, budget);
    if budget == 0 || start >= |parts| {
      assert w == {};
    } else {
      WindowCountMeaning(parts, start + 1, budget - 1);
      var rest := WindowIndices(parts, start + 1, budget - 1);
      var head: set<nat> := if StartsWith(parts[start], "1Z") then {} else {start};
      assert w == head + rest;
      assert head * rest == {};
    }
  }

  /** The span begins with one of the service prefixes. */
  predicate HasServicePrefix(s: string) {
    exists i :: 0 <= i < |ServicePrefixes| && StartsWith(s, ServicePrefixes[i])
  }

  // ---------------------------------------------------------------------
  // The service span of one line
  // ---------------------------------------------------------------------

  /** s is the service span of the tokens: the first AM/PM token is at t,
      which is not the first token; the first tracking token is at ce; the
      span starts after the marker and the counted pickup-date tokens, ends
      just before the tracking token, is not empty and begins with a service
      prefix. */
  ghost predicate SpanBetween(parts: seq<string>, t: nat, ce: nat, s: string) {
    && 0 < t < |parts| && IsMeridiem(parts[t])
    && (forall k :: 0 <= k < t ==> !IsMeridiem(parts[k]))
    && ce < |parts| && IsUpsLike(parts[ce])
    && (forall k :: 0 <= k < ce ==> !IsUpsLike(parts[k]))
    && t + 1 + WindowCount(parts, t + 1, DateWindow) < ce
    && s == JoinWords(parts[t + 1 + WindowCount(parts, t + 1, DateWindow)..ce])
    && HasServicePrefix(s)
  }

  /** The first position of the first tracking token is its index. */
  lemma IndexOfFirstUpsLike(parts: seq<string>, f: nat)
    requires f < |parts| && IsUpsLike(parts[f])
    requires forall k :: 0 <= k < f ==> !IsUpsLike(parts[k])
    ensures parts[f] in parts && IndexOf(parts, parts[f]) == f
  {
  }

  /** The service span of a line's tokens, if it has one. */
  function SpanOf(parts: seq<string>): (r: Option<string>)
    ensures r.Some? ==> HasServicePrefix(r.value)
  {
    match FirstMeridiem(parts)
    case None => None
    case Some(t) =>
      match FirstUpsLikeFrom(parts, 0)
      case None => None
      case Some(f) =>
        if t == 0 then None
        else
          var tracking := parts[f];
          IndexOfFirstUpsLike(parts, f);
          var customerStart := t + 1 + WindowCount(parts, t + 1, DateWindow);
          var customerEnd := IndexOf(parts, tracking);
          if customerEnd > customerStart then
            var serviceText := JoinWords(parts[customerStart..customerEnd]);
            if HasServicePrefix(serviceText) then Some(serviceText) else None
          else None
  }

  /** A span found is a service span of the tokens. */
  lemma SpanOfSound(parts: seq<string>)
    requires SpanOf(parts).Some?
    ensures SpanBetween(parts, FirstMeridiem(parts).value, FirstUpsLikeFrom(parts, 0).value, SpanOf(parts).value)
  {
    var f := FirstUpsLikeFrom(parts, 0).value;
    IndexOfFirstUpsLike(parts, f);
  }

  /** The converse: tokens with a service span yield it. */
  lemma SpanOfComplete(parts: seq<string>, t: nat, ce: nat, s: string)
    requires SpanBetween(parts, t, ce, s)
    ensures SpanOf(parts) == Some(s)
  {
    assert FirstMeridiemFrom(parts, 0) == Some(t);
    assert FirstUpsLikeFrom(parts, 0) == Some(ce);
    IndexOfFirstUpsLike(parts, ce);
  }

  /** The per-line step of the builder: a line with a clock time and a "1Z"
      code yields the service span of its tokens, if they have one. The
      AM/PM marker must not be the first token, and the tracking token must
      be eighteen characters long. */
  function ServiceCandidate(line: string): (r: Option<string>)
    ensures r.Some? ==> HasClockTime(line) && HasUpsTracking(line) && HasServicePrefix(r.value)
  {
    if HasClockTime(line) && HasUpsTracking(line) then SpanOf(Split(line)) else None
  }

  /** A line yields a span only if it passes both searches, and the span
      is the service span of its tokens. */
  lemma CandidateSound(line: string)
    requires ServiceCandidate(line).Some?
    ensures HasClockTime(line) && HasUpsTracking(line)
    ensures exists t: nat, ce: nat :: SpanBetween(Split(line), t, ce, ServiceCandidate(line).value)
  {
    SpanOfSound(Split(line));
  }

  /** The converse: a line that passes both searches and has a service
      span yields it. */
  lemma CandidateComplete(line: string, t: nat, ce: nat, s: string)
    requires HasClockTime(line) && HasUpsTracking(line)
    requires SpanBetween(Split(line), t, ce, s)
    ensures ServiceCandidate(line) == Some(s)
  {
    SpanOfComplete(Split(line), t, ce, s);
  }

  /** A line whose first token is the AM/PM marker gives no span: the
      builder tests the marker's index for truth, and index 0 is false. */
  lemma MarkerFirstRejected(line: string)
    requires |Split(line)| > 0 && IsMeridiem(Split(line)[0])
    ensures ServiceCandidate(line) == None
  {
    assert FirstMeridiemFrom(Split(line), 0) == Some(0);
    assert SpanOf(Split(line)) == None;
  }

  /** The pickup-date tokens the line parser takes are all counted by the
      builder, so the builder's span never starts before the customer field
      the parser reads. */
  lemma {:induction false} WindowCoversDateRun(parts: seq<string>, start: nat, budget: nat)
    ensures DateRun(parts, start, budget) <= WindowCount(parts, start, budget)
    decreases budget
  {
    if budget > 0 && start < |parts| {
      WindowCoversDateRun(parts, start + 1, budget - 1);
    }
  }

  // ---------------------------------------------------------------------
  // Collecting the spans of the pages
  // ---------------------------------------------------------------------

  /** The spans of a run of lines. */
  function LineCandidates(lines: seq<string>): set<string>
    decreases |lines|
  {
    if lines == [] then {}
    else
      var init := LineCandidates(lines[..|lines| - 1]);
      match ServiceCandidate(lines[|lines| - 1])
      case Some(s) => init + {s}
      case None => init
  }

  /** The spans of a run of pages; an empty page is skipped. */
  function PageCandidates(pages: seq<string>): set<string>
    decreases |pages|
  {
    if pages == [] then {}
    else
      var last := pages[|pages| - 1];
      PageCandidates(pages[..|pages| - 1]) + (if last == "" then {} else LineCandidates(SplitOn(last, "\n")))
  }

  lemma LineCandidatesSnoc(lines: seq<string>, line: string)
    ensures LineCandidates(lines + [line])
            == LineCandidates(lines) + (if ServiceCandidate(line).Some? then {ServiceCandidate(line).value} else {})
  {
    assert (lines + [line])[..|lines|] == lines;
  }

  lemma PageCandidatesSnoc(pages: seq<string>, page: string)
    ensures PageCandidates(pages + [page])
            == PageCandidates(pages) + (if page == "" then {} else LineCandidates(SplitOn(page, "\n")))
  {
    assert (pages + [page])[..|pages|] == pages;
  }

  /** The inner loop of the builder: the span of every line of one page is
      added to the set. */
  method AddLineCandidates(serviceTypes: set<string>, lines: seq<string>) returns (serviceTypes': set<string>)
    ensures serviceTypes' == serviceTypes + LineCandidates(lines)
  {
    serviceTypes' := serviceTypes;
    var l := 0;
    while l < |lines|
      invariant 0 <= l <= |lines|
      invariant serviceTypes' == serviceTypes + LineCandidates(lines[..l])
    {
      var candidate := ServiceCandidate(lines[l]);
      LineCandidatesSnoc(lines[..l], lines[l]);
      assert lines[..l + 1] == lines[..l] + [lines[l]];
      if candidate.Some? {
        serviceTypes' := serviceTypes' + {candidate.value};
      }
      l := l + 1;
    }
    assert lines[..l] == lines;
  }

  /** The page loop of the builder: the first PageLimit pages are read,
      empty ones skipped, and each is cut into lines. */
  method CollectServiceTypes(pages: seq<string>) returns (serviceTypes: set<string>)
    ensures serviceTypes == PageCandidates(pages[..Min(PageLimit, |pages|)])
  {
    var count := Min(PageLimit, |pages|);
    serviceTypes := {};
    var p := 0;
    while p < count
      invariant 0 <= p <= count
      invariant serviceTypes == PageCandidates(pages[..p])
    {
      var text := pages[p];
      PageCandidatesSnoc(pages[..p], text);
      assert pages[..p + 1] == pages[..p] + [text];
      if text != "" {
        serviceTypes := AddLineCandidates(serviceTypes, SplitOn(text, "\n"));
      }
      p := p + 1;
    }
  }

  /** Every span collected from some lines is the span of one of them. */
  lemma {:induction false} LineCandidatesSound(lines: seq<string>, s: string)
    requires s in LineCandidates(lines)
    ensures exists i :: 0 <= i < |lines| && ServiceCandidate(lines[i]) == Some(s)
    decreases |lines|
  {
    var init := lines[..|lines| - 1];
    if s in LineCandidates(init) {
      LineCandidatesSound(init, s);
      var i :| 0 <= i < |init| && ServiceCandidate(init[i]) == Some(s);
      assert lines[i] == init[i];
    }
  }

  /** Every span of a line is collected. */
  lemma {:induction false} LineCandidatesComplete(lines: seq<string>, i: nat)
    requires i < |lines| && ServiceCandidate(lines[i]).Some?
    ensures ServiceCandidate(lines[i]).value in LineCandidates(lines)
    decreases |lines|
  {
    if i < |lines| - 1 {
      var init := lines[..|lines| - 1];
      assert init[i] == lines[i];
      LineCandidatesComplete(init, i);
    }
  }

  /** Every span collected from some pages is the span of a line of a
      page that is not empty. */
  lemma {:induction false} PageCandidatesSound(pages: seq<string>, s: string)
    requires s in PageCandidates(pages)
    ensures exists p, i :: 0 <= p < |pages| && pages[p] != "" && 0 <= i < |SplitOn(pages[p], "\n")|
                           && ServiceCandidate(SplitOn(pages[p], "\n")[i]) == Some(s)
    decreases |pages|
  {
    var init := pages[..|pages| - 1];
    var last := pages[|pages| - 1];
    if s in PageCandidates(init) {
      PageCandidatesSound(init, s);
      var p, i :| 0 <= p < |init| && init[p] != "" && 0 <= i < |SplitOn(init[p], "\n")|
                  && ServiceCandidate(SplitOn(init[p], "\n")[i]) == Some(s);
      assert pages[p] == init[p];
    } else {
      LineCandidatesSound(SplitOn(last, "\n"), s);
    }
  }

  // ---------------------------------------------------------------------
  // Cleaning and ordering
  // ---------------------------------------------------------------------

  /** \d+\.?\d* matches the whole of m. */
  predicate IsDecimalText(m: string) {
    || (|m| > 0 && AllDigits(m))
    || exists d :: 0 < d < |m| && AllDigits(m[..d]) && m[d] == '.' && AllDigits(m[d + 1..])
  }

  /** \s*\d+\.?\d*lb matches the whole of t. A digit must follow the
      spaces, so the spaces matched are all the leading ones. */
  predicate WeightTail(t: string) {
    var m := t[LeadingSpaces(t)..];
    |m| >= 2 && m[|m| - 2..] == "lb" && IsDecimalText(m[..|m| - 2])
  }

  /** \s*1Z[A-Z0-9]+ matches the whole of t. */
  predicate TrackingTail(t: string) {
    var m := t[LeadingSpaces(t)..];
    |m| >= 3 && m[..2] == "1Z" && forall i :: 2 <= i < |m| ==> IsCodeChar(m[i])
  }

  /** One of the two fragment patterns matches the whole of t. */
  predicate CapturedTail(t: string) {
    WeightTail(t) || TrackingTail(t)
  }

  /** The first position from p on where a fragment starts that runs to
      the end of s, or |s|. */
  function CaptureFrom(s: string, p: nat): (r: nat)
    requires p <= |s|
    ensures p <= r <= |s|
    ensures r < |s| ==> CapturedTail(s[r..])
    ensures forall k :: p <= k < r ==> !CapturedTail(s[k..])
    decreases |s| - p
  {
    if p == |s| then |s|
    else if CapturedTail(s[p..]) then p
    else CaptureFrom(s, p + 1)
  }

  /** re.sub(r'\s*\d+\.?\d*lb$|\s*1Z[A-Z0-9]+$', '', s). Both alternatives
      are anchored at the end, so the leftmost match runs to the end of s
      and no second match follows it: the result is s cut at the leftmost
      position from which a trailing weight or tracking fragment makes up
      the rest, and s itself when there is none. */
  function StripCaptured(s: string): (r: string)
    ensures |r| <= |s| && r == s[..|r|]
    ensures |r| < |s| ==> CapturedTail(s[|r|..])
    ensures forall k :: 0 <= k < |r| ==> !CapturedTail(s[k..])
  {
    s[..CaptureFrom(s, 0)]
  }

  /** The clean-up of one collected span: the trailing fragment is cut off
      and the rest stripped of surrounding whitespace. */
  function Clean(s: string): (r: string)
    ensures r == [] || (!IsSpace(r[0]) && !IsSpace(r[|r| - 1]))
    ensures |r| <= |s|
  {
    Strip(StripCaptured(s))
  }

  /** The set the builder sorts: the cleaned forms of the spans whose
      length, before cleaning, is within the bounds. */
  function CleanedSet(serviceTypes: set<string>): set<string> {
    set s | s in serviceTypes && MinLabelLength <= |s| <= MaxLabelLength :: Clean(s)
  }

  /** No string occurs twice. */
  predicate Distinct(xs: seq<string>) {
    forall i, j :: 0 <= i < j < |xs| ==> xs[i] != xs[j]
  }

  /** Every finite non-empty set of strings has a longest element. */
  lemma {:induction false} LongestExists(items: set<string>)
    requires items != {}
    ensures exists x :: x in items && forall y :: y in items ==> |y| <= |x|
    decreases |items|
  {
    var a :| a in items;
    var rest := items - {a};
    if rest != {} {
      LongestExists(rest);
      var b :| b in rest && forall y :: y in rest ==> |y| <= |b|;
      if |a| <= |b| {
        assert forall y :: y in items ==> |y| <= |b|;
      } else {
        assert forall y :: y in items ==> |y| <= |a|;
      }
    } else {
      forall y | y in items ensures |y| <= |a| {
        assert y !in rest;
      }
    }
  }

  /** sorted(items, key=len, reverse=True): every element once, longest
      first. Elements of the same length may come in any order, as they do
      when a set is sorted by a key that ties. */
  method SortByLength(items: set<string>) returns (sorted: seq<string>)
    ensures forall x :: x in sorted <==> x in items
    ensures Distinct(sorted)
    ensures LongestFirst(sorted)
  {
    sorted := [];
    var rest := items;
    while rest != {}
      invariant forall x :: x in items <==> x in sorted || x in rest
      invariant forall x :: x in sorted ==> x !in rest
      invariant Distinct(sorted)
      invariant LongestFirst(sorted)
      invariant forall i, y :: 0 <= i < |sorted| && y in rest ==> |y| <= |sorted[i]|
      decreases |rest|
    {
      LongestExists(rest);
      var x :| x in rest && forall y :: y in rest ==> |y| <= |x|;
      sorted := sorted + [x];
      rest := rest - {x};
    }
  }

  /** extract_service_types_from_pdf over the page texts: the vocabulary
      holds exactly the cleaned forms of the collected spans of length 4 to
      50, each once, longest first. */
  method BuildVocabulary(pages: seq<string>) returns (vocabulary: seq<string>)
    ensures forall e :: e in vocabulary <==> e in CleanedSet(PageCandidates(pages[..Min(PageLimit, |pages|)]))
    ensures Distinct(vocabulary)
    ensures LongestFirst(vocabulary)
  {
    var serviceTypes := CollectServiceTypes(pages);
    var cleaned := CleanedSet(serviceTypes);
    vocabulary := SortByLength(cleaned);
  }

  /** Every vocabulary entry is the cleaned form of a span of 4 to 50
      characters that begins with a service prefix and was found on a line
      of one of the pages read. */
  lemma EntryOrigin(pages: seq<string>, e: string)
    requires e in CleanedSet(PageCandidates(pages[..Min(PageLimit, |pages|)]))
    ensures exists s :: && e == Clean(s) && MinLabelLength <= |s| <= MaxLabelLength && HasServicePrefix(s)
                        && exists p, i :: 0 <= p < Min(PageLimit, |pages|) && 0 <= i < |SplitOn(pages[p], "\n")|
                                          && ServiceCandidate(SplitOn(pages[p], "\n")[i]) == Some(s)
  {
    var read := pages[..Min(PageLimit, |pages|)];
    var s :| s in PageCandidates(read) && MinLabelLength <= |s| <= MaxLabelLength && e == Clean(s);
    PageCandidatesSound(read, s);
    var p, i :| 0 <= p < |read| && read[p] != "" && 0 <= i < |SplitOn(read[p], "\n")|
                && ServiceCandidate(SplitOn(read[p], "\n")[i]) == Some(s);
    assert read[p] == pages[p];
    CandidateSound(SplitOn(pages[p], "\n")[i]);
  }
}
