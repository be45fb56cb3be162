/** Recognising tracking numbers. Each section of the report lists the
    identifier formats it accepts, in priority order; a format is tested
    against a token from the token's first character on, and the token may
    carry more characters after the identifier. */
module Tracking {
  import opened Wrappers
  import opened Text

  /** The two identifier formats: the 18-character "1Z" code and the
      dash-segmented "HR" return code. */
  datatype TrackingPattern =
    | UpsPattern   // 1Z[A-Z0-9]{16}
    | HrPattern    // HR[A-Z0-9]{6,8}-\d{4}-\d+

  /** The class [A-Z0-9]. */
  predicate IsCodeChar(c: char) {
    'A' <= c <= 'Z' || '0' <= c <= '9'
  }

  /** t begins with "1Z" and sixteen characters of [A-Z0-9]. */
  predicate MatchesUps(t: string) {
    |t| >= 18 && t[..2] == "1Z" && forall i :: 2 <= i < 18 ==> IsCodeChar(t[i])
  }

  /** t begins with "HR", exactly k characters of [A-Z0-9], a dash, four
      digits, a dash and a digit. */
  predicate MatchesHrWithBody(t: string, k: nat) {
    && |t| >= 9 + k
    && t[..2] == "HR"
    && (forall i :: 2 <= i < 2 + k ==> IsCodeChar(t[i]))
    && t[2 + k] == '-'
    && (forall i :: 3 + k <= i < 7 + k ==> IsDigit(t[i]))
    && t[7 + k] == '-'
    && IsDigit(t[8 + k])
  }

  /** The body of [A-Z0-9]{6,8} is followed by a dash, which is not in the
      class, so the quantifier's backtracking can only succeed at the one
      length the token has; trying the three lengths covers it. */
  predicate MatchesHr(t: string) {
    MatchesHrWithBody(t, 6) || MatchesHrWithBody(t, 7) || MatchesHrWithBody(t, 8)
  }

  /** re.match(pattern, t) succeeds. */
  predicate Matches(p: TrackingPattern, t: string) {
    match p
    case UpsPattern => MatchesUps(t)
    case HrPattern => MatchesHr(t)
  }

  /** Every identifier the patterns accept starts with "1Z" or "HR". */
  lemma MatchStartsWithPrefix(p: TrackingPattern, t: string)
    requires Matches(p, t)
    ensures StartsWith(t, "1Z") || StartsWith(t, "HR")
  {
  }

  /** The first index from i on whose token matches p. */
  function FirstMatchFrom(p: TrackingPattern, parts: seq<string>, i: nat): (r: Option<nat>)
    requires i <= |parts|
    ensures r.Some? ==> i <= r.value < |parts| && Matches(p, parts[r.value])
                        && forall j :: i <= j < r.value ==> !Matches(p, parts[j])
    ensures r.None? ==> forall j :: i <= j < |parts| ==> !Matches(p, parts[j])
    decreases |parts| - i
  {
    if i == |parts| then None
    else if Matches(p, parts[i]) then Some(i)
    else FirstMatchFrom(p, parts, i + 1)
  }

  /** The token at index t is the one the search reports: pattern number q
      is the first pattern that matches any token, and t is the first token
      it matches. */
  ghost predicate IsSelected(parts: seq<string>, patterns: seq<TrackingPattern>, q: nat, t: nat) {
    && q < |patterns| && t < |parts|
    && Matches(patterns[q], parts[t])
    && (forall q', t' :: 0 <= q' < q && 0 <= t' < |parts| ==> !Matches(patterns[q'], parts[t']))
    && (forall t' :: 0 <= t' < t ==> !Matches(patterns[q], parts[t']))
  }

  /** The search over patterns from number q on. */
  function ExtractFrom(parts: seq<string>, patterns: seq<TrackingPattern>, q: nat): (r: Option<string>)
    requires q <= |patterns|
    requires forall q', t' :: 0 <= q' < q && 0 <= t' < |parts| ==> !Matches(patterns[q'], parts[t'])
    ensures r.Some? ==> exists q': nat, t': nat :: IsSelected(parts, patterns, q', t') && r.value == parts[t']
    ensures r.None? ==> forall q', t' :: 0 <= q' < |patterns| && 0 <= t' < |parts|
                                         ==> !Matches(patterns[q'], parts[t'])
    decreases |patterns| - q
  {
    if q == |patterns| then None
    else
      match FirstMatchFrom(patterns[q], parts, 0)
      case Some(t) =>
        assert IsSelected(parts, patterns, q, t);
        Some(parts[t])
      case None => ExtractFrom(parts, patterns, q + 1)
  }

  /** extract_tracking: patterns are tried in priority order and, for each
      pattern, tokens in line order; the first token that matches is the
      tracking number. The result is always one of the tokens, and it is
      None exactly when no token matches any pattern. */
  function ExtractTracking(parts: seq<string>, patterns: seq<TrackingPattern>): (r: Option<string>)
    ensures r.Some? ==> r.value in parts
    ensures r.Some? ==> exists q: nat, t: nat :: IsSelected(parts, patterns, q, t) && r.value == parts[t]
    ensures r.None? <==> forall q, t :: 0 <= q < |patterns| && 0 <= t < |parts|
                                        ==> !Matches(patterns[q], parts[t])
  {
    ExtractFrom(parts, patterns, 0)
  }

  /** The selection is unique: two (pattern, token) pairs that both satisfy
      the priority rule are the same pair. */
  lemma SelectionUnique(parts: seq<string>, patterns: seq<TrackingPattern>, q1: nat, t1: nat, q2: nat, t2: nat)
    requires IsSelected(parts, patterns, q1, t1)
    requires IsSelected(parts, patterns, q2, t2)
    ensures q1 == q2 && t1 == t2
  {
  }
}
