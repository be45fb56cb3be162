/** Parsing one line of a package section into a record: the time of day,
    the pickup date, the customer, the service, the tracking number and the
    weight. The line is cut into whitespace-separated tokens and the fields
    are found by their positions relative to the AM/PM marker and the
    tracking number. */
module LineEntry {
  import opened Wrappers
  import opened Text
  import opened Tracking

  datatype PackageRecord = PackageRecord(
    time: string,
    pickupDate: string,
    customer: string,
    service: string,
    trackingNumber: string,
    weight: string)

  /** At most this many tokens after the AM/PM marker form the pickup date. */
  const DatePartLimit: nat := 3

  predicate IsMeridiem(t: string) {
    t == "AM" || t == "PM"
  }

  /** The index of the first AM/PM token at or after i. */
  function FirstMeridiemFrom(parts: seq<string>, i: nat): (r: Option<nat>)
    requires i <= |parts|
    ensures r.Some? ==> i <= r.value < |parts| && IsMeridiem(parts[r.value])
                        && forall k :: i <= k < r.value ==> !IsMeridiem(parts[k])
    ensures r.None? ==> forall k :: i <= k < |parts| ==> !IsMeridiem(parts[k])
    decreases |parts| - i
  {
    if i == |parts| then None
    else if IsMeridiem(parts[i]) then Some(i)
    else FirstMeridiemFrom(parts, i + 1)
  }

  /** The index of the first AM/PM token of the line, if any. */
  function FirstMeridiem(parts: seq<string>): Option<nat> {
    FirstMeridiemFrom(parts, 0)
  }

  /** parts.index(x): the first position of x. */
  function IndexOf(parts: seq<string>, x: string): (i: nat)
    requires x in parts
    ensures i < |parts| && parts[i] == x
    ensures forall k :: 0 <= k < i ==> parts[k] != x
  {
    if parts[0] == x then 0
    else
      assert x in parts[1..] by {
        var k :| 0 <= k < |parts| && parts[k] == x;
        assert parts[1..][k - 1] == x;
      }
      1 + IndexOf(parts[1..], x)
  }

  /** A token that starts the way a tracking number does. */
  predicate HasTrackingPrefix(t: string) {
    StartsWith(t, "1Z") || StartsWith(t, "HR")
  }

  /** The number of pickup-date tokens from index start on. */
  function DateRun(parts: seq<string>, start: nat, budget: nat): (n: nat)
    ensures n <= budget
    ensures n > 0 ==> start + n <= |parts|
    decreases budget
  {
    if budget == 0 || start >= |parts| || HasTrackingPrefix(parts[start]) then 0
    else 1 + DateRun(parts, start + 1, budget - 1)
  }

  /** The pickup-date tokens are the tokens up to the first one with a
      tracking prefix, at most budget of them and no further than the end
      of the line. */
  lemma {:induction false} DateRunMeaning(parts: seq<string>, start: nat, budget: nat)
    ensures var n := DateRun(parts, start, budget);
            && (forall k :: start <= k < start + n ==> !HasTrackingPrefix(parts[k]))
            && (n < budget && start + n < |parts| ==> HasTrackingPrefix(parts[start + n]))
    decreases budget
  {
    if budget == 0 || start >= |parts| || HasTrackingPrefix(parts[start]) {
    } else {
      DateRunMeaning(parts, start + 1, budget - 1);
    }
  }

  /** extract_date_parts: collects the tokens after the AM/PM marker until
      it has three, reaches the end of the line or meets a token with a
      tracking prefix. */
  method ExtractDateParts(parts: seq<string>, timeIdx: nat) returns (dateParts: seq<string>)
    ensures |dateParts| == DateRun(parts, timeIdx + 1, DatePartLimit)
    ensures forall k :: 0 <= k < |dateParts| ==> dateParts[k] == parts[timeIdx + 1 + k]
  {
    var start := timeIdx + 1;
    var stop := if start + DatePartLimit < |parts| then start + DatePartLimit else |parts|;
    dateParts := [];
    var i := start;
    while i < stop
      invariant start <= i && |dateParts| == i - start
      invariant i > start ==> i <= stop && dateParts == parts[start..i]
      invariant DateRun(parts, start, DatePartLimit)
                == (i - start) + DateRun(parts, i, DatePartLimit - (i - start))
    {
      if HasTrackingPrefix(parts[i]) {
        break;
      }
      dateParts := dateParts + [parts[i]];
      i := i + 1;
    }
  }

  predicate IsWeightMarker(t: string) {
    t == "ManWt" || t == "Com"
  }

  /** A token that can stand before a weight marker: it names a unit or is
      the not-applicable marker. */
  predicate IsWeightValue(t: string) {
    Contains(t, "lb") || Contains(t, "kg") || t == "N/A"
  }

  /** extract_weight: the last token of the line, unless it is one of the
      markers "ManWt" and "Com"; then the token before it joins it when that
      token is a weight value, and "N/A" stands in otherwise. */
  function ExtractWeight(parts: seq<string>): (w: string)
    requires |parts| > 0
    ensures !IsWeightMarker(parts[|parts| - 1]) ==> w == parts[|parts| - 1]
    ensures IsWeightMarker(parts[|parts| - 1]) && |parts| >= 2 && IsWeightValue(parts[|parts| - 2])
            ==> w == JoinWords(parts[|parts| - 2..])
    ensures IsWeightMarker(parts[|parts| - 1]) && (|parts| < 2 || !IsWeightValue(parts[|parts| - 2]))
            ==> w == "N/A"
  {
    var last := parts[|parts| - 1];
    if IsWeightMarker(last) then
      if |parts| >= 2 && IsWeightValue(parts[|parts| - 2]) then
        assert parts[|parts| - 2..] == [parts[|parts| - 2], last];
        JoinWordsPair(parts[|parts| - 2], last);
        parts[|parts| - 2] + " " + last
      else "N/A"
    else last
  }

  /** On a line that does not end in a weight marker the weight is the
      last token, unchanged. */
  lemma WeightOfPlainLine(parts: seq<string>)
    requires |parts| > 0
    requires forall k :: 0 <= k < |parts| ==> IsToken(parts[k])
    requires !IsWeightMarker(parts[|parts| - 1])
    ensures Split(ExtractWeight(parts)) == parts[|parts| - 1..]
  {
    var tail := parts[|parts| - 1..];
    assert JoinWords(tail) == parts[|parts| - 1];
    SplitJoinWords(tail);
  }

  /** On a line that ends in a weight marker the weight is either the
      "N/A" fallback or the last two tokens of the line, marker included. */
  lemma WeightOfMarkedLine(parts: seq<string>)
    requires |parts| > 0
    requires forall k :: 0 <= k < |parts| ==> IsToken(parts[k])
    requires IsWeightMarker(parts[|parts| - 1])
    ensures ExtractWeight(parts) == "N/A"
            || (|parts| >= 2 && Split(ExtractWeight(parts)) == parts[|parts| - 2..])
    ensures ExtractWeight(parts) != "N/A" ==> EndsWith(ExtractWeight(parts), parts[|parts| - 1])
  {
    if |parts| >= 2 && IsWeightValue(parts[|parts| - 2]) {
      var tail := parts[|parts| - 2..];
      SplitJoinWords(tail);
      var w := ExtractWeight(parts);
      assert w[|w| - |parts[|parts| - 1]|..] == parts[|parts| - 1];
    }
  }

  /** Index j holds the first service (in list order) that ends the field. */
  predicate IsFirstSuffix(field: string, services: seq<string>, j: nat) {
    && j < |services|
    && EndsWith(field, services[j])
    && forall k :: 0 <= k < j ==> !EndsWith(field, services[k])
  }

  /** The first service from index j on that ends the field. */
  function FirstSuffixFrom(field: string, services: seq<string>, j: nat): (r: Option<nat>)
    requires j <= |services|
    requires forall k :: 0 <= k < j ==> !EndsWith(field, services[k])
    ensures r.Some? ==> IsFirstSuffix(field, services, r.value)
    ensures r.None? ==> forall k :: 0 <= k < |services| ==> !EndsWith(field, services[k])
    decreases |services| - j
  {
    if j == |services| then None
    else if EndsWith(field, services[j]) then Some(j)
    else FirstSuffixFrom(field, services, j + 1)
  }

  /** The customer name and the service label cut from one field. */
  datatype CustomerService = CustomerService(customer: string, service: string)

  /** s[:-n] in Python: everything but the last n characters, except that
      s[:-0] is s[:0], the empty string. */
  function DropLast(s: string, n: nat): string
    requires n <= |s|
  {
    if n == 0 then "" else s[..|s| - n]
  }

  /** split_customer_service: the empty field gives two empty strings;
      otherwise the service is the first vocabulary entry, in list order,
      that ends the field, and the customer is the stripped rest; a field
      that no entry ends is all customer and no service. */
  function SplitCustomerService(field: string, services: seq<string>): (r: CustomerService)
    ensures field == "" ==> r == CustomerService("", "")
    ensures field != "" && (forall k :: 0 <= k < |services| ==> !EndsWith(field, services[k]))
            ==> r == CustomerService(field, "")
    ensures field != "" && (exists k :: 0 <= k < |services| && EndsWith(field, services[k]))
            ==> exists j: nat :: IsFirstSuffix(field, services, j)
                                 && r == CustomerService(Strip(DropLast(field, |services[j]|)), services[j])
  {
    if field == "" then CustomerService("", "")
    else
      match FirstSuffixFrom(field, services, 0)
      case Some(j) => CustomerService(Strip(DropLast(field, |services[j]|)), services[j])
      case None => CustomerService(field, "")
  }

  /** The vocabulary is ordered so that longer entries come first. */
  ghost predicate LongestFirst(services: seq<string>) {
    forall i, j :: 0 <= i < j < |services| ==> |services[i]| >= |services[j]|
  }

  /** With the vocabulary ordered longest first, the service found is the
      longest entry that ends the field: no entry that ends the field is
      longer, and one of the same length is the same string. So "Ground"
      can never be picked over "Ground Express" at the end of a field. */
  lemma LongestServiceWins(field: string, services: seq<string>, k: nat)
    requires LongestFirst(services)
    requires field != ""
    requires k < |services| && EndsWith(field, services[k])
    ensures EndsWith(field, SplitCustomerService(field, services).service)
    ensures |services[k]| <= |SplitCustomerService(field, services).service|
    ensures |services[k]| == |SplitCustomerService(field, services).service|
            ==> services[k] == SplitCustomerService(field, services).service
  {
    var found := FirstSuffixFrom(field, services, 0);
    assert found.Some?;
    var j := found.value;
    assert j <= k;
    SameLengthSuffixes(field, services[j], services[k]);
  }

  /** Two suffixes of the same string with the same length are equal. */
  lemma SameLengthSuffixes(s: string, x: string, y: string)
    requires EndsWith(s, x) && EndsWith(s, y)
    ensures |x| == |y| ==> x == y
  {
  }

  /** The time is the tokens up to and including the first AM/PM token,
      the first n of them, joined with spaces; the pickup date is the tokens
      from n to e, joined: at most three, none with a tracking prefix, and
      ending early only at such a token or at the end of the line. */
  ghost predicate TimeAndDateFit(parts: seq<string>, time: string, pickupDate: string, n: nat, e: nat) {
    && 0 < n <= e <= |parts| && e - n <= DatePartLimit
    && time == JoinWords(parts[..n])
    && IsMeridiem(parts[n - 1])
    && (forall k :: 0 <= k < n - 1 ==> !IsMeridiem(parts[k]))
    && pickupDate == JoinWords(parts[n..e])
    && (forall k :: n <= k < e ==> !HasTrackingPrefix(parts[k]))
    && (e - n < DatePartLimit && e < |parts| ==> HasTrackingPrefix(parts[e]))
  }

  /** The customer field of a line: the tokens from dateEnd up to the first
      occurrence of the tracking number, glued with spaces; empty when that
      span is empty. */
  function CustomerField(parts: seq<string>, dateEnd: nat, tracking: string): string
    requires tracking in parts
  {
    var customerEnd := IndexOf(parts, tracking);
    if customerEnd > dateEnd then JoinWords(parts[dateEnd..customerEnd]) else ""
  }

  /** The customer field splits back into exactly the tokens between the
      date run and the tracking number. */
  lemma CustomerFieldTokens(parts: seq<string>, dateEnd: nat, tracking: string)
    requires forall k :: 0 <= k < |parts| ==> IsToken(parts[k])
    requires tracking in parts
    ensures var customerEnd := IndexOf(parts, tracking);
            Split(CustomerField(parts, dateEnd, tracking))
            == if customerEnd > dateEnd then parts[dateEnd..customerEnd] else []
  {
    var customerEnd := IndexOf(parts, tracking);
    if customerEnd > dateEnd {
      SplitJoinWords(parts[dateEnd..customerEnd]);
    } else {
      assert CustomerField(parts, dateEnd, tracking) == "";
      SplitJoinWords([]);
    }
  }

  /** The fields a parsed record must have, in terms of the line's tokens:
      time and pickup date as TimeAndDateFit says, the tracking number the
      token the pattern search selects, customer and service the split of
      the customer field after the date run, and the weight extract_weight
      gives. */
  ghost predicate RecordFits(parts: seq<string>, patterns: seq<TrackingPattern>,
                             services: seq<string>, rec: PackageRecord) {
    && (exists q: nat, t: nat :: IsSelected(parts, patterns, q, t) && rec.trackingNumber == parts[t])
    && rec.trackingNumber in parts
    && (exists n: nat, e: nat ::
          && TimeAndDateFit(parts, rec.time, rec.pickupDate, n, e)
          && CustomerService(rec.customer, rec.service)
             == SplitCustomerService(CustomerField(parts, e, rec.trackingNumber), services))
    && rec.weight == ExtractWeight(parts)
  }

  /** The time and the pickup date as parse_line_entry builds them from
      the first AM/PM token at n - 1: the time splits back into the tokens
      through that token and the date into the date run after it. */
  lemma TimeAndDateOfLine(parts: seq<string>, n: nat, e: nat, time: string, pickupDate: string)
    requires forall k :: 0 <= k < |parts| ==> IsToken(parts[k])
    requires n > 0 && FirstMeridiem(parts) == Some(n - 1)
    requires e == n + DateRun(parts, n, DatePartLimit) && e <= |parts|
    requires time == JoinWords(parts[..n])
    requires pickupDate == JoinWords(parts[n..e])
    ensures TimeAndDateFit(parts, time, pickupDate, n, e)
    ensures Split(time) == parts[..n] && Split(pickupDate) == parts[n..e]
  {
    DateRunMeaning(parts, n, DatePartLimit);
    SplitJoinWords(parts[..n]);
    SplitJoinWords(parts[n..e]);
  }

  /** The service split off a field is empty or a vocabulary entry. */
  lemma ServiceFromVocabulary(field: string, services: seq<string>)
    ensures var r := SplitCustomerService(field, services);
            r.service == "" || r.service in services
  {
    if field != "" {
      match FirstSuffixFrom(field, services, 0)
      case Some(j) =>
        assert SplitCustomerService(field, services).service == services[j];
      case None =>
    }
  }

  /** A record that fits its line has a service from the vocabulary or
      none, and with the vocabulary ordered longest first that service is
      the longest entry ending the customer field. */
  lemma RecordService(parts: seq<string>, patterns: seq<TrackingPattern>, services: seq<string>,
                      rec: PackageRecord)
    requires RecordFits(parts, patterns, services, rec)
    ensures rec.service == "" || rec.service in services
    ensures exists n: nat, e: nat ::
              && TimeAndDateFit(parts, rec.time, rec.pickupDate, n, e)
              && (LongestFirst(services) ==>
                    var field := CustomerField(parts, e, rec.trackingNumber);
                    forall k :: 0 <= k < |services| && field != "" && EndsWith(field, services[k])
                      ==> |services[k]| <= |rec.service| && EndsWith(field, rec.service))
  {
    var n: nat, e: nat :| TimeAndDateFit(parts, rec.time, rec.pickupDate, n, e)
                          && CustomerService(rec.customer, rec.service)
                             == SplitCustomerService(CustomerField(parts, e, rec.trackingNumber), services);
    var field := CustomerField(parts, e, rec.trackingNumber);
    ServiceFromVocabulary(field, services);
    if LongestFirst(services) {
      forall k | 0 <= k < |services| && field != "" && EndsWith(field, services[k])
        ensures |services[k]| <= |rec.service| && EndsWith(field, rec.service)
      {
        LongestServiceWins(field, services, k);
      }
    }
  }

  /** The conditions under which a record fits a line, one by one. */
  lemma RecordFitsIntro(parts: seq<string>, patterns: seq<TrackingPattern>, services: seq<string>,
                        time: string, pickupDate: string, tracking: string, n: nat, e: nat)
    requires TimeAndDateFit(parts, time, pickupDate, n, e)
    requires ExtractTracking(parts, patterns) == Some(tracking)
    ensures var split := SplitCustomerService(CustomerField(parts, e, tracking), services);
            RecordFits(parts, patterns, services,
                       PackageRecord(time, pickupDate, split.customer, split.service, tracking,
                                     ExtractWeight(parts)))
  {
  }

  /** The record of a line whose first AM/PM token is at ti and whose
      tracking number is tracking. */
  function BuildRecord(parts: seq<string>, services: seq<string>, patterns: seq<TrackingPattern>,
                       ti: nat, tracking: string): (rec: PackageRecord)
    requires forall k :: 0 <= k < |parts| ==> IsToken(parts[k])
    requires FirstMeridiem(parts) == Some(ti)
    requires ExtractTracking(parts, patterns) == Some(tracking)
    ensures RecordFits(parts, patterns, services, rec)
  {
    var n := ti + 1;
    var e := n + DateRun(parts, n, DatePartLimit);
    var time := JoinWords(parts[..n]);
    var pickupDate := JoinWords(parts[n..e]);
    TimeAndDateOfLine(parts, n, e, time, pickupDate);
    RecordFitsIntro(parts, patterns, services, time, pickupDate, tracking, n, e);
    var split := SplitCustomerService(CustomerField(parts, e, tracking), services);
    PackageRecord(time, pickupDate, split.customer, split.service, tracking, ExtractWeight(parts))
  }

  /** parse_line_entry: a line yields no record exactly when it has fewer
      than four tokens, no AM/PM token, or no token matching a tracking
      pattern; otherwise its record fits the line as RecordFits says. */
  function ParseLineEntry(line: string, services: seq<string>, patterns: seq<TrackingPattern>)
    : (r: Option<PackageRecord>)
    ensures var parts := Split(line);
            r.None? <==> (|parts| < 4
                          || (forall k :: 0 <= k < |parts| ==> !IsMeridiem(parts[k]))
                          || (forall q, t :: 0 <= q < |patterns| && 0 <= t < |parts|
                                             ==> !Matches(patterns[q], parts[t])))
    ensures r.Some? ==> RecordFits(Split(line), patterns, services, r.value)
  {
    var parts := Split(line);
    if |parts| < 4 then None
    else
      match FirstMeridiem(parts)
      case None => None
      case Some(ti) =>
        match ExtractTracking(parts, patterns)
        case None => None
        case Some(tracking) =>
          Some(BuildRecord(parts, services, patterns, ti, tracking))
  }
}
