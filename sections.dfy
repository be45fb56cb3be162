/** The package sections of the report. Each kind of section has a name and
    the tracking formats its lines may carry; parsing a kind of section
    walks every section body of that kind, line by line, and keeps the
    records of the lines that parse. Finding the section bodies in the
    report text is not part of this model: the bodies are given. */
module Sections {
  import opened Wrappers
  import opened Text
  import opened Tracking
  import opened LineEntry

  datatype SectionConfig = SectionConfig(name: string, trackingPatterns: seq<TrackingPattern>)

  const DropOff: SectionConfig := SectionConfig("Drop Off Packages", [UpsPattern])
  const Enhanced: SectionConfig := SectionConfig("Enhanced Drop Off Packages", [UpsPattern, HrPattern])
  const Mobile: SectionConfig := SectionConfig("Mobile Drop Off", [UpsPattern])

  /** section.split('\n'): the newline-free pieces between the newlines,
      which joined with newlines give the section back. */
  function Lines(section: string): (r: seq<string>)
    ensures |r| > 0
    ensures forall i :: 0 <= i < |r| ==> '\n' !in r[i]
    ensures Join(r, "\n") == section
  {
    SplitOnCharPieces(section, '\n');
    SplitOn(section, "\n")
  }

  /** What parse_section does with one line: parse_line_entry with the
      vocabulary and the section's tracking formats. */
  function EntryParser(config: SectionConfig, services: seq<string>): (parse: string -> Option<PackageRecord>)
    ensures forall line :: parse(line) == ParseLineEntry(line, services, config.trackingPatterns)
  {
    line => ParseLineEntry(line, services, config.trackingPatterns)
  }

  /** The records of the lines that parse, in line order. */
  function LineRecords(lines: seq<string>, parse: string -> Option<PackageRecord>): seq<PackageRecord>
    decreases |lines|
  {
    if lines == [] then []
    else
      var init := LineRecords(lines[..|lines| - 1], parse);
      match parse(lines[|lines| - 1])
      case Some(rec) => init + [rec]
      case None => init
  }

  /** The records of all the section bodies, body after body. */
  function SectionRecords(sections: seq<string>, parse: string -> Option<PackageRecord>): seq<PackageRecord>
    decreases |sections|
  {
    if sections == [] then []
    else SectionRecords(sections[..|sections| - 1], parse) + LineRecords(Lines(sections[|sections| - 1]), parse)
  }

  /** One more line adds its record, if it has one. */
  lemma LineRecordsSnoc(lines: seq<string>, line: string, parse: string -> Option<PackageRecord>)
    ensures LineRecords(lines + [line], parse)
            == LineRecords(lines, parse) + (if parse(line).Some? then [parse(line).value] else [])
  {
    assert (lines + [line])[..|lines|] == lines;
  }

  /** One more body adds the records of its lines. */
  lemma SectionRecordsSnoc(sections: seq<string>, section: string, parse: string -> Option<PackageRecord>)
    ensures SectionRecords(sections + [section], parse)
            == SectionRecords(sections, parse) + LineRecords(Lines(section), parse)
  {
    assert (sections + [section])[..|sections|] == sections;
  }

  /** The inner loop of parse_section, for a given line parser: every
      line of one body is parsed in order and its record, if any, is
      appended to data. */
  method AppendLineRecords(data: seq<PackageRecord>, lines: seq<string>,
                           parse: string -> Option<PackageRecord>) returns (data': seq<PackageRecord>)
    ensures data' == data + LineRecords(lines, parse)
  {
    data' := data;
    var l := 0;
    while l < |lines|
      invariant 0 <= l <= |lines|
      invariant data' == data + LineRecords(lines[..l], parse)
    {
      var entry := parse(lines[l]);
      LineRecordsSnoc(lines[..l], lines[l], parse);
      assert lines[..l + 1] == lines[..l] + [lines[l]];
      if entry.Some? {
        data' := data' + [entry.value];
      }
      l := l + 1;
    }
    assert lines[..l] == lines;
  }

  /** The outer loop of parse_section, for a given line parser: the
      bodies are walked in order. */
  method CollectRecords(sections: seq<string>, parse: string -> Option<PackageRecord>)
    returns (data: seq<PackageRecord>)
    ensures data == SectionRecords(sections, parse)
  {
    data := [];
    var s := 0;
    while s < |sections|
      invariant 0 <= s <= |sections|
      invariant data == SectionRecords(sections[..s], parse)
    {
      data := AppendLineRecords(data, Lines(sections[s]), parse);
      SectionRecordsSnoc(sections[..s], sections[s], parse);
      assert sections[..s + 1] == sections[..s] + [sections[s]];
      s := s + 1;
    }
    assert sections[..s] == sections;
  }

  /** parse_section over the given section bodies: the records of every
      line of every body that parse_line_entry accepts, in order. */
  method ParseSection(sections: seq<string>, config: SectionConfig, services: seq<string>)
    returns (data: seq<PackageRecord>)
    ensures data == SectionRecords(sections, EntryParser(config, services))
  {
    data := CollectRecords(sections, EntryParser(config, services));
  }

  /** Every record comes from one of the lines, and is what the parser
      makes of that line. */
  lemma {:induction false} LineRecordsSound(lines: seq<string>, parse: string -> Option<PackageRecord>,
                                            rec: PackageRecord)
    requires rec in LineRecords(lines, parse)
    ensures exists i :: 0 <= i < |lines| && parse(lines[i]) == Some(rec)
    decreases |lines|
  {
    var init := lines[..|lines| - 1];
    if rec in LineRecords(init, parse) {
      LineRecordsSound(init, parse, rec);
      var i :| 0 <= i < |init| && parse(init[i]) == Some(rec);
      assert lines[i] == init[i];
    } else {
      assert parse(lines[|lines| - 1]) == Some(rec);
    }
  }

  /** Every line that parses contributes its record: nothing is dropped. */
  lemma {:induction false} LineRecordsComplete(lines: seq<string>, parse: string -> Option<PackageRecord>, i: nat)
    requires i < |lines| && parse(lines[i]).Some?
    ensures parse(lines[i]).value in LineRecords(lines, parse)
    decreases |lines|
  {
    if i < |lines| - 1 {
      var init := lines[..|lines| - 1];
      assert init[i] == lines[i];
      LineRecordsComplete(init, parse, i);
    }
  }

  /** At most one record per line. */
  lemma {:induction false} LineRecordsBound(lines: seq<string>, parse: string -> Option<PackageRecord>)
    ensures |LineRecords(lines, parse)| <= |lines|
    decreases |lines|
  {
    if lines != [] {
      LineRecordsBound(lines[..|lines| - 1], parse);
    }
  }

  /** Parsing two runs of lines one after the other gives the records of
      the first run followed by those of the second. */
  lemma {:induction false} LineRecordsAppend(a: seq<string>, b: seq<string>, parse: string -> Option<PackageRecord>)
    ensures LineRecords(a + b, parse) == LineRecords(a, parse) + LineRecords(b, parse)
    decreases |b|
  {
    if b == [] {
      assert a + b == a;
    } else {
      var b' := b[..|b| - 1];
      assert (a + b)[..|a + b| - 1] == a + b';
      LineRecordsAppend(a, b', parse);
    }
  }

  /** Every record of a section comes from a line of one of its bodies. */
  lemma {:induction false} SectionRecordsSound(sections: seq<string>, parse: string -> Option<PackageRecord>,
                                               rec: PackageRecord)
    requires rec in SectionRecords(sections, parse)
    ensures exists s, i :: 0 <= s < |sections| && 0 <= i < |Lines(sections[s])|
                           && parse(Lines(sections[s])[i]) == Some(rec)
    decreases |sections|
  {
    var init := sections[..|sections| - 1];
    var last := sections[|sections| - 1];
    if rec in SectionRecords(init, parse) {
      SectionRecordsSound(init, parse, rec);
      var s, i :| 0 <= s < |init| && 0 <= i < |Lines(init[s])| && parse(Lines(init[s])[i]) == Some(rec);
      assert sections[s] == init[s];
    } else {
      LineRecordsSound(Lines(last), parse, rec);
    }
  }

  /** A record's tracking number matches one of the formats the section
      accepts. */
  lemma ParsedTrackingMatches(line: string, services: seq<string>, patterns: seq<TrackingPattern>)
    requires ParseLineEntry(line, services, patterns).Some?
    ensures exists q :: 0 <= q < |patterns|
                        && Matches(patterns[q], ParseLineEntry(line, services, patterns).value.trackingNumber)
  {
    var rec := ParseLineEntry(line, services, patterns).value;
    var parts := Split(line);
    assert RecordFits(parts, patterns, services, rec);
    var q: nat, t: nat :| IsSelected(parts, patterns, q, t) && rec.trackingNumber == parts[t];
    assert Matches(patterns[q], rec.trackingNumber);
  }

  /** Every record of a section carries a tracking number in one of the
      section's formats. */
  lemma SectionTrackingMatches(sections: seq<string>, config: SectionConfig, services: seq<string>,
                               rec: PackageRecord)
    requires rec in SectionRecords(sections, EntryParser(config, services))
    ensures exists q :: 0 <= q < |config.trackingPatterns|
                        && Matches(config.trackingPatterns[q], rec.trackingNumber)
  {
    var parse := EntryParser(config, services);
    SectionRecordsSound(sections, parse, rec);
    var s, i :| 0 <= s < |sections| && 0 <= i < |Lines(sections[s])| && parse(Lines(sections[s])[i]) == Some(rec);
    ParsedTrackingMatches(Lines(sections[s])[i], services, config.trackingPatterns);
  }

  /** In the drop-off and mobile sections every tracking number is a
      "1Z" code; in the enhanced section it is a "1Z" or an "HR" code. */
  lemma SectionFormats(sections: seq<string>, services: seq<string>, rec: PackageRecord)
    ensures rec in SectionRecords(sections, EntryParser(DropOff, services))
            ==> MatchesUps(rec.trackingNumber)
    ensures rec in SectionRecords(sections, EntryParser(Mobile, services))
            ==> MatchesUps(rec.trackingNumber)
    ensures rec in SectionRecords(sections, EntryParser(Enhanced, services))
            ==> MatchesUps(rec.trackingNumber) || MatchesHr(rec.trackingNumber)
  {
    if rec in SectionRecords(sections, EntryParser(DropOff, services)) {
      SectionTrackingMatches(sections, DropOff, services, rec);
    }
    if rec in SectionRecords(sections, EntryParser(Mobile, services)) {
      SectionTrackingMatches(sections, Mobile, services, rec);
    }
    if rec in SectionRecords(sections, EntryParser(Enhanced, services)) {
      SectionTrackingMatches(sections, Enhanced, services, rec);
    }
  }
}
