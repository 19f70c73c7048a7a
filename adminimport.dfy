/** web/src/pages/AdminPanel.jsx, `handleImport`: the textarea's text,
    one player per line in the form `Name, Tribe (optional)`, turned into
    the `players` array the import route receives. */
module AdminImport {
  import opened Text

  /** `{ name: parts[0], tribe: parts[1] || '' }`. */
  datatype ImportEntry = ImportEntry(name: string, tribe: string)

  /** `parts.map(p => p.trim())`. */
  function TrimAll(parts: seq<string>): (r: seq<string>)
    ensures |r| == |parts|
    ensures forall k :: 0 <= k < |parts| ==> r[k] == Trim(parts[k])
  {
    seq(|parts|, k requires 0 <= k < |parts| => Trim(parts[k]))
  }


  /** One line: its comma-separated fields, trimmed; the first is the
      name, the second (an empty one is falsy) the tribe. */
  function ParseLine(line: string): ImportEntry {
    var parts := TrimAll(Split(line, ','));
    ImportEntry(parts[0], if |parts| > 1 && parts[1] != "" then parts[1] else "")
  }

  /** `lines.map(...)`. */
  function ParseLines(lines: seq<string>): (r: seq<ImportEntry>)
    ensures |r| == |lines|
    ensures forall k :: 0 <= k < |lines| ==> r[k] == ParseLine(lines[k])
  {
    seq(|lines|, k requires 0 <= k < |lines| => ParseLine(lines[k]))
  }


  /** `importText.trim().split('\n').map(...)`. */
  function ParseImport(text: string): seq<ImportEntry> {
    ParseLines(Split(Trim(text), '\n'))
  }

  /** The success toast, `Imported N players`. */
  function ImportToast(text: string): string {
    "Imported " + DecimalString(|ParseImport(text)|) + " players"
  }

  /** One entry per line of the trimmed text: the count the toast reports
      is the number of newlines plus one, and entry k is line k's. */
  lemma ParseImportLines(text: string)
    ensures |ParseImport(text)| == Occurrences(Trim(text), '\n') + 1
    ensures ImportToast(text) == "Imported " + DecimalString(Occurrences(Trim(text), '\n') + 1) + " players"
    ensures forall k :: 0 <= k < |ParseImport(text)| ==>
      ParseImport(text)[k] == ParseLine(Split(Trim(text), '\n')[k])
  {
  }

  /** The name is the first field trimmed, the tribe the second field
      trimmed or `''` when the line has no second field; neither holds a
      comma. */
  lemma ParseLineFields(line: string)
    ensures var fields := Split(line, ',');
      && ParseLine(line).name == Trim(fields[0])
      && ParseLine(line).tribe == (if |fields| > 1 then Trim(fields[1]) else "")
  {
  }

  /** A line is parsed from its first two fields alone. */
  lemma ParseLineOfTwoFields(line: string, name: string, tribe: string)
    requires |Split(line, ',')| >= 2 && Split(line, ',')[0] == name && Split(line, ',')[1] == tribe
    ensures ParseLine(line) == ImportEntry(Trim(name), if Trim(tribe) != "" then Trim(tribe) else "")
  {
  }

  /** Fields after the second are ignored. */
  lemma ExtraFieldsIgnored(name: string, tribe: string, rest: string)
    requires ',' !in name && ',' !in tribe
    ensures ParseLine(name + [','] + tribe + [','] + rest) == ParseLine(name + [','] + tribe)
  {
    var long := name + [','] + tribe + [','] + rest;
    assert long == name + [','] + (tribe + [','] + rest);
    SplitAfterPiece(name, ',', tribe + [','] + rest);
    SplitAfterPiece(tribe, ',', rest);
    ParseLineOfTwoFields(long, name, tribe);
    SplitAfterPiece(name, ',', tribe);
    SplitWithoutSep(tribe, ',');
    ParseLineOfTwoFields(name + [','] + tribe, name, tribe);
  }

  /** A line without a comma is a bare name with an empty tribe. */
  lemma NameOnlyLine(line: string)
    requires ',' !in line
    ensures ParseLine(line) == ImportEntry(Trim(line), "")
  {
    SplitWithoutSep(line, ',');
  }

  /** An empty (or all-blank) textarea still yields one entry, whose name
      is empty. */
  lemma BlankTextOneEntry(text: string)
    requires IsBlank(text)
    ensures ParseImport(text) == [ImportEntry("", "")]
  {
    TrimmedEmptyIffBlank(text);
    assert Trim(text) == "";
    assert Trim("") == "";
  }

  // ---------------------------------------------------------------------
  // the documented format, as the inverse of the parse

  /** An entry the format can express: a non-empty name, both fields
      trimmed, neither holding a comma or a newline. */
  predicate Expressible(e: ImportEntry) {
    && e.name != "" && IsTrimmed(e.name) && IsTrimmed(e.tribe)
    && ',' !in e.name && ',' !in e.tribe && '\n' !in e.name && '\n' !in e.tribe
  }

  /** `Name` or `Name, Tribe`. */
  function FormatLine(e: ImportEntry): string {
    if e.tribe == "" then e.name else e.name + [',', ' '] + e.tribe
  }

  function FormatLines(entries: seq<ImportEntry>): (r: seq<string>)
    ensures |r| == |entries|
    ensures forall k :: 0 <= k < |entries| ==> r[k] == FormatLine(entries[k])
  {
    seq(|entries|, k requires 0 <= k < |entries| => FormatLine(entries[k]))
  }


  /** The text of a list of entries, one line each. */
  function FormatImport(entries: seq<ImportEntry>): string
    requires entries != []
  {
    Join(FormatLines(entries), '\n')
  }

  /** Parsing a formatted line gives the entry back. */
  lemma ParseFormatLine(e: ImportEntry)
    requires Expressible(e)
    ensures ParseLine(FormatLine(e)) == e
  {
    TrimOfTrimmed(e.name);
    if e.tribe == "" {
      SplitWithoutSep(e.name, ',');
    } else {
      var spaced := [' '] + e.tribe;
      assert FormatLine(e) == e.name + [','] + spaced;
      SplitAfterPiece(e.name, ',', spaced);
      SplitWithoutSep(spaced, ',');
      assert TrimStart(spaced) == TrimStart(e.tribe) by {
        assert spaced[1..] == e.tribe;
      }
      TrimOfTrimmed(e.tribe);
      ParseLineOfTwoFields(FormatLine(e), e.name, spaced);
    }
  }

  /** A formatted line is non-empty, has no newline, and starts and ends
      with the entry's non-blank characters. */
  lemma FormatLineShape(e: ImportEntry)
    requires Expressible(e)
    ensures var line := FormatLine(e);
      line != [] && '\n' !in line && IsTrimmed(line)
  {
    var line := FormatLine(e);
    if e.tribe != "" {
      assert line[|line| - 1] == e.tribe[|e.tribe| - 1];
      assert forall k :: 0 <= k < |line| ==> line[k] in e.name || line[k] == ',' || line[k] == ' ' || line[k] in e.tribe;
    }
  }

  /** Parsing the text of expressible entries gives them back, in order:
      the parse inverts the format the panel documents. */
  lemma ParseFormatImport(entries: seq<ImportEntry>)
    requires entries != [] && forall k :: 0 <= k < |entries| ==> Expressible(entries[k])
    ensures ParseImport(FormatImport(entries)) == entries
  {
    var lines := FormatLines(entries);
    forall k | 0 <= k < |lines|
      ensures lines[k] != [] && '\n' !in lines[k] && IsTrimmed(lines[k])
    {
      FormatLineShape(entries[k]);
    }
    var text := Join(lines, '\n');
    JoinEnds(lines, '\n');
    TrimOfTrimmed(text);
    SplitOfJoin(lines, '\n');
    forall k | 0 <= k < |entries|
      ensures ParseLine(lines[k]) == entries[k]
    {
      ParseFormatLine(entries[k]);
    }
  }
}
