/** Parsing and rendering dotenv text, and exactly when the two undo each other. */
module Dotenv {
  import opened Wrappers
  import opened Text

  const MOBILE_FILE_KEYS := ["GOOGLE_SERVICES_JSON", "GOOGLE_SERVICE_INFO_PLIST", "RELEASE_KEYSTORE"]

  predicate IsMobileFileKey(key: string) {
    || key in MOBILE_FILE_KEYS
    || EndsWith(LowerAscii(key), "_base64")
    || Contains(LowerAscii(key), "google-services")
    || Contains(LowerAscii(key), "googleservice-info")
    || Contains(LowerAscii(key), "keystore")
    || Contains(LowerAscii(key), "plist")
  }

  /** Assigning text to the property `__proto__` of a plain object is ignored. */
  function SetProperty(properties: map<string, string>, key: string, value: string): map<string, string> {
    if key == "__proto__" then properties else properties[key := value]
  }

  predicate Wrapped(value: string) {
    value != [] && value[0] == value[|value| - 1] && (value[0] == '"' || value[0] == '\'')
  }

  /** `slice(1, -1)`: a lone quote becomes empty. */
  function Unquote(value: string): string {
    if !Wrapped(value) then value
    else if |value| == 1 then [] else value[1..|value| - 1]
  }

  datatype Assignment = Assignment(key: string, value: string)

  function ParseLine(raw: string): Option<Assignment> {
    ParseTrimmed(Trim(raw))
  }

  function ParseTrimmed(line: string): Option<Assignment> {
    if line == [] || line[0] == '#' then None
    else
      var index := IndexOf(line, '=');
      if index == |line| then None
      else Some(Assignment(Trim(line[..index]), Unquote(Trim(line[index + 1..]))))
  }

  /** What the lines assign, later lines overwriting earlier ones. */
  function ParseLines(lines: seq<string>): map<string, string> {
    if lines == [] then map[]
    else
      var last := |lines| - 1;
      var before := ParseLines(lines[..last]);
      Assign(before, ParseLine(lines[last]))
  }

  function Assign(properties: map<string, string>, assignment: Option<Assignment>): map<string, string> {
    match assignment
    case Some(a) => SetProperty(properties, a.key, a.value)
    case None => properties
  }

  method ParseDotenv(text: string) returns (result: map<string, string>)
    ensures result == ParseLines(Split(text, '\n'))
  {
    result := map[];
    var lines := Split(text, '\n');
    for i := 0 to |lines|
      invariant result == ParseLines(lines[..i])
    {
      ParseNext(lines, i);
      var line := Trim(lines[i]);
      if line == [] || line[0] == '#' {
        continue;
      }
      var index := IndexOf(line, '=');
      if index == |line| {
        continue;
      }
      var key := Trim(line[..index]);
      var value := Trim(line[index + 1..]);
      AssignmentOf(line, index);
      if Wrapped(value) {
        value := if |value| == 1 then [] else value[1..|value| - 1];
      }
      result := SetProperty(result, key, value);
    }
    assert lines[..|lines|] == lines;
  }

  lemma AssignmentOf(line: string, index: nat)
    requires line != [] && line[0] != '#' && index == IndexOf(line, '=') && index < |line|
    ensures ParseTrimmed(line) == Some(Assignment(Trim(line[..index]), Unquote(Trim(line[index + 1..]))))
  {
  }

  lemma ParseNext(lines: seq<string>, i: nat)
    requires i < |lines|
    ensures ParseLines(lines[..i + 1]) == Assign(ParseLines(lines[..i]), ParseLine(lines[i]))
  {
    assert lines[..i + 1][..i] == lines[..i];
  }

  predicate NeedsQuotes(value: string) {
    ' ' in value || '#' in value || '\n' in value || '"' in value || '\'' in value
  }

  /** Put a backslash before every double quote. */
  function Escape(value: string): (escaped: string)
    ensures |escaped| >= |value|
    ensures escaped == value <==> '"' !in value
    ensures |escaped| == |value| ==> escaped == value
    ensures '\n' !in value ==> '\n' !in escaped
  {
    if value == [] then []
    else (if value[0] == '"' then ['\\', '"'] else [value[0]]) + Escape(value[1..])
  }

  /** `mobile` says that the key names a mobile file, whose content is never quoted. */
  function RenderValue(mobile: bool, value: string): string {
    if mobile || value == [] || !NeedsQuotes(value) then value
    else ['"'] + Escape(value) + ['"']
  }

  /** An object's own entries in order; a property may hold undefined. */
  datatype Entry = Entry(key: string, value: Option<string>)

  // The entry's line; `mobile` says which keys name mobile files, `IsMobileFileKey` in the original.

  function RenderEntry(mobile: string -> bool, entry: Entry): seq<string> {
    if entry.value.None? then []
    else [entry.key + ['='] + RenderValue(mobile(entry.key), entry.value.value)]
  }

  function RenderLines(mobile: string -> bool, entries: seq<Entry>): seq<string> {
    if entries == [] then []
    else RenderLines(mobile, entries[..|entries| - 1]) + RenderEntry(mobile, entries[|entries| - 1])
  }

  method RenderDotenv(entries: seq<Entry>) returns (text: string)
    ensures text == Join(RenderLines(IsMobileFileKey, entries), '\n')
  {
    var lines: seq<string> := [];
    for i := 0 to |entries|
      invariant lines == RenderLines(IsMobileFileKey, entries[..i])
    {
      assert entries[..i + 1][..i] == entries[..i];
      var key := entries[i].key;
      if entries[i].value.None? {
        continue;
      }
      var value := entries[i].value.value;
      if IsMobileFileKey(key) || value == [] {
        lines := lines + [key + ['='] + value];
        continue;
      }
      if NeedsQuotes(value) {
        lines := lines + [key + ['='] + (['"'] + Escape(value) + ['"'])];
      } else {
        lines := lines + [key + ['='] + value];
      }
    }
    assert entries[..|entries|] == entries;
    text := Join(lines, '\n');
  }

  function Reparsed(mobile: string -> bool, entries: seq<Entry>): map<string, string> {
    ParseLines(Split(Join(RenderLines(mobile, entries), '\n'), '\n'))
  }

  // The exact domain of the round trip.

  predicate DistinctKeys(entries: seq<Entry>) {
    forall i, j :: 0 <= i < j < |entries| ==> entries[i].key != entries[j].key
  }

  function Define(properties: map<string, string>, entry: Entry): map<string, string> {
    if entry.value.None? then properties else properties[entry.key := entry.value.value]
  }

  /** The object whose own entries these are, without the undefined ones. */
  function Defined(entries: seq<Entry>): map<string, string> {
    if entries == [] then map[]
    else Define(Defined(entries[..|entries| - 1]), entries[|entries| - 1])
  }

  predicate CleanKey(key: string) {
    && TrimStable(key) && '=' !in key && '\n' !in key && key != "__proto__"
    && (key != [] ==> key[0] != '#')
  }

  /** Unquoted text survives if trimming and unquoting leave it; quoted text if it holds no double quote. */
  predicate KeepsValue(mobile: bool, value: string) {
    if mobile then TrimStable(value) && !Wrapped(value)
    else if NeedsQuotes(value) then '"' !in value
    else TrimStable(value)
  }

  predicate RoundTrips(mobile: string -> bool, entry: Entry) {
    OneLine(entry) && (entry.value.Some? ==> KeepsValue(mobile(entry.key), entry.value.value))
  }

  function Reread(mobile: bool, value: string): string {
    Unquote(Trim(RenderValue(mobile, value)))
  }

  lemma QuotedReread(value: string)
    requires value != []
    ensures Unquote(Trim(['"'] + Escape(value) + ['"'])) == Escape(value)
  {
    var quoted := ['"'] + Escape(value) + ['"'];
    assert TrimStable(quoted);
    TrimFacts(quoted);
  }

  lemma UnquotedReread(value: string)
    ensures Unquote(Trim(value)) == value <==> TrimStable(value) && !Wrapped(value)
  {
    TrimFacts(value);
  }

  lemma RereadIsIdentityIff(mobile: bool, value: string)
    ensures Reread(mobile, value) == value <==> KeepsValue(mobile, value)
  {
    if !mobile && value != [] && NeedsQuotes(value) {
      QuotedReread(value);
    } else {
      UnquotedReread(value);
    }
  }

  /** A rendered entry parses back to its key and the reread value. */
  lemma RenderedLineParses(key: string, rendered: string)
    requires CleanKey(key)
    ensures ParseLine(key + ['='] + rendered) == Some(Assignment(key, Unquote(Trim(rendered))))
  {
    TrimRendered(key, rendered);
    ParseRendered(key, TrimEnd(rendered));
    TrimFacts(rendered);
  }

  lemma TrimRendered(key: string, rendered: string)
    requires CleanKey(key)
    ensures Trim(key + ['='] + rendered) == key + ['='] + TrimEnd(rendered)
  {
    TrimEndKeepsFront(key + ['='], rendered);
  }

  lemma ParseRendered(key: string, value: string)
    requires CleanKey(key)
    ensures ParseTrimmed(key + ['='] + value) == Some(Assignment(key, Unquote(Trim(value))))
  {
    var line := key + ['='] + value;
    IndexOfFirst(key, '=', value);
    assert line[..|key|] == key && line[|key| + 1..] == value;
    TrimFacts(key);
  }

  /** Whatever the text, parsing yields only clean keys and values without a newline. */
  lemma {:induction false} ParsedIsClean(lines: seq<string>, key: string)
    requires forall i :: 0 <= i < |lines| ==> '\n' !in lines[i]
    requires key in ParseLines(lines)
    ensures CleanKey(key) && '\n' !in ParseLines(lines)[key]
  {
    var last := |lines| - 1;
    var a := ParseLine(lines[last]);
    if a.Some? && a.value.key == key && key != "__proto__" {
      TrimFacts(lines[last]);
      ParsedLineIsClean(Trim(lines[last]));
    } else {
      ParsedIsClean(lines[..last], key);
    }
  }

  lemma ParsedLineIsClean(line: string)
    requires TrimStable(line) && '\n' !in line && ParseTrimmed(line).Some?
    requires ParseTrimmed(line).value.key != "__proto__"
    ensures CleanKey(ParseTrimmed(line).value.key) && '\n' !in ParseTrimmed(line).value.value
  {
    var index := IndexOf(line, '=');
    IndexOfIsFirst(line, '=');
    TrimFacts(line[..index]);
    TrimFacts(line[index + 1..]);
    if index > 0 {
      TrimKeepsHead(line[..index]);
    }
    UnquoteAddsNothing(Trim(line[index + 1..]));
  }

  lemma UnquoteAddsNothing(value: string)
    ensures forall c :: c in Unquote(value) ==> c in value
  {
  }

  predicate OneLine(entry: Entry) {
    entry.value.Some? ==> CleanKey(entry.key) && '\n' !in entry.value.value
  }

  predicate OneLineEach(entries: seq<Entry>) {
    forall i :: 0 <= i < |entries| ==> OneLine(entries[i])
  }

  function RereadEntry(mobile: string -> bool, entry: Entry): (reread: Entry)
    ensures reread.key == entry.key && (reread.value.Some? <==> entry.value.Some?)
  {
    if entry.value.None? then entry
    else Entry(entry.key, Some(Reread(mobile(entry.key), entry.value.value)))
  }

  function RereadEntries(mobile: string -> bool, entries: seq<Entry>): seq<Entry> {
    seq(|entries|, i requires 0 <= i < |entries| => RereadEntry(mobile, entries[i]))
  }

  lemma {:induction false} LinesParseToReread(mobile: string -> bool, entries: seq<Entry>)
    requires OneLineEach(entries)
    ensures ParseLines(RenderLines(mobile, entries)) == Defined(RereadEntries(mobile, entries))
  {
    if entries != [] {
      var before, last := entries[..|entries| - 1], entries[|entries| - 1];
      LinesParseToReread(mobile, before);
      assert RereadEntries(mobile, entries)[..|entries| - 1] == RereadEntries(mobile, before);
      LastLineParses(mobile, RenderLines(mobile, before), last);
    }
  }

  lemma LastLineParses(mobile: string -> bool, before: seq<string>, last: Entry)
    requires OneLine(last)
    ensures ParseLines(before + RenderEntry(mobile, last)) == Define(ParseLines(before), RereadEntry(mobile, last))
  {
    if last.value.Some? {
      var rendered := RenderValue(mobile(last.key), last.value.value);
      RenderedLineParses(last.key, rendered);
      var line := last.key + ['='] + rendered;
      assert (before + [line])[..|before|] == before;
    } else {
      assert before + RenderEntry(mobile, last) == before;
    }
  }

  lemma {:induction false} RenderedLinesHaveNoNewline(mobile: string -> bool, entries: seq<Entry>, i: nat)
    requires OneLineEach(entries) && i < |RenderLines(mobile, entries)|
    ensures '\n' !in RenderLines(mobile, entries)[i]
  {
    if i < |RenderLines(mobile, entries[..|entries| - 1])| {
      RenderedLinesHaveNoNewline(mobile, entries[..|entries| - 1], i);
    }
  }

  lemma ReparsedIsReread(mobile: string -> bool, entries: seq<Entry>)
    requires OneLineEach(entries)
    ensures Reparsed(mobile, entries) == Defined(RereadEntries(mobile, entries))
  {
    LinesParseToReread(mobile, entries);
    var lines := RenderLines(mobile, entries);
    if lines != [] {
      forall i | 0 <= i < |lines| ensures '\n' !in lines[i] {
        RenderedLinesHaveNoNewline(mobile, entries, i);
      }
      SplitJoin(lines, '\n');
    } else {
      var blank: seq<string> := [""];
      assert blank[..0] == [] && ParseLines(blank) == map[];
    }
  }

  lemma {:induction false} DefinedAt(entries: seq<Entry>, i: nat)
    requires DistinctKeys(entries) && i < |entries| && entries[i].value.Some?
    ensures entries[i].key in Defined(entries) && Defined(entries)[entries[i].key] == entries[i].value.value
  {
    if i < |entries| - 1 {
      DefinedAt(entries[..|entries| - 1], i);
    }
  }

  lemma RereadEntryIsSameIff(mobile: string -> bool, entry: Entry)
    requires OneLine(entry)
    ensures RereadEntry(mobile, entry) == entry <==> RoundTrips(mobile, entry)
  {
    if entry.value.Some? {
      RereadIsIdentityIff(mobile(entry.key), entry.value.value);
    }
  }

  lemma RoundTripsInDomain(mobile: string -> bool, entries: seq<Entry>)
    requires forall i :: 0 <= i < |entries| ==> RoundTrips(mobile, entries[i])
    ensures Reparsed(mobile, entries) == Defined(entries)
  {
    assert OneLineEach(entries) && RereadEntries(mobile, entries) == entries by {
      forall i | 0 <= i < |entries| ensures OneLine(entries[i]) && RereadEntry(mobile, entries[i]) == entries[i] {
        SameWhenItRoundTrips(mobile, entries[i]);
      }
    }
    ReparsedIsReread(mobile, entries);
  }

  lemma SameWhenItRoundTrips(mobile: string -> bool, entry: Entry)
    requires RoundTrips(mobile, entry)
    ensures OneLine(entry) && RereadEntry(mobile, entry) == entry
  {
    RereadEntryIsSameIff(mobile, entry);
  }

  /** Equal objects with the same keys come from equal entries. */
  lemma SameDefinedSameEntry(entries: seq<Entry>, reread: seq<Entry>, i: nat)
    requires DistinctKeys(entries) && |reread| == |entries| && i < |entries|
    requires forall j :: 0 <= j < |entries| ==>
                           reread[j].key == entries[j].key && (reread[j].value.Some? <==> entries[j].value.Some?)
    requires Defined(reread) == Defined(entries)
    ensures reread[i] == entries[i]
  {
    if entries[i].value.Some? {
      DefinedAt(entries, i);
      DefinedAt(reread, i);
    }
  }

  lemma RoundTrippedIsOneLine(mobile: string -> bool, entries: seq<Entry>, i: nat)
    requires DistinctKeys(entries) && Reparsed(mobile, entries) == Defined(entries) && i < |entries|
    ensures OneLine(entries[i])
  {
    if entries[i].value.Some? {
      DefinedAt(entries, i);
      SplitParts(Join(RenderLines(mobile, entries), '\n'), '\n');
      ParsedIsClean(Split(Join(RenderLines(mobile, entries), '\n'), '\n'), entries[i].key);
    }
  }

  /**
   Parsing undoes rendering if and only if every defined entry is in the domain, whatever keys are
   taken for mobile files.
   */
  lemma RoundTripIff(mobile: string -> bool, entries: seq<Entry>)
    requires DistinctKeys(entries)
    ensures Reparsed(mobile, entries) == Defined(entries) <==>
            forall i :: 0 <= i < |entries| ==> RoundTrips(mobile, entries[i])
  {
    if forall i :: 0 <= i < |entries| ==> RoundTrips(mobile, entries[i]) {
      RoundTripsInDomain(mobile, entries);
    }
    if Reparsed(mobile, entries) == Defined(entries) {
      forall i | 0 <= i < |entries| ensures RoundTrips(mobile, entries[i]) {
        RoundTrippedIsInDomain(mobile, entries, i);
      }
    }
  }

  lemma RoundTrippedIsInDomain(mobile: string -> bool, entries: seq<Entry>, i: nat)
    requires DistinctKeys(entries) && Reparsed(mobile, entries) == Defined(entries) && i < |entries|
    ensures RoundTrips(mobile, entries[i])
  {
    RoundTrippedIsOneLine(mobile, entries, i);
    RoundTrippedIsSame(mobile, entries, i);
    RereadEntryIsSameIff(mobile, entries[i]);
  }

  lemma RoundTrippedIsSame(mobile: string -> bool, entries: seq<Entry>, i: nat)
    requires DistinctKeys(entries) && Reparsed(mobile, entries) == Defined(entries) && i < |entries|
    ensures RereadEntry(mobile, entries[i]) == entries[i]
  {
    assert OneLineEach(entries) by {
      forall j | 0 <= j < |entries| ensures OneLine(entries[j]) {
        RoundTrippedIsOneLine(mobile, entries, j);
      }
    }
    ReparsedIsReread(mobile, entries);
    SameDefinedSameEntry(entries, RereadEntries(mobile, entries), i);
  }

  /** A value that is one double quote comes back changed, under any key. */
  lemma DoubleQuoteIsLost(mobile: string -> bool, key: string)
    ensures Reparsed(mobile, [Entry(key, Some("\""))]) != Defined([Entry(key, Some("\""))])
  {
    var entries := [Entry(key, Some("\""))];
    assert Wrapped("\"") && '"' in "\"";
    assert !RoundTrips(mobile, entries[0]);
    RoundTripIff(mobile, entries);
  }

  // What the parser reads, told by the text alone.

  /** How a value is written in a file. */
  datatype Style = Bare | SingleQuoted | DoubleQuoted

  function Styled(style: Style, value: string): string {
    match style
    case Bare => value
    case SingleQuoted => ['\''] + value + ['\'']
    case DoubleQuoted => ['"'] + value + ['"']
  }

  /** A bare value is trimmed, and does not both start and end with the same quote character. */
  predicate Writable(style: Style, value: string) {
    style == Bare ==>
      && TrimStable(value)
      && (value != [] ==>
            && !(value[0] == '"' && value[|value| - 1] == '"')
            && !(value[0] == '\'' && value[|value| - 1] == '\''))
  }

  /** A line of a file: an assignment with space where space may stand, or a line that says nothing. */
  datatype Line =
    | Assigning(before: string, key: string, afterKey: string, beforeValue: string, style: Style, value: string,
                after: string)
    | Saying(raw: string)

  function Written(line: Line): string {
    match line
    case Assigning(before, key, afterKey, beforeValue, style, value, after) =>
      before + key + afterKey + ['='] + (beforeValue + Styled(style, value) + after)
    case Saying(raw) => raw
  }

  /** Nothing is said by a blank line, a comment, and a line without an equals sign. */
  predicate SaysNothing(raw: string) {
    AllSpace(raw) || '=' !in raw || exists n :: 0 <= n < |raw| && AllSpace(raw[..n]) && raw[n] == '#'
  }

  predicate Proper(line: Line) {
    && '\n' !in Written(line)
    && match line {
         case Assigning(before, key, afterKey, beforeValue, style, value, after) =>
           && AllSpace(before) && AllSpace(afterKey) && AllSpace(beforeValue) && AllSpace(after)
           && CleanKey(key) && (key == [] ==> afterKey == []) && Writable(style, value)
         case Saying(raw) => SaysNothing(raw)
       }
  }

  lemma StyledUnquotes(style: Style, value: string)
    requires Writable(style, value)
    ensures TrimStable(Styled(style, value)) && Unquote(Styled(style, value)) == value
  {
    var styled := Styled(style, value);
    if style != Bare {
      assert styled[1..|styled| - 1] == value;
    }
  }

  lemma AssigningParses(line: Line)
    requires line.Assigning? && Proper(line)
    ensures ParseLine(Written(line)) == Some(Assignment(line.key, line.value))
  {
    PaddedParses(line.before, line.key, line.afterKey, line.beforeValue, line.style, line.value, line.after);
  }

  lemma PaddedParses(before: string, key: string, afterKey: string, beforeValue: string, style: Style, value: string,
                     after: string)
    requires AllSpace(before) && AllSpace(afterKey) && AllSpace(beforeValue) && AllSpace(after)
    requires CleanKey(key) && (key == [] ==> afterKey == []) && Writable(style, value)
    ensures ParseLine(before + key + afterKey + ['='] + (beforeValue + Styled(style, value) + after))
            == Some(Assignment(key, value))
  {
    var name, tail := key + afterKey, beforeValue + Styled(style, value) + after;
    assert before + key + afterKey + ['='] + tail == before + name + ['='] + tail;
    NameStarts(key, afterKey);
    TrimNamed(before, name, tail);
    NamedParses(key, afterKey, TrimEnd(tail));
    TailParses(beforeValue, style, value, after);
  }

  lemma NameStarts(key: string, space: string)
    requires CleanKey(key) && (key == [] ==> space == [])
    ensures key + space == [] || !IsSpace((key + space)[0])
  {
  }

  lemma TrimNamed(space: string, name: string, tail: string)
    requires AllSpace(space) && (name == [] || !IsSpace(name[0]))
    ensures Trim(space + name + ['='] + tail) == name + ['='] + TrimEnd(tail)
  {
    var core := name + ['='];
    assert core[0] == (if name == [] then '=' else name[0]);
    assert space + name + ['='] + tail == space + core + tail;
    TrimCore(space, core, tail);
  }

  lemma TrimCore(space: string, core: string, tail: string)
    requires AllSpace(space) && core != [] && !IsSpace(core[0]) && !IsSpace(core[|core| - 1])
    ensures Trim(space + core + tail) == core + TrimEnd(tail)
  {
    var rest := TrimEnd(tail);
    JoinEnds(space, core, rest);
    TrimEndKeepsFront(space + core, tail);
    TrimStartTo(space, core + rest);
  }

  lemma JoinEnds(space: string, core: string, rest: string)
    requires core != []
    ensures (space + core)[|space + core| - 1] == core[|core| - 1] && (core + rest)[0] == core[0]
    ensures (space + core) + rest == space + (core + rest)
  {
  }

  lemma TrimStartTo(space: string, kept: string)
    requires AllSpace(space) && kept != [] && !IsSpace(kept[0])
    ensures TrimStart(space + kept) == kept
  {
    TrimStartSkips(space, kept);
  }

  lemma TailParses(before: string, style: Style, value: string, after: string)
    requires AllSpace(before) && AllSpace(after) && Writable(style, value)
    ensures Unquote(Trim(TrimEnd(before + Styled(style, value) + after))) == value
  {
    StyledUnquotes(style, value);
    TrimFacts(before + Styled(style, value) + after);
    TrimPadded(before, Styled(style, value), after);
  }

  lemma NamedParses(key: string, space: string, rest: string)
    requires CleanKey(key) && AllSpace(space)
    ensures ParseTrimmed(key + space + ['='] + rest) == Some(Assignment(key, Unquote(Trim(rest))))
  {
    var name := key + space;
    var line := name + ['='] + rest;
    IndexOfFirst(name, '=', rest);
    assert line[..|name|] == name && line[|name| + 1..] == rest;
    TrimPadded([], key, space);
    assert [] + key + space == name;
  }

  lemma SayingParses(raw: string)
    requires SaysNothing(raw)
    ensures ParseLine(raw) == None
  {
    if AllSpace(raw) {
      TrimPadded(raw, [], []);
      assert raw + [] + [] == raw;
    } else if '=' !in raw {
      NoEqualsParses(raw);
    } else {
      var n :| 0 <= n < |raw| && AllSpace(raw[..n]) && raw[n] == '#';
      assert raw == raw[..n] + ['#'] + raw[n + 1..];
      CommentParses(raw[..n], raw[n + 1..]);
    }
  }

  lemma NoEqualsParses(raw: string)
    requires '=' !in raw
    ensures ParseLine(raw) == None
  {
    TrimAddsNothing(raw);
    IndexOfIsFirst(Trim(raw), '=');
  }

  lemma CommentParses(space: string, comment: string)
    requires AllSpace(space)
    ensures ParseLine(space + ['#'] + comment) == None
  {
    var kept := ['#'] + TrimEnd(comment);
    TrimEndKeepsFront(space + ['#'], comment);
    assert space + ['#'] + TrimEnd(comment) == space + kept;
    TrimStartSkips(space, kept);
    assert kept[0] == '#' && !IsSpace('#');
  }

  /** What the lines say, later ones over earlier ones. */
  function Said(lines: seq<Line>): map<string, string> {
    if lines == [] then map[]
    else
      var before, last := Said(lines[..|lines| - 1]), lines[|lines| - 1];
      if last.Assigning? then before[last.key := last.value] else before
  }

  function WrittenLines(lines: seq<Line>): (written: seq<string>)
    ensures |written| == |lines|
  {
    seq(|lines|, i requires 0 <= i < |lines| => Written(lines[i]))
  }

  lemma {:induction false} LinesSay(lines: seq<Line>)
    requires forall i :: 0 <= i < |lines| ==> Proper(lines[i])
    ensures ParseLines(WrittenLines(lines)) == Said(lines)
  {
    if lines != [] {
      var n := |lines| - 1;
      LinesSay(lines[..n]);
      assert WrittenLines(lines)[..n] == WrittenLines(lines[..n]);
      if lines[n].Assigning? {
        AssigningParses(lines[n]);
      } else {
        SayingParses(lines[n].raw);
      }
    }
  }

  /** A whole file of such lines is read as what its lines say. */
  lemma FileSays(lines: seq<Line>)
    requires lines != [] && forall i :: 0 <= i < |lines| ==> Proper(lines[i])
    ensures ParseLines(Split(Join(WrittenLines(lines), '\n'), '\n')) == Said(lines)
  {
    var written := WrittenLines(lines);
    forall i | 0 <= i < |written| ensures '\n' !in written[i] {
      assert Proper(lines[i]);
    }
    SplitJoin(written, '\n');
    LinesSay(lines);
  }

  /** A pair of quotes goes, whichever it is; nothing inside is touched. */
  lemma QuotedParses(key: string, body: string)
    requires CleanKey(key) && '\n' !in body
    ensures ParseLine(key + ['='] + (['\''] + body + ['\''])) == Some(Assignment(key, body))
    ensures ParseLine(key + ['='] + (['"'] + body + ['"'])) == Some(Assignment(key, body))
  {
    PlainLineParses(key, SingleQuoted, body);
    PlainLineParses(key, DoubleQuoted, body);
  }

  lemma PlainLineParses(key: string, style: Style, value: string)
    requires CleanKey(key) && '\n' !in value && Writable(style, value)
    ensures ParseLine(key + ['='] + Styled(style, value)) == Some(Assignment(key, value))
  {
    var line := Assigning([], key, [], [], style, value, []);
    assert [] + Styled(style, value) + [] == Styled(style, value) && [] + key + [] == key;
    assert Written(line) == key + ['='] + Styled(style, value);
    AssigningParses(line);
  }

  // Escaping and mobile files.

  /** The parts with a backslash and a double quote between them. */
  function JoinEscaped(parts: seq<string>): string {
    if parts == [] then []
    else if |parts| == 1 then parts[0]
    else parts[0] + ['\\', '"'] + JoinEscaped(parts[1..])
  }

  /** Escaping puts a backslash before each double quote and changes nothing else. */
  lemma {:induction false} EscapeIsJoin(value: string)
    ensures Escape(value) == JoinEscaped(Split(value, '"'))
  {
    if value != [] {
      EscapeIsJoin(value[1..]);
      var rest := Split(value[1..], '"');
      if value[0] == '"' {
        assert Split(value, '"')[1..] == rest;
      } else {
        var parts := Split(value, '"');
        assert parts == [[value[0]] + rest[0]] + rest[1..];
        if |parts| > 1 {
          assert parts[1..] == rest[1..];
          assert [value[0]] + (rest[0] + ['\\', '"'] + JoinEscaped(rest[1..]))
                 == [value[0]] + rest[0] + ['\\', '"'] + JoinEscaped(rest[1..]);
        }
      }
    }
  }

  /** A value that is not a mobile file's stands in double quotes exactly if it holds one of five characters. */
  lemma RenderedIff(value: string)
    ensures RenderValue(true, value) == value
    ensures RenderValue(false, value)
            == if exists i :: 0 <= i < |value| && value[i] in " #\n\"'" then ['"'] + Escape(value) + ['"'] else value
  {
    assert NeedsQuotes(value) <==> exists i :: 0 <= i < |value| && value[i] in " #\n\"'";
  }

  // What the key of a mobile file is called.

  const MARKS := {"google-services", "googleservice-info", "keystore", "plist"}

  ghost predicate NamedAfterFile(key: string) {
    || key in {"GOOGLE_SERVICES_JSON", "GOOGLE_SERVICE_INFO_PLIST", "RELEASE_KEYSTORE"}
    || (exists before, mark :: key == before + mark && LowerAscii(mark) == "_base64")
    || (exists before, mark, after :: key == before + mark + after && LowerAscii(mark) in MARKS)
  }

  lemma LowerOfPart(s: string, i: nat, j: nat)
    requires i <= j <= |s|
    ensures LowerAscii(s)[i..j] == LowerAscii(s[i..j])
  {
  }

  lemma ContainsIff(key: string, part: string)
    ensures Contains(LowerAscii(key), part) <==>
            exists before, mark, after :: key == before + mark + after && LowerAscii(mark) == part
  {
    if Contains(LowerAscii(key), part) {
      var i :| 0 <= i <= |key| && OccursAt(LowerAscii(key), part, i);
      LowerOfPart(key, i, i + |part|);
      assert key == key[..i] + key[i..i + |part|] + key[i + |part|..];
    }
    if before, mark, after :| key == before + mark + after && LowerAscii(mark) == part {
      LowerOfPart(key, |before|, |before| + |mark|);
      assert key[|before|..|before| + |mark|] == mark;
      assert OccursAt(LowerAscii(key), part, |before|);
    }
  }

  lemma EndsWithIff(key: string, suffix: string)
    ensures EndsWith(LowerAscii(key), suffix) <==>
            exists before, mark :: key == before + mark && LowerAscii(mark) == suffix
  {
    if EndsWith(LowerAscii(key), suffix) {
      var i := |key| - |suffix|;
      LowerOfPart(key, i, |key|);
      assert key == key[..i] + key[i..] && key[i..] == key[i..|key|];
    }
    if before, mark :| key == before + mark && LowerAscii(mark) == suffix {
      LowerOfPart(key, |before|, |key|);
      assert key[|before|..|key|] == mark;
    }
  }

  /** The key of a mobile file is one of three, or told by how it ends or by what it holds, in any case. */
  lemma MobileFileKeyIff(key: string)
    ensures IsMobileFileKey(key) <==> NamedAfterFile(key)
  {
    EndsWithIff(key, "_base64");
    ContainsIff(key, "google-services");
    ContainsIff(key, "googleservice-info");
    ContainsIff(key, "keystore");
    ContainsIff(key, "plist");
  }
}
