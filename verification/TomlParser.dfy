/** The two TOML parsers: what a text means, the growing runtime parser, and the compile-time
    parser with its fixed table. */
module TomlParser {
  import opened Basics
  import opened StringUtils

  datatype ValueType = String | Integer | Boolean

  datatype Entry = Entry(section: string, key: string, value: string, ioType: ValueType)

  // ---------------------------------------------------------------- what one line means

  function ParseSection(line: string): string
  {
    if |line| < 3 || line[0] != '[' then ""
    else match Find(line, ']')
         case None => ""
         case Some(close) => Trim(line[1..close])
  }

  function TypeOf(value: string): ValueType
  {
    if value == "true" || value == "false" then Boolean
    else if value != [] && (IsDigit(value[0]) || value[0] == '-' || value[0] == '+') then Integer
    else String
  }

  /** Drop an inline comment. */
  function Uncommented(value: string): string
  {
    match Find(value, '#')
    case None => value
    case Some(i) => Trim(value[..i])
  }

  function ParseKeyValue(line: string, section: string): Option<Entry>
  {
    match Find(line, '=')
    case None => None
    case Some(eq) =>
      var value := Uncommented(Trim(line[eq + 1..]));
      Some(Entry(section, Trim(line[..eq]), value, TypeOf(value)))
  }

  /** What one trimmed line does: the section it leaves and the entries it adds. */
  datatype Effect = Effect(section: string, entries: seq<Entry>)

  function LineEffect(line: string, section: string): Effect
  {
    if line == [] || line[0] == '#' then Effect(section, [])
    else if line[0] == '[' then Effect(ParseSection(line), [])
    else match ParseKeyValue(line, section)
         case None => Effect(section, [])
         case Some(e) => Effect(section, [e])
  }

  // ---------------------------------------------------------------- what a text means

  /** The lines of a text, without their newlines; a final newline ends the last line. */
  function Lines(s: string): seq<string>
    decreases |s|
  {
    if s == [] then []
    else match Find(s, '\n')
         case None => [s]
         case Some(i) => [s[..i]] + Lines(s[i + 1..])
  }

  function StripCr(line: string): string
  {
    if line != [] && line[|line| - 1] == '\r' then line[..|line| - 1] else line
  }

  function ParseLines(lines: seq<string>, section: string): seq<Entry>
  {
    if lines == [] then []
    else
      var e := LineEffect(Trim(StripCr(lines[0])), section);
      e.entries + ParseLines(lines[1..], e.section)
  }

  function Parse(content: string): seq<Entry>
  {
    ParseLines(Lines(content), "")
  }

  // ---------------------------------------------------------------- the loops

  /** What is left of the text from position `i` on; one past the end means nothing. */
  function From(content: string, i: nat): string
  {
    if i <= |content| then content[i..] else []
  }

  /** The line that starts at `a` ends at `b`: at a newline or at the end of the text. */
  predicate LineSpan(content: string, a: nat, b: nat)
  {
    && a < |content| && a <= b <= |content|
    && (forall i | a <= i < b :: content[i] != '\n')
    && (b < |content| ==> content[b] == '\n')
  }

  method FindLineEnd(content: string, lineStart: nat) returns (lineEnd: nat)
    requires lineStart < |content|
    ensures LineSpan(content, lineStart, lineEnd)
  {
    lineEnd := lineStart;
    while lineEnd < |content| && content[lineEnd] != '\n'
      invariant lineStart <= lineEnd <= |content|
      invariant forall i | lineStart <= i < lineEnd :: content[i] != '\n'
    {
      lineEnd := lineEnd + 1;
    }
  }

  lemma FirstLine(content: string, a: nat, b: nat)
    requires LineSpan(content, a, b)
    ensures Lines(From(content, a)) == [content[a..b]] + Lines(From(content, b + 1))
  {
    var line := content[a..b];
    if b < |content| {
      SpanSplits(content, a, b);
      FirstOfLines(line, content[b + 1..]);
    } else {
      assert content[a..] == line;
      LastOfLines(line);
    }
  }

  lemma SpanSplits(content: string, a: nat, b: nat)
    requires a <= b < |content| && content[b] == '\n'
    ensures content[a..] == content[a..b] + ['\n'] + content[b + 1..]
  {
  }

  lemma FirstOfLines(line: string, rest: string)
    requires '\n' !in line
    ensures Lines(line + ['\n'] + rest) == [line] + Lines(rest)
  {
    var s := line + ['\n'] + rest;
    FindBehind(line, '\n', rest);
    assert s[..|line|] == line && s[|line| + 1..] == rest;
  }

  lemma LastOfLines(line: string)
    requires line != [] && '\n' !in line
    ensures Lines(line) == [line]
  {
  }

  /** What the text from position `i` on means. */
  function ParseFrom(content: string, i: nat, section: string): seq<Entry>
  {
    ParseLines(Lines(From(content, i)), section)
  }

  lemma ParseFromEnds(content: string, i: nat, section: string)
    ensures ParseFrom(content, 0, "") == Parse(content)
    ensures i >= |content| ==> ParseFrom(content, i, section) == []
  {
    assert From(content, 0) == content;
  }

  /** `line` is the text at `i`, trimmed, and the next line starts at `next`: whatever the
      section, that line contributes its effect and the rest follows. */
  ghost predicate LineAt(content: string, i: nat, line: string, next: nat)
  {
    forall section: string :: Continues(content, i, section, LineEffect(line, section), next)
  }

  ghost predicate Continues(content: string, i: nat, section: string, e: Effect, next: nat)
  {
    ParseFrom(content, i, section) == e.entries + ParseFrom(content, next, e.section)
  }

  lemma ParseStep(content: string, a: nat, b: nat, line: string)
    requires LineSpan(content, a, b) && line == Trim(StripCr(content[a..b]))
    ensures LineAt(content, a, line, b + 1)
  {
    FirstLine(content, a, b);
    var rest := Lines(From(content, b + 1));
    forall section: string
      ensures Continues(content, a, section, LineEffect(line, section), b + 1)
    {
      UnfoldLine(content[a..b], rest, section);
    }
  }

  /** The text between two positions without a carriage return at its end. */
  function Cut(content: string, a: nat, b: nat): string
    requires a <= b <= |content|
  {
    if a < b && content[b - 1] == '\r' then content[a..b - 1] else content[a..b]
  }

  lemma CutStrips(content: string, a: nat, b: nat)
    requires a <= b <= |content|
    ensures Cut(content, a, b) == StripCr(content[a..b])
  {
  }

  lemma LineAtCut(content: string, a: nat, b: nat, text: string, line: string)
    requires LineSpan(content, a, b) && text == Cut(content, a, b) && line == Trim(text)
    ensures LineAt(content, a, line, b + 1)
  {
    CutStrips(content, a, b);
    ParseStep(content, a, b, line);
  }

  /** The next line, without its ending, and where the one behind it starts. */
  method NextCut(content: string, lineStart: nat) returns (text: string, next: nat)
    requires lineStart < |content|
    ensures next > 0 && LineSpan(content, lineStart, next - 1) && text == Cut(content, lineStart, next - 1)
  {
    var end := FindLineEnd(content, lineStart);
    var actualEnd := end;
    if actualEnd > lineStart && content[actualEnd - 1] == '\r' {
      actualEnd := actualEnd - 1;
    }
    text := content[lineStart..actualEnd];
    next := end + 1;
  }

  /** The inner loop of both parsers: the next line, cut and trimmed. */
  method NextLine(content: string, lineStart: nat) returns (line: string, next: nat)
    requires lineStart < |content|
    ensures lineStart < next <= |content| + 1
    ensures LineAt(content, lineStart, line, next)
  {
    var text;
    text, next := NextCut(content, lineStart);
    line := TrimLoop(text);
    LineAtCut(content, lineStart, next - 1, text, line);
  }

  /** One trimmed line in the runtime parser. */
  method RuntimeLine(line: string, currentSection: string) returns (section: string, entry: Option<Entry>)
    ensures LineEffect(line, currentSection) == Effect(section, AsSeq(entry))
  {
    section, entry := currentSection, None;
    if line != [] && line[0] != '#' {
      if line[0] == '[' {
        section := ParseSection(line);
      } else {
        entry := ParseKeyValue(line, currentSection);
      }
    }
  }

  function AsSeq(e: Option<Entry>): seq<Entry>
  {
    if e.Some? then [e.value] else []
  }

  /** One pass of the runtime parser's loop. */
  method NextRuntimeLine(content: string, lineStart: nat, currentSection: string)
    returns (next: nat, section: string, entry: Option<Entry>)
    requires lineStart < |content|
    ensures lineStart < next <= |content| + 1
    ensures Continues(content, lineStart, currentSection, Effect(section, AsSeq(entry)), next)
  {
    var line;
    line, next := NextLine(content, lineStart);
    section, entry := RuntimeLine(line, currentSection);
    ghost var e := LineEffect(line, currentSection);
    assert Continues(content, lineStart, currentSection, e, next);
  }

  /** The runtime parser: a vector that grows. */
  method ParseRuntime(content: string) returns (res: seq<Entry>)
    ensures res == Parse(content)
  {
    res := [];
    var currentSection := "";
    var lineStart := 0;
    ghost var todo := ParseFrom(content, 0, "");
    ParseFromEnds(content, 0, "");
    while lineStart < |content|
      invariant lineStart <= |content| + 1 && todo == ParseFrom(content, lineStart, currentSection)
      invariant res + todo == Parse(content)
      decreases |content| + 1 - lineStart
    {
      var next, section, entry := NextRuntimeLine(content, lineStart, currentSection);
      ghost var rest := ParseFrom(content, next, section);
      SeqStep(res, entry, rest);
      lineStart, currentSection, todo := next, section, rest;
      if entry.Some? {
        res := res + [entry.value];
      }
    }
    ParseFromEnds(content, lineStart, currentSection);
  }

  lemma SeqStep(res: seq<Entry>, e: Option<Entry>, rest: seq<Entry>)
    ensures res + (AsSeq(e) + rest) == res + AsSeq(e) + rest
    ensures res + AsSeq(None) == res
  {
  }

  lemma UnfoldLine(raw: string, rest: seq<string>, section: string)
    ensures var e := LineEffect(Trim(StripCr(raw)), section);
            ParseLines([raw] + rest, section) == e.entries + ParseLines(rest, e.section)
  {
    assert ([raw] + rest)[1..] == rest;
  }

  /** Only "true" and "false" are booleans, what starts with a digit or a sign is an integer,
      and anything else is a string. */
  lemma TypeCases(value: string)
    ensures TypeOf(value) == Boolean <==> value == "true" || value == "false"
    ensures TypeOf(value) == Integer <==> value != [] && value[0] in "0123456789-+"
    ensures TypeOf(value) == String <==>
      value != "true" && value != "false" && (value == [] || value[0] !in "0123456789-+")
  {
    if value != [] {
      OneDigit(value[0]);
    }
  }

  /** The first `n` elements, or all of them. */
  function Take<T>(n: nat, s: seq<T>): seq<T>
  {
    if n <= |s| then s[..n] else s
  }

  /** A table of fixed size. */
  class CompileTimeParseResult {
    const entries: array<Entry>
    var count: nat

    ghost predicate Valid()
      reads this
    {
      count <= entries.Length
    }

    function Contents(): seq<Entry>
      requires Valid()
      reads this, entries
    {
      entries[..count]
    }

    constructor (maxEntries: nat)
      ensures Valid() && fresh(entries) && entries.Length == maxEntries && Contents() == []
    {
      entries := new Entry[maxEntries](_ => Entry("", "", "", String));
      count := 0;
    }

    /** A full table refuses the entry and stays as it is. */
    method Add(entry: Entry) returns (ok: bool)
      requires Valid()
      modifies this, entries
      ensures Valid()
      ensures ok <==> old(count) < entries.Length
      ensures Contents() == Take(entries.Length, old(Contents()) + [entry])
    {
      if count >= entries.Length {
        return false;
      }
      entries[count] := entry;
      count := count + 1;
      return true;
    }
  }

  const MAX_ENTRIES: nat := 64

  method ParseSectionLoop(line: string) returns (section: string)
    ensures section == ParseSection(line)
  {
    if |line| < 3 {
      return "";
    }
    if line[0] != '[' {
      return "";
    }
    var closeBracket := FindLoop(line, ']');
    if closeBracket.None? {
      return "";
    }
    section := TrimLoop(line[1..closeBracket.value]);
  }

  method ParseKeyValueLoop(line: string, currentSection: string) returns (r: Option<Entry>)
    ensures r == ParseKeyValue(line, currentSection)
  {
    var eqPos := FindLoop(line, '=');
    if eqPos.None? {
      return None;
    }
    var key := TrimLoop(line[..eqPos.value]);
    var value := TrimLoop(line[eqPos.value + 1..]);
    var commentPos := FindLoop(value, '#');
    if commentPos.Some? {
      value := TrimLoop(value[..commentPos.value]);
    }
    var isTrue := EqualsLoop(value, "true");
    var isFalse := EqualsLoop(value, "false");
    var ioType := String;
    if isTrue || isFalse {
      ioType := Boolean;
    } else if value != [] && (IsDigit(value[0]) || value[0] == '-' || value[0] == '+') {
      ioType := Integer;
    }
    return Some(Entry(currentSection, key, value, ioType));
  }

  /** One trimmed line in the compile-time parser. */
  method CompileTimeLine(line: string, currentSection: string) returns (section: string, entry: Option<Entry>)
    ensures LineEffect(line, currentSection) == Effect(section, AsSeq(entry))
  {
    section, entry := currentSection, None;
    if line != [] && line[0] != '#' {
      if line[0] == '[' {
        section := ParseSectionLoop(line);
      } else {
        entry := ParseKeyValueLoop(line, currentSection);
      }
    }
  }

  /** One pass of the compile-time parser's loop. */
  method NextCompileTimeLine(content: string, lineStart: nat, currentSection: string)
    returns (next: nat, section: string, entry: Option<Entry>)
    requires lineStart < |content|
    ensures lineStart < next <= |content| + 1
    ensures Continues(content, lineStart, currentSection, Effect(section, AsSeq(entry)), next)
  {
    var line;
    line, next := NextLine(content, lineStart);
    section, entry := CompileTimeLine(line, currentSection);
    ghost var e := LineEffect(line, currentSection);
    assert Continues(content, lineStart, currentSection, e, next);
  }

  /** The compile-time parser keeps exactly the first `maxEntries` entries. */
  method ParseCompileTime(content: string, maxEntries: nat := MAX_ENTRIES) returns (res: CompileTimeParseResult)
    ensures fresh(res) && fresh(res.entries) && res.Valid() && res.entries.Length == maxEntries
    ensures res.Contents() == Take(maxEntries, Parse(content))
  {
    res := new CompileTimeParseResult(maxEntries);
    var currentSection := "";
    var lineStart := 0;
    ghost var all: seq<Entry>, todo := [], ParseFrom(content, 0, "");
    ParseFromEnds(content, 0, "");
    while lineStart < |content|
      invariant lineStart <= |content| + 1 && todo == ParseFrom(content, lineStart, currentSection)
      invariant fresh(res) && fresh(res.entries) && res.Valid() && res.entries.Length == maxEntries
      invariant all + todo == Parse(content)
      invariant res.Contents() == Take(maxEntries, all)
      decreases |content| + 1 - lineStart
    {
      var next, section, entry := NextCompileTimeLine(content, lineStart, currentSection);
      ghost var rest := ParseFrom(content, next, section);
      SeqStep(all, entry, rest);
      lineStart, currentSection, todo := next, section, rest;
      if entry.Some? {
        TakeSnoc(maxEntries, all, entry.value);
        var _ := res.Add(entry.value);
        all := all + [entry.value];
      }
    }
    ParseFromEnds(content, lineStart, currentSection);
  }

  /** The table the program compiles has 64 entries. */
  method ParseDefault(content: string) returns (res: CompileTimeParseResult)
    ensures fresh(res) && fresh(res.entries) && res.Valid() && res.entries.Length == 64
    ensures res.Contents() == Take(64, Parse(content))
  {
    res := ParseCompileTime(content);
  }

  lemma TakeSnoc(n: nat, s: seq<Entry>, e: Entry)
    ensures Take(n, s + [e]) == Take(n, Take(n, s) + [e])
  {
  }

  // ---------------------------------------------------------------- lookups

  /** Does "section.key", or a bare key outside every section, name this entry? */
  predicate MatchesFullKey(e: Entry, fullKey: string)
  {
    match Find(fullKey, '.')
    case None => e.section == "" && e.key == fullKey
    case Some(dot) => e.section == fullKey[..dot] && e.key == fullKey[dot + 1..]
  }

  method MatchesLoop(e: Entry, sec: string, k: string) returns (r: bool)
    ensures r <==> e.section == sec && e.key == k
  {
    if |e.section| != |sec| || |e.key| != |k| {
      return false;
    }
    var sameSection := EqualsLoop(e.section, sec);
    if !sameSection {
      return false;
    }
    r := EqualsLoop(e.key, k);
  }

  method MatchesFullKeyLoop(e: Entry, fullKey: string) returns (r: bool)
    ensures r <==> MatchesFullKey(e, fullKey)
  {
    var dot := FindLoop(fullKey, '.');
    if dot.None? {
      var bare := MatchesLoop(e, "", fullKey);
      return e.section == [] && bare;
    }
    r := MatchesLoop(e, fullKey[..dot.value], fullKey[dot.value + 1..]);
  }

  /** The first entry a key names: what every Find* lookup converts. */
  function Lookup(entries: seq<Entry>, fullKey: string): Option<Entry>
  {
    if entries == [] then None
    else if MatchesFullKey(entries[0], fullKey) then Some(entries[0])
    else Lookup(entries[1..], fullKey)
  }

  method LookupLoop(entries: seq<Entry>, fullKey: string) returns (r: Option<Entry>)
    ensures r == Lookup(entries, fullKey)
  {
    for i := 0 to |entries|
      invariant Lookup(entries, fullKey) == Lookup(entries[i..], fullKey)
    {
      assert entries[i..][1..] == entries[i + 1..];
      var found := MatchesFullKeyLoop(entries[i], fullKey);
      if found {
        return Some(entries[i]);
      }
    }
    return None;
  }

  lemma {:induction false} LookupMisses(entries: seq<Entry>, fullKey: string)
    ensures Lookup(entries, fullKey).None? <==> forall e <- entries :: !MatchesFullKey(e, fullKey)
  {
    if entries != [] {
      LookupMisses(entries[1..], fullKey);
      assert forall e <- entries :: e == entries[0] || e in entries[1..];
    }
  }

  lemma {:induction false} LookupAppend(a: seq<Entry>, b: seq<Entry>, fullKey: string)
    ensures Lookup(a + b, fullKey)
         == if Lookup(a, fullKey).Some? then Lookup(a, fullKey) else Lookup(b, fullKey)
  {
    if a == [] {
      assert a + b == b;
    } else {
      assert (a + b)[1..] == a[1..] + b;
      LookupAppend(a[1..], b, fullKey);
    }
  }

  /** For every text the two parsers agree on a lookup exactly when the key is in the table or
      in neither: the first match lies among the first `n` entries, or there is none. */
  lemma LookupsAgree(content: string, n: nat, fullKey: string)
    ensures Lookup(Take(n, Parse(content)), fullKey) == Lookup(Parse(content), fullKey)
       <==> (exists e <- Take(n, Parse(content)) :: MatchesFullKey(e, fullKey))
            || (forall e <- Parse(content) :: !MatchesFullKey(e, fullKey))
  {
    var all := Parse(content);
    var table := Take(n, all);
    assert all == table + all[|table|..];
    LookupAppend(table, all[|table|..], fullKey);
    LookupMisses(table, fullKey);
    LookupMisses(all, fullKey);
  }

  /** The first entry of a section with a key. */
  function FirstNamed(entries: seq<Entry>, section: string, key: string): Option<Entry>
  {
    if entries == [] then None
    else if entries[0].section == section && entries[0].key == key then Some(entries[0])
    else FirstNamed(entries[1..], section, key)
  }

  function FullKey(section: string, key: string): string
  {
    section + "." + key
  }

  lemma FullKeySplits(section: string, key: string)
    requires '.' !in section
    ensures var k := FullKey(section, key);
            Find(k, '.') == Some(|section|) && k[..|section|] == section && k[|section| + 1..] == key
  {
    FindBehind(section, '.', key);
  }

  lemma {:induction false} LookupIsFirst(entries: seq<Entry>, section: string, key: string)
    requires '.' !in section
    ensures Lookup(entries, FullKey(section, key)) == FirstNamed(entries, section, key)
  {
    if entries != [] {
      FullKeySplits(section, key);
      LookupIsFirst(entries[1..], section, key);
    }
  }

  lemma {:induction false} LookupGives(entries: seq<Entry>, fullKey: string)
    ensures Lookup(entries, fullKey).Some? ==> MatchesFullKey(Lookup(entries, fullKey).value, fullKey)
  {
    if entries != [] {
      LookupGives(entries[1..], fullKey);
    }
  }

  /** A key that names an entry says its section and its key, and the section has no dot. */
  lemma {:induction false} FoundIsFirst(entries: seq<Entry>, fullKey: string, e: Entry)
    requires Lookup(entries, fullKey) == Some(e)
    ensures '.' !in e.section && FirstNamed(entries, e.section, e.key) == Some(e)
  {
    LookupGives(entries, fullKey);
    if !MatchesFullKey(entries[0], fullKey) {
      FoundIsFirst(entries[1..], fullKey, e);
    }
  }

  /** An entry of any text is found by some key if and only if its section holds no dot and it
      is the first with its section and key: entries of a dotted table are never found. */
  lemma EntryFound(content: string, e: Entry)
    ensures (exists k :: Lookup(Parse(content), k) == Some(e))
       <==> '.' !in e.section && FirstNamed(Parse(content), e.section, e.key) == Some(e)
  {
    var all := Parse(content);
    if k :| Lookup(all, k) == Some(e) {
      FoundIsFirst(all, k, e);
    }
    if '.' !in e.section {
      LookupIsFirst(all, e.section, e.key);
    }
  }
}
