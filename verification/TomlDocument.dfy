/**
  Configuration files as their authors mean them: headers and pairs with any padding, comment
  and line ending around them. Writing one out and parsing the text gives back exactly the
  entries meant, so nothing but the names, keys and values matters.
 */
module TomlDocument {
  import opened Basics
  import opened StringUtils
  import opened TomlParser

  /** One physical line. `pad` fields are whitespace; `junk` after a header and the text of a
      comment are arbitrary. */
  datatype Line =
    | Blank(pad: string)
    | Comment(pad: string, text: string)
    | Header(pad: string, inner: string, junk: string)
    | Pair(left: string, right: string, comment: Option<string>)

  /** A line and its ending. */
  datatype Physical = Physical(line: Line, crlf: bool)

  function TextOf(line: Line): string
  {
    match line
    case Blank(pad) => pad
    case Comment(pad, text) => pad + "#" + text
    case Header(pad, inner, junk) => pad + "[" + (inner + "]" + junk)
    case Pair(left, right, None) => left + "=" + right
    case Pair(left, right, Some(text)) => left + "=" + (right + "#" + text)
  }

  function Render(doc: seq<Physical>): string
  {
    if doc == [] then []
    else TextOf(doc[0].line) + (if doc[0].crlf then "\r\n" else "\n") + Render(doc[1..])
  }

  /** A header's name is `inner` without padding, a pair's key and value are `left` and `right`
      without padding. The name holds no ']', the key no '=' and does not look like a comment
      or a header, the value no '#'; nothing holds a newline. */
  predicate WellFormed(line: Line)
  {
    && '\n' !in TextOf(line)
    && match line
       case Blank(pad) => AllWhitespace(pad)
       case Comment(pad, _) => AllWhitespace(pad)
       case Header(pad, inner, _) => AllWhitespace(pad) && ']' !in inner
       case Pair(left, right, _) =>
         && '=' !in left && '#' !in right
         && (Trim(left) != [] ==> Trim(left)[0] != '#' && Trim(left)[0] != '[')
  }

  predicate WellFormedDocument(doc: seq<Physical>)
  {
    forall p <- doc :: WellFormed(p.line)
  }

  /** What is left of a line when padding, comments and endings are taken away. */
  datatype Item = Section(name: string) | Setting(key: string, value: string)

  function ItemOf(line: Line): seq<Item>
  {
    match line
    case Blank(_) => []
    case Comment(_, _) => []
    case Header(_, inner, _) => [Section(Trim(inner))]
    case Pair(left, right, _) => [Setting(Trim(left), Trim(right))]
  }

  function Items(doc: seq<Physical>): seq<Item>
  {
    if doc == [] then [] else ItemOf(doc[0].line) + Items(doc[1..])
  }

  /** The entries a list of items means. */
  function Meaning(items: seq<Item>, section: string): seq<Entry>
  {
    if items == [] then []
    else match items[0]
         case Section(name) => Meaning(items[1..], name)
         case Setting(k, v) => [Entry(section, k, v, TypeOf(v))] + Meaning(items[1..], section)
  }

  // ---------------------------------------------------------------- one line

  lemma StripCrThenTrim(s: string)
    ensures Trim(StripCr(s)) == Trim(s)
  {
    if s != [] && s[|s| - 1] == '\r' {
      assert s == s[..|s| - 1] + "\r";
      TrimPadRight(s[..|s| - 1], "\r");
    }
  }

  lemma TrimLeftNonempty(s: string)
    ensures TrimLeft(s) != [] ==> Trim(s) != [] && Trim(s)[0] == TrimLeft(s)[0]
  {
    TrimLeftSplits(s);
    TrimRightSplits(TrimLeft(s));
    var b :| AllWhitespace(b) && TrimLeft(s) == Trim(s) + b;
    assert TrimLeft(s) != [] ==> !AllWhitespace(TrimLeft(s)) by {
      var t := TrimLeft(s);
      if t != [] { assert t[0] in t; }
    }
    assert Trim(s) == [] ==> TrimLeft(s) == b;
  }

  lemma TrimLeftKeepsOut(s: string, c: char)
    requires c !in s
    ensures c !in TrimLeft(s)
  {
    TrimLeftSplits(s);
  }

  lemma CommentLine(pad: string, text: string, section: string)
    requires AllWhitespace(pad)
    ensures LineEffect(Trim(pad + "#" + text), section) == Effect(section, [])
  {
    TrimAround(pad, '#', text);
    AllWhitespaceTrims(pad);
  }

  lemma HeaderLine(pad: string, inner: string, junk: string, section: string)
    requires AllWhitespace(pad) && ']' !in inner
    ensures LineEffect(Trim(pad + "[" + (inner + "]" + junk)), section) == Effect(Trim(inner), [])
  {
    var body := inner + "]" + junk;
    TrimAround(pad, '[', body);
    AllWhitespaceTrims(pad);
    var line := "[" + TrimRight(body);
    assert Trim(pad + "[" + body) == line;
    TrimRightKeeps(inner, ']', junk);
    var end := TrimRight(junk);
    assert line == ("[" + inner) + "]" + end;
    FindBehind("[" + inner, ']', end);
    assert line[1..1 + |inner|] == inner;
    if |line| < 3 {
      assert inner == [];
    }
  }

  lemma TrimRightKeeps(a: string, c: char, b: string)
    requires !IsWhitespace(c)
    ensures TrimRight(a + [c] + b) == a + [c] + TrimRight(b)
  {
    TrimRightSplits(b);
    var q :| AllWhitespace(q) && b == TrimRight(b) + q;
    var t := a + [c] + TrimRight(b);
    assert a + [c] + b == t + q;
    TrimRightPad(t, q);
    assert t[|t| - 1] == if TrimRight(b) == [] then c else TrimRight(b)[|TrimRight(b)| - 1];
  }

  /** A pair whose text right of '=' is `body`. */
  lemma PairLine(left: string, body: string, section: string)
    requires '=' !in left && (Trim(left) != [] ==> Trim(left)[0] != '#' && Trim(left)[0] != '[')
    ensures LineEffect(Trim(left + "=" + body), section)
         == Effect(section, [Entry(section, Trim(left), Uncommented(Trim(body)), TypeOf(Uncommented(Trim(body))))])
  {
    TrimAround(left, '=', body);
    var l, r := TrimLeft(left), TrimRight(body);
    var line := l + "=" + r;
    TrimLeftKeepsOut(left, '=');
    FindBehind(l, '=', r);
    assert line[..|l|] == l && line[|l| + 1..] == r;
    TrimLeftThenTrim(left);
    TrimRightThenTrim(body);
    TrimLeftNonempty(left);
    assert line[0] == if l == [] then '=' else l[0];
  }

  lemma ValueBeforeComment(right: string, text: string)
    requires '#' !in right
    ensures Uncommented(Trim(right + "#" + text)) == Trim(right)
  {
    TrimAround(right, '#', text);
    var l, r := TrimLeft(right), TrimRight(text);
    TrimLeftKeepsOut(right, '#');
    FindBehind(l, '#', r);
    assert (l + "#" + r)[..|l|] == l;
    TrimLeftThenTrim(right);
  }

  lemma ValueAlone(right: string)
    requires '#' !in right
    ensures Uncommented(Trim(right)) == Trim(right)
  {
    TrimSplits(right);
    var a, b :| AllWhitespace(a) && AllWhitespace(b) && right == a + Trim(right) + b;
    assert '#' !in Trim(right);
  }

  /** A well-formed line, with or without a carriage return, does what its item says. */
  lemma LineMeans(line: Line, raw: string, section: string)
    requires WellFormed(line) && (raw == TextOf(line) || raw == TextOf(line) + "\r")
    ensures var e := LineEffect(Trim(StripCr(raw)), section);
            forall rest: seq<Item> ::
              Meaning(ItemOf(line) + rest, section) == e.entries + Meaning(rest, e.section)
  {
    var text := TextOf(line);
    StripCrThenTrim(raw);
    TrimPadRight(text, "\r");
    assert Trim(StripCr(raw)) == Trim(text);
    match line {
      case Blank(pad) => AllWhitespaceTrims(pad);
      case Comment(pad, comment) => CommentLine(pad, comment, section);
      case Header(pad, inner, junk) => HeaderLine(pad, inner, junk, section);
      case Pair(left, right, None) =>
        PairLine(left, right, section);
        ValueAlone(right);
      case Pair(left, right, Some(comment)) =>
        PairLine(left, right + "#" + comment, section);
        ValueBeforeComment(right, comment);
    }
    forall rest: seq<Item>
      ensures var e := LineEffect(Trim(text), section);
              Meaning(ItemOf(line) + rest, section) == e.entries + Meaning(rest, e.section)
    {
      var items := ItemOf(line);
      if items == [] {
        assert items + rest == rest;
      } else {
        assert (items + rest)[0] == items[0] && (items + rest)[1..] == rest;
      }
    }
  }

  // ---------------------------------------------------------------- whole documents

  lemma RenderCons(doc: seq<Physical>, raw: string)
    requires doc != [] && WellFormed(doc[0].line)
    requires raw == TextOf(doc[0].line) + if doc[0].crlf then "\r" else ""
    ensures '\n' !in raw && Render(doc) == raw + "\n" + Render(doc[1..])
  {
    EndingSplits(TextOf(doc[0].line), Render(doc[1..]));
  }

  lemma EndingSplits(text: string, rest: string)
    ensures text + "\r\n" + rest == text + "\r" + "\n" + rest
    ensures text + "" == text
  {
    assert "\r\n" == "\r" + "\n";
  }

  lemma {:induction false} RenderMeans(doc: seq<Physical>, section: string)
    requires WellFormedDocument(doc)
    ensures ParseLines(Lines(Render(doc)), section) == Meaning(Items(doc), section)
  {
    if doc != [] {
      var p, rest := doc[0], Render(doc[1..]);
      var raw := TextOf(p.line) + if p.crlf then "\r" else "";
      RenderCons(doc, raw);
      FirstOfLines(raw, rest);
      var e := LineEffect(Trim(StripCr(raw)), section);
      UnfoldLine(raw, Lines(rest), section);
      LineMeans(p.line, raw, section);
      RenderMeans(doc[1..], e.section);
    }
  }

  /** Parsing what was written gives exactly the entries meant. */
  lemma ParseRender(doc: seq<Physical>)
    requires WellFormedDocument(doc)
    ensures Parse(Render(doc)) == Meaning(Items(doc), "")
  {
    RenderMeans(doc, "");
  }

  /** Blank lines, comments, padding and line endings change nothing. */
  lemma DecorationIsIrrelevant(a: seq<Physical>, b: seq<Physical>)
    requires WellFormedDocument(a) && WellFormedDocument(b) && Items(a) == Items(b)
    ensures Parse(Render(a)) == Parse(Render(b))
  {
    ParseRender(a);
    ParseRender(b);
  }

  /** For any text at all, a newline at the end changes nothing. */
  lemma {:induction false} FinalNewline(s: string, section: string)
    ensures ParseLines(Lines(s + "\n"), section) == ParseLines(Lines(s), section)
    decreases |s|
  {
    match Find(s, '\n')
    case None =>
      FindBehind(s, '\n', "");
      assert s + "\n" + "" == s + "\n" && (s + "\n")[..|s|] == s && (s + "\n")[|s| + 1..] == "";
      assert Lines(s + "\n") == [s];
      if s == [] {
        UnfoldLine("", [], section);
        assert [""] + [] == [s];
      }
    case Some(i) =>
      var head, rest := s[..i], s[i + 1..];
      assert s == head + "\n" + rest && s + "\n" == head + "\n" + (rest + "\n");
      FindBehind(head, '\n', rest);
      FindBehind(head, '\n', rest + "\n");
      assert (s + "\n")[..i] == head && (s + "\n")[i + 1..] == rest + "\n";
      UnfoldLine(head, Lines(rest), section);
      UnfoldLine(head, Lines(rest + "\n"), section);
      FinalNewline(rest, LineEffect(Trim(StripCr(head)), section).section);
  }

  // ---------------------------------------------------------------- canonical text

  /** The plain way to write an item. */
  function Canonical(item: Item): Physical
  {
    match item
    case Section(name) => Physical(Header("", name, ""), false)
    case Setting(k, v) => Physical(Pair(k + " ", " " + v, None), false)
  }

  predicate Writable(item: Item)
  {
    match item
    case Section(name) => IsTrimmed(name) && ']' !in name && '\n' !in name
    case Setting(k, v) =>
      && IsTrimmed(k) && '=' !in k && '\n' !in k && (k != [] ==> k[0] != '#' && k[0] != '[')
      && IsTrimmed(v) && '#' !in v && '\n' !in v
  }

  function CanonicalText(items: seq<Item>): seq<Physical>
  {
    if items == [] then [] else [Canonical(items[0])] + CanonicalText(items[1..])
  }

  lemma CanonicalSection(name: string)
    requires Writable(Section(name))
    ensures WellFormed(Header("", name, "")) && Trim(name) == name
  {
    TrimPadded("", name, "");
    assert "" + name + "" == name;
  }

  lemma CanonicalKey(k: string)
    requires Writable(Setting(k, ""))
    ensures Trim(k + " ") == k && '=' !in k + " " && '\n' !in k + " "
  {
    TrimPadded("", k, " ");
    assert "" + k + " " == k + " ";
  }

  lemma CanonicalValue(v: string)
    requires Writable(Setting("", v))
    ensures Trim(" " + v) == v && '#' !in " " + v && '\n' !in " " + v
  {
    TrimPadded(" ", v, "");
    assert " " + v + "" == " " + v;
  }

  lemma CanonicalLine(item: Item)
    requires Writable(item)
    ensures WellFormed(Canonical(item).line) && ItemOf(Canonical(item).line) == [item]
  {
    match item
    case Section(name) => CanonicalSection(name);
    case Setting(k, v) =>
      CanonicalKey(k);
      CanonicalValue(v);
  }

  lemma {:induction false} CanonicalDocument(items: seq<Item>)
    requires forall i <- items :: Writable(i)
    ensures WellFormedDocument(CanonicalText(items)) && Items(CanonicalText(items)) == items
  {
    if items != [] {
      CanonicalLine(items[0]);
      CanonicalDocument(items[1..]);
      var doc := CanonicalText(items);
      assert doc[1..] == CanonicalText(items[1..]);
      assert [items[0]] + items[1..] == items;
    }
  }

  // ---------------------------------------------------------------- what parsing can give

  lemma TrimKeepsOut(s: string, c: char)
    requires c !in s
    ensures c !in Trim(s)
  {
    TrimSplits(s);
    var a, b :| AllWhitespace(a) && AllWhitespace(b) && s == a + Trim(s) + b;
  }

  /** An entry some canonical text stands for. */
  predicate WritableEntry(e: Entry)
  {
    Writable(Section(e.section)) && Writable(Setting(e.key, e.value)) && e.ioType == TypeOf(e.value)
  }

  lemma NameIsWritable(line: string)
    requires '\n' !in line
    ensures Writable(Section(ParseSection(line)))
  {
    if |line| >= 3 && line[0] == '[' && Find(line, ']').Some? {
      var close := Find(line, ']').value;
      var inner := line[1..close];
      assert forall c <- inner :: c in line[..close];
      TrimSplits(inner);
      TrimKeepsOut(inner, ']');
      TrimKeepsOut(inner, '\n');
    }
  }

  lemma ValueIsWritable(rest: string)
    requires '\n' !in rest
    ensures var v := Uncommented(Trim(rest)); IsTrimmed(v) && '#' !in v && '\n' !in v
  {
    var t := Trim(rest);
    TrimSplits(rest);
    TrimKeepsOut(rest, '\n');
    if i :| Find(t, '#') == Some(i) {
      TrimSplits(t[..i]);
      TrimKeepsOut(t[..i], '#');
      TrimKeepsOut(t[..i], '\n');
    }
  }

  /** The part of a trimmed line before a character, when it is not empty, starts as the line. */
  lemma KeyStart(line: string, n: nat)
    requires IsTrimmed(line) && n <= |line| && Trim(line[..n]) != []
    ensures Trim(line[..n])[0] == line[0]
  {
    var s := line[..n];
    TrimSplits(s);
    var a, b :| AllWhitespace(a) && AllWhitespace(b) && s == a + Trim(s) + b;
    assert s[0] == line[0];
    assert a == [];
  }

  lemma KeyIsWritable(line: string, eq: nat)
    requires IsTrimmed(line) && line != [] && line[0] != '#' && line[0] != '['
    requires '\n' !in line && Find(line, '=') == Some(eq)
    ensures var k := Trim(line[..eq]);
            IsTrimmed(k) && '=' !in k && '\n' !in k && (k != [] ==> k[0] != '#' && k[0] != '[')
  {
    var s := line[..eq];
    TrimSplits(s);
    TrimKeepsOut(s, '=');
    TrimKeepsOut(s, '\n');
    if Trim(s) != [] {
      KeyStart(line, eq);
    }
  }

  lemma LineGivesWritable(line: string, section: string)
    requires IsTrimmed(line) && '\n' !in line && Writable(Section(section))
    ensures var e := LineEffect(line, section);
            Writable(Section(e.section)) && forall x <- e.entries :: WritableEntry(x)
  {
    if line != [] && line[0] != '#' {
      if line[0] == '[' {
        NameIsWritable(line);
      } else if eq :| Find(line, '=') == Some(eq) {
        KeyIsWritable(line, eq);
        ValueIsWritable(line[eq + 1..]);
      }
    }
  }

  lemma RawLineGivesWritable(raw: string, section: string)
    requires '\n' !in raw && Writable(Section(section))
    ensures var e := LineEffect(Trim(StripCr(raw)), section);
            Writable(Section(e.section)) && forall x <- e.entries :: WritableEntry(x)
  {
    var s := StripCr(raw);
    TrimSplits(s);
    TrimKeepsOut(s, '\n');
    LineGivesWritable(Trim(s), section);
  }

  lemma {:induction false} LinesGiveWritable(lines: seq<string>, section: string)
    requires (forall l <- lines :: '\n' !in l) && Writable(Section(section))
    ensures forall x <- ParseLines(lines, section) :: WritableEntry(x)
  {
    if lines != [] {
      RawLineGivesWritable(lines[0], section);
      LinesGiveWritable(lines[1..], LineEffect(Trim(StripCr(lines[0])), section).section);
    }
  }

  lemma {:induction false} LinesHoldNoNewline(s: string)
    ensures forall l <- Lines(s) :: '\n' !in l
    decreases |s|
  {
    if i :| Find(s, '\n') == Some(i) {
      LinesHoldNoNewline(s[i + 1..]);
    }
  }

  /** For every text whatever, every entry parsed is one that canonical text can stand for. */
  lemma ParsedIsWritable(text: string)
    ensures forall e <- Parse(text) :: WritableEntry(e)
  {
    LinesHoldNoNewline(text);
    LinesGiveWritable(Lines(text), "");
  }

  /** For every text, the type of every entry is decided by its value alone. */
  lemma EntryTypes(text: string)
    ensures forall e <- Parse(text) ::
      && (e.ioType == Boolean <==> e.value == "true" || e.value == "false")
      && (e.ioType == Integer <==> e.value != [] && e.value[0] in "0123456789-+")
  {
    ParsedIsWritable(text);
    forall e <- Parse(text)
      ensures e.ioType == Boolean <==> e.value == "true" || e.value == "false"
      ensures e.ioType == Integer <==> e.value != [] && e.value[0] in "0123456789-+"
    {
      assert WritableEntry(e);
      TypeCases(e.value);
    }
  }

  /** Every entry under a header of its own. */
  function Rewritten(entries: seq<Entry>): seq<Item>
  {
    if entries == [] then []
    else [Section(entries[0].section), Setting(entries[0].key, entries[0].value)] + Rewritten(entries[1..])
  }

  lemma MeaningCons(item: Item, rest: seq<Item>, section: string)
    ensures item.Section? ==> Meaning([item] + rest, section) == Meaning(rest, item.name)
    ensures item.Setting? ==>
      Meaning([item] + rest, section)
        == [Entry(section, item.key, item.value, TypeOf(item.value))] + Meaning(rest, section)
  {
    assert ([item] + rest)[1..] == rest;
  }

  lemma {:induction false} RewrittenMeans(entries: seq<Entry>, section: string)
    requires forall e <- entries :: WritableEntry(e)
    ensures Meaning(Rewritten(entries), section) == entries
    ensures forall i <- Rewritten(entries) :: Writable(i)
  {
    if entries != [] {
      var e, rest := entries[0], Rewritten(entries[1..]);
      RewrittenMeans(entries[1..], e.section);
      var tail := [Setting(e.key, e.value)] + rest;
      assert Rewritten(entries) == [Section(e.section)] + tail;
      MeaningCons(Section(e.section), tail, section);
      MeaningCons(Setting(e.key, e.value), rest, e.section);
      assert WritableEntry(e) && [e] + entries[1..] == entries;
    }
  }

  /** Parsing any text, writing the entries out and parsing again changes nothing. */
  lemma ParseIsStable(text: string)
    ensures Parse(Render(CanonicalText(Rewritten(Parse(text))))) == Parse(text)
  {
    ParsedIsWritable(text);
    RewrittenMeans(Parse(text), "");
    WritableRoundTrip(Rewritten(Parse(text)));
  }

  // ---------------------------------------------------------------- canonical round trips

  lemma WritableRoundTrip(items: seq<Item>)
    requires forall i <- items :: Writable(i)
    ensures Parse(Render(CanonicalText(items))) == Meaning(items, "")
  {
    CanonicalDocument(items);
    ParseRender(CanonicalText(items));
  }

  lemma {:induction false} MeaningHolds(items: seq<Item>, section: string, k: string, v: string)
    requires Setting(k, v) in items
    ensures exists e <- Meaning(items, section) :: e.key == k && e.value == v
  {
    if items[0] != Setting(k, v) {
      var next := if items[0].Section? then items[0].name else section;
      MeaningHolds(items[1..], next, k, v);
      var e :| e in Meaning(items[1..], next) && e.key == k && e.value == v;
      assert e in Meaning(items, section);
    } else {
      assert Entry(section, k, v, TypeOf(v)) in Meaning(items, section);
    }
  }

  // ---------------------------------------------------------------- which lists survive

  /** The text of one item and the lines it is read as. */
  function WrittenLines(item: Item): seq<string>
  {
    Lines(TextOf(Canonical(item).line) + "\n")
  }

  /** What the written list is read as when section `ps` is current. */
  function ReadBack(items: seq<Item>, ps: string): seq<Entry>
  {
    ParseLines(Lines(Render(CanonicalText(items))), ps)
  }

  function SectionAfter(lines: seq<string>, section: string): string
  {
    if lines == [] then section
    else SectionAfter(lines[1..], LineEffect(Trim(StripCr(lines[0])), section).section)
  }

  lemma JoinEntries(a: seq<Entry>, b: seq<Entry>, c: seq<Entry>)
    ensures a + (b + c) == a + b + c
  {
  }

  lemma HeadTail(x: seq<string>, y: seq<string>)
    requires x != []
    ensures (x + y)[0] == x[0] && (x + y)[1..] == x[1..] + y
  {
  }

  lemma {:induction false} ParseLinesAppend(x: seq<string>, y: seq<string>, section: string)
    ensures ParseLines(x + y, section) == ParseLines(x, section) + ParseLines(y, SectionAfter(x, section))
  {
    if x == [] {
      assert x + y == y;
    } else {
      var e := LineEffect(Trim(StripCr(x[0])), section);
      HeadTail(x, y);
      ParseLinesAppend(x[1..], y, e.section);
      JoinEntries(e.entries, ParseLines(x[1..], e.section), ParseLines(y, SectionAfter(x, section)));
    }
  }

  lemma Regrouped(h: string, t: string, b: string)
    ensures h + "\n" + t + "\n" + b == h + "\n" + (t + "\n" + b)
    ensures h + "\n" + t + "\n" == h + "\n" + (t + "\n")
  {
  }

  lemma {:induction false} LinesConcat(a: string, b: string)
    ensures Lines(a + "\n" + b) == Lines(a + "\n") + Lines(b)
    decreases |a|
  {
    if i :| Find(a, '\n') == Some(i) {
      var h, t := a[..i], a[i + 1..];
      assert a == h + "\n" + t;
      Regrouped(h, t, b);
      FirstOfLines(h, t + "\n" + b);
      FirstOfLines(h, t + "\n");
      LinesConcat(t, b);
    } else {
      FirstOfLines(a, b);
      FirstOfLines(a, "");
      assert a + "\n" + "" == a + "\n";
    }
  }

  lemma ReadBackCons(items: seq<Item>, ps: string)
    requires items != []
    ensures var lines := WrittenLines(items[0]);
            ReadBack(items, ps) == ParseLines(lines, ps) + ReadBack(items[1..], SectionAfter(lines, ps))
  {
    var text, rest := TextOf(Canonical(items[0]).line), Render(CanonicalText(items[1..]));
    assert CanonicalText(items)[1..] == CanonicalText(items[1..]);
    assert Render(CanonicalText(items)) == text + "\n" + rest;
    LinesConcat(text, rest);
    ParseLinesAppend(Lines(text + "\n"), Lines(rest), ps);
  }

  /** How many entries lines give does not depend on the section. */
  lemma {:induction false} SameCount(lines: seq<string>, s: string, t: string)
    ensures |ParseLines(lines, s)| == |ParseLines(lines, t)|
  {
    if lines != [] {
      var line := Trim(StripCr(lines[0]));
      SameCount(lines[1..], LineEffect(line, s).section, LineEffect(line, t).section);
    }
  }

  lemma WritableLine(item: Item, ps: string)
    requires Writable(item)
    ensures var e := LineEffect(Trim(TextOf(Canonical(item).line)), ps);
            && (item.Section? ==> e == Effect(item.name, []))
            && (item.Setting? ==> e == Effect(ps, [Entry(ps, item.key, item.value, TypeOf(item.value))]))
  {
    CanonicalLine(item);
    match item
    case Section(name) => HeaderLine("", name, "", ps);
    case Setting(k, v) =>
      PairLine(k + " ", " " + v, ps);
      ValueAlone(" " + v);
  }

  lemma WritableReads(item: Item, ps: string)
    requires Writable(item)
    ensures item.Section? ==>
              ParseLines(WrittenLines(item), ps) == [] && SectionAfter(WrittenLines(item), ps) == item.name
    ensures item.Setting? ==>
              && ParseLines(WrittenLines(item), ps) == [Entry(ps, item.key, item.value, TypeOf(item.value))]
              && SectionAfter(WrittenLines(item), ps) == ps
  {
    var text := TextOf(Canonical(item).line);
    CanonicalLine(item);
    FirstOfLines(text, "");
    assert text + "\n" + "" == text + "\n" && WrittenLines(item) == [text];
    StripCrThenTrim(text);
    WritableLine(item, ps);
    UnfoldLine(text, [], ps);
    assert [text] + [] == [text] && [text][1..] == [];
  }

  /** A header that is read as no entry, as every one without a newline is. */
  predicate Harmless(name: string)
  {
    ParseLines(WrittenLines(Section(name)), "") == []
  }

  /** Every setting is writable, so is every section directly before a setting, and every
      other section is harmless. */
  predicate Survives(items: seq<Item>)
  {
    items == [] ||
    (match items[0]
     case Setting(_, _) => Writable(items[0]) && Survives(items[1..])
     case Section(name) =>
       && (if |items| > 1 && items[1].Setting? then Writable(items[0]) else Harmless(name))
       && Survives(items[1..]))
  }

  lemma {:induction false} SurvivorsRead(items: seq<Item>, ps: string, ms: string)
    requires Survives(items) && (items != [] && items[0].Setting? ==> ps == ms)
    ensures ReadBack(items, ps) == Meaning(items, ms)
  {
    if items == [] {
      assert CanonicalText(items) == [] && Render([]) == [] && Lines([]) == [];
    } else {
      var head, tail := items[0], items[1..];
      var lines := WrittenLines(head);
      ReadBackCons(items, ps);
      if Writable(head) {
        WritableReads(head, ps);
      } else {
        SameCount(lines, ps, "");
      }
      SurvivorsRead(tail, SectionAfter(lines, ps), if head.Section? then head.name else ms);
    }
  }

  /** The list has as many settings as entries are meant. */
  lemma {:induction false} MeaningCount(items: seq<Item>, s: string, t: string)
    ensures |Meaning(items, s)| == |Meaning(items, t)|
  {
    if items != [] && items[0].Setting? {
      MeaningCount(items[1..], s, t);
    }
  }

  /** Writable settings are all read back, so any further entry comes from a section. */
  lemma {:induction false} OnlySectionsAdd(items: seq<Item>, ps: string, ms: string)
    requires forall i <- items | i.Setting? :: Writable(i)
    ensures |ReadBack(items, ps)| >= |Meaning(items, ms)|
    ensures |ReadBack(items, ps)| == |Meaning(items, ms)| ==> forall i <- items | i.Section? :: Harmless(i.name)
  {
    if items == [] {
      assert CanonicalText(items) == [] && Render([]) == [] && Lines([]) == [];
    } else {
      var head, tail := items[0], items[1..];
      var lines := WrittenLines(head);
      assert forall i <- items :: i == head || i in tail;
      ReadBackCons(items, ps);
      OnlySectionsAdd(tail, SectionAfter(lines, ps), if head.Section? then head.name else ms);
      if head.Setting? {
        assert Writable(head);
        WritableReads(head, ps);
      } else {
        SameCount(lines, ps, "");
      }
    }
  }

  /** A section directly before a setting appears in an entry. */
  lemma {:induction false} MeaningUnder(items: seq<Item>, section: string, j: nat)
    requires j + 1 < |items| && items[j].Section? && items[j + 1].Setting?
    ensures exists e <- Meaning(items, section) :: e.section == items[j].name
  {
    var next := if items[0].Section? then items[0].name else section;
    if j == 0 {
      var rest := items[1..];
      assert rest[0] == items[1];
      assert Entry(next, rest[0].key, rest[0].value, TypeOf(rest[0].value)) in Meaning(rest, next);
    } else {
      MeaningUnder(items[1..], next, j - 1);
      var e :| e in Meaning(items[1..], next) && e.section == items[j].name;
      assert e in Meaning(items, section);
    }
  }

  lemma {:induction false} SurvivesFrom(items: seq<Item>)
    requires forall i <- items | i.Setting? :: Writable(i)
    requires forall i <- items | i.Section? :: Harmless(i.name)
    requires forall j | 0 <= j < |items| - 1 && items[j].Section? && items[j + 1].Setting? :: Writable(items[j])
    ensures Survives(items)
  {
    if items != [] {
      var tail := items[1..];
      forall j | 0 <= j < |tail| - 1 && tail[j].Section? && tail[j + 1].Setting?
        ensures Writable(tail[j])
      {
        assert items[j + 1] == tail[j] && items[j + 2] == tail[j + 1];
      }
      SurvivesFrom(tail);
      assert items[0] in items;
    }
  }

  lemma MeantSettingsWritable(items: seq<Item>)
    requires forall e <- Meaning(items, "") :: WritableEntry(e)
    ensures forall i <- items | i.Setting? :: Writable(i)
  {
    forall i <- items | i.Setting?
      ensures Writable(i)
    {
      MeaningHolds(items, "", i.key, i.value);
    }
  }

  lemma MeantSectionsWritable(items: seq<Item>)
    requires forall e <- Meaning(items, "") :: WritableEntry(e)
    ensures forall j | 0 <= j < |items| - 1 && items[j].Section? && items[j + 1].Setting? :: Writable(items[j])
  {
    forall j | 0 <= j < |items| - 1 && items[j].Section? && items[j + 1].Setting?
      ensures Writable(items[j])
    {
      MeaningUnder(items, "", j);
    }
  }

  lemma ReadBackSurvives(items: seq<Item>)
    requires ReadBack(items, "") == Meaning(items, "")
    ensures Survives(items)
  {
    ParsedIsWritable(Render(CanonicalText(items)));
    MeantSettingsWritable(items);
    MeantSectionsWritable(items);
    OnlySectionsAdd(items, "", "");
    SurvivesFrom(items);
  }

  /** Text written from any list of sections and settings parses to exactly the entries meant
      if and only if every setting is writable, every section directly before a setting is,
      and every other section is harmless. */
  lemma CanonicalRoundTrip(items: seq<Item>)
    ensures Parse(Render(CanonicalText(items))) == Meaning(items, "") <==> Survives(items)
  {
    if Survives(items) {
      SurvivorsRead(items, "", "");
    }
    if ReadBack(items, "") == Meaning(items, "") {
      ReadBackSurvives(items);
    }
  }

  /** A header without a newline is always harmless. */
  lemma OneLineIsHarmless(name: string)
    requires '\n' !in name
    ensures Harmless(name)
  {
    var text := TextOf(Canonical(Section(name)).line);
    FirstOfLines(text, "");
    assert text + "\n" + "" == text + "\n" && WrittenLines(Section(name)) == [text];
    StripCrThenTrim(text);
    TrimAround("", '[', name + "]");
    assert text == "" + ['['] + (name + "]");
    AllWhitespaceTrims("");
    UnfoldLine(text, [], "");
    assert [text] + [] == [text];
  }

  /** A key and a value survive being written and read if and only if both are trimmed, the
      key holds no '=' and starts neither a comment nor a header, the value holds no '#', and
      neither holds a newline. */
  lemma SettingSurvives(k: string, v: string)
    ensures Parse(Render([Canonical(Setting(k, v))])) == [Entry("", k, v, TypeOf(v))] <==> Writable(Setting(k, v))
  {
    var items := [Setting(k, v)];
    assert CanonicalText(items[1..]) == [];
    assert CanonicalText(items) == [Canonical(Setting(k, v))];
    assert Meaning(items[1..], "") == [];
    assert Meaning(items, "") == [Entry("", k, v, TypeOf(v))];
    CanonicalRoundTrip(items);
    assert Survives(items[1..]);
  }

  /** A value is cut at its first '#', inside quotes or not. */
  lemma HashCutsValue(k: string, a: string, b: string)
    requires Writable(Setting(k, "")) && '#' !in a && '\n' !in a && '\n' !in b
    ensures Parse(Render([Canonical(Setting(k, a + "#" + b))])) == [Entry("", k, Trim(a), TypeOf(Trim(a)))]
  {
    var commented := Physical(Pair(k + " ", " " + a, Some(b)), false);
    SameText(k, a, b);
    CommentedPair(k, a, b);
    ParseRender([commented]);
    assert Items([commented]) == [Setting(k, Trim(a))] + Items([]);
    MeaningCons(Setting(k, Trim(a)), [], "");
  }

  lemma CommentedPair(k: string, a: string, b: string)
    requires Writable(Setting(k, "")) && '#' !in a && '\n' !in a && '\n' !in b
    ensures var line := Pair(k + " ", " " + a, Some(b));
            WellFormed(line) && ItemOf(line) == [Setting(k, Trim(a))]
  {
    TrimPadded("", k, " ");
    assert "" + k + " " == k + " ";
    TrimPadLeft(" ", a);
  }

  lemma SameText(k: string, a: string, b: string)
    ensures Render([Canonical(Setting(k, a + "#" + b))]) == Render([Physical(Pair(k + " ", " " + a, Some(b)), false)])
  {
    assert " " + (a + "#" + b) == " " + a + "#" + b;
    assert TextOf(Pair(k + " ", " " + (a + "#" + b), None)) == TextOf(Pair(k + " ", " " + a, Some(b)));
  }

  /** The setting color = "#fff" loses everything behind its opening quote. */
  lemma QuotedHashIsCut() returns (k: string, v: string, quote: string)
    ensures k == "color" && v == "\"#fff\"" && quote == "\""
    ensures Parse(Render([Canonical(Setting(k, v))])) == [Entry("", k, quote, String)]
  {
    k, v, quote := "color", "\"#fff\"", "\"";
    var rest := "fff\"";
    assert v == quote + "#" + rest;
    HashCutsValue(k, quote, rest);
    TrimPadded("", quote, "");
    assert "" + quote + "" == quote;
  }
}
