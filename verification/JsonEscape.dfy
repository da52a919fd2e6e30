/**
  Escaping of string values in the metrics report, and a reader of JSON strings after section 7
  of RFC 8259: what may stand unescaped, the eight two-character escapes, and `\u` escapes,
  singly or as surrogate pairs, decoded to UTF-8.
 */
module JsonEscape {
  import opened Basics
  import opened Framing

  const QUOTE: byte := 0x22
  const BACKSLASH: byte := 0x5C

  // ---------------------------------------------------------------- writing

  function HexDigit(d: int): (c: byte)
    requires 0 <= d < 16
  {
    if d < 10 then 0x30 + d else 0x61 + (d - 10)
  }

  /** One byte of the value as it appears in the report. */
  function EscapeByte(b: byte): Bytes
  {
    if b == BACKSLASH then [BACKSLASH, BACKSLASH]
    else if b == QUOTE then [BACKSLASH, QUOTE]
    else if b == 0x08 then [BACKSLASH, 0x62]
    else if b == 0x0C then [BACKSLASH, 0x66]
    else if b == 0x0A then [BACKSLASH, 0x6E]
    else if b == 0x0D then [BACKSLASH, 0x72]
    else if b == 0x09 then [BACKSLASH, 0x74]
    else if b < 0x20 then [BACKSLASH, 0x75, 0x30, 0x30, HexDigit(b / 16), HexDigit(b % 16)]
    else [b]
  }

  function Escape(value: Bytes): Bytes
  {
    if value == [] then [] else EscapeByte(value[0]) + Escape(value[1..])
  }

  lemma {:induction false} EscapeSnoc(value: Bytes, b: byte)
    ensures Escape(value + [b]) == Escape(value) + EscapeByte(b)
  {
    if value == [] {
      assert value + [b] == [b] && [b][1..] == [];
      assert Escape([]) == [];
    } else {
      assert (value + [b])[1..] == value[1..] + [b];
      EscapeSnoc(value[1..], b);
    }
  }

  /** The source's loop: one write per byte. */
  method EscapeLoop(value: Bytes) returns (text: Bytes)
    ensures text == Escape(value)
  {
    text := [];
    for i := 0 to |value|
      invariant text == Escape(value[..i])
    {
      EscapeSnoc(value[..i], value[i]);
      assert value[..i + 1] == value[..i] + [value[i]];
      text := text + EscapeByte(value[i]);
    }
    assert value[..|value|] == value;
  }

  // ---------------------------------------------------------------- reading

  /** One character of a string body, with the text behind it. */
  datatype Unit =
    | Malformed
    | Closing(rest: Bytes)
    | Char(utf8: Bytes, rest: Bytes)

  function HexValue(c: byte): Option<int>
  {
    if 0x30 <= c <= 0x39 then Some(c - 0x30)
    else if 0x41 <= c <= 0x46 then Some(c - 0x41 + 10)
    else if 0x61 <= c <= 0x66 then Some(c - 0x61 + 10)
    else None
  }

  /** The value of the four hexadecimal digits at the front. */
  function FourHex(text: Bytes): Option<int>
  {
    if |text| < 4 then None
    else
      match (HexValue(text[0]), HexValue(text[1]), HexValue(text[2]), HexValue(text[3]))
      case (Some(a), Some(b), Some(c), Some(d)) => Some(0x1000 * a + 0x100 * b + 0x10 * c + d)
      case _ => None
  }

  function Utf8(code: int): Bytes
    requires 0 <= code < 0x11_0000
  {
    if code < 0x80 then [code]
    else if code < 0x800 then [0xC0 + code / 0x40, 0x80 + code % 0x40]
    else if code < 0x1_0000 then [0xE0 + code / 0x1000, 0x80 + code / 0x40 % 0x40, 0x80 + code % 0x40]
    else [0xF0 + code / 0x4_0000, 0x80 + code / 0x1000 % 0x40, 0x80 + code / 0x40 % 0x40, 0x80 + code % 0x40]
  }

  function TwoCharEscape(c: byte): Option<byte>
  {
    if c == QUOTE || c == BACKSLASH || c == 0x2F then Some(c)
    else if c == 0x62 then Some(0x08)
    else if c == 0x66 then Some(0x0C)
    else if c == 0x6E then Some(0x0A)
    else if c == 0x72 then Some(0x0D)
    else if c == 0x74 then Some(0x09)
    else None
  }

  /** Behind a high surrogate another `\u` escape with a low one must follow. */
  function LowSurrogate(high: int, text: Bytes): Unit
    requires 0xD800 <= high < 0xDC00
  {
    if |text| < 6 || text[0] != BACKSLASH || text[1] != 0x75 then Malformed
    else
      match FourHex(text[2..])
      case None => Malformed
      case Some(low) =>
        if 0xDC00 <= low < 0xE000
        then Char(Utf8(0x1_0000 + (high - 0xD800) * 0x400 + (low - 0xDC00)), text[6..])
        else Malformed
  }

  function UnicodeEscape(text: Bytes): Unit
  {
    match FourHex(text)
    case None => Malformed
    case Some(code) =>
      if 0xD800 <= code < 0xDC00 then LowSurrogate(code, text[4..])
      else if 0 <= code < 0x1_0000 && !(0xDC00 <= code < 0xE000) then Char(Utf8(code), text[4..])
      else Malformed
  }

  function NextUnit(text: Bytes): (u: Unit)
    ensures u.Char? ==> |u.rest| < |text|
  {
    if text == [] || text[0] < 0x20 then Malformed
    else if text[0] == QUOTE then Closing(text[1..])
    else if text[0] != BACKSLASH then Char([text[0]], text[1..])
    else if |text| < 2 then Malformed
    else if text[1] == 0x75 then UnicodeEscape(text[2..])
    else if TwoCharEscape(text[1]).Some? then Char([TwoCharEscape(text[1]).value], text[2..])
    else Malformed
  }

  /** A string body up to and including its closing quote: the value and the text behind. */
  function ReadString(text: Bytes): Option<(Bytes, Bytes)>
    decreases |text|
  {
    match NextUnit(text)
    case Malformed => None
    case Closing(rest) => Some(([], rest))
    case Char(utf8, rest) =>
      match ReadString(rest)
      case None => None
      case Some((value, behind)) => Some((utf8 + value, behind))
  }

  // ---------------------------------------------------------------- escaping is invertible

  lemma HexReads(b: byte, behind: Bytes)
    requires b < 0x20
    ensures FourHex([0x30, 0x30, HexDigit(b / 16), HexDigit(b % 16)] + behind) == Some(b as int)
  {
  }

  /** A control byte without an escape of its own. */
  lemma ControlReads(b: byte, behind: Bytes)
    requires b < 0x20
    ensures NextUnit([BACKSLASH, 0x75, 0x30, 0x30, HexDigit(b / 16), HexDigit(b % 16)] + behind) == Char([b], behind)
  {
    var digits: Bytes := [0x30, 0x30, HexDigit(b / 16), HexDigit(b % 16)];
    var text: Bytes := [BACKSLASH, 0x75] + digits + behind;
    assert text == [BACKSLASH, 0x75, 0x30, 0x30, HexDigit(b / 16), HexDigit(b % 16)] + behind;
    assert text[2..] == digits + behind && (digits + behind)[4..] == behind;
    HexReads(b, behind);
  }

  lemma ShortReads(c: byte, behind: Bytes)
    requires TwoCharEscape(c).Some?
    ensures NextUnit([BACKSLASH, c] + behind) == Char([TwoCharEscape(c).value], behind)
  {
    assert ([BACKSLASH, c] + behind)[2..] == behind;
  }

  lemma PlainReads(b: byte, behind: Bytes)
    requires b >= 0x20 && b != QUOTE && b != BACKSLASH
    ensures NextUnit([b] + behind) == Char([b], behind)
  {
    assert ([b] + behind)[1..] == behind;
  }

  lemma EscapedByteReads(b: byte, behind: Bytes)
    ensures NextUnit(EscapeByte(b) + behind) == Char([b], behind)
  {
    var e := EscapeByte(b);
    if |e| == 6 {
      ControlReads(b, behind);
    } else if |e| == 2 {
      ShortReads(e[1], behind);
      assert e == [BACKSLASH, e[1]];
    } else {
      PlainReads(b, behind);
    }
  }

  lemma Regroup(a: Bytes, b: Bytes, c: Bytes, d: Bytes)
    ensures a + b + c + d == a + (b + c + d)
  {
  }

  /** Whatever text follows, a reader gets the value back and stops at the quote the writer
      put behind it: escaping is invertible and leaves no bare quote. */
  lemma {:induction false} EscapeRoundTrip(value: Bytes, behind: Bytes)
    ensures ReadString(Escape(value) + [QUOTE] + behind) == Some((value, behind))
  {
    var text := Escape(value) + [QUOTE] + behind;
    if value == [] {
      assert text == [QUOTE] + behind;
      assert text[1..] == behind;
    } else {
      var rest := Escape(value[1..]) + [QUOTE] + behind;
      Regroup(EscapeByte(value[0]), Escape(value[1..]), [QUOTE], behind);
      EscapedByteReads(value[0], rest);
      EscapeRoundTrip(value[1..], behind);
      assert [value[0]] + value[1..] == value;
    }
  }

  /** Exactly the control bytes, the quote and the backslash are escaped: seven of them by two
      characters, the other control bytes by six, with lower-case digits. */
  lemma EscapeForms(b: byte)
    ensures EscapeByte(b) == [b] <==> b >= 0x20 && b != QUOTE && b != BACKSLASH
    ensures |EscapeByte(b)| == 2 <==> b == QUOTE || b == BACKSLASH || b == 8 || b == 9 || b == 10 || b == 12 || b == 13
    ensures EscapeByte(b) != [b] && |EscapeByte(b)| != 2 ==>
      && |EscapeByte(b)| == 6
      && forall k | 2 <= k < 6 :: 0x30 <= EscapeByte(b)[k] <= 0x39 || 0x61 <= EscapeByte(b)[k] <= 0x66
  {
  }

  /** No control byte survives. */
  lemma {:induction false} EscapeIsPrintable(value: Bytes)
    ensures forall b <- Escape(value) :: b >= 0x20
  {
    if value != [] {
      EscapeIsPrintable(value[1..]);
    }
  }

  /** Different values never look the same in a report. */
  lemma EscapeInjective(a: Bytes, b: Bytes)
    requires Escape(a) == Escape(b)
    ensures a == b
  {
    EscapeRoundTrip(a, []);
    EscapeRoundTrip(b, []);
  }
}
