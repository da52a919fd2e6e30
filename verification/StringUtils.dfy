/** The string helpers of the configuration parser: functions that say what a helper means,
    and the index loops that compute them. */
module StringUtils {
  import opened Basics

  predicate IsWhitespace(c: char)
  {
    c == ' ' || c == '\t' || c == '\r' || c == '\n'
  }

  predicate IsDigit(c: char)
  {
    '0' <= c <= '9'
  }

  predicate AllWhitespace(s: string)
  {
    forall c <- s :: IsWhitespace(c)
  }

  /** Neither end is whitespace. */
  predicate IsTrimmed(s: string)
  {
    s == [] || (!IsWhitespace(s[0]) && !IsWhitespace(s[|s| - 1]))
  }

  function TrimLeft(s: string): (r: string)
  {
    if s != [] && IsWhitespace(s[0]) then TrimLeft(s[1..]) else s
  }

  function TrimRight(s: string): (r: string)
  {
    if s != [] && IsWhitespace(s[|s| - 1]) then TrimRight(s[..|s| - 1]) else s
  }

  function Trim(s: string): (r: string)
  {
    TrimRight(TrimLeft(s))
  }

  /** The first occurrence of a character. */
  function Find(s: string, c: char): (r: Option<nat>)
    ensures r.Some? ==> r.value < |s| && s[r.value] == c && c !in s[..r.value]
    ensures r.None? ==> c !in s
  {
    if s == [] then None
    else if s[0] == c then Some(0)
    else match Find(s[1..], c)
         case None => None
         case Some(i) => assert s[..i + 1] == [s[0]] + s[1..][..i]; Some(i + 1)
  }

  /** A character found behind a part that does not hold it is found at that part's end. */
  lemma {:induction false} FindBehind(a: string, c: char, b: string)
    requires c !in a
    ensures Find(a + [c] + b, c) == Some(|a|)
  {
    var s := a + [c] + b;
    if a == [] {
      assert s[0] == c;
    } else {
      assert s[0] == a[0] && s[1..] == a[1..] + [c] + b;
      FindBehind(a[1..], c, b);
    }
  }

  // ---------------------------------------------------------------- laws of trimming

  lemma {:induction false} TrimLeftPad(a: string, s: string)
    requires AllWhitespace(a)
    ensures TrimLeft(a + s) == TrimLeft(s)
  {
    if a == [] {
      assert a + s == s;
    } else {
      assert (a + s)[1..] == a[1..] + s;
      TrimLeftPad(a[1..], s);
    }
  }

  lemma {:induction false} TrimRightPad(s: string, b: string)
    requires AllWhitespace(b)
    ensures TrimRight(s + b) == TrimRight(s)
  {
    if b == [] {
      assert s + b == s;
    } else {
      assert (s + b)[..|s + b| - 1] == s + b[..|b| - 1];
      TrimRightPad(s, b[..|b| - 1]);
    }
  }

  lemma {:induction false} TrimLeftSplits(s: string)
    ensures exists a :: AllWhitespace(a) && s == a + TrimLeft(s)
    ensures TrimLeft(s) == [] || !IsWhitespace(TrimLeft(s)[0])
  {
    if s != [] && IsWhitespace(s[0]) {
      TrimLeftSplits(s[1..]);
      var a :| AllWhitespace(a) && s[1..] == a + TrimLeft(s[1..]);
      assert AllWhitespace([s[0]] + a) && s == [s[0]] + a + TrimLeft(s);
    } else {
      assert AllWhitespace([]) && s == [] + TrimLeft(s);
    }
  }

  lemma {:induction false} TrimRightSplits(s: string)
    ensures exists b :: AllWhitespace(b) && s == TrimRight(s) + b
    ensures TrimRight(s) == [] || !IsWhitespace(TrimRight(s)[|TrimRight(s)| - 1])
  {
    if s != [] && IsWhitespace(s[|s| - 1]) {
      var init, last := s[..|s| - 1], s[|s| - 1];
      TrimRightSplits(init);
      var b :| AllWhitespace(b) && init == TrimRight(init) + b;
      assert AllWhitespace(b + [last]) && s == TrimRight(s) + (b + [last]);
    } else {
      assert AllWhitespace([]) && s == TrimRight(s) + [];
    }
  }

  /** Trimming takes whitespace off both ends and leaves a trimmed middle. */
  lemma TrimSplits(s: string)
    ensures IsTrimmed(Trim(s))
    ensures exists a, b :: AllWhitespace(a) && AllWhitespace(b) && s == a + Trim(s) + b
  {
    TrimLeftSplits(s);
    TrimRightSplits(TrimLeft(s));
    var a :| AllWhitespace(a) && s == a + TrimLeft(s);
    var b :| AllWhitespace(b) && TrimLeft(s) == Trim(s) + b;
    assert s == a + Trim(s) + b;
    if Trim(s) != [] {
      assert Trim(s)[0] == TrimLeft(s)[0];
    }
  }

  lemma AllWhitespaceTrims(a: string)
    requires AllWhitespace(a)
    ensures TrimLeft(a) == [] && Trim(a) == []
  {
    TrimLeftPad(a, []);
    assert a + [] == a;
  }

  /** And that middle is the only one: padding a trimmed string and trimming gives it back. */
  lemma TrimPadded(a: string, t: string, b: string)
    requires AllWhitespace(a) && AllWhitespace(b) && IsTrimmed(t)
    ensures Trim(a + t + b) == t
  {
    assert a + t + b == a + (t + b);
    TrimLeftPad(a, t + b);
    if t == [] {
      assert t + b == b;
      AllWhitespaceTrims(b);
    } else {
      assert (t + b)[0] == t[0];
      TrimRightPad(t, b);
    }
  }

  lemma TrimPadLeft(a: string, s: string)
    requires AllWhitespace(a)
    ensures Trim(a + s) == Trim(s)
  {
    TrimLeftPad(a, s);
  }

  lemma TrimPadRight(s: string, b: string)
    requires AllWhitespace(b)
    ensures Trim(s + b) == Trim(s)
  {
    TrimSplits(s);
    var p, q :| AllWhitespace(p) && AllWhitespace(q) && s == p + Trim(s) + q;
    assert s + b == p + Trim(s) + (q + b);
    TrimPadded(p, Trim(s), q + b);
  }

  lemma TrimLeftThenTrim(s: string)
    ensures Trim(TrimLeft(s)) == Trim(s)
  {
    TrimLeftSplits(s);
    var a :| AllWhitespace(a) && s == a + TrimLeft(s);
    TrimPadLeft(a, TrimLeft(s));
  }

  lemma TrimRightThenTrim(s: string)
    ensures Trim(TrimRight(s)) == Trim(s)
  {
    TrimRightSplits(s);
    var b :| AllWhitespace(b) && s == TrimRight(s) + b;
    TrimPadRight(TrimRight(s), b);
  }

  lemma TrimmedAround(l: string, c: char, r: string)
    requires !IsWhitespace(c) && (l == [] || !IsWhitespace(l[0])) && (r == [] || !IsWhitespace(r[|r| - 1]))
    ensures IsTrimmed(l + [c] + r)
  {
    var t := l + [c] + r;
    assert t[0] == if l == [] then c else l[0];
    assert t[|t| - 1] == if r == [] then c else r[|r| - 1];
  }

  /** Trimming around a character that is not whitespace. */
  lemma TrimAround(a: string, c: char, b: string)
    requires !IsWhitespace(c)
    ensures Trim(a + [c] + b) == TrimLeft(a) + [c] + TrimRight(b)
  {
    TrimLeftSplits(a);
    TrimRightSplits(b);
    var p :| AllWhitespace(p) && a == p + TrimLeft(a);
    var q :| AllWhitespace(q) && b == TrimRight(b) + q;
    var t := TrimLeft(a) + [c] + TrimRight(b);
    TrimmedAround(TrimLeft(a), c, TrimRight(b));
    Regroup(p, TrimLeft(a), c, TrimRight(b), q);
    TrimPadded(p, t, q);
  }

  lemma Regroup(p: string, l: string, c: char, r: string, q: string)
    ensures (p + l) + [c] + (r + q) == p + (l + [c] + r) + q
  {
  }

  // ---------------------------------------------------------------- the loops

  method TrimLeftLoop(s: string) returns (r: string)
    ensures r == TrimLeft(s)
  {
    var start := 0;
    while start < |s| && IsWhitespace(s[start])
      invariant 0 <= start <= |s|
      invariant TrimLeft(s[start..]) == TrimLeft(s)
    {
      assert s[start..][1..] == s[start + 1..];
      start := start + 1;
    }
    r := s[start..];
  }

  method TrimRightLoop(s: string) returns (r: string)
    ensures r == TrimRight(s)
  {
    var end := |s|;
    assert s[..end] == s;
    while end > 0 && IsWhitespace(s[end - 1])
      invariant 0 <= end <= |s|
      invariant TrimRight(s[..end]) == TrimRight(s)
    {
      assert s[..end][..end - 1] == s[..end - 1];
      end := end - 1;
    }
    r := s[..end];
  }

  method TrimLoop(s: string) returns (r: string)
    ensures r == Trim(s)
  {
    r := TrimLeftLoop(s);
    r := TrimRightLoop(r);
  }

  method FindLoop(s: string, c: char) returns (r: Option<nat>)
    ensures r == Find(s, c)
  {
    for i := 0 to |s|
      invariant c !in s[..i]
    {
      if s[i] == c {
        assert s == s[..i] + [c] + s[i + 1..];
        FindBehind(s[..i], c, s[i + 1..]);
        return Some(i);
      }
    }
    return None;
  }

  method EqualsLoop(a: string, b: string) returns (r: bool)
    ensures r <==> a == b
  {
    if |a| != |b| {
      return false;
    }
    for i := 0 to |a|
      invariant a[..i] == b[..i]
    {
      if a[i] != b[i] {
        return false;
      }
    }
    return true;
  }

  // ---------------------------------------------------------------- integers

  /** Undefined: an intermediate result left the 32-bit range. */
  datatype IntResult = NotAnInt | Int(value: int) | Undefined

  predicate AllDigits(s: string)
  {
    forall i | 0 <= i < |s| :: IsDigit(s[i])
  }

  /** The number a digit string denotes. */
  function Magnitude(s: string): nat
    requires AllDigits(s)
  {
    if s == [] then 0 else 10 * Magnitude(s[..|s| - 1]) + (s[|s| - 1] as int - '0' as int)
  }

  /** Decimal digits without leading zeros. */
  function Digits(n: nat): (s: string)
    ensures s != [] && AllDigits(s) && Magnitude(s) == n
  {
    var last := [('0' as int + n % 10) as char];
    assert last[..0] == [];
    if n < 10 then last
    else
      var s := Digits(n / 10) + last;
      assert s[..|s| - 1] == Digits(n / 10);
      s
  }

  function SignedDecimal(n: int): string
  {
    if n < 0 then "-" + Digits(-n) else Digits(n)
  }

  function Unsigned(s: string): string
  {
    if s != [] && (s[0] == '-' || s[0] == '+') then s[1..] else s
  }

  lemma {:induction false} MagnitudeGrows(s: string, i: nat)
    requires i <= |s| && AllDigits(s)
    ensures Magnitude(s[..i]) <= Magnitude(s)
  {
    if i < |s| {
      MagnitudeGrows(s[..|s| - 1], i);
      assert s[..|s| - 1][..i] == s[..i];
    } else {
      assert s[..i] == s;
    }
  }

  predicate TooBig(digits: string, i: nat)
    requires i <= |digits|
  {
    AllDigits(digits[..i]) && Magnitude(digits[..i]) > INT_MAX
  }

  /** What the digit loop gives. The accumulator is a 32-bit int, so the result is undefined
      exactly when some run of leading digits denotes more than 2147483647. */
  ghost function NumberOf(digits: string): IntResult
  {
    if exists i | 0 <= i <= |digits| :: TooBig(digits, i) then Undefined
    else if digits == [] || !AllDigits(digits) then NotAnInt
    else Int(Magnitude(digits))
  }

  /** What ParseInt gives: digits after an optional sign. "-2147483648" is already too much,
      because the sign is applied last. */
  ghost function IntOf(text: string): IntResult
  {
    var s := Trim(text);
    var r := NumberOf(Unsigned(s));
    if r.Int? && s != [] && s[0] == '-' then Int(-r.value) else r
  }

  method ParseDigits(digits: string) returns (r: IntResult)
    ensures r == NumberOf(digits)
  {
    var result := 0;
    for i := 0 to |digits|
      invariant AllDigits(digits[..i])
      invariant result == Magnitude(digits[..i]) <= INT_MAX
    {
      if !IsDigit(digits[i]) {
        NoOverflow(digits, i);
        return NotAnInt;
      }
      MagnitudeStep(digits, i);
      var next := result * 10 + (digits[i] as int - '0' as int);
      if next > INT_MAX {
        assert TooBig(digits, i + 1);
        return Undefined;
      }
      result := next;
    }
    assert digits[..|digits|] == digits;
    NoOverflow(digits, |digits|);
    return if digits == [] then NotAnInt else Int(result);
  }

  lemma MagnitudeStep(s: string, i: nat)
    requires i < |s| && AllDigits(s[..i]) && IsDigit(s[i])
    ensures AllDigits(s[..i + 1])
    ensures Magnitude(s[..i + 1]) == 10 * Magnitude(s[..i]) + (s[i] as int - '0' as int)
  {
    assert s[..i + 1][..i] == s[..i];
  }

  method ParseInt(text: string) returns (r: IntResult)
    ensures r == IntOf(text)
  {
    var str := TrimLoop(text);
    if str == [] {
      NoOverflow([], 0);
      return NotAnInt;
    }
    var negative, start := false, 0;
    if str[0] == '-' {
      negative, start := true, 1;
    } else if str[0] == '+' {
      start := 1;
    }
    assert Unsigned(str) == str[start..];
    if start >= |str| {
      NoOverflow([], 0);
      return NotAnInt;
    }
    r := ParseDigits(str[start..]);
    if negative && r.Int? {
      r := Int(-r.value);
    }
  }

  /** The prefixes before `k` are digits within range, and nothing longer is all digits. */
  lemma NoOverflow(s: string, k: nat)
    requires k <= |s| && AllDigits(s[..k]) && Magnitude(s[..k]) <= INT_MAX
    requires k < |s| ==> !IsDigit(s[k])
    ensures !exists i | 0 <= i <= |s| :: TooBig(s, i)
    ensures k < |s| ==> !AllDigits(s)
  {
    forall i | 0 <= i <= |s| && AllDigits(s[..i]) ensures Magnitude(s[..i]) <= INT_MAX {
      if k < i {
        NotAllDigits(s, i, k);
      } else {
        MagnitudeGrows(s[..k], i);
        assert s[..k][..i] == s[..i];
      }
    }
  }

  lemma NotAllDigits(s: string, i: nat, k: nat)
    requires k < i <= |s| && !IsDigit(s[k])
    ensures !AllDigits(s[..i])
  {
    assert s[..i][k] == s[k];
  }

  /** Parsing inverts signed decimal text exactly up to a magnitude of 2147483647. */
  lemma ParseIntInverts(n: int)
    ensures IntOf(SignedDecimal(n)) == if -2147483647 <= n <= 2147483647 then Int(n) else Undefined
  {
    SignedDecimalTrimmed(n);
    var digits := Digits(if n < 0 then -n else n);
    assert digits[..|digits|] == digits;
    if -INT_MAX <= n <= INT_MAX {
      NoOverflow(digits, |digits|);
    } else {
      assert TooBig(digits, |digits|);
    }
  }

  /** A text is read as a number if and only if, trimmed and without one leading sign, it is a
      nonempty string of decimal digits that denotes at most 2147483647. */
  lemma ReadsExactly(text: string)
    ensures var digits := Unsigned(Trim(text));
      IntOf(text).Int? <==>
        digits != [] && (forall c <- digits :: c in "0123456789") && Denotes(digits) <= 2147483647
    ensures IntOf(text).Int? ==>
      var digits := Unsigned(Trim(text));
      IntOf(text).value == if Trim(text)[0] == '-' then -Denotes(digits) else Denotes(digits)
  {
    var digits := Unsigned(Trim(text));
    DigitCharacters(digits);
    if AllDigits(digits) {
      DenotesMagnitude(digits);
      assert digits[..|digits|] == digits;
      if Magnitude(digits) <= INT_MAX {
        NoOverflow(digits, |digits|);
      } else {
        assert TooBig(digits, |digits|);
      }
    }
  }

  /** The number a string of decimal digits denotes: the last digit counts once, the one before
      it ten times, and so on. */
  function Denotes(s: string): int
  {
    if s == [] then 0 else 10 * Denotes(s[..|s| - 1]) + DigitValue(s[|s| - 1])
  }

  function DigitValue(c: char): int
  {
    match c
    case '1' => 1
    case '2' => 2
    case '3' => 3
    case '4' => 4
    case '5' => 5
    case '6' => 6
    case '7' => 7
    case '8' => 8
    case '9' => 9
    case _ => 0
  }

  lemma DigitCharacters(s: string)
    ensures AllDigits(s) <==> forall c <- s :: c in "0123456789"
  {
    forall c: char
      ensures IsDigit(c) <==> c in "0123456789"
    {
      OneDigit(c);
    }
  }

  lemma OneDigit(c: char)
    ensures IsDigit(c) <==> c in "0123456789"
    ensures IsDigit(c) ==> DigitValue(c) == c as int - '0' as int
  {
  }

  lemma {:induction false} DenotesMagnitude(s: string)
    requires AllDigits(s)
    ensures Denotes(s) == Magnitude(s)
  {
    if s != [] {
      OneDigit(s[|s| - 1]);
      DenotesMagnitude(s[..|s| - 1]);
    }
  }

  /** Trimming takes blanks, tabs, carriage returns and newlines off both ends, and no others. */
  lemma TrimContents(s: string) returns (i: nat, j: nat)
    ensures i <= j <= |s| && Trim(s) == s[i..j]
    ensures forall k | 0 <= k < i || j <= k < |s| :: s[k] in " \t\r\n"
    ensures i < j ==> s[i] !in " \t\r\n" && s[j - 1] !in " \t\r\n"
  {
    TrimSplits(s);
    var a, b :| AllWhitespace(a) && AllWhitespace(b) && s == a + Trim(s) + b;
    i, j := |a|, |a| + |Trim(s)|;
    forall c: char
      ensures IsWhitespace(c) <==> c in " \t\r\n"
    {
      OneBlank(c);
    }
    forall k | 0 <= k < i || j <= k < |s|
      ensures s[k] in " \t\r\n"
    {
      assert k < i ==> s[k] == a[k] && a[k] in a;
      assert k >= j ==> s[k] == b[k - j] && b[k - j] in b;
    }
  }

  lemma OneBlank(c: char)
    ensures IsWhitespace(c) <==> c in " \t\r\n"
  {
  }

  lemma SignedDecimalTrimmed(n: int)
    ensures Trim(SignedDecimal(n)) == SignedDecimal(n)
    ensures Unsigned(SignedDecimal(n)) == Digits(if n < 0 then -n else n)
    ensures SignedDecimal(n)[0] == '-' <==> n < 0
  {
    var s := SignedDecimal(n);
    var d := Digits(if n < 0 then -n else n);
    assert IsDigit(d[0]) && IsDigit(d[|d| - 1]);
    assert s[|s| - 1] == d[|d| - 1];
    TrimPadded([], s, []);
    assert [] + s + [] == s;
    if n < 0 {
      assert s[1..] == d;
    }
  }
}
