/** The format string interpreter: scanning of argument references with their modifiers, and the loop
    that consumes a template. The functions work on what is left of a string, the methods on an offset
    into it. */
module Formats {
  import opened Common

  // ----- numbers -------------------------------------------------------------------------

  predicate IsDigit(c: char) {
    '0' <= c <= '9'
  }

  /** How many digits come first. */
  function DigitRun(t: string): (n: nat)
    ensures n <= |t| && (forall i :: 0 <= i < n ==> IsDigit(t[i])) && (n < |t| ==> !IsDigit(t[n]))
  {
    if t == "" || !IsDigit(t[0]) then 0 else 1 + DigitRun(t[1..])
  }

  function DigitValue(c: char): int {
    c as int - '0' as int
  }

  function ValueOf(digits: string): int {
    if digits == "" then 0
    else ValueOf(digits[..|digits| - 1]) * 10 + DigitValue(digits[|digits| - 1])
  }

  predicate AllDigits(s: string) {
    forall i :: 0 <= i < |s| ==> IsDigit(s[i])
  }

  datatype Number = Number(value: int, sign: int, leadingZero: bool)

  function SignOf(t: string): int {
    if t != "" && t[0] == '-' then -1 else if t != "" && t[0] == '+' then 1 else 0
  }

  function AfterSign(t: string): (r: string)
    ensures |r| <= |t|
  {
    if SignOf(t) == 0 then t else t[1..]
  }

  /** The number after the sign, if there is a digit. */
  function Digits(t: string, sign: int): Option<Number> {
    var n := DigitRun(t);
    if n == 0 then None
    else Some(Number(if sign < 0 then -ValueOf(t[..n]) else ValueOf(t[..n]), sign, t[0] == '0'))
  }

  /** The number that t starts with: a sign if there is one, and digits. */
  function Scan(t: string): Option<Number> {
    Digits(AfterSign(t), SignOf(t))
  }

  function AfterNumber(t: string): (r: string)
    ensures |r| <= |t|
  {
    if Scan(t).None? then t else AfterSign(t)[DigitRun(AfterSign(t))..]
  }

  // ----- specifiers ----------------------------------------------------------------------

  datatype Base = Dec | Oct | Hex | UpperHex

  /** left, showpos and the base are stream flags; so are fixed and showpoint, which come with a precision,
      and showbase and boolalpha, which come together. */
  datatype Flags = Flags(left: bool, showpos: bool, base: Base, showbase: bool, width: int, precision: Option<int>,
                         fill: char)

  function NoFlags(): Flags {
    Flags(false, false, Dec, false, 0, None, ' ')
  }

  /** The flags so far and the rest of the string. */
  datatype Cursor = Cursor(flags: Flags, rest: string)

  function WidthFlags(f: Flags, number: Number): Flags {
    f.(left := number.sign == -1,
       showpos := number.sign == 1,
       fill := if number.leadingZero && number.sign != -1 then '0' else f.fill,
       width := if number.sign == -1 then -number.value else number.value)
  }

  function AfterWidth(c: Cursor): (r: Cursor)
    ensures |r.rest| <= |c.rest|
  {
    match Scan(c.rest)
    case None => c
    case Some(number) => Cursor(WidthFlags(c.flags, number), AfterNumber(c.rest))
  }

  function AfterPrecision(c: Cursor): (r: Cursor)
    ensures |r.rest| <= |c.rest|
  {
    if c.rest != "" && c.rest[0] == '.' then
      match Scan(c.rest[1..])
      case None => c
      case Some(number) => Cursor(c.flags.(precision := Some(number.value)), AfterNumber(c.rest[1..]))
    else c
  }

  function BaseAt(t: string): Base {
    if t == "" then Dec
    else if t[0] == 'x' then Hex
    else if t[0] == 'X' then UpperHex
    else if t[0] == 'o' then Oct
    else Dec
  }

  function AfterBase(c: Cursor): (r: Cursor)
    ensures |r.rest| <= |c.rest|
  {
    if BaseAt(c.rest) == Dec then c else Cursor(c.flags.(base := BaseAt(c.rest)), c.rest[1..])
  }

  function AfterBang(c: Cursor): (r: Cursor)
    ensures |r.rest| <= |c.rest|
  {
    if c.rest != "" && c.rest[0] == '!' then Cursor(c.flags.(showbase := true), c.rest[1..]) else c
  }

  function AfterModifiers(c: Cursor): (r: Cursor)
    ensures |r.rest| <= |c.rest|
  {
    AfterBang(AfterBase(AfterPrecision(AfterWidth(c))))
  }

  function AfterColon(t: string): (r: Cursor)
    ensures |r.rest| <= |t|
  {
    if t != "" && t[0] == ':' then AfterModifiers(Cursor(NoFlags(), t[1..])) else Cursor(NoFlags(), t)
  }

  /** What follows an opening brace: is it right, and what is the argument's number? */
  datatype Specifier = Specifier(ok: bool, argnum: Option<int>, flags: Flags, rest: string)

  function ReadSpecifier(t: string): (s: Specifier)
    ensures |s.rest| <= |t|
    ensures s.ok ==> s.argnum.Some?
  {
    Close(Scan(t), AfterColon(AfterNumber(t)))
  }

  function Close(number: Option<Number>, c: Cursor): (s: Specifier)
    ensures |s.rest| <= |c.rest|
    ensures s.ok ==> s.argnum.Some?
  {
    var argnum := if number.Some? then Some(number.value.value) else None;
    var closed := c.rest != "" && c.rest[0] == '>';
    Specifier(number.Some? && number.value.sign == 0 && closed, argnum, c.flags, if closed then c.rest[1..] else c.rest)
  }

  // ----- numbers that an int holds -------------------------------------------------------

  const INT_MAX: int := 0x7FFF_FFFF

  type Int = n: int | -INT_MAX - 1 <= n <= INT_MAX

  /** Scanning a number computes it in an int, whose overflow is undefined. */
  predicate NumberFits(t: string) {
    Scan(t).Some? ==> -INT_MAX <= Scan(t).value.value <= INT_MAX
  }

  predicate PrecisionFits(c: Cursor) {
    c.rest != "" && c.rest[0] == '.' ==> NumberFits(c.rest[1..])
  }

  predicate ColonFits(t: string) {
    t != "" && t[0] == ':' ==>
      var c := Cursor(NoFlags(), t[1..]);
      NumberFits(c.rest) && PrecisionFits(AfterWidth(c))
  }

  /** An int holds all the numbers that are scanned in a specifier. */
  predicate SpecifierFits(t: string) {
    NumberFits(t) && ColonFits(AfterNumber(t))
  }

  // ----- scanning, step by step ----------------------------------------------------------

  lemma ValueOfNext(str: string, start: nat, i: nat)
    requires start <= i < |str|
    ensures ValueOf(str[start..i + 1]) == ValueOf(str[start..i]) * 10 + DigitValue(str[i])
  {
    assert str[start..i + 1][..i - start] == str[start..i];
  }

  lemma DigitRunIs(t: string, n: nat)
    requires n <= |t| && (forall i :: 0 <= i < n ==> IsDigit(t[i])) && (n < |t| ==> !IsDigit(t[n]))
    ensures DigitRun(t) == n
  {
  }

  lemma {:induction false} ValueGrows(digits: string, n: nat)
    requires AllDigits(digits) && n <= |digits|
    ensures 0 <= ValueOf(digits[..n]) <= ValueOf(digits)
    decreases |digits|
  {
    if n == |digits| {
      assert digits[..n] == digits;
      if n > 0 {
        ValueGrows(digits[..n - 1], n - 1);
        assert digits[..n - 1][..n - 1] == digits[..n - 1];
      }
    } else {
      ValueGrows(digits[..|digits| - 1], n);
      assert digits[..|digits| - 1][..n] == digits[..n];
    }
  }

  /** No longer number is needed on the way to a number. */
  lemma PrefixValue(str: string, start: nat, i: nat, end: nat)
    requires start <= i <= end <= |str| && AllDigits(str[start..end])
    ensures 0 <= ValueOf(str[start..i]) <= ValueOf(str[start..end])
  {
    ValueGrows(str[start..end], i - start);
    assert str[start..end][..i - start] == str[start..i];
  }

  lemma DigitsEnd(str: string, start: nat) returns (end: nat)
    requires start <= |str|
    ensures start <= end <= |str| && end == start + DigitRun(str[start..])
    ensures forall i :: start <= i < end ==> IsDigit(str[i])
    ensures end < |str| ==> !IsDigit(str[end])
    ensures str[start..][..DigitRun(str[start..])] == str[start..end]
  {
    end := start + DigitRun(str[start..]);
    assert forall i :: start <= i < end ==> str[i] == str[start..][i - start];
  }

  /** The loop of scanNumber. */
  method ScanDigits(str: string, start: nat) returns (c: Int, i: nat)
    requires start <= |str| && ValueOf(str[start..][..DigitRun(str[start..])]) <= INT_MAX
    ensures i == start + DigitRun(str[start..]) && i <= |str|
    ensures 0 <= c == ValueOf(str[start..i])
  {
    c, i := 0, start;
    ghost var end := DigitsEnd(str, start);
    while i < |str| && IsDigit(str[i])
      invariant start <= i <= end
      invariant 0 <= c == ValueOf(str[start..i])
    {
      assert i < end;
      ValueOfNext(str, start, i);
      PrefixValue(str, start, i + 1, end);
      c := c * 10 + DigitValue(str[i]);
      i := i + 1;
    }
  }

  /** The start of scanNumber. */
  method ScanSign(str: string, offset: nat) returns (sign: int, leadingZero: bool, i: nat)
    requires offset <= |str|
    ensures offset <= i <= |str| && sign == SignOf(str[offset..]) && str[i..] == AfterSign(str[offset..])
    ensures leadingZero <==> i < |str| && str[i] == '0'
  {
    sign, leadingZero, i := 0, false, offset;
    if i < |str| {
      if str[i] == '-' {
        sign := -1;
        i := i + 1;
      } else if str[i] == '+' {
        sign := 1;
        i := i + 1;
      }
      if i < |str| && str[i] == '0' {
        leadingZero := true;
      }
    }
  }

  lemma DigitsFit(t: string)
    requires NumberFits(t)
    ensures var u := AfterSign(t); ValueOf(u[..DigitRun(u)]) <= INT_MAX
  {
  }

  /** scanNumber. The offset moves only past a number. */
  method ScanNumber(str: string, offset: nat) returns (number: Option<Number>, end: nat)
    requires offset <= |str| && NumberFits(str[offset..])
    ensures number == Scan(str[offset..])
    ensures offset <= end <= |str| && str[end..] == AfterNumber(str[offset..])
  {
    var sign, leadingZero, start := ScanSign(str, offset);
    DigitsFit(str[offset..]);
    var c, i := ScanDigits(str, start);
    assert str[start..][..i - start] == str[start..i];
    assert str[start..][i - start..] == str[i..];
    if sign < 0 {
      c := c * -1;
    }
    if i == start {
      return None, offset;
    }
    return Some(Number(c, sign, leadingZero)), i;
  }

  method ProcessWidth(str: string, start: nat, flags0: Flags) returns (flags: Flags, offset: nat)
    requires start <= |str| && NumberFits(str[start..]) && !flags0.left && !flags0.showpos
    ensures start <= offset <= |str| && Cursor(flags, str[offset..]) == AfterWidth(Cursor(flags0, str[start..]))
  {
    flags := flags0;
    var number;
    number, offset := ScanNumber(str, start);
    if number.Some? {
      var Number(val, sign, leadingZero) := number.value;
      if sign == -1 {
        val := val * -1;
        flags := flags.(left := true);
      } else if sign == 1 {
        flags := flags.(showpos := true);
      }
      if leadingZero && sign != -1 {
        flags := flags.(fill := '0');
      }
      flags := flags.(width := val);
    }
  }

  method ProcessPrecision(str: string, start: nat, flags0: Flags) returns (flags: Flags, offset: nat)
    requires start <= |str| && PrecisionFits(Cursor(flags0, str[start..]))
    ensures start <= offset <= |str| && Cursor(flags, str[offset..]) == AfterPrecision(Cursor(flags0, str[start..]))
  {
    flags, offset := flags0, start;
    if offset < |str| && str[offset] == '.' {
      assert str[start..][1..] == str[start + 1..];
      var number, j := ScanNumber(str, offset + 1);
      if number.Some? {
        flags := flags.(precision := Some(number.value.value));
        offset := j;
      }
    }
  }

  method ProcessBase(str: string, start: nat, flags0: Flags) returns (flags: Flags, offset: nat)
    requires start <= |str|
    ensures start <= offset <= |str| && Cursor(flags, str[offset..]) == AfterBase(Cursor(flags0, str[start..]))
  {
    flags, offset := flags0, start;
    if offset < |str| {
      assert str[start..][1..] == str[start + 1..];
      if str[offset] == 'x' {
        flags := flags.(base := Hex);
        offset := offset + 1;
      } else if str[offset] == 'X' {
        flags := flags.(base := UpperHex);
        offset := offset + 1;
      } else if str[offset] == 'o' {
        flags := flags.(base := Oct);
        offset := offset + 1;
      }
    }
  }

  method ProcessBang(str: string, start: nat, flags0: Flags) returns (flags: Flags, offset: nat)
    requires start <= |str|
    ensures start <= offset <= |str| && Cursor(flags, str[offset..]) == AfterBang(Cursor(flags0, str[start..]))
  {
    flags, offset := flags0, start;
    if offset < |str| && str[offset] == '!' {
      assert str[start..][1..] == str[start + 1..];
      flags := flags.(showbase := true);
      offset := offset + 1;
    }
  }

  /** The colon and the modifiers, if they are there. */
  method ProcessModifiers(str: string, start: nat) returns (flags: Flags, offset: nat)
    requires start <= |str| && ColonFits(str[start..])
    ensures start <= offset <= |str| && Cursor(flags, str[offset..]) == AfterColon(str[start..])
  {
    flags, offset := NoFlags(), start;
    if offset < |str| && str[offset] == ':' {
      assert str[start..][1..] == str[start + 1..];
      flags, offset := ProcessWidth(str, offset + 1, flags);
      flags, offset := ProcessPrecision(str, offset, flags);
      flags, offset := ProcessBase(str, offset, flags);
      flags, offset := ProcessBang(str, offset, flags);
    }
  }

  /** The checks of processFormatSpecifier: an unsigned number and the closing brace. */
  method ProcessBrace(str: string, start: nat, number: Option<Number>, flags: Flags)
    returns (ok: bool, offset: nat, argnum: Option<int>)
    requires start <= |str|
    ensures start <= offset <= |str| && (ok ==> argnum.Some?)
    ensures Specifier(ok, argnum, flags, str[offset..]) == Close(number, Cursor(flags, str[start..]))
  {
    ok, offset, argnum := true, start, None;
    if number.Some? {
      if number.value.sign != 0 {
        ok := false;
      }
      argnum := Some(number.value.value);
    } else {
      ok := false;
    }
    if offset < |str| && str[offset] == '>' {
      assert str[offset..][1..] == str[offset + 1..];
      offset := offset + 1;
    } else {
      ok := false;
    }
  }

  /** processFormatSpecifier, on the opening brace at start. */
  method ProcessFormatSpecifier(str: string, start: nat)
    returns (ok: bool, offset: nat, argnum: Option<int>, flags: Flags)
    requires start < |str| && str[start] == '<' && SpecifierFits(str[start + 1..])
    ensures start < offset <= |str| && (ok ==> argnum.Some?)
    ensures Specifier(ok, argnum, flags, str[offset..]) == ReadSpecifier(str[start + 1..])
  {
    var number;
    number, offset := ScanNumber(str, start + 1);
    flags, offset := ProcessModifiers(str, offset);
    ok, offset, argnum := ProcessBrace(str, offset, number, flags);
  }
}
