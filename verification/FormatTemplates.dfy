/** Templates as lists of literal characters and argument references. A template is written out without
    an error exactly if it is the printing of such a list, and then the output is the list's pieces. */
module FormatTemplates {
  import opened Common
  import opened Formats
  import opened FormatLoop

  /** A sign, or 0 for none, and digits. */
  datatype Numeral = Numeral(sign: int, digits: string)

  datatype Modifiers = Modifiers(width: Option<Numeral>, precision: Option<Numeral>, base: Base, showbase: bool)

  datatype Item =
    | Literal(c: char)
    | Short(d: char)                                         // %d
    | Braced(digits: string, modifiers: Option<Modifiers>)   // %<digits> or %<digits:modifiers>

  // ----- printing, in front of what follows ----------------------------------------------

  function SignText(sign: int): string {
    if sign == -1 then "-" else if sign == 1 then "+" else ""
  }

  function PrintNumeral(n: Numeral, rest: string): string {
    SignText(n.sign) + (n.digits + rest)
  }

  function PrintWidth(w: Option<Numeral>, rest: string): string {
    match w
    case None => rest
    case Some(n) => PrintNumeral(n, rest)
  }

  function PrintPrecision(p: Option<Numeral>, rest: string): string {
    match p
    case None => rest
    case Some(n) => "." + PrintNumeral(n, rest)
  }

  function PrintBase(b: Base, rest: string): string {
    match b
    case Dec => rest
    case Oct => "o" + rest
    case Hex => "x" + rest
    case UpperHex => "X" + rest
  }

  function PrintBang(showbase: bool, rest: string): string {
    if showbase then "!" + rest else rest
  }

  function PrintModifiers(m: Modifiers, rest: string): string {
    PrintWidth(m.width, PrintPrecision(m.precision, PrintBase(m.base, PrintBang(m.showbase, rest))))
  }

  function PrintColon(m: Option<Modifiers>, rest: string): string {
    match m
    case None => rest
    case Some(modifiers) => ":" + PrintModifiers(modifiers, rest)
  }

  function PrintBraced(digits: string, m: Option<Modifiers>, rest: string): string {
    digits + PrintColon(m, ">" + rest)
  }

  function Print(item: Item, rest: string): string {
    match item
    case Literal(c) => if c == '%' then "%%" + rest else [c] + rest
    case Short(d) => ['%', d] + rest
    case Braced(digits, m) => "%<" + PrintBraced(digits, m, rest)
  }

  function PrintAll(items: seq<Item>): string {
    if items == [] then "" else Print(items[0], PrintAll(items[1..]))
  }

  // ----- digits --------------------------------------------------------------------------

  const DIGITS: string := "0123456789"

  /** A number as it is written. */
  function Decimal(n: nat): string {
    if n < 10 then [DIGITS[n]] else Decimal(n / 10) + [DIGITS[n % 10]]
  }

  lemma DigitsAreTen(c: char)
    ensures IsDigit(c) <==> c in DIGITS
    ensures forall d :: 0 <= d < 10 ==> DigitValue(DIGITS[d]) == d
  {
    if IsDigit(c) {
      var d := c as int - '0' as int;
      assert DIGITS[d] == c;
    }
  }

  /** A number is read as it is written. */
  lemma {:induction false} DecimalIsRead(n: nat)
    ensures Decimal(n) != "" && AllDigits(Decimal(n)) && ValueOf(Decimal(n)) == n
  {
    DigitsAreTen(DIGITS[n % 10]);
    if n < 10 {
      assert Decimal(n)[..0] == "";
    } else {
      DecimalIsRead(n / 10);
      assert Decimal(n)[..|Decimal(n)| - 1] == Decimal(n / 10);
    }
  }

  // ----- meaning -------------------------------------------------------------------------

  /** Digits whose value an int holds. */
  predicate AreDigits(digits: string) {
    digits != "" && AllDigits(digits) && ValueOf(digits) <= INT_MAX
  }

  predicate IsNumeral(n: Numeral) {
    -1 <= n.sign <= 1 && AreDigits(n.digits)
  }

  predicate IsOptional(n: Option<Numeral>) {
    n.Some? ==> IsNumeral(n.value)
  }

  predicate AreModifiers(m: Option<Modifiers>) {
    m.Some? ==> IsOptional(m.value.width) && IsOptional(m.value.precision)
  }

  /** A character, or a reference to one of the arguments. */
  predicate IsItem(item: Item, maxArg: nat) {
    match item
    case Literal(_) => true
    case Short(d) => IsDigit(d) && 1 <= DigitValue(d) <= maxArg
    case Braced(digits, m) => AreDigits(digits) && 1 <= ValueOf(digits) <= maxArg && AreModifiers(m)
  }

  predicate AreItems(items: seq<Item>, maxArg: nat) {
    forall i :: 0 <= i < |items| ==> IsItem(items[i], maxArg)
  }

  function SignedValue(n: Numeral): int {
    if n.sign < 0 then -ValueOf(n.digits) else ValueOf(n.digits)
  }

  /** What the documentation says of the modifiers: the width with '-' for left justification and a zero in
      front for zero padding, which left justification overrules; the precision; the base and its flag. */
  function MeaningOf(m: Modifiers): Flags
    requires m.width.Some? ==> m.width.value.digits != ""
  {
    var w := m.width;
    Flags(
      w.Some? && w.value.sign == -1,
      w.Some? && w.value.sign == 1,
      m.base,
      m.showbase,
      if w.Some? then ValueOf(w.value.digits) else 0,
      if m.precision.Some? then Some(SignedValue(m.precision.value)) else None,
      if w.Some? && w.value.sign != -1 && w.value.digits[0] == '0' then '0' else ' ')
  }

  function FlagsOf(m: Option<Modifiers>): Flags
    requires AreModifiers(m)
  {
    if m.Some? then MeaningOf(m.value) else NoFlags()
  }

  function Piece(item: Item, maxArg: nat): Output
    requires IsItem(item, maxArg)
  {
    match item
    case Literal(c) => Text([c])
    case Short(d) => Put(DigitValue(d), NoFlags())
    case Braced(digits, m) => Put(ValueOf(digits), FlagsOf(m))
  }

  function Pieces(items: seq<Item>, maxArg: nat): seq<Output>
    requires AreItems(items, maxArg)
  {
    if items == [] then [] else [Piece(items[0], maxArg)] + Pieces(items[1..], maxArg)
  }

  /** The same output with the text in single characters. */
  function Spread(text: string): seq<Output> {
    if text == "" then [] else [Text([text[0]])] + Spread(text[1..])
  }

  function SpreadAll(output: seq<Output>): seq<Output> {
    if output == [] then []
    else (if output[0].Text? then Spread(output[0].text) else [output[0]]) + SpreadAll(output[1..])
  }

  // ----- reading numbers -----------------------------------------------------------------

  /** The rest does not go on with a number, nor can it be taken for one. */
  predicate Stops(rest: string) {
    rest == "" || (!IsDigit(rest[0]) && rest[0] != '-' && rest[0] != '+')
  }

  function NumberOf(n: Numeral): Number
    requires n.digits != ""
  {
    Number(SignedValue(n), n.sign, n.digits[0] == '0')
  }

  lemma {:induction false} ValueIsNatural(digits: string)
    requires AllDigits(digits)
    ensures ValueOf(digits) >= 0
  {
    if digits != "" {
      ValueIsNatural(digits[..|digits| - 1]);
    }
  }

  lemma ReadDigits(digits: string, sign: int, rest: string)
    requires digits != "" && AllDigits(digits) && Stops(rest)
    ensures DigitRun(digits + rest) == |digits|
    ensures Digits(digits + rest, sign) == Some(NumberOf(Numeral(sign, digits)))
  {
    var t := digits + rest;
    assert forall i :: 0 <= i < |digits| ==> t[i] == digits[i];
    assert |digits| < |t| ==> t[|digits|] == rest[0];
    DigitRunIs(t, |digits|);
    assert t[..|digits|] == digits;
  }

  lemma ReadSign(sign: int, t: string)
    requires -1 <= sign <= 1 && t != "" && IsDigit(t[0])
    ensures SignOf(SignText(sign) + t) == sign && AfterSign(SignText(sign) + t) == t
  {
    var all := SignText(sign) + t;
    if sign == 0 {
      assert all == t;
    } else {
      assert all[1..] == t;
    }
  }

  lemma ReadNumeral(n: Numeral, rest: string)
    requires IsNumeral(n) && Stops(rest)
    ensures Scan(PrintNumeral(n, rest)) == Some(NumberOf(n)) && AfterNumber(PrintNumeral(n, rest)) == rest
  {
    ReadSign(n.sign, n.digits + rest);
    ReadDigits(n.digits, n.sign, rest);
    assert (n.digits + rest)[|n.digits|..] == rest;
  }

  lemma NothingToScan(rest: string)
    requires Stops(rest)
    ensures Scan(rest) == None
  {
  }

  // ----- reading modifiers ---------------------------------------------------------------

  lemma WidthMeaning(n: Numeral)
    requires IsNumeral(n)
    ensures WidthFlags(NoFlags(), NumberOf(n)) == MeaningOf(Modifiers(Some(n), None, Dec, false))
  {
  }

  lemma ReadWidth(w: Option<Numeral>, rest: string)
    requires Stops(rest) && IsOptional(w)
    ensures AfterWidth(Cursor(NoFlags(), PrintWidth(w, rest))) ==
            Cursor(MeaningOf(Modifiers(w, None, Dec, false)), rest)
  {
    match w {
      case Some(n) =>
        ReadNumeral(n, rest);
        WidthMeaning(n);
      case None =>
        NothingToScan(rest);
    }
  }

  lemma ReadDot(f: Flags, t: string, value: int, sign: int, zero: bool)
    requires Scan(t) == Some(Number(value, sign, zero))
    ensures AfterPrecision(Cursor(f, "." + t)) == Cursor(f.(precision := Some(value)), AfterNumber(t))
  {
    assert ("." + t)[1..] == t;
  }

  lemma ReadPrecision(f: Flags, p: Option<Numeral>, rest: string)
    requires f.precision == None && IsOptional(p) && Stops(rest) && (rest == "" || rest[0] != '.')
    ensures AfterPrecision(Cursor(f, PrintPrecision(p, rest))) ==
            Cursor(f.(precision := if p.Some? then Some(SignedValue(p.value)) else None), rest)
  {
    if p.Some? {
      ReadNumeral(p.value, rest);
      ReadDot(f, PrintNumeral(p.value, rest), SignedValue(p.value), p.value.sign, p.value.digits[0] == '0');
    }
  }

  lemma ReadBase(f: Flags, b: Base, rest: string)
    requires f.base == Dec && BaseAt(rest) == Dec
    ensures AfterBase(Cursor(f, PrintBase(b, rest))) == Cursor(f.(base := b), rest)
  {
    if b != Dec {
      assert PrintBase(b, rest)[1..] == rest;
    }
  }

  lemma ReadBang(f: Flags, showbase: bool, rest: string)
    requires !f.showbase && (rest == "" || rest[0] != '!')
    ensures AfterBang(Cursor(f, PrintBang(showbase, rest))) == Cursor(f.(showbase := showbase), rest)
  {
    if showbase {
      assert PrintBang(showbase, rest)[1..] == rest;
    }
  }

  /** What follows one modifier cannot be taken for a part of it. */
  lemma NextStops(precision: Option<Numeral>, base: Base, showbase: bool, rest: string)
    requires rest != "" && rest[0] == '>'
    ensures BaseAt(PrintBang(showbase, rest)) == Dec
    ensures var t := PrintBase(base, PrintBang(showbase, rest));
            t != "" && Stops(t) && t[0] != '.' && Stops(PrintPrecision(precision, t))
  {
  }

  lemma ReadEnd(f: Flags, base: Base, showbase: bool, rest: string)
    requires f.base == Dec && !f.showbase && rest != "" && rest[0] == '>'
    ensures AfterBang(AfterBase(Cursor(f, PrintBase(base, PrintBang(showbase, rest))))) ==
            Cursor(f.(base := base, showbase := showbase), rest)
  {
    NextStops(None, base, showbase, rest);
    ReadBase(f, base, PrintBang(showbase, rest));
    ReadBang(f.(base := base), showbase, rest);
  }

  lemma ReadModifiers(m: Modifiers, rest: string)
    requires AreModifiers(Some(m)) && rest != "" && rest[0] == '>'
    ensures AfterModifiers(Cursor(NoFlags(), PrintModifiers(m, rest))) == Cursor(MeaningOf(m), rest)
  {
    var end := PrintBase(m.base, PrintBang(m.showbase, rest));
    var f1 := MeaningOf(Modifiers(m.width, None, Dec, false));
    var f2 := f1.(precision := if m.precision.Some? then Some(SignedValue(m.precision.value)) else None);
    NextStops(m.precision, m.base, m.showbase, rest);
    ReadWidth(m.width, PrintPrecision(m.precision, end));
    ReadPrecision(f1, m.precision, end);
    ReadEnd(f2, m.base, m.showbase, rest);
  }

  lemma ReadColon(m: Option<Modifiers>, rest: string)
    requires AreModifiers(m) && rest != "" && rest[0] == '>'
    ensures AfterColon(PrintColon(m, rest)) == Cursor(FlagsOf(m), rest)
  {
    if m.Some? {
      ReadModifiers(m.value, rest);
      assert (":" + PrintModifiers(m.value, rest))[1..] == PrintModifiers(m.value, rest);
    }
  }

  // ----- reading items -------------------------------------------------------------------

  lemma ReadBraced(digits: string, m: Option<Modifiers>, rest: string)
    requires AreDigits(digits) && AreModifiers(m)
    ensures ReadSpecifier(PrintBraced(digits, m, rest)) == Specifier(true, Some(ValueOf(digits)), FlagsOf(m), rest)
  {
    var n, after := Numeral(0, digits), PrintColon(m, ">" + rest);
    ReadNumeral(n, after);
    assert PrintNumeral(n, after) == PrintBraced(digits, m, rest);
    ReadColon(m, ">" + rest);
    ReadClose(n, FlagsOf(m), rest);
  }

  lemma ReadClose(n: Numeral, f: Flags, rest: string)
    requires IsNumeral(n) && n.sign == 0
    ensures Close(Some(NumberOf(n)), Cursor(f, ">" + rest)) == Specifier(true, Some(ValueOf(n.digits)), f, rest)
  {
    assert (">" + rest)[1..] == rest;
  }

  /** The first step on a printed item reads just that item. */
  lemma StepOfPrint(item: Item, rest: string, maxArg: nat)
    requires IsItem(item, maxArg)
    ensures var t := Print(item, rest);
            && t != ""
            && FirstStep(t) == if item.Literal? then Emit(item.c, rest)
                               else Halt(Reference(t, rest, Piece(item, maxArg).n, Piece(item, maxArg).flags))
  {
    match item {
      case Literal(c) => LiteralStep(c, rest);
      case Short(d) => ShortStep(d, rest);
      case Braced(digits, m) =>
        ReadBraced(digits, m, rest);
        BracedStep(PrintBraced(digits, m, rest));
    }
  }

  lemma LiteralStep(c: char, rest: string)
    ensures FirstStep(Print(Literal(c), rest)) == Emit(c, rest)
  {
    var t := Print(Literal(c), rest);
    assert if c == '%' then t[2..] == rest else t[1..] == rest;
  }

  lemma ShortStep(d: char, rest: string)
    requires IsDigit(d)
    ensures var t := Print(Short(d), rest); FirstStep(t) == Halt(Reference(t, rest, DigitValue(d), NoFlags()))
  {
    assert Print(Short(d), rest)[2..] == rest;
  }

  lemma BracedStep(inner: string)
    ensures FirstStep("%<" + inner) == Halt(SpecifierStop("%<" + inner, ReadSpecifier(inner)))
  {
    assert ("%<" + inner)[2..] == inner;
  }

  // ----- what is printed fits an int -----------------------------------------------------

  lemma WidthFits(w: Option<Numeral>, rest: string)
    requires IsOptional(w) && Stops(rest)
    ensures NumberFits(PrintWidth(w, rest))
  {
    if w.Some? {
      ReadNumeral(w.value, rest);
      ValueIsNatural(w.value.digits);
    } else {
      NothingToScan(rest);
    }
  }

  lemma DotFits(f: Flags, p: Option<Numeral>, rest: string)
    requires IsOptional(p) && Stops(rest) && (rest == "" || rest[0] != '.')
    ensures PrecisionFits(Cursor(f, PrintPrecision(p, rest)))
  {
    if p.Some? {
      WidthFits(p, rest);
      assert PrintPrecision(p, rest)[1..] == PrintWidth(p, rest);
    }
  }

  lemma PrintedColonFits(m: Option<Modifiers>, rest: string)
    requires AreModifiers(m) && rest != "" && rest[0] == '>'
    ensures ColonFits(PrintColon(m, rest))
  {
    if m.Some? {
      var Modifiers(width, precision, base, showbase) := m.value;
      var end := PrintBase(base, PrintBang(showbase, rest));
      NextStops(precision, base, showbase, rest);
      WidthFits(width, PrintPrecision(precision, end));
      ReadWidth(width, PrintPrecision(precision, end));
      DotFits(MeaningOf(Modifiers(width, None, Dec, false)), precision, end);
      assert PrintColon(m, rest)[1..] == PrintModifiers(m.value, rest);
    }
  }

  lemma PrintedBraceFits(digits: string, m: Option<Modifiers>, rest: string)
    requires AreDigits(digits) && AreModifiers(m)
    ensures SpecifierFits(PrintBraced(digits, m, rest))
  {
    var n, after := Numeral(0, digits), PrintColon(m, ">" + rest);
    ReadNumeral(n, after);
    ValueIsNatural(digits);
    assert PrintNumeral(n, after) == PrintBraced(digits, m, rest);
    PrintedColonFits(m, ">" + rest);
  }

  lemma PrintedStepFits(item: Item, rest: string, maxArg: nat)
    requires IsItem(item, maxArg)
    ensures StepFits(Print(item, rest))
  {
    if item.Braced? {
      PrintedBraceFits(item.digits, item.modifiers, rest);
      assert Print(item, rest)[2..] == PrintBraced(item.digits, item.modifiers, rest);
    }
  }

  // ----- what was read ----------------------------------------------------------------------

  function NumeralAt(t: string): Numeral {
    Numeral(SignOf(t), AfterSign(t)[..DigitRun(AfterSign(t))])
  }

  lemma NumeralWasRead(t: string)
    requires Scan(t).Some? && NumberFits(t)
    ensures IsNumeral(NumeralAt(t)) && t == PrintNumeral(NumeralAt(t), AfterNumber(t))
    ensures Scan(t).value == NumberOf(NumeralAt(t))
  {
    var u := AfterSign(t);
    assert u == u[..DigitRun(u)] + u[DigitRun(u)..];
    assert SignOf(t) != 0 ==> t == [t[0]] + t[1..];
  }

  function OptionalAt(t: string): Option<Numeral> {
    if Scan(t).Some? then Some(NumeralAt(t)) else None
  }

  function PrecisionAt(t: string): Option<Numeral> {
    if t != "" && t[0] == '.' then OptionalAt(t[1..]) else None
  }

  lemma WidthWasRead(c: Cursor)
    requires NumberFits(c.rest)
    ensures IsOptional(OptionalAt(c.rest)) && c.rest == PrintWidth(OptionalAt(c.rest), AfterWidth(c).rest)
  {
    if Scan(c.rest).Some? {
      NumeralWasRead(c.rest);
    }
  }

  lemma PrecisionWasRead(c: Cursor)
    requires PrecisionFits(c)
    ensures IsOptional(PrecisionAt(c.rest)) && c.rest == PrintPrecision(PrecisionAt(c.rest), AfterPrecision(c).rest)
  {
    if c.rest != "" && c.rest[0] == '.' {
      var t := c.rest[1..];
      assert c.rest == "." + t;
      if Scan(t).Some? {
        NumeralWasRead(t);
      }
    }
  }

  lemma EndWasRead(c: Cursor)
    ensures c.rest == PrintBase(BaseAt(c.rest), AfterBase(c).rest)
    ensures c.rest == PrintBang(c.rest != "" && c.rest[0] == '!', AfterBang(c).rest)
  {
    assert c.rest != "" ==> c.rest == [c.rest[0]] + c.rest[1..];
  }

  lemma ModifiersWereRead(t: string) returns (m: Option<Modifiers>)
    requires ColonFits(t)
    ensures AreModifiers(m) && t == PrintColon(m, AfterColon(t).rest)
  {
    if t == "" || t[0] != ':' {
      return None;
    }
    var c0 := Cursor(NoFlags(), t[1..]);
    var c1 := AfterWidth(c0);
    var c2 := AfterPrecision(c1);
    var c3 := AfterBase(c2);
    WidthWasRead(c0);
    PrecisionWasRead(c1);
    EndWasRead(c2);
    EndWasRead(c3);
    assert t == ":" + t[1..];
    m := Some(Modifiers(OptionalAt(c0.rest), PrecisionAt(c1.rest), BaseAt(c2.rest), c3.rest != "" && c3.rest[0] == '!'));
  }

  lemma CloseWasRead(number: Option<Number>, c: Cursor)
    requires Close(number, c).ok
    ensures number.Some? && number.value.sign == 0 && Close(number, c).argnum == Some(number.value.value)
    ensures c.rest == ">" + Close(number, c).rest
  {
    assert c.rest == ">" + c.rest[1..];
  }

  lemma UnsignedWasRead(t: string)
    requires Scan(t).Some? && Scan(t).value.sign == 0 && NumberFits(t)
    ensures var digits := NumeralAt(t).digits;
            && AreDigits(digits)
            && Scan(t).value.value == ValueOf(digits) && t == digits + AfterNumber(t)
  {
    NumeralWasRead(t);
    assert "" + (NumeralAt(t).digits + AfterNumber(t)) == NumeralAt(t).digits + AfterNumber(t);
  }

  lemma SpecifierWasRead(t: string) returns (item: Item)
    requires ReadSpecifier(t).ok && SpecifierFits(t)
    ensures var s := ReadSpecifier(t);
            && item.Braced? && AreDigits(item.digits) && AreModifiers(item.modifiers)
            && s.argnum == Some(ValueOf(item.digits))
            && t == PrintBraced(item.digits, item.modifiers, s.rest)
  {
    var m := ModifiersWereRead(AfterNumber(t));
    CloseWasRead(Scan(t), AfterColon(AfterNumber(t)));
    UnsignedWasRead(t);
    item := Braced(NumeralAt(t).digits, m);
  }

  /** A step that finds no error read an item. */
  lemma ItemWasRead(t: string, maxArg: nat) returns (item: Item)
    requires t != "" && StepFits(t)
    requires FirstStep(t).Halt? ==> FirstStep(t).stop.Reference? && 1 <= FirstStep(t).stop.arg <= maxArg
    ensures IsItem(item, maxArg)
    ensures t == Print(item, if FirstStep(t).Emit? then FirstStep(t).rest else FirstStep(t).stop.rest)
  {
    if t[0] != '%' {
      item := Literal(t[0]);
      assert t == [t[0]] + t[1..];
    } else {
      assert t == ['%', t[1]] + t[2..];
      if t[1] == '<' {
        item := SpecifierWasRead(t[2..]);
      } else {
        item := if t[1] == '%' then Literal('%') else Short(t[1]);
      }
    }
  }

  // ----- runs ----------------------------------------------------------------------------

  lemma {:induction false} SpreadTwo(n: int, flags: Flags, more: seq<Output>)
    ensures SpreadAll([Text(""), Put(n, flags)] + more) == [Put(n, flags)] + SpreadAll(more)
  {
    var all := [Text(""), Put(n, flags)] + more;
    assert all[1..] == [Put(n, flags)] + more && all[1..][1..] == more;
    assert SpreadAll(all[1..]) == [Put(n, flags)] + SpreadAll(more);
    assert SpreadAll(all) == Spread("") + SpreadAll(all[1..]);
  }

  lemma SpreadFirst(c: char, text: string, tail: seq<Output>)
    ensures SpreadAll([Text([c] + text)] + tail) == [Text([c])] + SpreadAll([Text(text)] + tail)
  {
    assert ([c] + text)[1..] == text;
    assert ([Text([c] + text)] + tail)[1..] == tail && ([Text(text)] + tail)[1..] == tail;
  }

  /** A character that is copied comes out first. */
  lemma RunEmits(t: string, c: char, rest: string, maxArg: nat)
    requires t != "" && FirstStep(t) == Emit(c, rest)
    ensures SpreadAll(Run(t, maxArg)) == [Text([c])] + SpreadAll(Run(rest, maxArg))
  {
    if rest == "" {
      RunEmitsLast(t, c, maxArg);
      SpreadFirst(c, "", []);
      assert [c] + "" == [c];
      assert [Text([c])] + [] == [Text([c])];
    } else {
      var tail := RunEmitsMore(t, c, rest, maxArg);
      SpreadFirst(c, Walk(rest).0, tail);
    }
  }

  lemma RunEmitsLast(t: string, c: char, maxArg: nat)
    requires t != "" && FirstStep(t) == Emit(c, "")
    ensures Run(t, maxArg) == [Text([c])] && Run("", maxArg) == []
  {
    ProcessEmits(t, c, "", maxArg);
    RunNext(t, maxArg);
    assert [c] + "" == [c];
  }

  lemma RunEmitsMore(t: string, c: char, rest: string, maxArg: nat) returns (tail: seq<Output>)
    requires t != "" && rest != "" && FirstStep(t) == Emit(c, rest)
    ensures Run(t, maxArg) == [Text([c] + Walk(rest).0)] + tail
    ensures Run(rest, maxArg) == [Text(Walk(rest).0)] + tail
  {
    var (text, stop) := Walk(rest);
    ProcessEmits(t, c, rest, maxArg);
    TextRunsFirst(t, [c] + text, stop, maxArg);
    TextRunsFirst(rest, text, stop, maxArg);
    tail := RunTail(stop, maxArg);
  }

  /** What a run writes after the first text. */
  function RunTail(stop: Stop, maxArg: nat): seq<Output> {
    TurnTail(stop, maxArg) + Run(TurnAfter("", stop, 1, maxArg).rest, maxArg)
  }

  lemma TextRunsFirst(t: string, text: string, stop: Stop, maxArg: nat)
    requires t != "" && Process(t, 1, maxArg) == TurnAfter(text, stop, 1, maxArg)
    ensures Run(t, maxArg) == [Text(text)] + RunTail(stop, maxArg)
  {
    RunNext(t, maxArg);
    TextComesFirst(text, stop, maxArg);
    Regroup([Text(text)], TurnTail(stop, maxArg), Run(TurnAfter("", stop, 1, maxArg).rest, maxArg));
  }

  /** What a turn writes after the text. */
  function TurnTail(stop: Stop, maxArg: nat): seq<Output> {
    TurnOutput(TurnAfter("", stop, 1, maxArg), maxArg)[1..]
  }

  lemma TextComesFirst(text: string, stop: Stop, maxArg: nat)
    ensures TurnOutput(TurnAfter(text, stop, 1, maxArg), maxArg) == [Text(text)] + TurnTail(stop, maxArg)
    ensures TurnAfter(text, stop, 1, maxArg).rest == TurnAfter("", stop, 1, maxArg).rest
  {
  }

  lemma ProcessEmits(t: string, c: char, rest: string, maxArg: nat)
    requires t != "" && FirstStep(t) == Emit(c, rest)
    ensures var (text, stop) := Walk(rest);
            Process(t, 1, maxArg) == TurnAfter([c] + text, stop, 1, maxArg)
  {
    assert Walk(t) == ([c] + Walk(rest).0, Walk(rest).1);
  }

  /** An argument that is named and exists is put. */
  lemma RunPuts(t: string, rest: string, n: int, flags: Flags, maxArg: nat)
    requires t != "" && FirstStep(t) == Halt(Reference(t, rest, n, flags)) && 1 <= n <= maxArg
    ensures SpreadAll(Run(t, maxArg)) == [Put(n, flags)] + SpreadAll(Run(rest, maxArg))
  {
    ProcessPuts(t, rest, n, flags, maxArg);
    RunNext(t, maxArg);
    SpreadTwo(n, flags, Run(rest, maxArg));
  }

  lemma ProcessPuts(t: string, rest: string, n: int, flags: Flags, maxArg: nat)
    requires t != "" && FirstStep(t) == Halt(Reference(t, rest, n, flags)) && 1 <= n <= maxArg
    ensures Process(t, 1, maxArg).rest == rest
    ensures TurnOutput(Process(t, 1, maxArg), maxArg) == [Text(""), Put(n, flags)]
  {
    assert Walk(t) == ("", Reference(t, rest, n, flags));
  }

  /** All numbers of a run fit an int if those of its first step do, and those of the run that follows. */
  lemma EmitFits(t: string, c: char, rest: string, maxArg: nat)
    requires t != "" && FirstStep(t) == Emit(c, rest)
    ensures RunFits(t, maxArg) <==> StepFits(t) && RunFits(rest, maxArg)
  {
    ProcessEmits(t, c, rest, maxArg);
    assert TurnFits(t) <==> StepFits(t) && TurnFits(rest);
    var left := TurnAfter("", Walk(rest).1, 1, maxArg).rest;
    TextComesFirst([c] + Walk(rest).0, Walk(rest).1, maxArg);
    assert Process(t, 1, maxArg).rest == left;
    TextComesFirst(Walk(rest).0, Walk(rest).1, maxArg);
    assert Process(rest, 1, maxArg).rest == left;
    if rest != "" {
      FitsNext(rest, left, maxArg);
    }
    FitsNext(t, left, maxArg);
  }

  lemma FitsNext(t: string, left: string, maxArg: nat)
    requires t != "" && Process(t, 1, maxArg).rest == left
    ensures RunFits(t, maxArg) <==> TurnFits(t) && RunFits(left, maxArg)
  {
  }

  lemma PutFits(t: string, rest: string, n: int, flags: Flags, maxArg: nat)
    requires t != "" && FirstStep(t) == Halt(Reference(t, rest, n, flags)) && 1 <= n <= maxArg
    ensures RunFits(t, maxArg) <==> StepFits(t) && RunFits(rest, maxArg)
  {
    ProcessPuts(t, rest, n, flags, maxArg);
  }

  /** Running a printed template scans no number beyond an int and writes its pieces, in order and with the
      flags that the modifiers mean. */
  lemma {:induction false} RunOfPrint(items: seq<Item>, maxArg: nat)
    requires AreItems(items, maxArg)
    ensures RunFits(PrintAll(items), maxArg)
    ensures SpreadAll(Run(PrintAll(items), maxArg)) == Pieces(items, maxArg)
  {
    if items != [] {
      var rest := PrintAll(items[1..]);
      StepOfPrint(items[0], rest, maxArg);
      PrintedStepFits(items[0], rest, maxArg);
      RunOfPrint(items[1..], maxArg);
      if items[0].Literal? {
        EmitFits(PrintAll(items), items[0].c, rest, maxArg);
        RunEmits(PrintAll(items), items[0].c, rest, maxArg);
      } else {
        PutFits(PrintAll(items), rest, Piece(items[0], maxArg).n, Piece(items[0], maxArg).flags, maxArg);
        RunPuts(PrintAll(items), rest, Piece(items[0], maxArg).n, Piece(items[0], maxArg).flags, maxArg);
      }
    }
  }

  // ----- errors --------------------------------------------------------------------------

  /** No note of an error. */
  predicate IsClean(output: seq<Output>) {
    forall i :: 0 <= i < |output| ==> output[i].Text? || output[i].Put?
  }

  /** An error, or an argument that does not exist, leaves a note. */
  lemma RunNotes(t: string, maxArg: nat)
    requires t != "" && FirstStep(t).Halt? && (FirstStep(t).stop.Reference? ==> FirstStep(t).stop.arg >= 0)
    requires FirstStep(t).stop.Reference? ==> !(1 <= FirstStep(t).stop.arg <= maxArg)
    ensures !IsClean(SpreadAll(Run(t, maxArg)))
  {
    var errors := Errors(FirstStep(t).stop, 1, maxArg);
    ProcessNotes(t, maxArg);
    RunNext(t, maxArg);
    assert Run(t, maxArg) == [Text("")] + errors;
    NoteStays([Text("")] + errors, |errors|);
  }

  lemma ProcessNotes(t: string, maxArg: nat)
    requires t != "" && FirstStep(t).Halt? && (FirstStep(t).stop.Reference? ==> FirstStep(t).stop.arg >= 0)
    requires FirstStep(t).stop.Reference? ==> !(1 <= FirstStep(t).stop.arg <= maxArg)
    ensures var errors := Errors(FirstStep(t).stop, 1, maxArg);
            && errors != [] && errors[|errors| - 1].Wrong?
            && Process(t, 1, maxArg) == Turn([Text("")] + errors, "", NoArgument)
  {
    assert Walk(t) == ("", FirstStep(t).stop);
  }

  lemma {:induction false} NoteStays(output: seq<Output>, i: nat)
    requires i < |output| && output[i].Wrong?
    ensures !IsClean(SpreadAll(output))
  {
    var first := if output[0].Text? then Spread(output[0].text) else [output[0]];
    var all := SpreadAll(output);
    if i == 0 {
      assert all[0] == output[0];
    } else {
      NoteStays(output[1..], i - 1);
      var k :| 0 <= k < |SpreadAll(output[1..])| && !SpreadAll(output[1..])[k].Text? && !SpreadAll(output[1..])[k].Put?;
      assert all[|first| + k] == SpreadAll(output[1..])[k];
    }
  }

  lemma ArgumentIsNatural(t: string)
    requires t != "" && StepFits(t) && FirstStep(t).Halt? && FirstStep(t).stop.Reference?
    ensures FirstStep(t).stop.arg >= 0
  {
    if t[1] == '<' {
      var item := SpecifierWasRead(t[2..]);
      ValueIsNatural(item.digits);
    }
  }

  lemma CleanTail(first: Output, more: seq<Output>)
    requires IsClean([first] + more)
    ensures IsClean(more)
  {
    assert forall i :: 0 <= i < |more| ==> more[i] == ([first] + more)[i + 1];
  }

  lemma CleanStep(t: string, maxArg: nat) returns (item: Item, rest: string)
    requires t != "" && RunFits(t, maxArg) && IsClean(SpreadAll(Run(t, maxArg)))
    ensures IsItem(item, maxArg) && t == Print(item, rest)
    ensures |rest| < |t| && RunFits(rest, maxArg) && IsClean(SpreadAll(Run(rest, maxArg)))
  {
    var step := FirstStep(t);
    if step.Halt? && step.stop.Reference? {
      ArgumentIsNatural(t);
    }
    if step.Halt? && !(step.stop.Reference? && 1 <= step.stop.arg <= maxArg) {
      RunNotes(t, maxArg);
    }
    item := ItemWasRead(t, maxArg);
    if step.Emit? {
      rest := step.rest;
      EmitFits(t, step.c, rest, maxArg);
      RunEmits(t, step.c, rest, maxArg);
      CleanTail(Text([step.c]), SpreadAll(Run(rest, maxArg)));
    } else {
      rest := step.stop.rest;
      PutFits(t, rest, step.stop.arg, step.stop.flags, maxArg);
      RunPuts(t, rest, step.stop.arg, step.stop.flags, maxArg);
      CleanTail(Put(step.stop.arg, step.stop.flags), SpreadAll(Run(rest, maxArg)));
    }
  }

  /** A template that is written out without an error or an overflow is the printing of a list of items. */
  lemma {:induction false} CleanRunIsPrint(t: string, maxArg: nat) returns (items: seq<Item>)
    requires RunFits(t, maxArg) && IsClean(SpreadAll(Run(t, maxArg)))
    ensures AreItems(items, maxArg) && PrintAll(items) == t
    decreases |t|
  {
    if t == "" {
      return [];
    }
    var item, rest := CleanStep(t, maxArg);
    var others := CleanRunIsPrint(rest, maxArg);
    items := [item] + others;
    assert items[1..] == others;
  }

  /** The template t is the printing of these items. */
  ghost predicate IsPrintOf(t: string, items: seq<Item>, maxArg: nat) {
    AreItems(items, maxArg) && PrintAll(items) == t
  }

  lemma {:induction false} PiecesAreClean(items: seq<Item>, maxArg: nat)
    requires AreItems(items, maxArg)
    ensures IsClean(Pieces(items, maxArg))
  {
    if items != [] {
      PiecesAreClean(items[1..], maxArg);
    }
  }

  /** The interpreter overflows no int and notes no error exactly if the template is the printing of a list
      of items. */
  lemma CleanExactlyForTemplates(t: string, maxArg: nat)
    ensures RunFits(t, maxArg) && IsClean(SpreadAll(Run(t, maxArg))) <==>
            exists items :: IsPrintOf(t, items, maxArg)
  {
    if RunFits(t, maxArg) && IsClean(SpreadAll(Run(t, maxArg))) {
      var items := CleanRunIsPrint(t, maxArg);
      assert IsPrintOf(t, items, maxArg);
    }
    forall items | IsPrintOf(t, items, maxArg)
      ensures RunFits(t, maxArg) && IsClean(SpreadAll(Run(t, maxArg)))
    {
      RunOfPrint(items, maxArg);
      PiecesAreClean(items, maxArg);
    }
  }
}
