/** The loop that consumes a template: text is copied and argument references are put, one a turn, until
    the template is used up or wrong. */
module FormatLoop {
  import opened Common
  import opened Formats

  // ----- one step ------------------------------------------------------------------------

  /** Why a turn stops. An error or a reference begins with the percent sign at the start of at. The length
      of what is wrong may go one beyond the end. */
  datatype Stop =
    | End
    | Reference(at: string, rest: string, arg: int, flags: Flags)
    | Error(at: string, length: nat, named: Option<int>)

  datatype Step = Emit(c: char, rest: string) | Halt(stop: Stop)

  function SpecifierStop(t: string, s: Specifier): (stop: Stop)
    requires |s.rest| + 2 <= |t| && (s.ok ==> s.argnum.Some?)
    ensures !stop.End? && (stop.Reference? ==> |stop.rest| < |stop.at| && stop.at == t)
  {
    if s.ok then Reference(t, s.rest, s.argnum.value, s.flags) else Error(t, |t| - |s.rest| + 1, s.argnum)
  }

  function FirstStep(t: string): (s: Step)
    requires t != ""
    ensures s.Emit? ==> |s.rest| < |t|
    ensures s.Halt? ==> !s.stop.End?
    ensures s.Halt? && s.stop.Reference? ==> |s.stop.rest| < |s.stop.at| && s.stop.at == t
  {
    if t[0] != '%' then Emit(t[0], t[1..])
    else if |t| == 1 then Halt(Error(t, 1, None))
    else if t[1] == '%' then Emit('%', t[2..])
    else if t[1] == '<' then Halt(SpecifierStop(t, ReadSpecifier(t[2..])))
    else if IsDigit(t[1]) then Halt(Reference(t, t[2..], DigitValue(t[1]), NoFlags()))
    else Halt(Error(t, 2, None))
  }

  /** The text up to where a turn stops. */
  function Walk(t: string): (r: (string, Stop))
    ensures r.1.Reference? ==> |r.1.rest| < |r.1.at| <= |t|
    decreases |t|
  {
    if t == "" then ("", End)
    else
      match FirstStep(t)
      case Emit(c, rest) =>
        var (text, stop) := Walk(rest);
        ([c] + text, stop)
      case Halt(stop) => ("", stop)
  }

  /** An int holds all the numbers that are scanned in a step. */
  predicate StepFits(t: string) {
    |t| > 1 && t[0] == '%' && t[1] == '<' ==> SpecifierFits(t[2..])
  }

  /** The same for all steps of a turn. */
  predicate TurnFits(t: string)
    decreases |t|
  {
    t == "" || (StepFits(t) && (FirstStep(t).Emit? ==> TurnFits(FirstStep(t).rest)))
  }

  // ----- one turn ------------------------------------------------------------------------

  /** What goes to the stream: text, arguments formatted by their flags, and notes of errors. */
  datatype Output =
    | Text(text: string)
    | Put(n: int, flags: Flags)
    | TooLarge(arg: nat, maxArg: nat)
    | TooSmall(arg: nat, minArg: nat)
    | Wrong(part: string)

  /** Is the argument's number wrong, and how? It is compared as a size_t; minus one, which is then all
      ones, stands for none. */
  function RangeErrors(n: int, minArg: nat, maxArg: nat): (r: seq<Output>)
    ensures 0 <= n ==> (r == [] <==> minArg <= n <= maxArg)
  {
    var arg: nat := if n < 0 then n % 0x1_0000_0000_0000_0000 else n;
    if n == -1 then []
    else if arg > maxArg then [TooLarge(arg, maxArg)]
    else if arg < minArg then [TooSmall(arg, minArg)]
    else []
  }

  function Take(s: string, n: nat): string {
    if n <= |s| then s[..n] else s
  }

  datatype Argument = NoArgument | Argument(n: int, flags: Flags)

  /** What a turn writes, what it leaves of the template, and the argument to put. */
  datatype Turn = Turn(output: seq<Output>, rest: string, argument: Argument)

  /** The notes of what is wrong, with the part of the template that is. */
  function Errors(stop: Stop, minArg: nat, maxArg: nat): seq<Output> {
    match stop
    case End => []
    case Reference(at, rest, arg, _) =>
      var range := RangeErrors(arg, minArg, maxArg);
      if range == [] then [] else range + [Wrong(Take(at, if |rest| <= |at| then |at| - |rest| else 0))]
    case Error(at, length, named) =>
      (if named.Some? && length <= |at| then RangeErrors(named.value, minArg, maxArg) else [])
      + [Wrong(Take(at, length))]
  }

  function TurnAfter(text: string, stop: Stop, minArg: nat, maxArg: nat): Turn {
    var errors := Errors(stop, minArg, maxArg);
    Turn([Text(text)] + errors,
         if errors == [] && stop.Reference? then stop.rest else "",
         if errors == [] && stop.Reference? then Argument(stop.arg, stop.flags) else NoArgument)
  }

  function Process(t: string, minArg: nat, maxArg: nat): Turn {
    TurnAfter(Walk(t).0, Walk(t).1, minArg, maxArg)
  }

  /** Every turn shortens the template. */
  lemma TurnShortens(t: string, minArg: nat, maxArg: nat)
    requires t != ""
    ensures |Process(t, minArg, maxArg).rest| < |t|
  {
  }

  /** The note on the number of a reference: too large above the range, too small below it. */
  lemma WhichNote(n: int, minArg: nat, maxArg: nat)
    requires -INT_MAX - 1 <= n <= INT_MAX && minArg <= maxArg < INT_MAX
    ensures RangeErrors(n, minArg, maxArg) ==
            if n > maxArg then [TooLarge(n, maxArg)]
            else if 0 <= n < minArg then [TooSmall(n, minArg)]
            else if n < -1 then [TooLarge(0x1_0000_0000_0000_0000 + n, maxArg)]
            else []
  {
  }

  /** What is quoted as wrong is a piece of the template, from the percent sign on: the whole of a reference
      whose argument does not exist, and otherwise as many characters as the error says, if there are as many. */
  lemma WhatIsQuoted(stop: Stop, minArg: nat, maxArg: nat, more: string)
    requires !stop.End? && (stop.Reference? ==> stop.at == more + stop.rest)
    ensures var errors := Errors(stop, minArg, maxArg);
            && (stop.Reference? && errors != [] ==> errors[|errors| - 1] == Wrong(more))
            && (stop.Error? ==>
                  && errors != [] && errors[|errors| - 1].Wrong?
                  && var part := errors[|errors| - 1].part;
                  && part <= stop.at
                  && |part| == if stop.length <= |stop.at| then stop.length else |stop.at|)
  {
  }

  /** A wrong reference whose number was read is noted for its number too, if the template goes on to where the
      error is. */
  lemma NumberIsNotedToo(front: string, more: string, n: int, minArg: nat, maxArg: nat)
    ensures Errors(Error(front + more, |front|, Some(n)), minArg, maxArg) ==
            RangeErrors(n, minArg, maxArg) + [Wrong(front)]
    ensures Errors(Error(front, |front| + 1, Some(n)), minArg, maxArg) == [Wrong(front)]
    ensures Errors(Error(front + more, |front|, None), minArg, maxArg) == [Wrong(front)]
  {
    assert (front + more)[..|front|] == front;
  }

  lemma TakeOneMore(front: string, consumed: string, rest: string)
    ensures Take(front + (consumed + rest), |front| + |consumed| + 1) ==
            front + consumed + (if rest == "" then "" else [rest[0]])
  {
  }

  /** A wrong specifier is quoted up to where it goes wrong, with the character there. */
  lemma WrongSpecifierIsQuoted(inner: string, consumed: string)
    requires !ReadSpecifier(inner).ok && inner == consumed + ReadSpecifier(inner).rest
    ensures var t, rest := "%<" + inner, ReadSpecifier(inner).rest;
            && FirstStep(t).Halt? && FirstStep(t).stop.Error? && FirstStep(t).stop.at == t
            && Take(t, FirstStep(t).stop.length) == "%<" + consumed + (if rest == "" then "" else [rest[0]])
  {
    var t, s := "%<" + inner, ReadSpecifier(inner);
    assert t[2..] == inner;
    BracedSteps(t);
    WrongStop(t, s);
    TakeOneMore("%<", consumed, s.rest);
  }

  lemma WrongStop(t: string, s: Specifier)
    requires !s.ok && |s.rest| + 2 <= |t|
    ensures SpecifierStop(t, s) == Error(t, |t| - |s.rest| + 1, s.argnum)
  {
  }

  lemma BracedSteps(t: string)
    requires |t| > 1 && t[0] == '%' && t[1] == '<'
    ensures FirstStep(t) == Halt(SpecifierStop(t, ReadSpecifier(t[2..])))
  {
  }

  /** A percent sign is wrong at the end, and before anything but a percent sign, a digit or a brace. */
  lemma WrongPercentIsQuoted(c: char, rest: string)
    requires c != '%' && c != '<' && !IsDigit(c)
    ensures FirstStep("%") == Halt(Error("%", 1, None))
    ensures FirstStep(['%', c] + rest) == Halt(Error(['%', c] + rest, 2, None))
  {
  }

  // ----- all turns -----------------------------------------------------------------------

  function TurnOutput(turn: Turn, maxArg: nat): seq<Output> {
    turn.output +
    (if turn.argument.Argument? && 1 <= turn.argument.n <= maxArg
     then [Put(turn.argument.n, turn.argument.flags)]
     else [])
  }

  function Run(t: string, maxArg: nat): seq<Output>
    decreases |t|
  {
    if t == "" then []
    else
      TurnShortens(t, 1, maxArg);
      TurnOutput(Process(t, 1, maxArg), maxArg) + Run(Process(t, 1, maxArg).rest, maxArg)
  }

  /** The same for all turns of a run. */
  predicate RunFits(t: string, maxArg: nat)
    decreases |t|
  {
    t == "" ||
    (TurnFits(t) &&
     (TurnShortens(t, 1, maxArg);
      RunFits(Process(t, 1, maxArg).rest, maxArg)))
  }

  lemma RunNext(t: string, maxArg: nat)
    requires t != ""
    ensures var turn := Process(t, 1, maxArg);
            |turn.rest| < |t| && Run(t, maxArg) == TurnOutput(turn, maxArg) + Run(turn.rest, maxArg)
  {
    TurnShortens(t, 1, maxArg);
  }

  // ----- the object ----------------------------------------------------------------------

  lemma StopOfSpecifier(str: string, start: nat, i: nat, ok: bool, arg: Option<int>, flags: Flags)
    requires start + 2 <= i <= |str| && (ok ==> arg.Some?)
    requires Specifier(ok, arg, flags, str[i..]) == ReadSpecifier(str[start + 2..])
    ensures SpecifierStop(str[start..], ReadSpecifier(str[start + 2..])) ==
              if ok then Reference(str[start..], str[i..], arg.value, flags)
              else Error(str[start..], i + 1 - start, arg)
  {
  }

  /** A percent sign at start, and an opening brace. */
  method ProcessBraced(str: string, start: nat)
    returns (i: nat, arg: Option<int>, err: bool, flags: Flags)
    requires start + 1 < |str| && str[start + 1] == '<' && SpecifierFits(str[start + 2..])
    ensures start < i <= |str| + 1 && (!err ==> arg.Some? && i <= |str|)
    ensures SpecifierStop(str[start..], ReadSpecifier(str[start + 2..])) ==
              if err then Error(str[start..], i - start, arg)
              else Reference(str[start..], str[i..], arg.value, flags)
  {
    var ok;
    var offset;
    ok, offset, arg, flags := ProcessFormatSpecifier(str, start + 1);
    StopOfSpecifier(str, start, offset, ok, arg, flags);
    i, err := offset, !ok;
    if ok {
      i := i - 1;
    }
    i := i + 1;
    assert i == if ok then offset else offset + 1;
  }

  /** The characters after a percent sign at start: the text to write, or why the turn stops. */
  method ProcessPercent(str: string, start: nat)
    returns (i: nat, arg: Option<int>, err: bool, flags: Flags)
    requires start < |str| && str[start] == '%' && StepFits(str[start..])
    ensures start < i <= |str| + 1 && (!err ==> i <= |str|)
    ensures FirstStep(str[start..]) ==
              if err then Halt(Error(str[start..], i - start, arg))
              else if arg.Some? then Halt(Reference(str[start..], str[i..], arg.value, flags))
              else Emit('%', str[i..])
  {
    if start + 1 < |str| && str[start + 1] == '<' {
      BracedSteps(str[start..]);
      assert str[start..][2..] == str[start + 2..];
      i, arg, err, flags := ProcessBraced(str, start);
    } else {
      i, arg, err, flags := ProcessPlain(str, start);
    }
  }

  method ProcessPlain(str: string, start: nat)
    returns (i: nat, arg: Option<int>, err: bool, flags: Flags)
    requires start < |str| && str[start] == '%' && (start + 1 < |str| ==> str[start + 1] != '<')
    ensures start < i <= |str| && i <= start + 2
    ensures FirstStep(str[start..]) ==
              if err then Halt(Error(str[start..], i - start, arg))
              else if arg.Some? then Halt(Reference(str[start..], str[i..], arg.value, flags))
              else Emit('%', str[i..])
  {
    i, arg, err, flags := start, None, false, NoFlags();
    if i + 1 < |str| {
      i := i + 1;
      assert str[start..][2..] == str[i + 1..];
      if str[i] == '%' {
        return i + 1, None, false, flags;
      } else if IsDigit(str[i]) {
        arg := Some(DigitValue(str[i]));
      } else {
        err := true;
      }
    } else {
      err := true;
    }
    i := i + 1;
  }

  /** One round of the loop of process. */
  method ProcessStep(str: string, start: nat)
    returns (c: char, i: nat, arg: Option<int>, err: bool, flags: Flags)
    requires start < |str| && StepFits(str[start..])
    ensures start < i <= |str| + 1 && (!err ==> i <= |str|)
    ensures FirstStep(str[start..]) ==
              if err then Halt(Error(str[start..], i - start, arg))
              else if arg.Some? then Halt(Reference(str[start..], str[i..], arg.value, flags))
              else Emit(c, str[i..])
  {
    c := str[start];
    if c == '%' {
      i, arg, err, flags := ProcessPercent(str, start);
    } else {
      assert str[start..][1..] == str[start + 1..];
      i, arg, err, flags := start + 1, None, false, NoFlags();
    }
  }

  lemma TurnStep(t: string)
    requires t != "" && TurnFits(t)
    ensures StepFits(t)
    ensures match FirstStep(t)
            case Emit(c, rest) => TurnFits(rest) && Walk(t) == ([c] + Walk(rest).0, Walk(rest).1)
            case Halt(stop) => Walk(t) == ("", stop)
  {
  }

  /** The loop of process: what it writes, where it stops and why. */
  method WalkTemplate(str: string)
    returns (out: string, i: nat, percentStart: nat, arg: Option<int>, err: bool, flags: Flags)
    requires TurnFits(str)
    ensures percentStart <= |str| && (err ==> percentStart < i) && (!err ==> i <= |str|)
    ensures !err && arg.None? ==> i == |str|
    ensures !err && arg.Some? ==> percentStart <= i
    ensures Walk(str) == (out, StopAt(str, i, percentStart, arg, err, flags))
  {
    out, i, percentStart, arg, err, flags := "", 0, 0, None, false, NoFlags();
    assert str[0..] == str && out + Walk(str).0 == Walk(str).0;
    while i < |str|
      invariant i <= |str| && percentStart <= |str| && arg.None? && !err
      invariant TurnFits(str[i..])
      invariant Walk(str) == (out + Walk(str[i..]).0, Walk(str[i..]).1)
    {
      TurnStep(str[i..]);
      assert out + "" == out;
      percentStart := i;
      var c;
      c, i, arg, err, flags := ProcessStep(str, i);
      if arg.Some? || err {
        return;
      }
      Regroup(out, [c], Walk(str[i..]).0);
      out := out + [c];
    }
    assert str[i..] == "" && out + "" == out;
  }

  function StopAt(str: string, i: nat, percentStart: nat, arg: Option<int>, err: bool, flags: Flags): Stop
    requires percentStart <= |str| && (err ==> percentStart < i) && (!err ==> i <= |str|)
  {
    if err then Error(str[percentStart..], i - percentStart, arg)
    else if arg.Some? then Reference(str[percentStart..], str[i..], arg.value, flags)
    else End
  }

  /** The end of process: what there is to note. */
  method FindErrors(str: string, i: nat, percentStart: nat, arg: Option<int>, wasErr: bool, flags: Flags,
                    minArg: nat, maxArg: nat)
    returns (notes: seq<Output>)
    requires percentStart <= |str| && (wasErr ==> percentStart < i) && (!wasErr ==> i <= |str|)
    requires !wasErr && arg.Some? ==> percentStart <= i
    ensures notes == Errors(StopAt(str, i, percentStart, arg, wasErr, flags), minArg, maxArg)
  {
    var err := wasErr;
    notes := [];
    if i <= |str| && arg.Some? {
      notes := RangeErrors(arg.value, minArg, maxArg);
      err := err || notes != [];
    }
    if err {
      notes := notes + [Wrong(Take(str[percentStart..], i - percentStart))];
    }
  }

  class Format {
    var oss: seq<Output>

    /** process; the template that is left is returned. */
    method ProcessTurn(str: string, minArg: nat, maxArg: nat) returns (argument: Argument, rest: string)
      requires TurnFits(str)
      modifies this
      ensures var turn := Process(str, minArg, maxArg);
              rest == turn.rest && argument == turn.argument && oss == old(oss) + turn.output
    {
      var out, i, percentStart, arg, err, flags := WalkTemplate(str);
      var notes := FindErrors(str, i, percentStart, arg, err, flags, minArg, maxArg);
      oss := oss + ([Text(out)] + notes);
      if notes != [] {
        return NoArgument, "";
      }
      argument := if arg.Some? then Argument(arg.value, flags) else NoArgument;
      rest := str[i..];
    }

    /** One round of the consuming loop. */
    method Consume(fmt: string, maxArg: nat) returns (rest: string)
      requires fmt != "" && RunFits(fmt, maxArg)
      modifies this
      ensures RunFits(rest, maxArg)
      ensures |rest| < |fmt| && oss + Run(rest, maxArg) == old(oss) + Run(fmt, maxArg)
    {
      RunNext(fmt, maxArg);
      ghost var turn := Process(fmt, 1, maxArg);
      var argument;
      argument, rest := ProcessTurn(fmt, 1, maxArg);
      if argument.Argument? && 1 <= argument.n <= maxArg {
        oss := oss + [Put(argument.n, argument.flags)];
      }
      assert oss == old(oss) + TurnOutput(turn, maxArg);
      Regroup(old(oss), TurnOutput(turn, maxArg), Run(rest, maxArg));
    }

    /** The constructors, which differ in the number of arguments. */
    constructor (ca: string, maxArg: nat)
      requires RunFits(ca, maxArg)
      ensures oss == Run(ca, maxArg)
    {
      oss := [];
      new;
      var fmt := ca;
      while fmt != ""
        invariant RunFits(fmt, maxArg)
        invariant oss + Run(fmt, maxArg) == Run(ca, maxArg)
        decreases |fmt|
      {
        fmt := Consume(fmt, maxArg);
      }
    }
  }
}
