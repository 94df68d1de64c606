/** The command line parser: the argument splitter, the parse loop and the table it reads. */
module CmdLineParser {
  import opened Common
  import opened CmdLineOptions

  // ----- splitting one argument ----------------------------------------------------------

  datatype Kind = Invalid | Short | Long

  datatype Split = Split(kind: Kind, base: string, value: string, attached: bool)

  function SplitArgument(cfg: Config, option: string): Split {
    var cut := IndexOf(option, cfg.separator);
    var bare := option[..cut];
    var (value, attached) := if cut < |option| then (option[cut + 1..], true) else ("", false);
    if StartsWith(bare, cfg.longPrefix) && !(|bare| == 2 && cfg.Ambiguous()) then
      Split(Long, bare[|cfg.longPrefix|..], value, attached)
    else if StartsWith(bare, cfg.longPrefix) || (bare != "" && bare[0] == cfg.shortPrefix) then
      var base := if |bare| > 1 then [bare[1]] else "";
      // The value may follow the short switch directly, unless the separator comes next.
      if |option| > 2 && option[2] != cfg.separator then Split(Short, base, option[2..], true)
      else Split(Short, base, value, attached)
    else
      Split(Invalid, "", value, attached)
  }

  // ----- the parse loop as a function ----------------------------------------------------

  /** Values in the order given, by option id, and the arguments that are not options. */
  datatype Parsed = Parsed(options: map<int, seq<string>>, words: seq<string>)

  function Touch(p: Parsed, id: int): Parsed {
    if id in p.options then p else p.(options := p.options[id := []])
  }

  function AddValue(p: Parsed, id: int, value: string): Parsed {
    p.(options := p.options[id := (if id in p.options then p.options[id] else []) + [value]])
  }

  /** Which option the base of a split argument names. */
  function LookUp(cfg: Config, options: seq<Opt>, split: Split): nat {
    if split.kind == Long && split.base != "" then FindLong(cfg, options, split.base)
    else if split.kind == Short && split.base != "" then
      var i := FindShort(cfg, options, split.base[0]);
      if i == |options| && cfg.Ambiguous() then FindLong(cfg, options, split.base) else i
    else |options|
  }

  predicate LooksLikeSwitch(cfg: Config, arg: string) {
    arg != [cfg.shortPrefix] && (StartsWith(arg, cfg.longPrefix) || (arg != "" && arg[0] == cfg.shortPrefix))
  }

  /** The value of an option that takes one, and how many of the arguments after it that uses up. */
  function ValueFor(cfg: Config, o: Opt, split: Split, after: seq<string>): (r: Option<(string, nat)>)
    ensures r.Some? ==> r.value.1 <= 1 && r.value.1 <= |after|
  {
    if split.attached then Some((split.value, 0))
    else if after != [] && !LooksLikeSwitch(cfg, after[0]) then Some((after[0], 1))
    else if o.argType == OptionalArg && o.defaultValue.Some? then Some((o.defaultValue.value, 0))
    else None
  }

  datatype Round = Next(parsed: Parsed, used: nat) | Fail(error: Error)

  /** One round of the loop, on a non-empty rest of the arguments. */
  function ParseOne(cfg: Config, options: seq<Opt>, wordsAllowed: bool, args: seq<string>, p: Parsed): (r: Round)
    requires args != []
    ensures r.Next? ==> 1 <= r.used <= 2 && r.used <= |args|
  {
    ParseSplit(cfg, options, wordsAllowed, SplitArgument(cfg, args[0]), args, p)
  }

  function ParseSplit(cfg: Config, options: seq<Opt>, wordsAllowed: bool, split: Split, args: seq<string>, p: Parsed)
    : (r: Round)
    requires args != []
    ensures r.Next? ==> 1 <= r.used <= 2 && r.used <= |args|
  {
    if split.base == "" then
      if wordsAllowed then Next(p.(words := p.words + [args[0]]), 1) else Fail(InvalidNonOptionArg)
    else
      var i := LookUp(cfg, options, split);
      if i >= |options| then Fail(InvalidOption)
      else
        var o := options[i];
        if o.argType == NoArg then
          if split.attached then Fail(InvalidOption) else Next(Touch(p, o.id), 1)
        else
          match ValueFor(cfg, o, split, args[1..])
          case Some((value, used)) => Next(AddValue(p, o.id, value), 1 + used)
          case None => Fail(MissingArgument)
  }

  /** What the loop leaves behind, and the error it throws if it throws one. */
  function ParseAll(cfg: Config, options: seq<Opt>, wordsAllowed: bool, args: seq<string>, p: Parsed)
    : (Parsed, Option<Error>)
    decreases |args|
  {
    if args == [] then (p, None)
    else
      match ParseOne(cfg, options, wordsAllowed, args, p)
      case Next(p', used) => ParseAll(cfg, options, wordsAllowed, args[used..], p')
      case Fail(error) => (p, Some(error))
  }

  // ----- the parser object ---------------------------------------------------------------

  class CmdLineParser {
    const cfg: Config
    var options: seq<Opt>
    var lowestInternalID: int
    var parsedOptions: map<int, seq<string>>
    var nonOptionArgs: seq<string>

    /** Every table that the add methods can build. */
    ghost predicate Valid()
      reads this
    {
      NoClashes(cfg, options)
    }

    constructor (cfg: Config)
      ensures this.cfg == cfg && Valid() && options == [] && lowestInternalID == -1
      ensures parsedOptions == map[] && nonOptionArgs == []
    {
      this.cfg := cfg;
      options, lowestInternalID, parsedOptions, nonOptionArgs := [], -1, map[], [];
    }

    /** A refused option changes nothing. */
    method AddOptionWithID(o: Opt) returns (ok: bool)
      requires Valid()
      modifies this
      ensures Valid()
      ensures ok <==> IsAcceptable(cfg, old(options), o)
      ensures options == if ok then old(options) + [o] else old(options)
      ensures lowestInternalID == old(lowestInternalID)
      ensures parsedOptions == old(parsedOptions) && nonOptionArgs == old(nonOptionArgs)
    {
      ok := IsAcceptable(cfg, options, o);
      if ok {
        AcceptableDoesNotClash(cfg, options, o);
        options := options + [o];
      }
    }

    /** The parser picks the id: the next one down, used up only if the option is accepted. */
    method AddOption(o: Opt) returns (id: Option<int>)
      requires Valid()
      modifies this
      ensures Valid()
      ensures id.Some? <==> IsAcceptable(cfg, old(options), o)
      ensures id.Some? ==> id.value == lowestInternalID == old(lowestInternalID) - 1
      ensures id.None? ==> lowestInternalID == old(lowestInternalID)
      ensures options == if id.Some? then old(options) + [o.(id := id.value)] else old(options)
    {
      var ok := AddOptionWithID(o.(id := lowestInternalID - 1));
      if !ok {
        return None;
      }
      lowestInternalID := lowestInternalID - 1;
      id := Some(lowestInternalID);
    }

    /** The value of the option at argv, and the last argument it took. */
    method TakeValue(o: Opt, split: Split, args: seq<string>, argv: nat) returns (value: Option<string>, last: nat)
      requires argv < |args|
      ensures match ValueFor(cfg, o, split, args[argv + 1..])
              case Some((v, used)) => value == Some(v) && last == argv + used
              case None => value == None
    {
      value, last := Some(split.value), argv;
      var defaultRequired := false;
      if !split.attached {
        if argv + 1 == |args| {
          defaultRequired := true;
        } else if !LooksLikeSwitch(cfg, args[argv + 1]) {
          last := argv + 1;
          value := Some(args[last]);
        } else {
          defaultRequired := true;
        }
      }
      if defaultRequired {
        value := if o.argType == OptionalArg then o.defaultValue else None;
      }
    }

    /** The body of the loop, on the argument at argv. An argument that throws records nothing. */
    method ParseArgument(args: seq<string>, argv: nat, wordsAllowed: bool) returns (error: Option<Error>, last: nat)
      requires argv < |args|
      modifies this`parsedOptions, this`nonOptionArgs
      ensures match ParseOne(cfg, options, wordsAllowed, args[argv..], old(Parsed(parsedOptions, nonOptionArgs)))
              case Next(p, used) => error == None && Parsed(parsedOptions, nonOptionArgs) == p && last == argv + used - 1
              case Fail(e) => error == Some(e) && unchanged(this)
    {
      error, last := None, argv;
      assert args[argv..][1..] == args[argv + 1..];
      var split := SplitArgument(cfg, args[argv]);
      if split.base == "" {
        if !wordsAllowed {
          return Some(InvalidNonOptionArg), argv;
        }
        nonOptionArgs := nonOptionArgs + [args[argv]];
        return;
      }
      var i := LookUp(cfg, options, split);
      if i >= |options| {
        return Some(InvalidOption), argv;
      }
      var o := options[i];
      if o.argType == NoArg {
        if split.attached {
          return Some(InvalidOption), argv;
        }
        if o.id !in parsedOptions {
          parsedOptions := parsedOptions[o.id := []];
        }
        return;
      }
      var value;
      value, last := TakeValue(o, split, args, argv);
      if value.None? {
        return Some(MissingArgument), argv;
      }
      var values := if o.id in parsedOptions then parsedOptions[o.id] else [];
      parsedOptions := parsedOptions[o.id := values + [value.value]];
    }

    /** parseCmdLine: the first argument is the program's name. */
    method Parse(args: seq<string>, wordsAllowed: bool) returns (error: Option<Error>)
      requires args != []
      modifies this`parsedOptions, this`nonOptionArgs
      ensures (Parsed(parsedOptions, nonOptionArgs), error) ==
              ParseAll(cfg, options, wordsAllowed, args[1..], Parsed(map[], []))
    {
      parsedOptions, nonOptionArgs := map[], [];
      var argv := 1;
      error := None;
      while argv < |args|
        invariant 1 <= argv <= |args|
        invariant error == None
        invariant ParseAll(cfg, options, wordsAllowed, args[argv..], Parsed(parsedOptions, nonOptionArgs)) ==
                  ParseAll(cfg, options, wordsAllowed, args[1..], Parsed(map[], []))
      {
        ghost var start := argv;
        error, argv := ParseArgument(args, argv, wordsAllowed);
        if error.Some? {
          return;
        }
        argv := argv + 1;
        assert args[start..][argv - start..] == args[argv..];
      }
    }
  }

  // ----- both lookups agree --------------------------------------------------------------

  lemma SplitOfSwitch(cfg: Config, switch: string)
    requires IsSwitch(cfg, switch) && cfg.separator !in switch
    ensures var split := SplitArgument(cfg, switch);
            && !split.attached
            && if StartsWith(switch, cfg.longPrefix) && !(|switch| == 2 && cfg.Ambiguous())
               then split.kind == Long && split.base == switch[|cfg.longPrefix|..]
               else split.kind == Short && split.base == [switch[1]]
  {
    assert IndexOf(switch, cfg.separator) == |switch|;
    assert switch[..|switch|] == switch;
  }

  lemma LookUpAnswersUncut(cfg: Config, options: seq<Opt>, switch: string)
    requires IsSwitch(cfg, switch) && cfg.separator !in switch
    ensures FindsAnswer(cfg, options, switch, LookUp(cfg, options, SplitArgument(cfg, switch)))
  {
    SplitOfSwitch(cfg, switch);
    assert cfg.Ambiguous() && |switch| == 2 ==> switch[|cfg.longPrefix|..] == [switch[1]];
  }

  /** The index is that of an option that answers to the switch, or the size because none does. */
  ghost predicate FindsAnswer(cfg: Config, options: seq<Opt>, switch: string, i: nat) {
    if i < |options| then AnswersTo(cfg, options[i], switch)
    else forall k :: 0 <= k < |options| ==> !AnswersTo(cfg, options[k], switch)
  }

  /** The same option, or none. */
  predicate Agree(options: seq<Opt>, i: nat, j: nat) {
    if i < |options| then j == i else j >= |options|
  }

  /** Options whose names contain the separator can be added, but the splitter cuts the switch there. It
      takes the first part for a short switch where the prefixes are the same and two characters are left,
      or where the cut is inside the long prefix. */
  predicate CutIsShort(cfg: Config, switch: string) {
    var cut := IndexOf(switch, cfg.separator);
    && 2 <= cut < |switch| && switch[0] == cfg.shortPrefix
    && if cfg.Ambiguous() then cut == 2 else cut < |cfg.longPrefix|
  }

  /** One option has the first part for its short name and the whole for its long one. */
  ghost predicate OneHasBothNames(cfg: Config, options: seq<Opt>, switch: string)
    requires |switch| > 1 && |switch| >= |cfg.longPrefix|
  {
    exists k :: 0 <= k < |options| && ShortMatches(cfg, switch[1], options[k]) &&
                LongMatches(cfg, switch[|cfg.longPrefix|..], options[k])
  }

  lemma MatchingLengths(cfg: Config, name: string, o: Opt)
    requires LongMatches(cfg, name, o)
    ensures |o.longopt| == |name|
  {
    assert |UpperAll(name)| == |name| && |UpperAll(o.longopt)| == |o.longopt|;
  }

  /** The option that the parse loop finds for a switch that is cut has a name shorter than the switch. */
  lemma CutFindsShorter(cfg: Config, options: seq<Opt>, switch: string)
    requires IsSwitch(cfg, switch) && cfg.separator in switch && !CutIsShort(cfg, switch)
    ensures var i := LookUp(cfg, options, SplitArgument(cfg, switch));
            i < |options| ==> StartsWith(switch, cfg.longPrefix) &&
                              0 < |options[i].longopt| < |switch| - |cfg.longPrefix|
  {
    var cut := IndexOf(switch, cfg.separator);
    var bare := switch[..cut];
    var split := SplitArgument(cfg, switch);
    var i := LookUp(cfg, options, split);
    CutPrefix(cfg, switch);
    if i < |options| {
      assert split.kind == Long && split.base == bare[|cfg.longPrefix|..];
      MatchingLengths(cfg, split.base, options[i]);
    }
  }

  lemma CutPrefix(cfg: Config, switch: string)
    requires IsSwitch(cfg, switch) && cfg.separator in switch
    ensures var cut := IndexOf(switch, cfg.separator);
            && cut < |switch|
            && (StartsWith(switch[..cut], cfg.longPrefix) <==>
                StartsWith(switch, cfg.longPrefix) && |cfg.longPrefix| <= cut)
  {
    var cut := IndexOf(switch, cfg.separator);
    assert switch[..|switch|] == switch;
    if |cfg.longPrefix| <= cut {
      assert switch[..cut][..|cfg.longPrefix|] == switch[..|cfg.longPrefix|];
    }
  }

  lemma CutFindsShort(cfg: Config, options: seq<Opt>, switch: string)
    requires IsSwitch(cfg, switch) && CutIsShort(cfg, switch)
    ensures StartsWith(switch, cfg.longPrefix) && |switch| > 2
    ensures var i, short := LookUp(cfg, options, SplitArgument(cfg, switch)), FindShort(cfg, options, switch[1]);
            if short < |options| then i == short else i < |options| ==> |options[i].longopt| == 1
  {
    var cut := IndexOf(switch, cfg.separator);
    var split := SplitArgument(cfg, switch);
    assert switch[cut] == cfg.separator;
    CutPrefix(cfg, switch);
    assert split.kind == Short && split.base == [switch[1]];
    if LookUp(cfg, options, split) < |options| && FindShort(cfg, options, switch[1]) == |options| {
      MatchingLengths(cfg, split.base, options[LookUp(cfg, options, split)]);
    }
  }

  /** A long switch of more than one character is answered by its name alone. */
  lemma LongAnswer(cfg: Config, o: Opt, switch: string)
    requires StartsWith(switch, cfg.longPrefix) && AnswersTo(cfg, o, switch)
    ensures LongMatches(cfg, switch[|cfg.longPrefix|..], o) || (|switch| == 2 && cfg.Ambiguous())
  {
  }

  lemma SameShort(cfg: Config, options: seq<Opt>, c: char, k: nat)
    requires NoClashes(cfg, options) && c != NUL && k < |options| && ShortMatches(cfg, c, options[k])
    ensures FindShort(cfg, options, c) == k
  {
    var i := FindShort(cfg, options, c);
    if i < k {
      assert Clash(cfg, options[i], options[k]);
    }
  }

  lemma SameLong(cfg: Config, options: seq<Opt>, name: string, k: nat)
    requires NoClashes(cfg, options) && name != "" && k < |options| && LongMatches(cfg, name, options[k])
    ensures FindLong(cfg, options, name) == k
  {
    var i := FindLong(cfg, options, name);
    if i < k {
      MatchingLengths(cfg, name, options[i]);
      MatchingLengths(cfg, name, options[k]);
      assert Clash(cfg, options[i], options[k]);
    }
  }

  lemma CutShortAgrees(cfg: Config, options: seq<Opt>, switch: string)
    requires NoClashes(cfg, options) && IsSwitch(cfg, switch) && NUL !in switch && CutIsShort(cfg, switch)
    ensures var i, j := LookUp(cfg, options, SplitArgument(cfg, switch)), OptionIndex(cfg, options, switch);
            Agree(options, i, j) <==> (i >= |options| && j >= |options|) || OneHasBothNames(cfg, options, switch)
  {
    var i, j := LookUp(cfg, options, SplitArgument(cfg, switch)), OptionIndex(cfg, options, switch);
    var name := switch[|cfg.longPrefix|..];
    CutFindsShort(cfg, options, switch);
    if OneHasBothNames(cfg, options, switch) {
      var k :| 0 <= k < |options| && ShortMatches(cfg, switch[1], options[k]) && LongMatches(cfg, name, options[k]);
      SameShort(cfg, options, switch[1], k);
      SameLong(cfg, options, name, k);
    }
    if i < |options| && j == i {
      MatchingLengths(cfg, name, options[j]);
      assert ShortMatches(cfg, switch[1], options[i]) && LongMatches(cfg, name, options[i]);
    }
  }

  /** When the lookups agree: getOptionID tries long switches first and the parse loop short ones, yet in a
      table that the add methods built they resolve every switch without the separator to the same option,
      or both to none. A switch that contains the separator they resolve differently, unless neither finds
      an option or one option has both names. All prefixes are covered, ambiguous ones and those that
      contain the separator included. */
  lemma LookupsAgreeExactly(cfg: Config, options: seq<Opt>, switch: string)
    requires NoClashes(cfg, options) && IsSwitch(cfg, switch) && NUL !in switch
    ensures var i, j := LookUp(cfg, options, SplitArgument(cfg, switch)), OptionIndex(cfg, options, switch);
            Agree(options, i, j) <==>
              || cfg.separator !in switch
              || (i >= |options| && j >= |options|)
              || (CutIsShort(cfg, switch) && OneHasBothNames(cfg, options, switch))
  {
    var i, j := LookUp(cfg, options, SplitArgument(cfg, switch)), OptionIndex(cfg, options, switch);
    OptionIndexAnswers(cfg, options, switch);
    if cfg.separator !in switch {
      LookUpAnswersUncut(cfg, options, switch);
      if i < |options| && j < |options| {
        AtMostOneAnswers(cfg, options, switch, i, j);
      }
    } else if CutIsShort(cfg, switch) {
      CutShortAgrees(cfg, options, switch);
    } else {
      CutFindsShorter(cfg, options, switch);
      if i < |options| && j == i {
        LongAnswer(cfg, options[j], switch);
        if LongMatches(cfg, switch[|cfg.longPrefix|..], options[j]) {
          MatchingLengths(cfg, switch[|cfg.longPrefix|..], options[j]);
        }
        assert false;
      }
    }
  }

  /** With unambiguous prefixes that do not contain the separator there is no such option: a switch with
      the separator is resolved alike only where neither finds anything. */
  lemma LookupsAgreeForPlainPrefixes(cfg: Config, options: seq<Opt>, switch: string)
    requires NoClashes(cfg, options) && IsSwitch(cfg, switch) && NUL !in switch
    requires !cfg.Ambiguous() && cfg.separator != cfg.shortPrefix && cfg.separator !in cfg.longPrefix
    ensures var i, j := LookUp(cfg, options, SplitArgument(cfg, switch)), OptionIndex(cfg, options, switch);
            Agree(options, i, j) <==> cfg.separator !in switch || (i >= |options| && j >= |options|)
  {
    LookupsAgreeExactly(cfg, options, switch);
    if CutIsShort(cfg, switch) {
      CutFindsShort(cfg, options, switch);
      CutInsidePrefix(cfg, switch);
    }
  }

  lemma CutInsidePrefix(cfg: Config, switch: string)
    requires StartsWith(switch, cfg.longPrefix) && IndexOf(switch, cfg.separator) < |cfg.longPrefix|
    ensures cfg.separator in cfg.longPrefix
  {
    assert switch[..|cfg.longPrefix|][IndexOf(switch, cfg.separator)] == cfg.separator;
  }

  /** The parse loop finds the option that answers to a switch, if there is one, exactly where it agrees
      with getOptionID. */
  lemma LookUpAnswers(cfg: Config, options: seq<Opt>, switch: string)
    requires NoClashes(cfg, options) && IsSwitch(cfg, switch) && NUL !in switch
    ensures var i, j := LookUp(cfg, options, SplitArgument(cfg, switch)), OptionIndex(cfg, options, switch);
            FindsAnswer(cfg, options, switch, i) <==>
              || cfg.separator !in switch
              || (i >= |options| && j >= |options|)
              || (CutIsShort(cfg, switch) && OneHasBothNames(cfg, options, switch))
  {
    var i, j := LookUp(cfg, options, SplitArgument(cfg, switch)), OptionIndex(cfg, options, switch);
    LookupsAgreeExactly(cfg, options, switch);
    OptionIndexAnswers(cfg, options, switch);
    if i < |options| && j < |options| && AnswersTo(cfg, options[i], switch) {
      AtMostOneAnswers(cfg, options, switch, i, j);
    }
  }

  /** The id that the parse loop records under, for comparison with what getOptionID returns. */
  function ParsedID(cfg: Config, options: seq<Opt>, switch: string): Lookup {
    var i := LookUp(cfg, options, SplitArgument(cfg, switch));
    if i < |options| then Id(options[i].id) else Failed(InvalidOption)
  }

  ghost predicate DistinctIDs(options: seq<Opt>) {
    forall i, j :: 0 <= i < j < |options| ==> options[i].id != options[j].id
  }

  /** The ids are the same for every switch without the separator; and where the table's ids are distinct,
      for those switches only on which the lookups agree. */
  lemma IDsAgree(cfg: Config, options: seq<Opt>, switch: string)
    requires NoClashes(cfg, options) && IsSwitch(cfg, switch) && NUL !in switch
    ensures cfg.separator !in switch ==> GetOptionID(cfg, options, switch) == ParsedID(cfg, options, switch)
    ensures var i, j := LookUp(cfg, options, SplitArgument(cfg, switch)), OptionIndex(cfg, options, switch);
            DistinctIDs(options) ==>
              (GetOptionID(cfg, options, switch) == ParsedID(cfg, options, switch) <==> Agree(options, i, j))
  {
    LookupsAgreeExactly(cfg, options, switch);
  }

  /** An option that the table takes, and that getOptionID finds, but the command line cannot name: with
      the prefixes '-' and "--", the short name '='. */
  lemma SeparatorSwitchDiffers()
    ensures var cfg, o := Config('-', "--", '=', true), Opt(1, '=', "", NoArg, None);
            && IsAcceptable(cfg, [], o) && IsSwitch(cfg, "-=")
            && GetOptionID(cfg, [o], "-=") == Id(1)
            && ParsedID(cfg, [o], "-=") == Failed(InvalidOption)
            && SplitArgument(cfg, "-=").base == ""
  {
    var cfg, o := Config('-', "--", '=', true), Opt(1, '=', "", NoArg, None);
    assert IndexOf("-=", '=') == 1 && "-="[..1] == "-";
  }

  // ----- what a throw leaves behind ------------------------------------------------------

  const NO_RESULTS: Parsed := Parsed(map[], [])

  predicate HasResults(p: Parsed) {
    p.options != map[] || p.words != []
  }

  /** The strong guarantee for one call: if it throws, the results of the call before are still there. */
  predicate KeepsResults(cfg: Config, options: seq<Opt>, wordsAllowed: bool, args: seq<string>, before: Parsed) {
    var (after, error) := ParseAll(cfg, options, wordsAllowed, args, NO_RESULTS);
    error.Some? ==> after == before
  }

  /** parse clears the results first, so it keeps whatever was there exactly if it does not throw. */
  lemma KeepsAllResultsExactly(cfg: Config, options: seq<Opt>, wordsAllowed: bool, args: seq<string>)
    ensures (forall before :: KeepsResults(cfg, options, wordsAllowed, args, before)) <==>
            ParseAll(cfg, options, wordsAllowed, args, NO_RESULTS).1 == None
  {
    var (after, error) := ParseAll(cfg, options, wordsAllowed, args, NO_RESULTS);
    if error.Some? {
      var other := after.(words := after.words + ["x"]);
      assert |other.words| != |after.words|;
      assert !KeepsResults(cfg, options, wordsAllowed, args, other);
    }
  }

  lemma RoundRecords(cfg: Config, options: seq<Opt>, wordsAllowed: bool, args: seq<string>, p: Parsed)
    requires args != [] && ParseOne(cfg, options, wordsAllowed, args, p).Next?
    ensures HasResults(ParseOne(cfg, options, wordsAllowed, args, p).parsed)
  {
    var q := ParseOne(cfg, options, wordsAllowed, args, p).parsed;
    if q.words == [] {
      var id := options[LookUp(cfg, options, SplitArgument(cfg, args[0]))].id;
      assert id in q.options;
    }
  }

  lemma {:induction false} ResultsStay(cfg: Config, options: seq<Opt>, wordsAllowed: bool, args: seq<string>, p: Parsed)
    requires HasResults(p)
    ensures HasResults(ParseAll(cfg, options, wordsAllowed, args, p).0)
    decreases |args|
  {
    if args != [] {
      var r := ParseOne(cfg, options, wordsAllowed, args, p);
      if r.Next? {
        RoundRecords(cfg, options, wordsAllowed, args, p);
        ResultsStay(cfg, options, wordsAllowed, args[r.used..], r.parsed);
      }
    }
  }

  /** A parser without results is left as it was exactly if the call succeeds or the first argument is the
      one that is refused. */
  lemma KeepsNoResultsExactly(cfg: Config, options: seq<Opt>, wordsAllowed: bool, args: seq<string>)
    ensures KeepsResults(cfg, options, wordsAllowed, args, NO_RESULTS) <==>
            || ParseAll(cfg, options, wordsAllowed, args, NO_RESULTS).1 == None
            || (args != [] && ParseOne(cfg, options, wordsAllowed, args, NO_RESULTS).Fail?)
  {
    if args != [] {
      var r := ParseOne(cfg, options, wordsAllowed, args, NO_RESULTS);
      if r.Next? {
        RoundRecords(cfg, options, wordsAllowed, args, NO_RESULTS);
        ResultsStay(cfg, options, wordsAllowed, args[r.used..], r.parsed);
      }
    }
  }
}
