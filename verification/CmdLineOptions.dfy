/** The option table of the command line parser: what an option is, how switches match options, the
    checks made before an option is added, and the lookup of an option by its switch. */
module CmdLineOptions {
  import opened Common

  datatype ArgType = NoArg | RequiredArg | OptionalArg | Grouping

  /** '\0' and "" stand for no short and no long switch. */
  datatype Opt = Opt(id: int, shortopt: char, longopt: string, argType: ArgType, defaultValue: Option<string>)

  datatype Config = Config(shortPrefix: char, longPrefix: string, separator: char, caseSensitive: bool) {
    /** The short and the long prefix are the same character. */
    predicate Ambiguous() {
      |longPrefix| == 1 && longPrefix[0] == shortPrefix
    }
  }

  datatype Error = InvalidOption | MissingArgument | InvalidNonOptionArg | MissingOption

  // ----- strings -------------------------------------------------------------------------

  const NUL: char := '\0'

  predicate StartsWith(s: string, prefix: string) {
    |prefix| <= |s| && s[..|prefix|] == prefix
  }

  function Upper(c: char): char {
    if 'a' <= c <= 'z' then 'A' + (c - 'a') else c
  }

  function UpperAll(s: string): (u: string)
    ensures |u| == |s|
    ensures forall i :: 0 <= i < |s| ==> u[i] == Upper(s[i])
  {
    if s == "" then "" else [Upper(s[0])] + UpperAll(s[1..])
  }

  const LOWER: string := "abcdefghijklmnopqrstuvwxyz"
  const UPPER: string := "ABCDEFGHIJKLMNOPQRSTUVWXYZ"

  /** The letters without accents have an upper case, and nothing else has. */
  lemma UpperIsUpper(c: char)
    ensures forall i :: 0 <= i < 26 ==> Upper(LOWER[i]) == UPPER[i]
    ensures c !in LOWER ==> Upper(c) == c
  {
    if 'a' <= c <= 'z' {
      var i := c as int - 'a' as int;
      assert LOWER[i] == c;
    }
  }

  // ----- matching ------------------------------------------------------------------------

  predicate LongMatches(cfg: Config, name: string, o: Opt) {
    if cfg.caseSensitive then name == o.longopt else UpperAll(name) == UpperAll(o.longopt)
  }

  predicate ShortMatches(cfg: Config, c: char, o: Opt) {
    if cfg.caseSensitive then c == o.shortopt else Upper(c) == Upper(o.shortopt)
  }

  /** find_if: the index of the first match, or the size. */
  function FindLong(cfg: Config, options: seq<Opt>, name: string): (i: nat)
    ensures i <= |options|
    ensures forall k :: 0 <= k < i ==> !LongMatches(cfg, name, options[k])
    ensures i < |options| ==> LongMatches(cfg, name, options[i])
  {
    if options == [] || LongMatches(cfg, name, options[0]) then 0 else 1 + FindLong(cfg, options[1..], name)
  }

  function FindShort(cfg: Config, options: seq<Opt>, c: char): (i: nat)
    ensures i <= |options|
    ensures forall k :: 0 <= k < i ==> !ShortMatches(cfg, c, options[k])
    ensures i < |options| ==> ShortMatches(cfg, c, options[i])
  {
    if options == [] || ShortMatches(cfg, c, options[0]) then 0 else 1 + FindShort(cfg, options[1..], c)
  }

  // ----- adding options ------------------------------------------------------------------

  /** verifyOptionValidity: may the option join the table? */
  predicate IsAcceptable(cfg: Config, options: seq<Opt>, o: Opt) {
    var n := |options|;
    && (if o.argType == Grouping then o.longopt == "" && o.shortopt == NUL else o.longopt != "" || o.shortopt != NUL)
    && (o.longopt != "" ==>
          && FindLong(cfg, options, o.longopt) == n
          && (cfg.Ambiguous() && |o.longopt| == 1 ==> FindShort(cfg, options, o.longopt[0]) == n))
    && (o.shortopt != NUL ==>
          && FindShort(cfg, options, o.shortopt) == n
          && (cfg.Ambiguous() ==>
                && FindLong(cfg, options, [o.shortopt]) == n
                && !(|o.longopt| == 1 && o.longopt[0] == o.shortopt)))
    && (o.argType == OptionalArg ==> o.defaultValue.Some?)
  }

  /** Could one and the same switch mean either option? */
  predicate Clash(cfg: Config, o: Opt, p: Opt) {
    || (o.longopt != "" && p.longopt != "" && LongMatches(cfg, o.longopt, p))
    || (o.shortopt != NUL && p.shortopt != NUL && ShortMatches(cfg, o.shortopt, p))
    || (cfg.Ambiguous() && |o.longopt| == 1 && p.shortopt != NUL && ShortMatches(cfg, o.longopt[0], p))
    || (cfg.Ambiguous() && |p.longopt| == 1 && o.shortopt != NUL && ShortMatches(cfg, p.longopt[0], o))
  }

  ghost predicate NoClashes(cfg: Config, options: seq<Opt>) {
    forall i, j :: 0 <= i < j < |options| ==> !Clash(cfg, options[i], options[j])
  }

  lemma AcceptableDoesNotClash(cfg: Config, options: seq<Opt>, o: Opt)
    requires NoClashes(cfg, options) && IsAcceptable(cfg, options, o)
    ensures NoClashes(cfg, options + [o])
  {
    forall i | 0 <= i < |options| ensures !Clash(cfg, options[i], o) {
      var p := options[i];
      if cfg.Ambiguous() && |p.longopt| == 1 && o.shortopt != NUL {
        assert !LongMatches(cfg, [o.shortopt], p);
        assert UpperAll(p.longopt)[0] == Upper(p.longopt[0]) && UpperAll([o.shortopt])[0] == Upper(o.shortopt);
      }
    }
  }

  /** A grouping has no names, any other option has one at least, and an optional value has a default. */
  predicate HasRightForm(o: Opt) {
    && (o.argType == Grouping <==> o.longopt == "" && o.shortopt == NUL)
    && (o.argType == OptionalArg ==> o.defaultValue.Some?)
  }

  /** With ambiguous prefixes the names are one and the same switch. */
  predicate ConflictsWithItself(cfg: Config, o: Opt) {
    cfg.Ambiguous() && o.shortopt != NUL && o.longopt == [o.shortopt]
  }

  /** A long name of just the character that stands for no short name is taken to be the short name of every
      option without one. */
  predicate TakenForNone(cfg: Config, options: seq<Opt>, o: Opt) {
    cfg.Ambiguous() && o.longopt == [NUL] && exists p :: p in options && p.shortopt == NUL
  }

  /** The check accepts just the options of the right form that clash with none in the table. */
  lemma AcceptedExactly(cfg: Config, options: seq<Opt>, o: Opt)
    ensures IsAcceptable(cfg, options, o) <==>
            && HasRightForm(o) && !ConflictsWithItself(cfg, o) && !TakenForNone(cfg, options, o)
            && forall p :: p in options ==> !Clash(cfg, p, o)
  {
    if o.longopt != "" {
      LongIsFree(cfg, options, o);
      if cfg.Ambiguous() && |o.longopt| == 1 {
        LongIsNoShort(cfg, options, o);
      }
    }
    if o.shortopt != NUL {
      ShortIsFree(cfg, options, o);
      if cfg.Ambiguous() {
        ShortIsNoLong(cfg, options, o);
      }
    }
  }

  lemma LongIsFree(cfg: Config, options: seq<Opt>, o: Opt)
    requires o.longopt != ""
    ensures FindLong(cfg, options, o.longopt) == |options| <==>
            forall p :: p in options ==> !(p.longopt != "" && LongMatches(cfg, p.longopt, o))
  {
    if FindLong(cfg, options, o.longopt) < |options| {
      var p := options[FindLong(cfg, options, o.longopt)];
      assert p in options && |UpperAll(p.longopt)| == |p.longopt| && |UpperAll(o.longopt)| == |o.longopt|;
    }
  }

  lemma ShortIsFree(cfg: Config, options: seq<Opt>, o: Opt)
    requires o.shortopt != NUL
    ensures FindShort(cfg, options, o.shortopt) == |options| <==>
            forall p :: p in options ==> !(p.shortopt != NUL && ShortMatches(cfg, p.shortopt, o))
  {
    if FindShort(cfg, options, o.shortopt) < |options| {
      var p := options[FindShort(cfg, options, o.shortopt)];
      assert p in options && p.shortopt != NUL;
    }
  }

  lemma LongIsNoShort(cfg: Config, options: seq<Opt>, o: Opt)
    requires |o.longopt| == 1
    ensures FindShort(cfg, options, o.longopt[0]) == |options| <==>
            && (forall p :: p in options ==> !(p.shortopt != NUL && ShortMatches(cfg, o.longopt[0], p)))
            && !(o.longopt == [NUL] && exists p :: p in options && p.shortopt == NUL)
  {
    if FindShort(cfg, options, o.longopt[0]) < |options| {
      var p := options[FindShort(cfg, options, o.longopt[0])];
      assert p in options && (p.shortopt == NUL ==> o.longopt[0] == NUL);
    }
  }

  lemma ShortIsNoLong(cfg: Config, options: seq<Opt>, o: Opt)
    requires o.shortopt != NUL
    ensures FindLong(cfg, options, [o.shortopt]) == |options| <==>
            forall p :: p in options ==> !(|p.longopt| == 1 && ShortMatches(cfg, p.longopt[0], o))
  {
    forall p ensures LongMatches(cfg, [o.shortopt], p) <==> |p.longopt| == 1 && ShortMatches(cfg, p.longopt[0], o) {
      assert |UpperAll(p.longopt)| == |p.longopt| && |UpperAll([o.shortopt])| == 1;
      if |p.longopt| == 1 {
        assert UpperAll(p.longopt) == [Upper(p.longopt[0])] && UpperAll([o.shortopt]) == [Upper(o.shortopt)];
        assert p.longopt == [p.longopt[0]];
      }
    }
    if FindLong(cfg, options, [o.shortopt]) < |options| {
      assert options[FindLong(cfg, options, [o.shortopt])] in options;
    }
  }

  /** Does the option answer to this switch, given without a value? */
  predicate AnswersTo(cfg: Config, o: Opt, switch: string) {
    || (StartsWith(switch, cfg.longPrefix) && |switch| > |cfg.longPrefix| &&
        LongMatches(cfg, switch[|cfg.longPrefix|..], o))
    || (|switch| == 2 && switch[0] == cfg.shortPrefix &&
        (!StartsWith(switch, cfg.longPrefix) || cfg.Ambiguous()) && ShortMatches(cfg, switch[1], o))
  }

  /** No switch means two options, in either case mode and even when the prefixes are the same. */
  lemma AtMostOneAnswers(cfg: Config, options: seq<Opt>, switch: string, i: nat, j: nat)
    requires NoClashes(cfg, options) && NUL !in switch
    requires i < |options| && j < |options|
    requires AnswersTo(cfg, options[i], switch) && AnswersTo(cfg, options[j], switch)
    ensures i == j
  {
    if i < j {
      AnsweringClash(cfg, options[i], options[j], switch);
    } else if j < i {
      AnsweringClash(cfg, options[j], options[i], switch);
    }
  }

  lemma AnsweringClash(cfg: Config, o: Opt, p: Opt, switch: string)
    requires NUL !in switch && AnswersTo(cfg, o, switch) && AnswersTo(cfg, p, switch)
    ensures Clash(cfg, o, p)
  {
    var rest := if StartsWith(switch, cfg.longPrefix) then switch[|cfg.longPrefix|..] else "";
    assert |rest| == 1 ==> UpperAll(rest)[0] == Upper(rest[0]);
    assert |o.longopt| == 1 ==> UpperAll(o.longopt)[0] == Upper(o.longopt[0]);
    assert |p.longopt| == 1 ==> UpperAll(p.longopt)[0] == Upper(p.longopt[0]);
    assert |UpperAll(rest)| == |rest| && |UpperAll(o.longopt)| == |o.longopt| && |UpperAll(p.longopt)| == |p.longopt|;
  }

  /** Is there a switch for this short name, or would it be taken for a long prefix? */
  predicate HasSwitch(cfg: Config, c: char) {
    cfg.Ambiguous() || !StartsWith([cfg.shortPrefix, c], cfg.longPrefix)
  }

  /** Options clash only if some switch means both. */
  lemma ClashIsOneSwitch(cfg: Config, o: Opt, p: Opt)
    requires Clash(cfg, o, p) && (o.shortopt != NUL ==> HasSwitch(cfg, o.shortopt))
    ensures exists switch :: AnswersTo(cfg, o, switch) && AnswersTo(cfg, p, switch)
  {
    var long, short := cfg.longPrefix + o.longopt, [cfg.shortPrefix, o.shortopt];
    var other := cfg.longPrefix + p.longopt;
    assert long[..|cfg.longPrefix|] == cfg.longPrefix && long[|cfg.longPrefix|..] == o.longopt;
    assert other[..|cfg.longPrefix|] == cfg.longPrefix && other[|cfg.longPrefix|..] == p.longopt;
    if o.longopt != "" && p.longopt != "" && LongMatches(cfg, o.longopt, p) {
      assert AnswersTo(cfg, o, long) && AnswersTo(cfg, p, long);
    } else if o.shortopt != NUL && p.shortopt != NUL && ShortMatches(cfg, o.shortopt, p) {
      assert AnswersTo(cfg, o, short) && AnswersTo(cfg, p, short);
    } else if |o.longopt| == 1 && p.shortopt != NUL && ShortMatches(cfg, o.longopt[0], p) {
      assert AnswersTo(cfg, o, long) && AnswersTo(cfg, p, long);
    } else {
      assert AnswersTo(cfg, o, other) && AnswersTo(cfg, p, other);
    }
  }

  // ----- getOptionID ---------------------------------------------------------------------

  /** Where getOptionID looks: the index of the option, or the size of the table. Options may also be
      named without their prefix. */
  function OptionIndex(cfg: Config, options: seq<Opt>, option: string): nat {
    var n := |options|;
    if StartsWith(option, cfg.longPrefix) then
      if |option| > |cfg.longPrefix| then
        var i := FindLong(cfg, options, option[|cfg.longPrefix|..]);
        if i == n && cfg.Ambiguous() && |option| == 2 then FindShort(cfg, options, option[1]) else i
      else n
    else if option != "" && option[0] == cfg.shortPrefix then
      if |option| == 2 then FindShort(cfg, options, option[1]) else n
    else if |option| > 1 then FindLong(cfg, options, option)
    else if |option| == 1 then FindShort(cfg, options, option[0])
    else n
  }

  datatype Lookup = Id(id: int) | Failed(error: Error)

  function GetOptionID(cfg: Config, options: seq<Opt>, option: string): Lookup {
    if option == "" then Failed(MissingOption)
    else
      var i := OptionIndex(cfg, options, option);
      if i < |options| then Id(options[i].id) else Failed(InvalidOption)
  }

  /** A long switch with a name, or a short switch with its one character. */
  predicate IsSwitch(cfg: Config, switch: string) {
    if StartsWith(switch, cfg.longPrefix) then |switch| > |cfg.longPrefix|
    else |switch| == 2 && switch[0] == cfg.shortPrefix
  }

  /** getOptionID finds an option that answers to the switch, if the table has one. */
  lemma OptionIndexAnswers(cfg: Config, options: seq<Opt>, switch: string)
    requires IsSwitch(cfg, switch)
    ensures var i := OptionIndex(cfg, options, switch);
            if i < |options| then AnswersTo(cfg, options[i], switch)
            else forall k :: 0 <= k < |options| ==> !AnswersTo(cfg, options[k], switch)
  {
  }

  /** A name without its prefix finds what the switch finds: a long one, or a single character as a short one. */
  lemma NamedWithoutPrefix(cfg: Config, options: seq<Opt>, name: string)
    requires name != "" && !StartsWith(name, cfg.longPrefix) && name[0] != cfg.shortPrefix
    ensures |name| > 1 ==> OptionIndex(cfg, options, name) == OptionIndex(cfg, options, cfg.longPrefix + name)
    ensures |name| == 1 && !StartsWith([cfg.shortPrefix] + name, cfg.longPrefix) ==>
              OptionIndex(cfg, options, name) == OptionIndex(cfg, options, [cfg.shortPrefix] + name)
    ensures |name| == 1 ==>
              var i := OptionIndex(cfg, options, name);
              if i < |options| then ShortMatches(cfg, name[0], options[i])
              else forall o :: o in options ==> !ShortMatches(cfg, name[0], o)
  {
    assert (cfg.longPrefix + name)[|cfg.longPrefix|..] == name;
    assert (cfg.longPrefix + name)[..|cfg.longPrefix|] == cfg.longPrefix;
  }

  /** An empty name is reported as missing, and one that is not found as invalid. */
  lemma LookupErrors(cfg: Config, options: seq<Opt>, option: string)
    ensures GetOptionID(cfg, options, "") == Failed(MissingOption)
    ensures option != "" ==>
              (GetOptionID(cfg, options, option) == Failed(InvalidOption) <==>
               OptionIndex(cfg, options, option) >= |options|)
    ensures option != "" && OptionIndex(cfg, options, option) < |options| ==>
              GetOptionID(cfg, options, option) == Id(options[OptionIndex(cfg, options, option)].id)
  {
  }

  /** What begins with a prefix and is no switch is not found. */
  lemma NoSwitchNotFound(cfg: Config, options: seq<Opt>, option: string)
    requires StartsWith(option, cfg.longPrefix) || (option != "" && option[0] == cfg.shortPrefix)
    requires !IsSwitch(cfg, option)
    ensures OptionIndex(cfg, options, option) == |options|
  {
  }
}
