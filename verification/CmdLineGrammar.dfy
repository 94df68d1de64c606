/** The language of command lines, with the default prefixes '-' and "--" and the separator '='. A
    command line is a list of items; rendering one and parsing it are inverse to each other. */
module CmdLineGrammar {
  import opened Common
  import opened CmdLineOptions
  import opened CmdLineParser

  function Defaults(caseSensitive: bool): Config {
    Config('-', "--", '=', caseSensitive)
  }

  datatype Switch = ShortSwitch(c: char) | LongSwitch(name: string)

  datatype Item =
    | Flag(switch: Switch)                         // -c, --name
    | Joined(switch: Switch, value: string)        // -c=v, --name=v
    | Glued(c: char, value: string)                // -cv
    | Separate(switch: Switch, value: string)      // -c v, --name v
    | Defaulted(switch: Switch)                    // -c, --name, the value left out
    | Word(word: string)

  // ----- printing ------------------------------------------------------------------------

  function Text(switch: Switch): string {
    match switch
    case ShortSwitch(c) => ['-', c]
    case LongSwitch(name) => "--" + name
  }

  function Tokens(item: Item): seq<string> {
    match item
    case Flag(switch) => [Text(switch)]
    case Joined(switch, value) => [Text(switch) + "=" + value]
    case Glued(c, value) => [['-', c] + value]
    case Separate(switch, value) => [Text(switch), value]
    case Defaulted(switch) => [Text(switch)]
    case Word(word) => [word]
  }

  function Render(items: seq<Item>): seq<string> {
    if items == [] then [] else Tokens(items[0]) + Render(items[1..])
  }

  // ----- which lists are command lines ---------------------------------------------------

  predicate IsName(switch: Switch) {
    match switch
    case ShortSwitch(c) => c != '-' && c != '='
    case LongSwitch(name) => name != "" && '=' !in name
  }

  function Find(cs: bool, options: seq<Opt>, switch: Switch): (i: nat)
    ensures i <= |options|
  {
    match switch
    case ShortSwitch(c) => FindShort(Defaults(cs), options, c)
    case LongSwitch(name) => FindLong(Defaults(cs), options, name)
  }

  predicate Defined(cs: bool, options: seq<Opt>, switch: Switch) {
    IsName(switch) && Find(cs, options, switch) < |options|
  }

  predicate Dashed(arg: string) {
    arg != "" && arg[0] == '-' && arg != "-"
  }

  predicate IsWord(word: string) {
    !Dashed(word) || word == "--" || StartsWith(word, "-=") || StartsWith(word, "--=")
  }

  function SwitchOf(item: Item): Switch
    requires !item.Word?
  {
    match item
    case Flag(switch) => switch
    case Joined(switch, _) => switch
    case Glued(c, _) => ShortSwitch(c)
    case Separate(switch, _) => switch
    case Defaulted(switch) => switch
  }

  predicate Takes(o: Opt, item: Item, after: seq<string>) {
    match item
    case Flag(_) => o.argType == NoArg
    case Joined(_, _) => o.argType != NoArg
    case Glued(_, value) => o.argType != NoArg && value != "" && value[0] != '='
    case Separate(_, value) => o.argType != NoArg && !Dashed(value)
    case Defaulted(_) => o.argType == OptionalArg && o.defaultValue.Some? && (after == [] || Dashed(after[0]))
    case Word(_) => false
  }

  /** May the item stand before these tokens? */
  predicate Fits(cs: bool, options: seq<Opt>, wordsAllowed: bool, item: Item, after: seq<string>) {
    if item.Word? then wordsAllowed && IsWord(item.word)
    else Defined(cs, options, SwitchOf(item)) && Takes(options[Find(cs, options, SwitchOf(item))], item, after)
  }

  predicate IsCommandLine(cs: bool, options: seq<Opt>, wordsAllowed: bool, items: seq<Item>) {
    items == [] ||
    (Fits(cs, options, wordsAllowed, items[0], Render(items[1..])) &&
     IsCommandLine(cs, options, wordsAllowed, items[1..]))
  }

  // ----- what a command line means -------------------------------------------------------

  /** What one item says: a word, that an option is there, or a value for an option. */
  datatype Meaning = Says(word: string) | Sets(id: int) | Gives(id: int, value: string)

  function MeaningOf(cs: bool, options: seq<Opt>, item: Item): Meaning
    requires item.Word? || Defined(cs, options, SwitchOf(item))
  {
    if item.Word? then Says(item.word)
    else
      var o := options[Find(cs, options, SwitchOf(item))];
      match item
      case Joined(_, value) => Gives(o.id, value)
      case Glued(_, value) => Gives(o.id, value)
      case Separate(_, value) => Gives(o.id, value)
      case _ =>
        // A flag, or a value left out.
        if item.Defaulted? && o.defaultValue.Some? then Gives(o.id, o.defaultValue.value) else Sets(o.id)
  }

  function Meanings(cs: bool, options: seq<Opt>, wordsAllowed: bool, items: seq<Item>): seq<Meaning>
    requires IsCommandLine(cs, options, wordsAllowed, items)
  {
    if items == [] then []
    else [MeaningOf(cs, options, items[0])] + Meanings(cs, options, wordsAllowed, items[1..])
  }

  predicate Mentioned(line: seq<Meaning>, id: int) {
    exists i :: 0 <= i < |line| && !line[i].Says? && line[i].id == id
  }

  /** The values given to one option, in order. */
  function Values(line: seq<Meaning>, id: int): seq<string> {
    if line == [] then [] else ValueOf(line[0], id) + Values(line[1..], id)
  }

  function ValueOf(m: Meaning, id: int): seq<string> {
    if m.Gives? && m.id == id then [m.value] else []
  }

  function Words(line: seq<Meaning>): seq<string> {
    if line == [] then [] else WordOf(line[0]) + Words(line[1..])
  }

  function WordOf(m: Meaning): seq<string> {
    if m.Says? then [m.word] else []
  }

  function ValuesIn(p: Parsed, id: int): seq<string> {
    if id in p.options then p.options[id] else []
  }

  // ----- splitting what was printed ------------------------------------------------------

  lemma IndexAfter(s: string, c: char, t: string)
    requires c !in s
    ensures IndexOf(s + [c] + t, c) == |s|
  {
    var all := s + [c] + t;
    var i := IndexOf(all, c);
    assert all[|s|] == c;
    assert forall k :: 0 <= k < |s| ==> all[k] == s[k];
    assert forall k :: 0 <= k < i ==> all[..i][k] == all[k];
  }

  function SplitOf(switch: Switch, value: string, attached: bool): Split {
    match switch
    case ShortSwitch(c) => Split(Short, [c], value, attached)
    case LongSwitch(name) => Split(Long, name, value, attached)
  }

  lemma Prefixes(s: string)
    ensures StartsWith(s, "--") <==> |s| >= 2 && s[0] == '-' && s[1] == '-'
    ensures StartsWith(s, "-=") <==> |s| >= 2 && s[0] == '-' && s[1] == '='
    ensures StartsWith(s, "--=") <==> |s| >= 3 && s[0] == '-' && s[1] == '-' && s[2] == '='
    ensures s == "-" <==> |s| == 1 && s[0] == '-'
    ensures s == "--" <==> |s| == 2 && s[0] == '-' && s[1] == '-'
  {
    assert |s| >= 2 ==> s[..2][0] == s[0] && s[..2][1] == s[1];
    assert |s| >= 3 ==> s[..3][0] == s[0] && s[..3][1] == s[1] && s[..3][2] == s[2];
  }

  lemma SplitBare(cs: bool, switch: Switch)
    requires IsName(switch)
    ensures SplitArgument(Defaults(cs), Text(switch)) == SplitOf(switch, "", false)
  {
    var text := Text(switch);
    assert IndexOf(text, '=') == |text|;
    assert text[..|text|] == text;
    Prefixes(text);
    match switch {
      case ShortSwitch(c) => assert text[1] == c;
      case LongSwitch(name) => assert text[2..] == name;
    }
  }

  lemma SplitJoined(cs: bool, switch: Switch, value: string)
    requires IsName(switch)
    ensures SplitArgument(Defaults(cs), Text(switch) + "=" + value) == SplitOf(switch, value, true)
  {
    var text := Text(switch);
    var all := text + "=" + value;
    IndexAfter(text, '=', value);
    assert all[..|text|] == text && all[|text| + 1..] == value;
    Prefixes(text);
    match switch {
      case ShortSwitch(c) => assert text[1] == c && all[2] == '=';
      case LongSwitch(name) => assert text[2..] == name;
    }
  }

  lemma SplitGlued(cs: bool, c: char, value: string)
    requires IsName(ShortSwitch(c)) && value != "" && value[0] != '='
    ensures SplitArgument(Defaults(cs), ['-', c] + value) == SplitOf(ShortSwitch(c), value, true)
  {
    var all := ['-', c] + value;
    var cut := IndexOf(all, '=');
    assert all[0] == '-' && all[1] == c && all[2] == value[0] && all[2..] == value;
    assert cut < |all| ==> all[cut] == '=';
    assert cut > 2;
    var bare := all[..cut];
    assert bare[0] == '-' && bare[1] == c;
    Prefixes(bare);
  }

  lemma SplitWord(cs: bool, word: string)
    ensures SplitArgument(Defaults(cs), word).base == "" <==> IsWord(word)
  {
    var cut := IndexOf(word, '=');
    var bare := word[..cut];
    var split := SplitArgument(Defaults(cs), word);
    assert forall k :: 0 <= k < cut ==> bare[k] == word[k] && word[k] != '=' by {
      assert forall k :: 0 <= k < cut ==> bare[k] != '=';
    }
    Prefixes(word);
    Prefixes(bare);
    if cut == 0 || word[0] != '-' {
      assert split.kind == Invalid && |split.base| == 0;
      assert IsWord(word);
    } else if cut == 1 {
      assert split.kind == Short && |split.base| == 0;
      assert IsWord(word);
    } else if word[1] != '-' {
      assert split.kind == Short && |split.base| == 1;
      assert !IsWord(word);
    } else {
      assert split.kind == Long && |split.base| == cut - 2;
      assert IsWord(word) <==> cut == 2;
    }
  }

  // ----- printing, then parsing ----------------------------------------------------------

  function Apply(m: Meaning, p: Parsed): Parsed {
    match m
    case Says(word) => p.(words := p.words + [word])
    case Sets(id) => Touch(p, id)
    case Gives(id, value) => AddValue(p, id, value)
  }

  lemma DashedIsSwitch(cs: bool, arg: string)
    ensures LooksLikeSwitch(Defaults(cs), arg) <==> Dashed(arg)
  {
    assert arg == "-" <==> |arg| == 1 && arg[0] == '-';
  }

  lemma ParseWord(cs: bool, options: seq<Opt>, wordsAllowed: bool, word: string, after: seq<string>, p: Parsed)
    requires Fits(cs, options, wordsAllowed, Word(word), after)
    ensures ParseOne(Defaults(cs), options, wordsAllowed, [word] + after, p) ==
            Next(Apply(Says(word), p), 1)
  {
    SplitWord(cs, word);
  }

  lemma LookUpNamed(cs: bool, options: seq<Opt>, switch: Switch, value: string, attached: bool)
    requires IsName(switch)
    ensures LookUp(Defaults(cs), options, SplitOf(switch, value, attached)) == Find(cs, options, switch)
  {
  }

  lemma ParseJoined(cs: bool, options: seq<Opt>, wordsAllowed: bool, item: Item, after: seq<string>, p: Parsed)
    requires (item.Joined? || item.Glued?) && Fits(cs, options, wordsAllowed, item, after)
    ensures ParseOne(Defaults(cs), options, wordsAllowed, Tokens(item) + after, p) ==
            Next(Apply(MeaningOf(cs, options, item), p), 1)
  {
    JoinedRound(cs, options, wordsAllowed, item, Tokens(item) + after, p);
    match item {
      case Joined(switch, value) => SplitJoined(cs, switch, value);
      case Glued(c, value) => SplitGlued(cs, c, value);
    }
  }

  lemma JoinedRound(cs: bool, options: seq<Opt>, wordsAllowed: bool, item: Item, args: seq<string>, p: Parsed)
    requires (item.Joined? || item.Glued?) && args != [] && Fits(cs, options, wordsAllowed, item, args[1..])
    ensures ParseSplit(Defaults(cs), options, wordsAllowed, SplitOf(SwitchOf(item), item.value, true), args, p) ==
            Next(Apply(MeaningOf(cs, options, item), p), 1)
  {
    LookUpNamed(cs, options, SwitchOf(item), item.value, true);
  }

  lemma ParseBare(cs: bool, options: seq<Opt>, wordsAllowed: bool, item: Item, after: seq<string>, p: Parsed)
    requires (item.Flag? || item.Separate? || item.Defaulted?) && Fits(cs, options, wordsAllowed, item, after)
    ensures ParseOne(Defaults(cs), options, wordsAllowed, Tokens(item) + after, p) ==
            Next(Apply(MeaningOf(cs, options, item), p), |Tokens(item)|)
  {
    BareRound(cs, options, wordsAllowed, item, after, p);
    SplitBare(cs, item.switch);
  }

  lemma BareRound(cs: bool, options: seq<Opt>, wordsAllowed: bool, item: Item, after: seq<string>, p: Parsed)
    requires (item.Flag? || item.Separate? || item.Defaulted?) && Fits(cs, options, wordsAllowed, item, after)
    ensures ParseSplit(Defaults(cs), options, wordsAllowed, SplitOf(item.switch, "", false), Tokens(item) + after, p) ==
            Next(Apply(MeaningOf(cs, options, item), p), |Tokens(item)|)
  {
    LookUpNamed(cs, options, item.switch, "", false);
    var args := Tokens(item) + after;
    if |args| > 1 {
      DashedIsSwitch(cs, args[1]);
    }
  }

  lemma ParseItem(cs: bool, options: seq<Opt>, wordsAllowed: bool, item: Item, after: seq<string>, p: Parsed)
    requires Fits(cs, options, wordsAllowed, item, after)
    ensures ParseOne(Defaults(cs), options, wordsAllowed, Tokens(item) + after, p) ==
            Next(Apply(MeaningOf(cs, options, item), p), |Tokens(item)|)
  {
    match item {
      case Word(word) => ParseWord(cs, options, wordsAllowed, word, after, p);
      case Joined(_, _) => ParseJoined(cs, options, wordsAllowed, item, after, p);
      case Glued(_, _) => ParseJoined(cs, options, wordsAllowed, item, after, p);
      case _ => ParseBare(cs, options, wordsAllowed, item, after, p);
    }
  }

  function ApplyAll(line: seq<Meaning>, p: Parsed): Parsed
    decreases |line|
  {
    if line == [] then p else ApplyAll(line[1..], Apply(line[0], p))
  }

  lemma {:induction false} ParseAllOfRender(cs: bool, options: seq<Opt>, wordsAllowed: bool, items: seq<Item>, p: Parsed)
    requires IsCommandLine(cs, options, wordsAllowed, items)
    ensures ParseAll(Defaults(cs), options, wordsAllowed, Render(items), p) ==
            (ApplyAll(Meanings(cs, options, wordsAllowed, items), p), None)
    decreases |items|
  {
    if items != [] {
      var after := Render(items[1..]);
      ParseItem(cs, options, wordsAllowed, items[0], after, p);
      assert Render(items)[|Tokens(items[0])|..] == after;
      ParseAllOfRender(cs, options, wordsAllowed, items[1..], Apply(MeaningOf(cs, options, items[0]), p));
    }
  }

  lemma ApplyValue(m: Meaning, p: Parsed, id: int)
    ensures ValuesIn(Apply(m, p), id) == ValuesIn(p, id) + ValueOf(m, id)
  {
  }

  lemma {:induction false} ApplyAllWords(line: seq<Meaning>, p: Parsed)
    ensures ApplyAll(line, p).words == p.words + Words(line)
    decreases |line|
  {
    if line != [] {
      ApplyAllWords(line[1..], Apply(line[0], p));
      Regroup(p.words, WordOf(line[0]), Words(line[1..]));
    }
  }

  lemma {:induction false} ApplyAllValues(line: seq<Meaning>, p: Parsed, id: int)
    ensures ValuesIn(ApplyAll(line, p), id) == ValuesIn(p, id) + Values(line, id)
    decreases |line|
  {
    if line != [] {
      ApplyValue(line[0], p, id);
      ApplyAllValues(line[1..], Apply(line[0], p), id);
      Regroup(ValuesIn(p, id), ValueOf(line[0], id), Values(line[1..], id));
    }
  }

  lemma {:induction false} ApplyAllMentions(line: seq<Meaning>, p: Parsed, id: int)
    ensures id in ApplyAll(line, p).options <==> id in p.options || Mentioned(line, id)
    decreases |line|
  {
    if line != [] {
      ApplyAllMentions(line[1..], Apply(line[0], p), id);
      assert forall i :: 1 <= i < |line| ==> line[i] == line[1..][i - 1];
    }
  }

  /** Parsing what was printed never fails: it collects the words and each option's values, in order, and
      knows just the options that were mentioned. */
  lemma ParseOfRender(cs: bool, options: seq<Opt>, wordsAllowed: bool, items: seq<Item>)
    requires IsCommandLine(cs, options, wordsAllowed, items)
    ensures var line := Meanings(cs, options, wordsAllowed, items);
            var (r, error) := ParseAll(Defaults(cs), options, wordsAllowed, Render(items), Parsed(map[], []));
            && error == None
            && r.words == Words(line)
            && (forall id :: id in r.options <==> Mentioned(line, id))
            && (forall id :: id in r.options ==> r.options[id] == Values(line, id))
  {
    var p := Parsed(map[], []);
    var line := Meanings(cs, options, wordsAllowed, items);
    var r := ApplyAll(line, p);
    ParseAllOfRender(cs, options, wordsAllowed, items, p);
    ApplyAllWords(line, p);
    forall id
      ensures id in r.options <==> Mentioned(line, id)
      ensures id in r.options ==> r.options[id] == Values(line, id)
    {
      ApplyAllMentions(line, p, id);
      ApplyAllValues(line, p, id);
    }
  }

  // ----- parsing, then printing ----------------------------------------------------------

  /** The item that the first of these arguments belongs to. */
  function ItemAt(cs: bool, options: seq<Opt>, args: seq<string>): Item
    requires args != []
  {
    ItemOf(cs, options, SplitArgument(Defaults(cs), args[0]), args)
  }

  function SwitchIn(split: Split): Switch
    requires split.base != ""
  {
    if split.kind == Short then ShortSwitch(split.base[0]) else LongSwitch(split.base)
  }

  function ItemOf(cs: bool, options: seq<Opt>, split: Split, args: seq<string>): Item
    requires args != []
  {
    var arg := args[0];
    if split.base == "" then Word(arg)
    else
      var switch := SwitchIn(split);
      var i := Find(cs, options, switch);
      if split.attached then
        if split.kind == Short && |arg| > 2 && arg[2] != '=' then Glued(split.base[0], split.value)
        else Joined(switch, split.value)
      else if i < |options| && options[i].argType == NoArg then Flag(switch)
      else if |args| > 1 && !Dashed(args[1]) then Separate(switch, args[1])
      else Defaulted(switch)
  }

  /** What splitting can return for an argument. */
  ghost predicate SplitsTo(arg: string, split: Split) {
    split.base != "" ==>
      && split.kind != Invalid
      && (split.kind == Short ==> |split.base| == 1)
      && IsName(SwitchIn(split))
      && if !split.attached then split.value == "" && arg == Text(SwitchIn(split))
         else if split.kind == Short && |arg| > 2 && arg[2] != '=' then
           arg == ['-', split.base[0]] + split.value && split.value != "" && split.value[0] != '='
         else arg == Text(SwitchIn(split)) + "=" + split.value
  }

  lemma SplitJoins(cs: bool, arg: string)
    ensures SplitsTo(arg, SplitArgument(Defaults(cs), arg))
  {
    var cut := IndexOf(arg, '=');
    var bare := arg[..cut];
    assert '=' !in bare;
    assert cut < |arg| ==> arg == bare + "=" + arg[cut + 1..];
    assert cut == |arg| ==> bare == arg;
    assert StartsWith(bare, "--") ==> bare == "--" + bare[2..];
    assert |arg| > 2 ==> arg == arg[..2] + arg[2..];
    assert |bare| > 1 ==> bare[0] == arg[0] && bare[1] == arg[1];
  }

  lemma ItemAtFits(cs: bool, options: seq<Opt>, wordsAllowed: bool, args: seq<string>, p: Parsed)
    requires args != [] && ParseOne(Defaults(cs), options, wordsAllowed, args, p).Next?
    ensures var item, used := ItemAt(cs, options, args), ParseOne(Defaults(cs), options, wordsAllowed, args, p).used;
            Tokens(item) == args[..used] && Fits(cs, options, wordsAllowed, item, args[used..])
  {
    var split := SplitArgument(Defaults(cs), args[0]);
    SplitJoins(cs, args[0]);
    SplitWord(cs, args[0]);
    if split.base != "" && split.attached {
      JoinedItemFits(cs, options, wordsAllowed, split, args, p);
    } else if split.base != "" {
      BareItemFits(cs, options, wordsAllowed, split, args, p);
    }
  }

  lemma JoinedItemFits(cs: bool, options: seq<Opt>, wordsAllowed: bool, split: Split, args: seq<string>, p: Parsed)
    requires args != [] && ParseSplit(Defaults(cs), options, wordsAllowed, split, args, p).Next?
    requires split.base != "" && split.attached && SplitsTo(args[0], split)
    ensures var item := ItemOf(cs, options, split, args);
            && Tokens(item) == args[..1] && Fits(cs, options, wordsAllowed, item, args[1..])
            && ParseSplit(Defaults(cs), options, wordsAllowed, split, args, p).used == 1
  {
    assert split == SplitOf(SwitchIn(split), split.value, true);
    LookUpNamed(cs, options, SwitchIn(split), split.value, true);
    assert args[..1] == [args[0]];
  }

  lemma BareItemFits(cs: bool, options: seq<Opt>, wordsAllowed: bool, split: Split, args: seq<string>, p: Parsed)
    requires args != [] && ParseSplit(Defaults(cs), options, wordsAllowed, split, args, p).Next?
    requires split.base != "" && !split.attached && SplitsTo(args[0], split)
    ensures var item, used := ItemOf(cs, options, split, args),
                              ParseSplit(Defaults(cs), options, wordsAllowed, split, args, p).used;
            Tokens(item) == args[..used] && Fits(cs, options, wordsAllowed, item, args[used..])
  {
    assert split == SplitOf(SwitchIn(split), "", false);
    LookUpNamed(cs, options, SwitchIn(split), "", false);
    assert args[..1] == [args[0]];
    if |args| > 1 {
      DashedIsSwitch(cs, args[1]);
      assert args[..2] == [args[0], args[1]];
    }
  }

  /** The items of an argument list that the parser accepts. */
  function Read(cs: bool, options: seq<Opt>, args: seq<string>): seq<Item>
    decreases |args|
  {
    if args == [] then []
    else
      var item := ItemAt(cs, options, args);
      var used := |Tokens(item)|;
      [item] + (if used <= |args| then Read(cs, options, args[used..]) else [])
  }

  lemma ReadNext(cs: bool, options: seq<Opt>, args: seq<string>, used: nat)
    requires args != [] && used == |Tokens(ItemAt(cs, options, args))| <= |args|
    ensures Read(cs, options, args) == [ItemAt(cs, options, args)] + Read(cs, options, args[used..])
  {
  }

  lemma ReadFirst(cs: bool, options: seq<Opt>, item: Item, after: seq<string>)
    requires ItemAt(cs, options, Tokens(item) + after) == item
    ensures Read(cs, options, Tokens(item) + after) == [item] + Read(cs, options, after)
  {
    assert (Tokens(item) + after)[|Tokens(item)|..] == after;
  }

  lemma {:induction false} ReadRenders(cs: bool, options: seq<Opt>, wordsAllowed: bool, args: seq<string>, p: Parsed)
    requires ParseAll(Defaults(cs), options, wordsAllowed, args, p).1 == None
    ensures Render(Read(cs, options, args)) == args
    decreases |args|
  {
    if args != [] {
      var next, used, item := ParseFirst(cs, options, wordsAllowed, args, p);
      ReadRenders(cs, options, wordsAllowed, args[used..], next);
      RenderWithItem(item, Read(cs, options, args[used..]), args, used);
    }
  }

  lemma RenderWithItem(item: Item, others: seq<Item>, args: seq<string>, used: nat)
    requires used <= |args| && Tokens(item) == args[..used] && Render(others) == args[used..]
    ensures Render([item] + others) == args
  {
    assert ([item] + others)[1..] == others;
  }

  /** Every argument list that parses is the rendering of a command line. */
  lemma {:induction false} RenderOfRead(cs: bool, options: seq<Opt>, wordsAllowed: bool, args: seq<string>, p: Parsed)
    requires ParseAll(Defaults(cs), options, wordsAllowed, args, p).1 == None
    ensures var items := Read(cs, options, args);
            IsCommandLine(cs, options, wordsAllowed, items) && Render(items) == args
    decreases |args|
  {
    ReadRenders(cs, options, wordsAllowed, args, p);
    if args != [] {
      var next, used, item := ParseFirst(cs, options, wordsAllowed, args, p);
      RenderOfRead(cs, options, wordsAllowed, args[used..], next);
      LineWithItem(cs, options, wordsAllowed, item, Read(cs, options, args[used..]));
    }
  }

  lemma ParseFirst(cs: bool, options: seq<Opt>, wordsAllowed: bool, args: seq<string>, p: Parsed)
    returns (next: Parsed, used: nat, item: Item)
    requires args != [] && ParseAll(Defaults(cs), options, wordsAllowed, args, p).1 == None
    ensures 1 <= used <= |args| && Tokens(item) == args[..used]
    ensures Fits(cs, options, wordsAllowed, item, args[used..])
    ensures Read(cs, options, args) == [item] + Read(cs, options, args[used..])
    ensures ParseAll(Defaults(cs), options, wordsAllowed, args[used..], next).1 == None
  {
    ParsesOn(Defaults(cs), options, wordsAllowed, args, p);
    ItemAtFits(cs, options, wordsAllowed, args, p);
    var r := ParseOne(Defaults(cs), options, wordsAllowed, args, p);
    next, used, item := r.parsed, r.used, ItemAt(cs, options, args);
    ReadNext(cs, options, args, used);
  }

  lemma ParsesOn(cfg: Config, options: seq<Opt>, wordsAllowed: bool, args: seq<string>, p: Parsed)
    requires args != [] && ParseAll(cfg, options, wordsAllowed, args, p).1 == None
    ensures var r := ParseOne(cfg, options, wordsAllowed, args, p);
            r.Next? && ParseAll(cfg, options, wordsAllowed, args[r.used..], r.parsed).1 == None
  {
  }

  lemma LineWithItem(cs: bool, options: seq<Opt>, wordsAllowed: bool, item: Item, rest: seq<Item>)
    requires IsCommandLine(cs, options, wordsAllowed, rest) && Fits(cs, options, wordsAllowed, item, Render(rest))
    ensures IsCommandLine(cs, options, wordsAllowed, [item] + rest)
  {
    assert ([item] + rest)[1..] == rest;
  }

  lemma ItemAtToken(cs: bool, options: seq<Opt>, wordsAllowed: bool, item: Item, after: seq<string>)
    requires Fits(cs, options, wordsAllowed, item, after)
    ensures ItemAt(cs, options, Tokens(item) + after) == item
  {
    match item {
      case Word(word) => SplitWord(cs, word);
      case Joined(switch, value) => SplitJoined(cs, switch, value); ItemOfToken(cs, options, wordsAllowed, item, after);
      case Glued(c, value) => SplitGlued(cs, c, value); ItemOfToken(cs, options, wordsAllowed, item, after);
      case _ => SplitBare(cs, item.switch); ItemOfToken(cs, options, wordsAllowed, item, after);
    }
  }

  lemma ItemOfToken(cs: bool, options: seq<Opt>, wordsAllowed: bool, item: Item, after: seq<string>)
    requires Fits(cs, options, wordsAllowed, item, after) && !item.Word?
    ensures var split := if item.Joined? || item.Glued? then SplitOf(SwitchOf(item), item.value, true)
                         else SplitOf(item.switch, "", false);
            ItemOf(cs, options, split, Tokens(item) + after) == item
  {
  }

  lemma {:induction false} ReadOfRender(cs: bool, options: seq<Opt>, wordsAllowed: bool, items: seq<Item>)
    requires IsCommandLine(cs, options, wordsAllowed, items)
    ensures Read(cs, options, Render(items)) == items
  {
    if items != [] {
      var after := Render(items[1..]);
      ItemAtToken(cs, options, wordsAllowed, items[0], after);
      ReadFirst(cs, options, items[0], after);
      ReadOfRender(cs, options, wordsAllowed, items[1..]);
      assert items == [items[0]] + items[1..];
    }
  }

  /** The grammar is unambiguous. */
  lemma RenderIsInjective(cs: bool, options: seq<Opt>, wordsAllowed: bool, items: seq<Item>, others: seq<Item>)
    requires IsCommandLine(cs, options, wordsAllowed, items) && IsCommandLine(cs, options, wordsAllowed, others)
    requires Render(items) == Render(others)
    ensures items == others
  {
    ReadOfRender(cs, options, wordsAllowed, items);
    ReadOfRender(cs, options, wordsAllowed, others);
  }

  /** The parser accepts exactly the renderings of command lines. */
  lemma AcceptsExactlyCommandLines(cs: bool, options: seq<Opt>, wordsAllowed: bool, args: seq<string>)
    ensures var items := Read(cs, options, args);
            ParseAll(Defaults(cs), options, wordsAllowed, args, Parsed(map[], [])).1 == None <==>
            (IsCommandLine(cs, options, wordsAllowed, items) && Render(items) == args)
  {
    var items := Read(cs, options, args);
    if ParseAll(Defaults(cs), options, wordsAllowed, args, Parsed(map[], [])).1 == None {
      RenderOfRead(cs, options, wordsAllowed, args, Parsed(map[], []));
    } else if IsCommandLine(cs, options, wordsAllowed, items) && Render(items) == args {
      ParseOfRender(cs, options, wordsAllowed, items);
      assert false;
    }
  }

  // ----- which error ---------------------------------------------------------------------

  /** Is the item what these arguments begin with? */
  ghost predicate Begins(cs: bool, options: seq<Opt>, wordsAllowed: bool, item: Item, args: seq<string>) {
    var k := |Tokens(item)|;
    k <= |args| && Tokens(item) == args[..k] && Fits(cs, options, wordsAllowed, item, args[k..])
  }

  /** An option that must have a value is the last argument, or a switch follows it. */
  ghost predicate LacksValue(cs: bool, options: seq<Opt>, switch: Switch, args: seq<string>) {
    && args != [] && Defined(cs, options, switch) && args[0] == Text(switch)
    && (|args| == 1 || Dashed(args[1]))
    && var o := options[Find(cs, options, switch)];
    o.argType != NoArg && !(o.argType == OptionalArg && o.defaultValue.Some?)
  }

  /** The first argument is taken exactly if an item begins there; a word where none is allowed, and an option
      without the value that it must have, are reported as such, and all else as an invalid option. */
  lemma WhichError(cs: bool, options: seq<Opt>, wordsAllowed: bool, args: seq<string>, p: Parsed)
    requires args != []
    ensures var r := ParseOne(Defaults(cs), options, wordsAllowed, args, p);
            && (r.Next? <==> exists item :: Begins(cs, options, wordsAllowed, item, args))
            && (r == Fail(InvalidNonOptionArg) <==> IsWord(args[0]) && !wordsAllowed)
            && (r == Fail(MissingArgument) <==> exists switch :: LacksValue(cs, options, switch, args))
            && (r.Fail? ==> r.error != MissingOption)
  {
    NextExactly(cs, options, wordsAllowed, args, p);
    MissingExactly(cs, options, wordsAllowed, args, p);
    SplitWord(cs, args[0]);
  }

  lemma NextExactly(cs: bool, options: seq<Opt>, wordsAllowed: bool, args: seq<string>, p: Parsed)
    requires args != []
    ensures ParseOne(Defaults(cs), options, wordsAllowed, args, p).Next? <==>
            exists item :: Begins(cs, options, wordsAllowed, item, args)
  {
    if ParseOne(Defaults(cs), options, wordsAllowed, args, p).Next? {
      NextBegins(cs, options, wordsAllowed, args, p);
    }
    forall item | Begins(cs, options, wordsAllowed, item, args)
      ensures ParseOne(Defaults(cs), options, wordsAllowed, args, p).Next?
    {
      BeginningParses(cs, options, wordsAllowed, item, args, p);
    }
  }

  lemma NextBegins(cs: bool, options: seq<Opt>, wordsAllowed: bool, args: seq<string>, p: Parsed)
    requires args != [] && ParseOne(Defaults(cs), options, wordsAllowed, args, p).Next?
    ensures Begins(cs, options, wordsAllowed, ItemAt(cs, options, args), args)
  {
    ItemAtFits(cs, options, wordsAllowed, args, p);
    FitsBegins(cs, options, wordsAllowed, ItemAt(cs, options, args), args,
               ParseOne(Defaults(cs), options, wordsAllowed, args, p).used);
  }

  lemma FitsBegins(cs: bool, options: seq<Opt>, wordsAllowed: bool, item: Item, args: seq<string>, used: nat)
    requires used <= |args| && Tokens(item) == args[..used] && Fits(cs, options, wordsAllowed, item, args[used..])
    ensures Begins(cs, options, wordsAllowed, item, args)
  {
    assert |Tokens(item)| == used;
  }

  lemma BeginningParses(cs: bool, options: seq<Opt>, wordsAllowed: bool, item: Item, args: seq<string>, p: Parsed)
    requires Begins(cs, options, wordsAllowed, item, args)
    ensures args != [] && ParseOne(Defaults(cs), options, wordsAllowed, args, p).Next?
  {
    var k := |Tokens(item)|;
    assert args == Tokens(item) + args[k..];
    ParseItem(cs, options, wordsAllowed, item, args[k..], p);
  }

  lemma MissingExactly(cs: bool, options: seq<Opt>, wordsAllowed: bool, args: seq<string>, p: Parsed)
    requires args != []
    ensures ParseOne(Defaults(cs), options, wordsAllowed, args, p) == Fail(MissingArgument) <==>
            exists switch :: LacksValue(cs, options, switch, args)
  {
    var r := ParseOne(Defaults(cs), options, wordsAllowed, args, p);
    if r == Fail(MissingArgument) {
      SplitJoins(cs, args[0]);
      MissedValue(cs, options, wordsAllowed, SplitArgument(Defaults(cs), args[0]), args, p);
    }
    forall switch | LacksValue(cs, options, switch, args) ensures r == Fail(MissingArgument) {
      SplitBare(cs, switch);
      ValueIsMissed(cs, options, wordsAllowed, switch, args, p);
    }
  }

  lemma MissedValue(cs: bool, options: seq<Opt>, wordsAllowed: bool, split: Split, args: seq<string>, p: Parsed)
    requires args != [] && ParseSplit(Defaults(cs), options, wordsAllowed, split, args, p) == Fail(MissingArgument)
    requires SplitsTo(args[0], split)
    ensures exists switch :: LacksValue(cs, options, switch, args)
  {
    var switch := SwitchIn(split);
    assert split == SplitOf(switch, "", false);
    LookUpNamed(cs, options, switch, "", false);
    if |args| > 1 {
      DashedIsSwitch(cs, args[1]);
    }
    assert LacksValue(cs, options, switch, args);
  }

  lemma ValueIsMissed(cs: bool, options: seq<Opt>, wordsAllowed: bool, switch: Switch, args: seq<string>, p: Parsed)
    requires LacksValue(cs, options, switch, args)
    ensures ParseSplit(Defaults(cs), options, wordsAllowed, SplitOf(switch, "", false), args, p) == Fail(MissingArgument)
  {
    LookUpNamed(cs, options, switch, "", false);
    if |args| > 1 {
      DashedIsSwitch(cs, args[1]);
    }
  }

  // ----- exception safety ----------------------------------------------------------------

  /** parse keeps the results of the call before, whatever they are, exactly if the arguments are a command
      line. */
  lemma KeepsResultsForCommandLines(cs: bool, options: seq<Opt>, wordsAllowed: bool, args: seq<string>)
    ensures var items := Read(cs, options, args);
            (forall before :: KeepsResults(Defaults(cs), options, wordsAllowed, args, before)) <==>
            (IsCommandLine(cs, options, wordsAllowed, items) && Render(items) == args)
  {
    KeepsAllResultsExactly(Defaults(cs), options, wordsAllowed, args);
    AcceptsExactlyCommandLines(cs, options, wordsAllowed, args);
  }

  /** A word and then an unknown option: the call throws and leaves the word behind, so that even a parser
      without results is not as it was. */
  lemma PartialResultsStay(cs: bool)
    ensures ParseAll(Defaults(cs), [], true, ["w", "--nope"], NO_RESULTS) ==
            (Parsed(map[], ["w"]), Some(InvalidOption))
    ensures !KeepsResults(Defaults(cs), [], true, ["w", "--nope"], NO_RESULTS)
  {
    var args := ["w", "--nope"];
    var p := Parsed(map[], ["w"]);
    SplitWord(cs, "w");
    assert ParseOne(Defaults(cs), [], true, args, NO_RESULTS) == Next(p, 1);
    assert args[1..] == ["--nope"];
    assert Text(LongSwitch("nope")) == "--nope";
    SplitBare(cs, LongSwitch("nope"));
    assert ParseOne(Defaults(cs), [], true, ["--nope"], p) == Fail(InvalidOption);
  }
}
