/** The usage text: how the entry of an option is laid out and wrapped, and exactly when the wrapping
    loop comes to an end. */
module CmdLineUsage {
  import opened Common
  import opened CmdLineOptions
  import opened CmdLineParser

  const NUM_OPTION_COLUMNS: nat := 28
  const INITIAL_INDENT: nat := 2

  function Spaces(n: nat): (s: string)
    ensures |s| == n && forall i :: 0 <= i < n ==> s[i] == ' '
  {
    if n == 0 then "" else " " + Spaces(n - 1)
  }

  // ----- one round of the wrapping loop --------------------------------------------------

  predicate MustWrap(max: nat, line: string) {
    |line| > max || '\n' in line
  }

  /** Every line that is wrapped starts with its indentation. */
  predicate StartsBlank(line: string) {
    line != "" && line[0] == ' '
  }

  /** The last space at or before from. */
  function LastSpace(line: string, from: nat): (i: nat)
    requires StartsBlank(line) && from < |line|
    ensures i <= from && line[i] == ' '
    ensures forall k :: i < k <= from ==> line[k] != ' '
  {
    if line[from] == ' ' then from else LastSpace(line, from - 1)
  }

  /** Where the line is cut and where the next one begins: at the first newline or else at a space, which
      are skipped, or else in the middle of a word. */
  function Cut(max: nat, line: string): (r: (nat, nat))
    requires StartsBlank(line) && MustWrap(max, line)
    ensures r.0 <= max && r.0 <= r.1 <= r.0 + 1 && r.1 <= |line| && '\n' !in line[..r.0]
    ensures r.1 > r.0 ==> line[r.0] == '\n' || line[r.0] == ' '
  {
    var newline := IndexOf(line, '\n');
    if newline < |line| && newline <= max then (newline, newline + 1)
    else
      assert line[..max] == line[..newline][..max];
      var space := LastSpace(line, max);
      assert line[..space] == line[..newline][..space];
      if space > NUM_OPTION_COLUMNS then (space, space + 1) else (max, max)
  }

  function Rest(indent: nat, max: nat, line: string): string
    requires StartsBlank(line) && MustWrap(max, line)
  {
    Spaces(indent) + line[Cut(max, line).1..]
  }

  /** Where a line is cut: at its first newline if that is not beyond the maximum; or else at the last space that
      is not, if it is right of the column of the descriptions; or else at the maximum. The newline or space is
      left out. */
  lemma WhereALineIsCut(max: nat, line: string)
    requires StartsBlank(line) && MustWrap(max, line)
    ensures var (cut, next) := Cut(max, line);
            if exists i :: 0 <= i <= max && i < |line| && line[i] == '\n' then
              line[cut] == '\n' && '\n' !in line[..cut] && next == cut + 1
            else if exists i :: NUM_OPTION_COLUMNS < i <= max && line[i] == ' ' then
              && NUM_OPTION_COLUMNS < cut <= max && line[cut] == ' ' && next == cut + 1
              && forall i :: cut < i <= max ==> line[i] != ' '
            else
              cut == next == max
  {
  }

  // ----- when the loop ends --------------------------------------------------------------

  function Newlines(s: string): nat {
    if s == "" then 0 else (if s[0] == '\n' then 1 else 0) + Newlines(s[1..])
  }

  lemma {:induction false} NewlinesOfSum(s: string, t: string)
    ensures Newlines(s + t) == Newlines(s) + Newlines(t)
  {
    if s == "" {
      assert s + t == t;
    } else {
      NewlinesOfSum(s[1..], t);
      assert (s + t)[1..] == s[1..] + t;
    }
  }

  lemma {:induction false} NoNewlines(s: string)
    requires '\n' !in s
    ensures Newlines(s) == 0
  {
    if s != "" {
      NoNewlines(s[1..]);
    }
  }

  predicate AllNewlines(s: string) {
    forall i :: 0 <= i < |s| ==> s[i] == '\n'
  }

  /** The loop ends at once, or there is room beside the indentation; or else there is none, and after the
      first line comes nothing to put there. */
  predicate Ends(indent: nat, max: nat, line: string) {
    || !MustWrap(max, line)
    || max > indent
    || (max == indent && var newline := IndexOf(line, '\n');
        newline < |line| && newline <= max && AllNewlines(line[newline + 1..]))
  }

  lemma IndexInRest(indent: nat, tail: string)
    ensures var line := Spaces(indent) + tail; IndexOf(line, '\n') == indent + IndexOf(tail, '\n')
  {
    var line, i := Spaces(indent) + tail, IndexOf(tail, '\n');
    var j := IndexOf(line, '\n');
    assert forall k :: 0 <= k < j ==> line[..j][k] == line[k];
    assert forall k :: 0 <= k < i ==> tail[..i][k] == tail[k];
    assert i < |tail| ==> line[indent + i] == '\n';
    assert j < |line| ==> line[j] == '\n' && j >= indent && tail[j - indent] == '\n';
  }

  /** A round does not change whether the loop will end. */
  lemma RoundKeepsEnds(indent: nat, max: nat, line: string)
    requires 0 < indent <= NUM_OPTION_COLUMNS && StartsBlank(line) && MustWrap(max, line)
    ensures StartsBlank(Rest(indent, max, line))
    ensures Ends(indent, max, line) <==> Ends(indent, max, Rest(indent, max, line))
  {
    if max == indent {
      var tail := line[Cut(max, line).1..];
      var rest := Rest(indent, max, line);
      IndexInRest(indent, tail);
      var newline := IndexOf(line, '\n');
      if newline < |line| && newline <= max {
        if tail != "" && tail[0] == '\n' {
          assert rest[indent + 1..] == tail[1..];
          assert tail == ['\n'] + tail[1..];
        }
      } else {
        assert tail[0] == line[max] && line[max] != '\n' by {
          assert newline > max ==> line[..newline][max] == line[max];
        }
      }
    }
  }

  /** The progress of a round: a newline less, or as many on a shorter line. */
  lemma RoundShortens(indent: nat, max: nat, line: string)
    requires 0 < indent <= NUM_OPTION_COLUMNS && StartsBlank(line) && MustWrap(max, line)
    requires Ends(indent, max, line)
    ensures var rest := Rest(indent, max, line);
            Newlines(rest) < Newlines(line) || (Newlines(rest) == Newlines(line) && |rest| < |line|)
  {
    var (cut, next) := Cut(max, line);
    var tail := line[next..];
    NoNewlines(Spaces(indent));
    NewlinesOfSum(Spaces(indent), tail);
    NoNewlines(line[..cut]);
    assert line == line[..cut] + line[cut..next] + tail;
    NewlinesOfSum(line[..cut] + line[cut..next], tail);
    NewlinesOfSum(line[..cut], line[cut..next]);
  }

  /** The line after so many rounds. */
  function After(indent: nat, max: nat, line: string, rounds: nat): string
    requires 0 < indent && StartsBlank(line)
    decreases rounds
  {
    if rounds == 0 || !MustWrap(max, line) then line
    else After(indent, max, Rest(indent, max, line), rounds - 1)
  }

  lemma {:induction false} EndsInTime(indent: nat, max: nat, line: string) returns (rounds: nat)
    requires 0 < indent <= NUM_OPTION_COLUMNS && StartsBlank(line) && Ends(indent, max, line)
    ensures !MustWrap(max, After(indent, max, line, rounds))
    decreases Newlines(line), |line|
  {
    if !MustWrap(max, line) {
      return 0;
    }
    RoundKeepsEnds(indent, max, line);
    RoundShortens(indent, max, line);
    var more := EndsInTime(indent, max, Rest(indent, max, line));
    rounds := more + 1;
  }

  lemma {:induction false} NeverEnds(indent: nat, max: nat, line: string, rounds: nat)
    requires 0 < indent <= NUM_OPTION_COLUMNS && StartsBlank(line) && !Ends(indent, max, line)
    ensures MustWrap(max, After(indent, max, line, rounds))
    decreases rounds
  {
    if rounds > 0 {
      RoundKeepsEnds(indent, max, line);
      NeverEnds(indent, max, Rest(indent, max, line), rounds - 1);
    }
  }

  /** The loop ends exactly under this condition, which the caller can check: it does for every text when
      maxColumns is more than the indentation, and for none that needs wrapping when it is less. */
  lemma EndsExactly(indent: nat, max: nat, line: string)
    requires 0 < indent <= NUM_OPTION_COLUMNS && StartsBlank(line)
    ensures (exists rounds :: !MustWrap(max, After(indent, max, line, rounds))) <==> Ends(indent, max, line)
  {
    if Ends(indent, max, line) {
      var rounds := EndsInTime(indent, max, line);
    } else {
      forall rounds ensures MustWrap(max, After(indent, max, line, rounds)) {
        NeverEnds(indent, max, line, rounds);
      }
    }
  }

  // ----- what the loop writes ------------------------------------------------------------

  function Wrapped(indent: nat, max: nat, line: string): string
    requires 0 < indent <= NUM_OPTION_COLUMNS && StartsBlank(line) && Ends(indent, max, line)
    decreases Newlines(line), |line|
  {
    if !MustWrap(max, line) then line + "\n"
    else
      RoundKeepsEnds(indent, max, line);
      RoundShortens(indent, max, line);
      line[..Cut(max, line).0] + "\n" + Wrapped(indent, max, Rest(indent, max, line))
  }

  method Wrap(curLine: string, grouping: bool, maxColumns: nat, before: string) returns (usage: string)
    requires StartsBlank(curLine) && Ends(Indent(grouping), maxColumns, curLine)
    ensures usage == before + Wrapped(Indent(grouping), maxColumns, curLine)
  {
    var line := curLine;
    usage := before;
    while MustWrap(maxColumns, line)
      invariant StartsBlank(line) && Ends(Indent(grouping), maxColumns, line)
      invariant usage + Wrapped(Indent(grouping), maxColumns, line) ==
                before + Wrapped(Indent(grouping), maxColumns, curLine)
      decreases Newlines(line), |line|
    {
      RoundKeepsEnds(Indent(grouping), maxColumns, line);
      RoundShortens(Indent(grouping), maxColumns, line);
      var (cutIdx, nextLineBeginIdx) := Cut(maxColumns, line);
      usage := usage + line[..cutIdx] + "\n";
      var spaces := if grouping then Spaces(INITIAL_INDENT) else Spaces(NUM_OPTION_COLUMNS);
      line := spaces + line[nextLineBeginIdx..];
    }
    usage := usage + (line + "\n");
  }

  function Indent(grouping: bool): nat {
    if grouping then INITIAL_INDENT else NUM_OPTION_COLUMNS
  }

  /** What is cut off goes on in the column of the descriptions, or for a grouping at its indentation. */
  lemma ContinuationColumn(grouping: bool, max: nat, line: string)
    requires StartsBlank(line) && MustWrap(max, line)
    ensures var column := if grouping then INITIAL_INDENT else NUM_OPTION_COLUMNS;
            Rest(Indent(grouping), max, line) == Spaces(column) + line[Cut(max, line).1..]
  {
  }

  /** No stretch without a newline is longer than max. */
  ghost predicate FitsIn(max: nat, text: string) {
    forall i, j :: 0 <= i <= j <= |text| && j - i > max ==> '\n' in text[i..j]
  }

  predicate EndsLine(text: string) {
    text == "" || text[|text| - 1] == '\n'
  }

  lemma FitsTogether(max: nat, text: string, more: string)
    requires FitsIn(max, text) && FitsIn(max, more) && EndsLine(text)
    ensures FitsIn(max, text + more)
  {
    var all := text + more;
    forall i, j | 0 <= i <= j <= |all| && j - i > max ensures '\n' in all[i..j] {
      if j <= |text| {
        assert all[i..j] == text[i..j];
      } else if i >= |text| {
        assert all[i..j] == more[i - |text|..j - |text|];
      } else {
        assert all[i..j][|text| - 1 - i] == '\n';
      }
    }
  }

  lemma LineFits(max: nat, line: string)
    requires |line| <= max && '\n' !in line
    ensures FitsIn(max, line + "\n") && EndsLine(line + "\n")
  {
    var text := line + "\n";
    forall i, j | 0 <= i <= j <= |text| && j - i > max ensures '\n' in text[i..j] {
      assert text[i..j][|line| - i] == '\n';
    }
  }

  /** No line that the loop writes is longer than maxColumns. */
  lemma {:induction false} WrappedFits(indent: nat, max: nat, line: string)
    requires 0 < indent <= NUM_OPTION_COLUMNS && StartsBlank(line) && Ends(indent, max, line)
    ensures FitsIn(max, Wrapped(indent, max, line)) && EndsLine(Wrapped(indent, max, line))
    decreases Newlines(line), |line|
  {
    if !MustWrap(max, line) {
      LineFits(max, line);
    } else {
      RoundKeepsEnds(indent, max, line);
      RoundShortens(indent, max, line);
      var piece, rest := line[..Cut(max, line).0], Rest(indent, max, line);
      LineFits(max, piece);
      WrappedFits(indent, max, rest);
      FitsTogether(max, piece + "\n", Wrapped(indent, max, rest));
    }
  }

  /** The characters that are not blank, in order. */
  function Ink(s: string): string {
    if s == "" then "" else InkOf(s[0]) + Ink(s[1..])
  }

  function InkOf(c: char): string {
    if c == ' ' || c == '\n' then "" else [c]
  }

  lemma {:induction false} InkOfSum(s: string, t: string)
    ensures Ink(s + t) == Ink(s) + Ink(t)
  {
    if s == "" {
      assert s + t == t && Ink(s) + Ink(t) == Ink(t);
    } else {
      InkOfSum(s[1..], t);
      assert s == [s[0]] + s[1..] && s + t == [s[0]] + (s[1..] + t);
      InkOfMore(s[0], s[1..]);
      InkOfMore(s[0], s[1..] + t);
      Regroup(InkOf(s[0]), Ink(s[1..]), Ink(t));
    }
  }

  lemma InkOfMore(c: char, s: string)
    ensures Ink([c] + s) == InkOf(c) + Ink(s)
  {
    assert ([c] + s)[1..] == s;
  }

  lemma {:induction false} NoInk(s: string)
    requires forall i :: 0 <= i < |s| ==> s[i] == ' ' || s[i] == '\n'
    ensures Ink(s) == ""
  {
    if s != "" {
      NoInk(s[1..]);
    }
  }

  lemma InkOfThree(a: string, b: string, c: string)
    requires Ink(b) == ""
    ensures Ink(a + b + c) == Ink(a) + Ink(c)
  {
    InkOfSum(a + b, c);
    InkOfSum(a, b);
    assert Ink(a) + "" == Ink(a);
  }

  lemma InkMoves(a: string, b: string, c: string, d: string)
    requires Ink(b) == "" && Ink(d) == ""
    ensures Ink(a + b + c) == Ink(a) + Ink(d + c)
  {
    InkOfThree(a, b, c);
    InkOfSum(d, c);
    assert "" + Ink(c) == Ink(c);
  }

  lemma CutLosesBlanks(max: nat, line: string)
    requires StartsBlank(line) && MustWrap(max, line)
    ensures var (cut, next) := Cut(max, line);
            Ink(line[cut..next]) == "" && line == line[..cut] + line[cut..next] + line[next..]
  {
    var (cut, next) := Cut(max, line);
    LossyParts(line, cut, next);
  }

  lemma LossyParts(line: string, cut: nat, next: nat)
    requires cut <= next <= cut + 1 && next <= |line| && (cut < next ==> line[cut] == '\n' || line[cut] == ' ')
    ensures Ink(line[cut..next]) == "" && line == line[..cut] + line[cut..next] + line[next..]
  {
    NoInk(line[cut..next]);
    assert line[..cut] + line[cut..next] == line[..next];
    assert line == line[..next] + line[next..];
  }

  lemma RoundKeepsInk(indent: nat, max: nat, line: string)
    requires StartsBlank(line) && MustWrap(max, line)
    ensures Ink(line) == Ink(line[..Cut(max, line).0]) + Ink(Rest(indent, max, line))
  {
    var r := Cut(max, line);
    CutLosesBlanks(max, line);
    NoInk(Spaces(indent));
    InkMoves(line[..r.0], line[r.0..r.1], line[r.1..], Spaces(indent));
  }

  lemma WrappedNext(indent: nat, max: nat, line: string)
    requires 0 < indent <= NUM_OPTION_COLUMNS && StartsBlank(line) && Ends(indent, max, line) && MustWrap(max, line)
    ensures StartsBlank(Rest(indent, max, line)) && Ends(indent, max, Rest(indent, max, line))
    ensures Wrapped(indent, max, line) == line[..Cut(max, line).0] + "\n" + Wrapped(indent, max, Rest(indent, max, line))
  {
    RoundKeepsEnds(indent, max, line);
  }

  /** Wrapping adds and drops blanks only. */
  lemma {:induction false} WrappedKeepsInk(indent: nat, max: nat, line: string)
    requires 0 < indent <= NUM_OPTION_COLUMNS && StartsBlank(line) && Ends(indent, max, line)
    ensures Ink(Wrapped(indent, max, line)) == Ink(line)
    decreases Newlines(line), |line|
  {
    NoInk("\n");
    if !MustWrap(max, line) {
      InkOfSum(line, "\n");
      assert Ink(line) + "" == Ink(line);
    } else {
      var rest := Rest(indent, max, line);
      RoundShortens(indent, max, line);
      WrappedNext(indent, max, line);
      WrappedKeepsInk(indent, max, rest);
      RoundKeepsInk(indent, max, line);
      InkOfThree(line[..Cut(max, line).0], "\n", Wrapped(indent, max, rest));
    }
  }

  // ----- the whole text ------------------------------------------------------------------

  datatype Entry = Entry(option: Opt, description: string, visible: bool)

  function Names(cfg: Config, o: Opt): string {
    (if o.shortopt != NUL then [cfg.shortPrefix, o.shortopt] + (if o.longopt != "" then ", " else "") else "")
    + (if o.longopt != "" then cfg.longPrefix + o.longopt else "")
    + (if o.argType == RequiredArg then " <arg>" else if o.argType == OptionalArg then " [arg]" else "")
  }

  function DefaultText(o: Opt): string {
    match o.defaultValue
    case None => ""
    case Some(value) =>
      var quote := if ' ' in value then "\"" else "";
      " (default is " + quote + value + quote + ")"
  }

  /** How the names of an option are shown, with a mark of its value. */
  lemma NamesShown(id: int, c: char, name: string, argType: ArgType, default: Option<string>)
    requires c != NUL && name != ""
    ensures var cfg := Config('-', "--", '=', true);
            var mark := match argType case RequiredArg => " <arg>" case OptionalArg => " [arg]" case _ => "";
            && Names(cfg, Opt(id, c, name, argType, default)) == ['-', c] + ", --" + name + mark
            && Names(cfg, Opt(id, c, "", argType, default)) == ['-', c] + mark
            && Names(cfg, Opt(id, NUL, name, argType, default)) == "--" + name + mark
            && Names(cfg, Opt(id, NUL, "", Grouping, default)) == ""
  {
    assert ['-', c] + ", " + ("--" + name) == ['-', c] + ", --" + name;
    assert ['-', c] + "" + "" == ['-', c];
    assert "" + ("--" + name) == "--" + name;
  }

  /** Different defaults are told apart, quotes and all. */
  lemma DefaultsDiffer(o: Opt, p: Opt)
    ensures DefaultText(o) == DefaultText(p) <==> o.defaultValue == p.defaultValue
    ensures o.defaultValue == Some("a") ==> DefaultText(o) == " (default is a)"
    ensures o.defaultValue == Some("a b") ==> DefaultText(o) == " (default is \"a b\")"
  {
    if o.defaultValue.Some? && p.defaultValue.Some? && DefaultText(o) == DefaultText(p) {
      var v, w := o.defaultValue.value, p.defaultValue.value;
      var n := |" (default is "|;
      var q := if ' ' in v then "\"" else "";
      var r := if ' ' in w then "\"" else "";
      assert DefaultText(o)[n..|DefaultText(o)| - 1] == q + v + q;
      assert DefaultText(p)[n..|DefaultText(p)| - 1] == r + w + r;
      QuotedDiffer(v, w);
    }
  }

  lemma QuotedDiffer(v: string, w: string)
    requires var q, r := if ' ' in v then "\"" else "", if ' ' in w then "\"" else ""; q + v + q == r + w + r
    ensures v == w
  {
    if ' ' in v {
      var k :| 0 <= k < |v| && v[k] == ' ';
      var all := "\"" + v + "\"";
      assert all[k + 1] == ' ';
      assert all[1..|all| - 1] == v;
    }
    if ' ' in w {
      var k :| 0 <= k < |w| && w[k] == ' ';
      var all := "\"" + w + "\"";
      assert all[k + 1] == ' ';
      assert all[1..|all| - 1] == w;
    }
    assert "" + v + "" == v && "" + w + "" == w;
  }

  function Padding(cfg: Config, o: Opt): (padding: string)
    ensures forall i :: 0 <= i < |padding| ==> padding[i] == ' '
  {
    var names := Spaces(INITIAL_INDENT) + Names(cfg, o);
    if o.argType == Grouping then ""
    else if |names| >= NUM_OPTION_COLUMNS - 1 then Spaces(1)
    else Spaces(NUM_OPTION_COLUMNS - |names|)
  }

  /** The entry before it is wrapped: the description in its column, if the names leave room. */
  function Layout(cfg: Config, e: Entry): (line: string)
    ensures StartsBlank(line)
  {
    Spaces(INITIAL_INDENT) + Names(cfg, e.option) + Padding(cfg, e.option) + e.description + DefaultText(e.option)
  }

  /** The descriptions line up: in the column after the names, or one space after names too long for it. */
  lemma DescriptionColumn(cfg: Config, e: Entry)
    requires e.option.argType != Grouping
    ensures var line, names := Layout(cfg, e), Spaces(INITIAL_INDENT) + Names(cfg, e.option);
            var column := if |names| < NUM_OPTION_COLUMNS then NUM_OPTION_COLUMNS else |names| + 1;
            && |names| < column <= |line|
            && line[..|names|] == names
            && (forall i :: |names| <= i < column ==> line[i] == ' ')
            && line[column..] == e.description + DefaultText(e.option)
  {
    var names := Spaces(INITIAL_INDENT) + Names(cfg, e.option);
    assert Layout(cfg, e) == names + (Padding(cfg, e.option) + (e.description + DefaultText(e.option)));
  }

  lemma InkOfParts(indent: string, names: string, padding: string, description: string, default: string)
    requires Ink(indent) == "" && Ink(padding) == ""
    ensures Ink(indent + names + padding + description + default) == Ink(names) + Ink(description) + Ink(default)
  {
    InkOfSum(indent, names);
    assert "" + Ink(names) == Ink(names);
    InkOfThree(indent + names, padding, description);
    InkOfSum(indent + names + padding + description, default);
  }

  /** An entry says the names, the description and the default. */
  lemma LayoutInk(cfg: Config, e: Entry)
    ensures Ink(Layout(cfg, e)) == Ink(Names(cfg, e.option)) + Ink(e.description) + Ink(DefaultText(e.option))
  {
    NoInk(Spaces(INITIAL_INDENT));
    NoInk(Padding(cfg, e.option));
    InkOfParts(Spaces(INITIAL_INDENT), Names(cfg, e.option), Padding(cfg, e.option), e.description,
               DefaultText(e.option));
  }

  /** An entry laid out: what goes into the wrapping loop. */
  datatype Block = Block(line: string, grouping: bool)

  function BlockOf(cfg: Config, e: Entry): (b: Block)
    ensures StartsBlank(b.line)
  {
    Block(Layout(cfg, e), e.option.argType == Grouping)
  }

  function Shown(cfg: Config, entries: seq<Entry>, all: bool): (blocks: seq<Block>)
    ensures forall i :: 0 <= i < |blocks| ==> StartsBlank(blocks[i].line)
  {
    if entries == [] then []
    else (if all || entries[0].visible then [BlockOf(cfg, entries[0])] else []) + Shown(cfg, entries[1..], all)
  }

  /** An entry is shown if it is visible or all are asked for, and in its place. */
  lemma {:induction false} ShownInPlace(cfg: Config, before: seq<Entry>, e: Entry, after: seq<Entry>, all: bool)
    ensures Shown(cfg, before + ([e] + after), all) ==
            Shown(cfg, before, all) + ((if e.visible || all then [BlockOf(cfg, e)] else []) + Shown(cfg, after, all))
  {
    var rest := [e] + after;
    if before == [] {
      assert before + rest == rest && rest[1..] == after;
    } else {
      assert (before + rest)[1..] == before[1..] + rest && (before + rest)[0] == before[0];
      ShownInPlace(cfg, before[1..], e, after, all);
    }
  }

  predicate BlockEnds(b: Block, max: nat) {
    StartsBlank(b.line) && Ends(Indent(b.grouping), max, b.line)
  }

  function BlockText(b: Block, max: nat): string
    requires BlockEnds(b, max)
  {
    var newline := if b.grouping then "\n" else "";
    newline + Wrapped(Indent(b.grouping), max, b.line) + newline
  }

  predicate AllEnd(blocks: seq<Block>, max: nat) {
    forall i :: 0 <= i < |blocks| ==> BlockEnds(blocks[i], max)
  }

  function Concat(parts: seq<string>): string {
    if parts == [] then "" else Concat(parts[..|parts| - 1]) + parts[|parts| - 1]
  }

  function Texts(blocks: seq<Block>, max: nat): (texts: seq<string>)
    requires AllEnd(blocks, max)
  {
    seq(|blocks|, i requires 0 <= i < |blocks| => BlockText(blocks[i], max))
  }

  function Lines(blocks: seq<Block>): seq<string> {
    seq(|blocks|, i requires 0 <= i < |blocks| => blocks[i].line)
  }

  /** One option's part of getUsage. */
  method AddBlock(b: Block, maxColumns: nat, before: string) returns (usage: string)
    requires BlockEnds(b, maxColumns)
    ensures usage == before + BlockText(b, maxColumns)
  {
    var groupingNewline := if b.grouping then "\n" else "";
    usage := Wrap(b.line, b.grouping, maxColumns, before + groupingNewline);
    usage := usage + groupingNewline;
  }

  lemma ConcatNext(parts: seq<string>, n: nat)
    requires n < |parts|
    ensures Concat(parts[..n + 1]) == Concat(parts[..n]) + parts[n]
  {
    assert parts[..n + 1][..n] == parts[..n];
  }

  method AddBlocks(blocks: seq<Block>, maxColumns: nat, before: string) returns (usage: string)
    requires AllEnd(blocks, maxColumns)
    ensures usage == before + Concat(Texts(blocks, maxColumns))
  {
    ghost var texts := Texts(blocks, maxColumns);
    usage := before;
    var n := 0;
    assert Concat(texts[..0]) == "" && before + "" == before;
    while n < |blocks|
      invariant n <= |blocks|
      invariant usage == before + Concat(texts[..n])
    {
      ConcatNext(texts, n);
      Regroup(before, Concat(texts[..n]), texts[n]);
      usage := AddBlock(blocks[n], maxColumns, usage);
      n := n + 1;
    }
    assert texts[..n] == texts;
  }

  /** getUsage: every option is laid out and wrapped, unless it is invisible. */
  method GetUsage(cfg: Config, options: seq<Entry>, maxColumns: nat, all: bool) returns (usage: string)
    requires AllEnd(Shown(cfg, options, all), maxColumns)
    ensures usage == "Options:\n" + Concat(Texts(Shown(cfg, options, all), maxColumns))
  {
    usage := AddBlocks(Shown(cfg, options, all), maxColumns, "Options:\n");
  }

  lemma NewlineLast(max: nat, text: string)
    requires FitsIn(max, text) && EndsLine(text) && text != ""
    ensures FitsIn(max, text + "\n") && FitsIn(max, "\n" + text)
  {
    LineFits(max, "");
    FitsTogether(max, text, "\n");
    FitsTogether(max, "\n", text);
  }

  lemma BlockFits(b: Block, max: nat)
    requires BlockEnds(b, max)
    ensures FitsIn(max, BlockText(b, max)) && EndsLine(BlockText(b, max))
  {
    var wrapped := Wrapped(Indent(b.grouping), max, b.line);
    WrappedFits(Indent(b.grouping), max, b.line);
    if b.grouping {
      NewlineLast(max, wrapped);
      NewlineLast(max, "\n" + wrapped);
    } else {
      assert BlockText(b, max) == wrapped;
    }
  }

  lemma {:induction false} ConcatFits(max: nat, parts: seq<string>)
    requires forall i :: 0 <= i < |parts| ==> FitsIn(max, parts[i]) && EndsLine(parts[i])
    ensures FitsIn(max, Concat(parts)) && EndsLine(Concat(parts))
  {
    if parts != [] {
      ConcatFits(max, parts[..|parts| - 1]);
      FitsTogether(max, Concat(parts[..|parts| - 1]), parts[|parts| - 1]);
    }
  }

  /** The promise of the header file: with more columns than the descriptions' indentation the text is
      produced, and no line of it is longer. */
  lemma UsageFits(cfg: Config, options: seq<Entry>, all: bool, max: nat)
    requires max > NUM_OPTION_COLUMNS
    ensures var blocks := Shown(cfg, options, all);
            AllEnd(blocks, max) && FitsIn(max, "Options:\n" + Concat(Texts(blocks, max)))
  {
    var blocks := Shown(cfg, options, all);
    var texts := Texts(blocks, max);
    forall i | 0 <= i < |texts| ensures FitsIn(max, texts[i]) && EndsLine(texts[i]) {
      BlockFits(blocks[i], max);
    }
    ConcatFits(max, texts);
    LineFits(max, "Options:");
    assert "Options:\n" == "Options:" + "\n";
    FitsTogether(max, "Options:\n", Concat(texts));
  }

  lemma BlockKeepsInk(b: Block, max: nat)
    requires BlockEnds(b, max)
    ensures Ink(BlockText(b, max)) == Ink(b.line)
  {
    var wrapped := Wrapped(Indent(b.grouping), max, b.line);
    WrappedKeepsInk(Indent(b.grouping), max, b.line);
    if b.grouping {
      InkOfSum("\n" + wrapped, "\n");
      InkOfSum("\n", wrapped);
      NoInk("\n");
    } else {
      assert BlockText(b, max) == wrapped;
    }
  }

  lemma {:induction false} ConcatKeepsInk(parts: seq<string>, others: seq<string>)
    requires |parts| == |others| && forall i :: 0 <= i < |parts| ==> Ink(parts[i]) == Ink(others[i])
    ensures Ink(Concat(parts)) == Ink(Concat(others))
  {
    var n := |parts| - 1;
    if n >= 0 {
      ConcatKeepsInk(parts[..n], others[..n]);
      InkOfSum(Concat(parts[..n]), parts[n]);
      InkOfSum(Concat(others[..n]), others[n]);
    }
  }

  /** The usage text says what the entries say, all of it and in order. */
  lemma UsageKeepsInk(blocks: seq<Block>, max: nat)
    requires AllEnd(blocks, max)
    ensures Ink("Options:\n" + Concat(Texts(blocks, max))) == Ink("Options:\n") + Ink(Concat(Lines(blocks)))
  {
    var texts := Texts(blocks, max);
    forall i | 0 <= i < |texts| ensures Ink(texts[i]) == Ink(Lines(blocks)[i]) {
      BlockKeepsInk(blocks[i], max);
    }
    ConcatKeepsInk(texts, Lines(blocks));
    InkOfSum("Options:\n", Concat(texts));
  }

  /** A short entry is shown on one line as it is laid out: the indentation, the names, the description in its
      column, and the default. */
  lemma ShortEntryText(cfg: Config, e: Entry, max: nat, line: string)
    requires e.option.argType != Grouping && |Names(cfg, e.option)| < 25
    requires line == "  " + Names(cfg, e.option) + Spaces(26 - |Names(cfg, e.option)|) + e.description +
                     DefaultText(e.option)
    requires |line| <= max && '\n' !in line
    ensures BlockEnds(BlockOf(cfg, e), max) && BlockText(BlockOf(cfg, e), max) == line + "\n"
  {
    LayoutOfShort(cfg, e, line);
    OneLine(BlockOf(cfg, e), max);
  }

  lemma LayoutOfShort(cfg: Config, e: Entry, line: string)
    requires e.option.argType != Grouping && |Names(cfg, e.option)| < 25
    requires line == "  " + Names(cfg, e.option) + Spaces(26 - |Names(cfg, e.option)|) + e.description +
                     DefaultText(e.option)
    ensures Layout(cfg, e) == line
  {
    var names := Names(cfg, e.option);
    assert Spaces(INITIAL_INDENT) == "  ";
    assert |Spaces(INITIAL_INDENT) + names| == 2 + |names|;
    assert Padding(cfg, e.option) == Spaces(26 - |names|);
  }

  lemma OneLine(b: Block, max: nat)
    requires StartsBlank(b.line) && !b.grouping && |b.line| <= max && '\n' !in b.line
    ensures BlockEnds(b, max) && BlockText(b, max) == b.line + "\n"
  {
    var text := b.line + "\n";
    assert "" + text + "" == text;
  }
}
