/**
 * The runner's command-line splitter: the imperative scanner, the automaton it
 * runs, and an independent grammar of command lines that says what it computes.
 */
module CommandLine {
  import opened Text

  const NO_QUOTE: char := '\0'

  predicate IsQuote(c: char) {
    c == '"' || c == '\''
  }

  /** The scanner's local variables. */
  datatype Scan = Scan(args: seq<string>, current: string, quote: char, inArg: bool)

  const START := Scan([], "", NO_QUOTE, false)

  function Step(s: Scan, r: char): Scan {
    if s.quote != NO_QUOTE then
      if r == s.quote then s.(quote := NO_QUOTE) else s.(current := s.current + [r])
    else if IsQuote(r) then
      s.(quote := r, inArg := true)
    else if IsSpace(r) then
      if s.inArg then Scan(s.args + [s.current], "", NO_QUOTE, false) else s
    else
      s.(current := s.current + [r], inArg := true)
  }

  function Run(s: Scan, line: string): Scan
    decreases |line|
  {
    if line == "" then s else Run(Step(s, line[0]), line[1..])
  }

  function Finish(s: Scan): seq<string> {
    if s.inArg then s.args + [s.current] else s.args
  }

  function Split(line: string): seq<string> {
    Finish(Run(START, line))
  }

  /** A line that does not end inside a quotation. */
  predicate Balanced(line: string) {
    Run(START, line).quote == NO_QUOTE
  }

  method SplitCommandLine(commandLine: string) returns (args: seq<string>)
    ensures args == Split(commandLine)
  {
    args := [];
    var current, quote, inArg := "", NO_QUOTE, false;
    for i := 0 to |commandLine|
      invariant Run(Scan(args, current, quote, inArg), commandLine[i..]) == Run(START, commandLine)
    {
      var r := commandLine[i];
      assert commandLine[i..][1..] == commandLine[i + 1..];
      if quote != NO_QUOTE {
        if r == quote {
          quote := NO_QUOTE;
        } else {
          current := current + [r];
        }
      } else if IsQuote(r) {
        quote := r;
        inArg := true;
      } else if IsSpace(r) {
        if inArg {
          args := args + [current];
          current := "";
          inArg := false;
        }
      } else {
        current := current + [r];
        inArg := true;
      }
    }
    if inArg {
      args := args + [current];
    }
  }

  // ---------------------------------------------------------------------------
  // The automaton
  // ---------------------------------------------------------------------------

  lemma {:induction false} RunConcat(s: Scan, a: string, b: string)
    ensures Run(s, a + b) == Run(Run(s, a), b)
    decreases |a|
  {
    if a == "" {
      assert a + b == b;
    } else {
      assert (a + b)[1..] == a[1..] + b;
      RunConcat(Step(s, a[0]), a[1..], b);
    }
  }

  lemma {:induction false} RunSnoc(s: Scan, a: string, c: char)
    ensures Run(s, a + [c]) == Step(Run(s, a), c)
  {
    RunConcat(s, a, [c]);
    assert [c][1..] == "";
  }

  /** Outside an argument nothing has been collected and no quotation is open. */
  predicate Coherent(s: Scan) {
    !s.inArg ==> s.current == "" && s.quote == NO_QUOTE
  }

  lemma {:induction false} RunCoherent(s: Scan, line: string)
    requires Coherent(s)
    ensures Coherent(Run(s, line))
    decreases |line|
  {
    if line != "" {
      RunCoherent(Step(s, line[0]), line[1..]);
    }
  }

  function After(p: seq<string>, s: Scan): Scan {
    s.(args := p + s.args)
  }

  /** Completed arguments never influence the rest of the scan. */
  lemma {:induction false} RunAfter(p: seq<string>, s: Scan, line: string)
    ensures Run(After(p, s), line) == After(p, Run(s, line))
    ensures Finish(Run(After(p, s), line)) == p + Finish(Run(s, line))
    decreases |line|
  {
    if line != "" {
      assert Step(After(p, s), line[0]) == After(p, Step(s, line[0])) by {
        assert p + (s.args + [s.current]) == p + s.args + [s.current];
      }
      RunAfter(p, Step(s, line[0]), line[1..]);
    } else {
      assert p + (s.args + [s.current]) == p + s.args + [s.current];
    }
  }

  lemma {:induction false} FinishesWithArgument(s: Scan, line: string)
    requires s.inArg || s.args != []
    ensures Finish(Run(s, line)) != []
    decreases |line|
  {
    if line != "" {
      FinishesWithArgument(Step(s, line[0]), line[1..]);
    }
  }

  /** A line splits into nothing exactly when it is blank; an empty quotation is an argument. */
  lemma {:induction false} SplitNothing(line: string)
    ensures Split(line) == [] <==> IsBlank(line)
  {
    if line != "" {
      if IsSpace(line[0]) {
        assert Step(START, line[0]) == START;
        SplitNothing(line[1..]);
        assert IsBlank(line) <==> IsBlank(line[1..]) by {
          assert forall i | 0 <= i < |line| - 1 :: line[1..][i] == line[i + 1];
        }
      } else {
        FinishesWithArgument(Step(START, line[0]), line[1..]);
      }
    }
  }

  // ---------------------------------------------------------------------------
  // What a command line means: blanks separate words, a word is a run of plain
  // runes and quotations, and only the last quotation may be left open
  // ---------------------------------------------------------------------------

  datatype Token =
    | Blank(c: char)
    | Plain(c: char)
    | Quoted(q: char, body: string)
    | Open(q: char, body: string)
  {
    predicate Ok() {
      match this
      case Blank(c) => IsSpace(c)
      case Plain(c) => !IsSpace(c) && !IsQuote(c)
      case Quoted(q, body) => IsQuote(q) && q !in body
      case Open(q, body) => IsQuote(q) && q !in body
    }

    function Text(): string {
      match this
      case Blank(c) => [c]
      case Plain(c) => [c]
      case Quoted(q, body) => [q] + body + [q]
      case Open(q, body) => [q] + body
    }

    function Value(): string {
      match this
      case Blank(_) => ""
      case Plain(c) => [c]
      case Quoted(_, body) => body
      case Open(_, body) => body
    }
  }

  predicate Lexed(ts: seq<Token>) {
    forall i | 0 <= i < |ts| :: ts[i].Ok() && (ts[i].Open? ==> i == |ts| - 1)
  }

  function TextOf(ts: seq<Token>): string {
    if ts == [] then "" else ts[0].Text() + TextOf(ts[1..])
  }

  function ValueOf(ts: seq<Token>): string {
    if ts == [] then "" else ts[0].Value() + ValueOf(ts[1..])
  }

  function WordLength(ts: seq<Token>): (n: nat)
    ensures n <= |ts|
    ensures forall i | 0 <= i < n :: !ts[i].Blank?
    ensures n < |ts| ==> ts[n].Blank?
  {
    if ts == [] || ts[0].Blank? then 0 else 1 + WordLength(ts[1..])
  }

  function Words(ts: seq<Token>): seq<string> {
    if ts == [] then []
    else if ts[0].Blank? then Words(ts[1..])
    else var n := WordLength(ts); [ValueOf(ts[..n])] + Words(ts[n..])
  }

  /** The first position of `c` in `s`, or the length of `s`. */
  function IndexOf(s: string, c: char): (k: nat)
    ensures k <= |s| && c !in s[..k]
    ensures k < |s| ==> s[k] == c
  {
    if s == "" || s[0] == c then 0 else 1 + IndexOf(s[1..], c)
  }

  function FirstToken(s: string): (t: Token)
    requires s != ""
    ensures t.Ok() && t.Text() <= s
    ensures t.Open? ==> t.Text() == s
  {
    if IsQuote(s[0]) then
      var k := IndexOf(s[1..], s[0]);
      if k == |s| - 1 then
        Open(s[0], s[1..])
      else
        assert [s[0]] + s[1..k + 1] + [s[0]] == s[..k + 2];
        assert s[1..][..k] == s[1..k + 1];
        Quoted(s[0], s[1..k + 1])
    else if IsSpace(s[0]) then Blank(s[0])
    else Plain(s[0])
  }

  /** Every line is the text of a token sequence. */
  function Tokenize(s: string): (ts: seq<Token>)
    ensures TextOf(ts) == s && Lexed(ts)
  {
    if s == "" then []
    else
      var t := FirstToken(s);
      var rest := Tokenize(s[|t.Text()|..]);
      assert t.Text() + s[|t.Text()|..] == s;
      assert ([t] + rest)[1..] == rest;
      [t] + rest
  }

  lemma {:induction false} RunQuotation(s: Scan, body: string)
    requires IsQuote(s.quote) && s.quote !in body
    ensures Run(s, body) == s.(current := s.current + body)
    decreases |body|
  {
    if body != "" {
      var s' := Step(s, body[0]);
      assert s'.quote == s.quote;
      assert forall c | c in body[1..] :: c in body;
      RunQuotation(s', body[1..]);
      assert s.current + [body[0]] + body[1..] == s.current + body;
    } else {
      assert s.current + body == s.current;
    }
  }

  lemma {:induction false} RunToken(s: Scan, t: Token)
    requires s.quote == NO_QUOTE && t.Ok() && !t.Blank?
    ensures var q := if t.Open? then t.q else NO_QUOTE;
            Run(s, t.Text()) == Scan(s.args, s.current + t.Value(), q, true)
  {
    var text := t.Text();
    match t
    case Plain(c) =>
      assert text == "" + [c];
      RunSnoc(s, "", c);
    case Quoted(q, body) =>
      var s1 := s.(quote := q, inArg := true);
      assert text[1..] == body + [q];
      RunQuotation(s1, body);
      RunSnoc(s1, body, q);
    case Open(q, body) =>
      assert text[1..] == body;
      RunQuotation(s.(quote := q, inArg := true), body);
  }

  lemma OneToken(t: Token)
    ensures TextOf([t]) == t.Text() && ValueOf([t]) == t.Value()
  {
    assert [t][1..] == [];
    assert t.Text() + "" == t.Text();
    assert t.Value() + "" == t.Value();
  }

  /** A non-empty run of well-formed tokens with no blank, open at most at the end. */
  predicate Word(w: seq<Token>) {
    && w != [] && w[0].Ok() && !w[0].Blank?
    && (|w| > 1 ==> !w[0].Open? && Word(w[1..]))
  }

  /** The quote rune a word leaves open, if any. */
  function EndQuote(w: seq<Token>): char
    requires Word(w)
  {
    if |w| > 1 then EndQuote(w[1..]) else if w[0].Open? then w[0].q else NO_QUOTE
  }

  lemma {:induction false} LexedWord(ts: seq<Token>, n: nat)
    requires Lexed(ts) && 0 < n <= |ts|
    requires forall i | 0 <= i < n :: !ts[i].Blank?
    ensures Word(ts[..n])
    ensures n < |ts| ==> EndQuote(ts[..n]) == NO_QUOTE
    decreases n
  {
    if n > 1 {
      assert ts[..n][1..] == ts[1..][..n - 1];
      LexedWord(ts[1..], n - 1);
    }
  }

  /** Scanning the tokens of one word collects its value. */
  lemma {:induction false} RunWord(s: Scan, w: seq<Token>)
    requires s.quote == NO_QUOTE && Word(w)
    ensures Run(s, TextOf(w)) == Scan(s.args, s.current + ValueOf(w), EndQuote(w), true)
    decreases |w|
  {
    hide Run, Token.Text, Token.Value, Token.Ok;
    RunToken(s, w[0]);
    if |w| == 1 {
      assert w == [w[0]];
      OneToken(w[0]);
    } else {
      var s1 := Scan(s.args, s.current + w[0].Value(), NO_QUOTE, true);
      RunWord(s1, w[1..]);
      RunConcat(s, w[0].Text(), TextOf(w[1..]));
      assert s1.current + ValueOf(w[1..]) == s.current + (w[0].Value() + ValueOf(w[1..]));
    }
  }

  lemma {:induction false} TextOfConcat(a: seq<Token>, b: seq<Token>)
    ensures TextOf(a + b) == TextOf(a) + TextOf(b)
  {
    if a == [] {
      assert a + b == b;
    } else {
      assert (a + b)[1..] == a[1..] + b;
      TextOfConcat(a[1..], b);
    }
  }

  /** One word and the blank after it add one argument. */
  lemma SplitWord(w: seq<Token>, blank: char, line: string)
    requires Word(w) && EndQuote(w) == NO_QUOTE && IsSpace(blank)
    ensures Split(TextOf(w) + ([blank] + line)) == [ValueOf(w)] + Split(line)
  {
    RunWord(START, w);
    RunConcat(START, TextOf(w), [blank] + line);
    var s := Run(START, TextOf(w));
    assert START.current + ValueOf(w) == ValueOf(w);
    assert ([blank] + line)[1..] == line;
    assert Step(s, blank) == After([ValueOf(w)], START) by {
      assert START.args + [ValueOf(w)] == [ValueOf(w)] + START.args;
    }
    RunAfter([ValueOf(w)], START, line);
  }

  /** Main result: the splitter returns the words of any token sequence that spells the line. */
  lemma {:induction false} SplitIsWords(ts: seq<Token>)
    requires Lexed(ts)
    ensures Split(TextOf(ts)) == Words(ts)
    decreases |ts|
  {
    if ts == [] {
    } else if ts[0].Blank? {
      SplitIsWords(ts[1..]);
      assert ([ts[0].c] + TextOf(ts[1..]))[1..] == TextOf(ts[1..]);
    } else {
      var n := WordLength(ts);
      LexedWord(ts, n);
      var w, rest := ts[..n], ts[n..];
      assert ts == w + rest;
      TextOfConcat(w, rest);
      if rest == [] {
        RunWord(START, w);
        assert TextOf(w) + "" == TextOf(w);
        assert START.current + ValueOf(w) == ValueOf(w);
      } else {
        SplitIsWords(rest[1..]);
        SplitWord(w, rest[0].c, TextOf(rest[1..]));
      }
    }
  }

  /** For every line: the result is the list of words of its tokens. */
  lemma SplitMeaning(line: string)
    ensures Split(line) == Words(Tokenize(line))
  {
    SplitIsWords(Tokenize(line));
  }

  // ---------------------------------------------------------------------------
  // Concatenation and trimming, with the exact conditions
  // ---------------------------------------------------------------------------

  /** Arguments already completed stay, and the one being collected only grows. */
  lemma {:induction false} RunExtends(s: Scan, line: string)
    requires s.inArg
    ensures var s' := Run(s, line);
            && s.args <= s'.args
            && (|s'.args| == |s.args| ==> s'.inArg && s.current <= s'.current)
            && (|s'.args| > |s.args| ==> s.current <= s'.args[|s.args|])
            && |Finish(s')| > |s.args| && s.current <= Finish(s')[|s.args|]
    decreases |line|
  {
    if line != "" {
      var s1 := Step(s, line[0]);
      if s1.inArg {
        RunExtends(s1, line[1..]);
      } else {
        RunArgsGrow(s1, line[1..]);
      }
    }
  }

  lemma {:induction false} RunArgsGrow(s: Scan, line: string)
    ensures s.args <= Run(s, line).args
    ensures s.args <= Finish(Run(s, line))
    decreases |line|
  {
    if line != "" {
      RunArgsGrow(Step(s, line[0]), line[1..]);
    }
  }

  /** After an open quotation a blank is part of the last word, so that word comes out longer. */
  lemma OpenJoin(a: string, blank: char, b: string, rest: seq<string>)
    requires IsSpace(blank) && !Balanced(a)
    ensures Split(a + [blank] + b) != Split(a) + rest
  {
    var s := Run(START, a);
    RunCoherent(START, a);
    RunConcat(START, a + [blank], b);
    RunSnoc(START, a, blank);
    var s1 := Step(s, blank);
    assert s1 == s.(current := s.current + [blank]) by { QuoteIsQuote(START, a); }
    RunExtends(s1, b);
    assert s1.current <= Split(a + [blank] + b)[|s.args|];
    assert (Split(a) + rest)[|s.args|] == s.current;
    assert |s1.current| > |s.current|;
  }

  /** A blank splits the work in two exactly when it does not fall inside a quotation. */
  lemma SplitAtBlank(a: string, blank: char, b: string)
    requires IsSpace(blank)
    ensures Split(a + [blank] + b) == Split(a) + Split(b) <==> Balanced(a)
  {
    if Balanced(a) {
      var s := Run(START, a);
      RunCoherent(START, a);
      RunConcat(START, a + [blank], b);
      RunSnoc(START, a, blank);
      assert Step(s, blank) == After(Finish(s), START) by { assert Finish(s) + [] == Finish(s); }
      RunAfter(Finish(s), START, b);
    } else {
      OpenJoin(a, blank, b, Split(b));
    }
  }

  lemma {:induction false} QuoteIsQuote(s: Scan, line: string)
    requires s.quote == NO_QUOTE || IsQuote(s.quote)
    ensures Run(s, line).quote == NO_QUOTE || IsQuote(Run(s, line).quote)
    decreases |line|
  {
    if line != "" {
      QuoteIsQuote(Step(s, line[0]), line[1..]);
    }
  }

  /** Trailing blanks close the current argument, or are swallowed by an open quotation. */
  lemma {:induction false} BlankSuffix(s: Scan, blanks: string)
    requires Coherent(s) && IsBlank(blanks) && (s.quote == NO_QUOTE || IsQuote(s.quote))
    ensures s.quote == NO_QUOTE ==> Finish(Run(s, blanks)) == Finish(s) && Run(s, blanks).quote == NO_QUOTE
    ensures s.quote != NO_QUOTE ==> Run(s, blanks) == s.(current := s.current + blanks)
    decreases |blanks|
  {
    if blanks == "" {
      assert s.current + "" == s.current;
    } else {
      BlankSuffix(Step(s, blanks[0]), blanks[1..]);
      assert s.current + [blanks[0]] + blanks[1..] == s.current + blanks;
    }
  }

  lemma TailHarmless(core: string, tail: string)
    requires IsBlank(tail)
    ensures Split(core) == Split(core + tail) <==> Balanced(core + tail) || tail == ""
    ensures Balanced(core) == Balanced(core + tail)
  {
    RunConcat(START, core, tail);
    RunCoherent(START, core);
    QuoteIsQuote(START, core);
    var s := Run(START, core);
    BlankSuffix(s, tail);
    if s.quote != NO_QUOTE {
      assert Split(core)[|s.args|] == s.current;
      assert Split(core + tail)[|s.args|] == s.current + tail;
      if tail == "" { assert core + tail == core; }
    }
  }

  lemma TrimEndFixed(s: string)
    ensures TrimEnd(s) == s <==> s == "" || !IsSpace(s[|s| - 1])
  {
  }

  lemma {:induction false} TrimStartHarmless(line: string)
    ensures Run(START, TrimStart(line)) == Run(START, line)
    ensures TrimStart(line) != "" ==> line != "" && TrimStart(line)[|TrimStart(line)| - 1] == line[|line| - 1]
  {
    if line != "" && IsSpace(line[0]) {
      TrimStartHarmless(line[1..]);
    }
  }

  lemma TrimEndHarmless(t: string)
    ensures Split(TrimEnd(t)) == Split(t) <==> Balanced(t) || TrimEnd(t) == t
    ensures Balanced(TrimEnd(t)) == Balanced(t)
  {
    var core := TrimEnd(t);
    var tail := t[|core|..];
    assert t == core + tail;
    TailHarmless(core, tail);
  }

  /** Trimming is harmless exactly when it removes no trailing blank of an open quotation. */
  lemma TrimHarmless(line: string)
    ensures Split(Trim(line)) == Split(line) <==> Balanced(line) || TrimEnd(line) == line
    ensures Balanced(Trim(line)) == Balanced(line)
  {
    var t := TrimStart(line);
    TrimStartHarmless(line);
    TrimEndHarmless(t);
    TrimEndFixed(t);
    TrimEndFixed(line);
    if t == "" {
      assert Balanced(t);
    }
  }

  // ---------------------------------------------------------------------------
  // A quoting printer, and the round trip
  // ---------------------------------------------------------------------------

  /** Quotes one rune so that the splitter reads it back literally. */
  function QuoteRune(c: char): (t: Token)
    ensures t.Ok() && t.Quoted? && t.Value() == [c]
  {
    if c == '"' then Quoted('\'', [c]) else Quoted('"', [c])
  }

  function QuoteArg(arg: string): seq<Token> {
    if arg == "" then [Quoted('"', "")] else QuoteRunes(arg)
  }

  function QuoteRunes(arg: string): (ts: seq<Token>)
    ensures |ts| == |arg| && Lexed(ts) && ValueOf(ts) == arg
    ensures forall i | 0 <= i < |ts| :: ts[i].Quoted?
  {
    if arg == "" then [] else [QuoteRune(arg[0])] + QuoteRunes(arg[1..])
  }

  function PrintTokens(args: seq<string>): seq<Token> {
    if args == [] then [] else QuoteArg(args[0]) + [Blank(' ')] + PrintTokens(args[1..])
  }

  function Print(args: seq<string>): string {
    TextOf(PrintTokens(args))
  }

  lemma {:induction false} QuotedWord(ts: seq<Token>)
    requires ts != [] && Lexed(ts) && forall i | 0 <= i < |ts| :: ts[i].Quoted?
    ensures Word(ts) && EndQuote(ts) == NO_QUOTE
    decreases |ts|
  {
    if |ts| > 1 {
      QuotedWord(ts[1..]);
    }
  }

  /** Every list of arguments, empty ones and ones with blanks or quotes included, is read back exactly. */
  lemma {:induction false} PrintRoundTrip(args: seq<string>)
    ensures Split(Print(args)) == args
  {
    if args != [] {
      PrintRoundTrip(args[1..]);
      PrintCons(args);
    }
  }

  lemma PrintCons(args: seq<string>)
    requires args != []
    ensures Split(Print(args)) == [args[0]] + Split(Print(args[1..]))
  {
    hide Split, QuoteArg, Lexed, Word, EndQuote;
    var w := QuoteArg(args[0]);
    var rest := [Blank(' ')] + PrintTokens(args[1..]);
    QuotedArg(args[0]);
    assert PrintTokens(args) == w + rest;
    TextOfConcat(w, rest);
    assert rest[1..] == PrintTokens(args[1..]);
    SpaceIsBlank();
    SplitWord(w, ' ', Print(args[1..]));
  }

  lemma SpaceIsBlank()
    ensures IsSpace(' ')
  {
  }

  lemma QuotedArg(arg: string)
    ensures var w := QuoteArg(arg); w != [] && Lexed(w) && Word(w) && EndQuote(w) == NO_QUOTE && ValueOf(w) == arg
  {
    var w := QuoteArg(arg);
    QuotedWord(w);
    if arg == "" { OneToken(w[0]); }
  }

  lemma SplitIsOnto(args: seq<string>)
    ensures exists line :: Split(line) == args
  {
    PrintRoundTrip(args);
  }

  // ---------------------------------------------------------------------------
  // Command lines composed by the API and executed by the runner
  // ---------------------------------------------------------------------------

  /** `$"{task.ExecutablePath} {task.Arguments}".Trim()`, where a null string prints as nothing. */
  function Compose(executable: Option<string>, arguments: Option<string>): string {
    Trim(OrEmpty(executable) + " " + OrEmpty(arguments))
  }

  /** A path with no blanks and no quotes is a single word. */
  lemma {:induction false} PlainRun(s: Scan, path: string)
    requires s.quote == NO_QUOTE
    requires forall i | 0 <= i < |path| :: !IsSpace(path[i]) && !IsQuote(path[i])
    ensures Run(s, path) == Scan(s.args, s.current + path, NO_QUOTE, s.inArg || path != "")
    decreases |path|
  {
    if path == "" {
      assert s.current + "" == s.current;
    } else {
      PlainRun(Step(s, path[0]), path[1..]);
      assert s.current + [path[0]] + path[1..] == s.current + path;
    }
  }

  /** A path with neither blanks nor quotes. */
  predicate PlainPath(path: string) {
    path != "" && forall i | 0 <= i < |path| :: !IsSpace(path[i]) && !IsQuote(path[i])
  }

  lemma PlainWord(path: string)
    requires PlainPath(path)
    ensures Split(path) == [path] && Balanced(path)
  {
    PlainRun(START, path);
    assert START.current + path == path;
    assert START.args + [path] == [path];
  }

  function OrEmpty(s: Option<string>): string {
    if s.Some? then s.value else ""
  }

  lemma ComposeOrEmpty(executable: Option<string>, arguments: Option<string>)
    ensures Compose(executable, arguments) == Compose(Some(OrEmpty(executable)), arguments)
  {
  }

  lemma {:induction false} TrimStartConcat(a: string, b: string)
    requires !IsBlank(a)
    ensures TrimStart(a) != "" && TrimStart(a + b) == TrimStart(a) + b
  {
    hide IsSpace;
    assert (a + b)[0] == a[0] && (a + b)[1..] == a[1..] + b;
    if IsSpace(a[0]) {
      BlankCons(a);
      TrimStartConcat(a[1..], b);
    }
  }

  lemma BlankCons(a: string)
    requires a != ""
    ensures IsBlank(a) <==> IsSpace(a[0]) && IsBlank(a[1..])
  {
    hide IsSpace;
    assert a == [a[0]] + a[1..];
  }

  lemma TrimEndStep(s: string)
    requires s != ""
    ensures var n := |s| - 1;
            && TrimEnd(s) == (if IsSpace(s[n]) then TrimEnd(s[..n]) else s)
            && (IsBlank(s) <==> IsSpace(s[n]) && IsBlank(s[..n]))
  {
    hide IsSpace;
    BlankSnoc(s[..|s| - 1], s[|s| - 1]);
    assert s == s[..|s| - 1] + [s[|s| - 1]];
    hide IsBlank;
  }

  lemma BlankSnoc(a: string, c: char)
    ensures IsBlank(a + [c]) <==> IsSpace(c) && IsBlank(a)
  {
    hide IsSpace;
    var s := a + [c];
    assert s[|a|] == c;
    assert forall i | 0 <= i < |a| :: s[i] == a[i];
  }

  lemma NothingIsBlank()
    ensures IsBlank("")
  {
  }

  lemma {:induction false} TrimEndConcat(a: string, b: string)
    ensures TrimEnd(a + b) == if IsBlank(b) then TrimEnd(a) else a + TrimEnd(b)
    decreases |b|
  {
    hide IsSpace, TrimEnd, IsBlank;
    if b == "" {
      assert a + b == a;
      assert IsBlank(b) by { NothingIsBlank(); }
    } else {
      var n := |b| - 1;
      assert (a + b)[..|a + b| - 1] == a + b[..n] && (a + b)[|a + b| - 1] == b[n];
      TrimEndStep(a + b);
      TrimEndStep(b);
      TrimEndConcat(a, b[..n]);
    }
  }

  lemma BlankIsNothing(a: string)
    requires IsBlank(a)
    ensures Split(a) == [] && Balanced(a)
  {
    BlankSuffix(START, a);
  }

  lemma ComposedBalanced(e: string, a: string)
    requires Balanced(e)
    ensures Split(Trim(e + " " + a)) == Split(e) + Split(a) <==> Balanced(a) || TrimEnd(a) == a
  {
    hide Split, Balanced, Trim, TrimEnd, IsSpace, IsBlank;
    var line := e + " " + a;
    assert line == e + [' '] + a == e + (" " + a);
    SpaceIsBlank();
    SplitAtBlank(e, ' ', a);
    BalancedConcat(e, " " + a);
    BlankFirst(a);
    TrimHarmless(line);
    TrimEndFixed(line);
    TrimEndFixed(a);
    if a != "" {
      assert line[|line| - 1] == a[|a| - 1];
    }
  }

  /** The separating blank opens and closes nothing. */
  lemma BlankFirst(a: string)
    ensures Balanced(" " + a) == Balanced(a) && (a == "" ==> Balanced(a))
    ensures IsBlank(" " + a) == IsBlank(a)
  {
    assert (" " + a)[1..] == a;
    BlankCons(" " + a);
  }

  lemma TrimEndSeparated(e: string, a: string)
    ensures TrimEnd(e + (" " + a)) == if IsBlank(a) then TrimEnd(e) else e + [' '] + TrimEnd(a)
  {
    hide Balanced, TrimEnd, IsSpace, IsBlank;
    TrimEndConcat(e, " " + a);
    BlankFirst(a);
    if !IsBlank(a) {
      TrimEndConcat(" ", a);
      assert e + (" " + TrimEnd(a)) == e + [' '] + TrimEnd(a);
    }
  }

  /** What is left of a composed line whose executable has an open quotation. */
  lemma ComposedOpenLine(e: string, a: string)
    requires !Balanced(e)
    ensures var e' := TrimStart(e);
            Trim(e + " " + a) == if IsBlank(a) then TrimEnd(e') else e' + [' '] + TrimEnd(a)
  {
    hide Balanced, TrimStart, TrimEnd, IsSpace, IsBlank;
    OpenNotBlank(e);
    TrimStartConcat(e, " " + a);
    assert e + " " + a == e + (" " + a);
    TrimEndSeparated(TrimStart(e), a);
  }

  lemma ComposedOpen(e: string, a: string)
    requires !Balanced(e)
    ensures Split(Trim(e + " " + a)) == Split(e) + Split(a) <==> IsBlank(a) && TrimEnd(e) == e
  {
    hide Split, Balanced, Run, Trim, TrimStart, TrimEnd, IsSpace, IsBlank;
    ComposedOpenLine(e, a);
    TrimStartSplit(e);
    if IsBlank(a) {
      OpenAlone(e, a);
    } else {
      SpaceIsBlank();
      OpenJoin(TrimStart(e), ' ', TrimEnd(a), Split(a));
    }
  }

  lemma OpenAlone(e: string, a: string)
    requires !Balanced(e) && IsBlank(a)
    ensures Split(TrimEnd(TrimStart(e))) == Split(e) + Split(a) <==> TrimEnd(e) == e
  {
    hide Split, Balanced, Run, TrimStart, TrimEnd, IsSpace, IsBlank;
    var e' := TrimStart(e);
    TrimStartSplit(e);
    OpenNotBlank(e);
    TrimStartConcat(e, "");
    BlankIsNothing(a);
    TrimEndHarmless(e');
    TrimEndFixed(e');
    TrimEndFixed(e);
    assert Split(e) + [] == Split(e);
  }

  lemma TrimStartSplit(e: string)
    ensures Split(TrimStart(e)) == Split(e) && Balanced(TrimStart(e)) == Balanced(e)
    ensures TrimStart(e) != "" ==> e != "" && TrimStart(e)[|TrimStart(e)| - 1] == e[|e| - 1]
  {
    TrimStartHarmless(e);
  }

  lemma OpenNotBlank(e: string)
    requires !Balanced(e)
    ensures !IsBlank(e)
  {
    hide Balanced;
    if IsBlank(e) {
      BlankIsNothing(e);
    }
  }

  /**
   * An executable and its arguments reach the runner as the concatenation of their own splits exactly when the
   * executable closes its quotations and trimming cut nothing out of an open one, or when the executable ends inside a
   * quotation, not on a blank, and there is nothing else.
   */
  lemma ComposedLine(executable: Option<string>, arguments: Option<string>)
    ensures var e, a := OrEmpty(executable), OrEmpty(arguments);
            Split(Compose(executable, arguments)) == Split(e) + Split(a) <==>
            (if Balanced(e) then Balanced(a) || TrimEnd(a) == a else IsBlank(a) && TrimEnd(e) == e)
  {
    hide Split, Balanced;
    if Balanced(OrEmpty(executable)) {
      ComposedBalanced(OrEmpty(executable), OrEmpty(arguments));
    } else {
      ComposedOpen(OrEmpty(executable), OrEmpty(arguments));
    }
  }

  /** A plain path is executed as it stands, with the split of balanced arguments. */
  lemma ComposedPlainPath(path: string, arguments: Option<string>)
    requires PlainPath(path) && Balanced(OrEmpty(arguments))
    ensures Split(Compose(Some(path), arguments)) == [path] + Split(OrEmpty(arguments))
  {
    PlainWord(path);
    ComposedLine(Some(path), arguments);
  }

  /** Whether a quotation is open depends on nothing but the quote rune and the rest of the line. */
  lemma {:induction false} QuoteAlone(s1: Scan, s2: Scan, line: string)
    requires s1.quote == s2.quote
    ensures Run(s1, line).quote == Run(s2, line).quote
    decreases |line|
  {
    if line != "" {
      QuoteAlone(Step(s1, line[0]), Step(s2, line[0]), line[1..]);
    }
  }

  lemma BalancedConcat(a: string, b: string)
    requires Balanced(a)
    ensures Balanced(a + b) == Balanced(b)
  {
    RunConcat(START, a, b);
    QuoteAlone(Run(START, a), START, b);
  }
}
