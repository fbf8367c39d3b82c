/** The command-line tokenizer and the two entry guards in front of
    `parse_args`. The tokenizer is specified by a per-character step
    function folded over the input (`Run`), and the imperative scanner
    `ParseCommandLine` is proved to compute exactly that. */
module Parser {

  import opened Wrappers
  import opened Errors
  import opened Text

  /** The scanner's variables: finished tokens, the token being built, the
      quote flag, the pending-escape flag and the quote that opened the region. */
  datatype ScanState = ScanState(
    args: seq<string>,
    current: string,
    inQuotes: bool,
    escapeNext: bool,
    quoteChar: char)

  const Start := ScanState([], "", false, false, '"')

  const UnclosedQuote := InvalidFormat("Unclosed quote in command line")

  predicate IsQuote(c: char) { c == '"' || c == '\'' }

  /** What the scanner does with one character. */
  function Step(st: ScanState, ch: char): ScanState {
    if st.escapeNext then
      st.(current := st.current + [ch], escapeNext := false)
    else if ch == '\\' && st.inQuotes then
      st.(escapeNext := true)
    else if IsQuote(ch) && !st.inQuotes then
      st.(inQuotes := true, quoteChar := ch)
    else if ch == st.quoteChar && st.inQuotes then
      st.(inQuotes := false)
    else if IsBlank(ch) && !st.inQuotes then
      if st.current != [] then st.(args := st.args + [st.current], current := []) else st
    else
      st.(current := st.current + [ch])
  }

  /** The scanner state after reading all of `s`, starting from `st`. */
  function Run(st: ScanState, s: string): ScanState
    decreases |s|
  {
    if s == [] then st else Run(Step(st, s[0]), s[1..])
  }

  /** The tokens once the last, unfinished one is flushed. */
  function Flush(st: ScanState): seq<string> {
    if st.current != [] then st.args + [st.current] else st.args
  }

  predicate TokensNonEmpty(ts: seq<string>) {
    forall i :: 0 <= i < |ts| ==> ts[i] != []
  }

  /** `parse_command_line`: the tokens of `input`, or an error when the
      input ends inside a quoted region. No token is ever empty. */
  function Tokenize(input: string): (r: Result<seq<string>, ParseError>)
    ensures r.Failure? <==> Run(Start, input).inQuotes
    ensures r.Failure? ==> r.error == UnclosedQuote
    ensures r.Success? ==> TokensNonEmpty(r.value)
  {
    RunKeepsTokensNonEmpty(Start, input);
    var st := Run(Start, input);
    if st.inQuotes then Failure(UnclosedQuote) else Success(Flush(st))
  }

  /** The scanner as written: a loop over the characters with an inner loop
      that swallows a run of blanks after a separator. */
  method ParseCommandLine(input: string) returns (r: Result<seq<string>, ParseError>)
    ensures r == Tokenize(input)
  {
    var args: seq<string> := [];
    var currentArg: string := "";
    var inQuotes := false;
    var escapeNext := false;
    var quoteChar := '"';
    var i := 0;
    while i < |input|
      invariant 0 <= i <= |input|
      invariant Run(ScanState(args, currentArg, inQuotes, escapeNext, quoteChar), input[i..])
                == Run(Start, input)
    {
      ghost var before := ScanState(args, currentArg, inQuotes, escapeNext, quoteChar);
      var ch := input[i];
      assert input[i..][0] == ch && input[i..][1..] == input[i + 1..];
      i := i + 1;
      if escapeNext {
        currentArg := currentArg + [ch];
        escapeNext := false;
        continue;
      }
      if ch == '\\' && inQuotes {
        escapeNext := true;
      } else if (ch == '"' || ch == '\'') && !inQuotes {
        inQuotes := true;
        quoteChar := ch;
      } else if ch == quoteChar && inQuotes {
        inQuotes := false;
      } else if (ch == ' ' || ch == '\t') && !inQuotes {
        if currentArg != "" {
          args := args + [currentArg];
          currentArg := "";
        }
        assert ScanState(args, currentArg, inQuotes, escapeNext, quoteChar) == Step(before, ch);
        // Skip multiple whitespace
        while i < |input| && (input[i] == ' ' || input[i] == '\t')
          invariant 0 <= i <= |input|
          invariant currentArg == [] && !inQuotes && !escapeNext
          invariant Run(ScanState(args, currentArg, inQuotes, escapeNext, quoteChar), input[i..])
                    == Run(Start, input)
        {
          assert input[i..][0] == input[i] && input[i..][1..] == input[i + 1..];
          i := i + 1;
        }
      } else {
        currentArg := currentArg + [ch];
      }
    }
    assert input[i..] == [];
    if inQuotes {
      return Failure(InvalidFormat("Unclosed quote in command line"));
    }
    if currentArg != "" {
      args := args + [currentArg];
    }
    return Success(args);
  }

  /** `Parser::parse_from`: an empty token list is refused; any other list is
      handed to `parse_args` unchanged. */
  function ParseFrom<T>(args: seq<string>, parseArgs: seq<string> -> Result<T, ParseError>)
    : (r: Result<T, ParseError>)
    ensures args == [] ==> r == Failure(EmptyInput)
    ensures args != [] ==> r == parseArgs(args)
  {
    if args == [] then Failure(EmptyInput) else parseArgs(args)
  }

  /** `Parser::parse_str`: blank input (after trimming) is refused; otherwise
      the trimmed text is tokenized and the tokens, possibly none, go to
      `parse_args`; a tokenizer error is passed through. */
  function ParseStr<T>(input: string, parseArgs: seq<string> -> Result<T, ParseError>)
    : (r: Result<T, ParseError>)
    ensures AllWhitespace(input) ==> r == Failure(EmptyInput)
    ensures !AllWhitespace(input) && Tokenize(Trim(input)).Failure? ==>
      r == Failure(UnclosedQuote)
    ensures !AllWhitespace(input) && Tokenize(Trim(input)).Success? ==>
      r == parseArgs(Tokenize(Trim(input)).value)
  {
    var trimmed := Trim(input);
    if trimmed == [] then Failure(EmptyInput)
    else
      match Tokenize(trimmed)
      case Failure(e) => Failure(e)
      case Success(args) => parseArgs(args)
  }

  // ---------------------------------------------------------------------
  // Properties of the scanner

  lemma {:induction false} RunAppend(st: ScanState, a: string, b: string)
    ensures Run(st, a + b) == Run(Run(st, a), b)
    decreases |a|
  {
    if a != [] {
      assert (a + b)[0] == a[0] && (a + b)[1..] == a[1..] + b;
      RunAppend(Step(st, a[0]), a[1..], b);
    } else {
      assert a + b == b;
    }
  }

  lemma {:induction false} RunKeepsTokensNonEmpty(st: ScanState, s: string)
    requires TokensNonEmpty(st.args)
    ensures TokensNonEmpty(Run(st, s).args)
    ensures TokensNonEmpty(Flush(Run(st, s)))
    decreases |s|
  {
    if s != [] {
      RunKeepsTokensNonEmpty(Step(st, s[0]), s[1..]);
    }
  }

  /** A pending escape only ever exists inside quotes. */
  lemma {:induction false} RunEscapeOnlyInQuotes(st: ScanState, s: string)
    requires st.escapeNext ==> st.inQuotes
    ensures Run(st, s).escapeNext ==> Run(st, s).inQuotes
    decreases |s|
  {
    if s != [] {
      RunEscapeOnlyInQuotes(Step(st, s[0]), s[1..]);
    }
  }

  /** Inside a region, characters other than the closing quote and the
      backslash are kept verbatim, blanks and the other quote kind included. */
  lemma {:induction false} InsideQuotes(st: ScanState, w: string)
    requires st.inQuotes && !st.escapeNext
    requires st.quoteChar !in w && '\\' !in w
    ensures Run(st, w) == st.(current := st.current + w)
    decreases |w|
  {
    if w != [] {
      assert w[0] in w;
      assert forall c :: c in w[1..] ==> c in w;
      InsideQuotes(Step(st, w[0]), w[1..]);
      assert st.current + [w[0]] + w[1..] == st.current + w;
    }
  }

  /** A whole quoted region adds its content to the current token and drops
      both delimiting quote characters. */
  lemma QuotedRegion(st: ScanState, q: char, w: string)
    requires !st.inQuotes && !st.escapeNext && IsQuote(q)
    requires q !in w && '\\' !in w
    ensures Run(st, [q] + w + [q]) == st.(current := st.current + w, quoteChar := q)
  {
    RunAppend(st, [q] + w, [q]);
    RunAppend(st, [q], w);
    InsideQuotes(Step(st, q), w);
  }

  /** Inside quotes a backslash makes the next character literal, even the
      quote that opened the region. */
  lemma EscapeInsideQuotes(st: ScanState, c: char)
    requires st.inQuotes && !st.escapeNext
    ensures Run(st, ['\\', c]) == st.(current := st.current + [c])
  {
    assert ['\\', c] == ['\\'] + [c];
    RunAppend(st, ['\\'], [c]);
    RunOne(st, '\\');
    RunOne(Step(st, '\\'), c);
  }

  /** Outside quotes a backslash is an ordinary character. */
  lemma BackslashOutsideQuotes(st: ScanState)
    requires !st.inQuotes && !st.escapeNext
    ensures Step(st, '\\') == st.(current := st.current + ['\\'])
  {
  }

  /** Input that ends inside an opened region is refused, also when its last
      character is a backslash that escapes nothing. */
  lemma UnclosedQuoteRefused(pre: string, q: char, w: string)
    requires !Run(Start, pre).inQuotes && IsQuote(q)
    requires q !in w && '\\' !in w
    ensures Tokenize(pre + [q] + w) == Failure(UnclosedQuote)
    ensures Tokenize(pre + [q] + w + ['\\']) == Failure(UnclosedQuote)
  {
    RunEscapeOnlyInQuotes(Start, pre);
    var st := Run(Start, pre);
    RunAppend(Start, pre, [q]);
    RunAppend(Start, pre + [q], w);
    RunAppend(Start, pre + [q] + w, ['\\']);
    InsideQuotes(Step(st, q), w);
  }

  // ---------------------------------------------------------------------
  // Quote-free input is plain splitting on blanks

  predicate QuoteFree(s: string) { '"' !in s && '\'' !in s }

  predicate BlankFree(s: string) { forall i :: 0 <= i < |s| ==> !IsBlank(s[i]) }

  /** Length of the leading run of non-blank characters. */
  function WordLen(s: string): (n: nat)
    ensures n <= |s|
    ensures s != [] && !IsBlank(s[0]) ==> n >= 1
  {
    if s == [] || IsBlank(s[0]) then 0 else 1 + WordLen(s[1..])
  }

  /** Reference splitting: the maximal runs of non-blank characters, in order. */
  function Words(s: string): seq<string>
    decreases |s|
  {
    if s == [] then []
    else if IsBlank(s[0]) then Words(s[1..])
    else [s[..WordLen(s)]] + Words(s[WordLen(s)..])
  }

  lemma {:induction false} WordLenBlankFreePrefix(a: string, b: string)
    requires BlankFree(a)
    ensures WordLen(a + b) == |a| + WordLen(b)
    decreases |a|
  {
    if a == [] {
      assert a + b == b;
    } else {
      assert (a + b)[1..] == a[1..] + b;
      WordLenBlankFreePrefix(a[1..], b);
    }
  }

  /** Words of a blank-free prefix glued to text that starts with a blank. */
  lemma WordsAtBlank(cur: string, s: string)
    requires BlankFree(cur) && s != [] && IsBlank(s[0])
    ensures Words(cur + s) == (if cur != [] then [cur] else []) + Words(s[1..])
  {
    if cur == [] {
      assert cur + s == s;
    } else {
      WordLenBlankFreePrefix(cur, s);
      assert (cur + s)[..|cur|] == cur && (cur + s)[|cur|..] == s;
    }
  }

  lemma WordsBlankFree(cur: string)
    requires BlankFree(cur)
    ensures Words(cur) == (if cur != [] then [cur] else [])
  {
    if cur != [] {
      WordLenBlankFreePrefix(cur, []);
      assert cur + [] == cur;
      assert cur[|cur|..] == [];
    }
  }

  lemma {:induction false} RunQuoteFree(st: ScanState, s: string)
    requires !st.inQuotes && !st.escapeNext && BlankFree(st.current) && QuoteFree(s)
    ensures !Run(st, s).inQuotes
    ensures Flush(Run(st, s)) == st.args + Words(st.current + s)
    decreases |s|
  {
    if s == [] {
      WordsBlankFree(st.current);
      assert st.current + s == st.current;
    } else {
      var next := Step(st, s[0]);
      assert Run(st, s) == Run(next, s[1..]);
      assert QuoteFree(s[1..]) by {
        assert forall x :: x in s[1..] ==> x in s;
      }
      assert !IsQuote(s[0]) by {
        assert s[0] in s;
      }
      StepUnquoted(st, s[0]);
      assert BlankFree(next.current) by {
        if !IsBlank(s[0]) {
          assert next.current == st.current + [s[0]];
        }
      }
      RunQuoteFree(next, s[1..]);
      if IsBlank(s[0]) {
        WordsAfterBlank(st.args, st.current, s);
      } else {
        WordsAfterChar(st.current, s);
      }
    }
  }

  /** A blank closes the pending word, if any. */
  lemma WordsAfterBlank(args: seq<string>, cur: string, s: string)
    requires BlankFree(cur) && s != [] && IsBlank(s[0])
    ensures (args + (if cur != [] then [cur] else [])) + Words([] + s[1..]) == args + Words(cur + s)
  {
    WordsAtBlank(cur, s);
    assert [] + s[1..] == s[1..];
  }

  /** Any other character joins the pending word. */
  lemma WordsAfterChar(cur: string, s: string)
    requires s != []
    ensures Words((cur + [s[0]]) + s[1..]) == Words(cur + s)
  {
    assert (cur + [s[0]]) + s[1..] == cur + s by {
      assert s == [s[0]] + s[1..];
    }
  }

  /** One step outside quotes on a character that is not a quote. */
  lemma StepUnquoted(st: ScanState, c: char)
    requires !st.inQuotes && !st.escapeNext && !IsQuote(c)
    ensures IsBlank(c) ==> Step(st, c) == if st.current != [] then st.(args := st.args + [st.current], current := []) else st
    ensures !IsBlank(c) ==> Step(st, c) == st.(current := st.current + [c])
  {
  }

  /** Without quote characters the tokenizer never fails and its output is
      the input split on spaces and tabs with empty pieces dropped. */
  lemma TokenizeQuoteFree(s: string)
    requires QuoteFree(s)
    ensures Tokenize(s) == Success(Words(s))
  {
    RunQuoteFree(Start, s);
    assert Start.current + s == s;
    assert Start.args + Words(s) == Words(s);
  }

  lemma {:induction false} WordsEmpty(s: string)
    ensures Words(s) == [] <==> forall i :: 0 <= i < |s| ==> IsBlank(s[i])
    decreases |s|
  {
    if s != [] {
      if IsBlank(s[0]) {
        WordsEmpty(s[1..]);
        assert forall i :: 1 <= i < |s| ==> s[1..][i - 1] == s[i];
      }
    }
  }

  lemma {:induction false} WordLenAppendBlank(s: string, b: char)
    requires IsBlank(b)
    ensures WordLen(s + [b]) == WordLen(s)
    decreases |s|
  {
    if s == [] {
    } else {
      assert (s + [b])[1..] == s[1..] + [b];
      WordLenAppendBlank(s[1..], b);
    }
  }

  lemma {:induction false} WordsAppendBlank(s: string, b: char)
    requires IsBlank(b)
    ensures Words(s + [b]) == Words(s)
    decreases |s|
  {
    if s == [] {
      assert Words([b]) == Words([]);
    } else if IsBlank(s[0]) {
      assert (s + [b])[1..] == s[1..] + [b];
      WordsAppendBlank(s[1..], b);
    } else {
      var k := WordLen(s);
      WordLenAppendBlank(s, b);
      assert (s + [b])[..k] == s[..k];
      assert (s + [b])[k..] == s[k..] + [b];
      WordsAppendBlank(s[k..], b);
    }
  }

  /** White space other than spaces and tabs does not occur. */
  predicate OnlyBlankWhitespace(s: string) {
    forall i :: 0 <= i < |s| ==> IsWhitespace(s[i]) ==> IsBlank(s[i])
  }

  lemma {:induction false} WordsTrimStart(s: string)
    requires OnlyBlankWhitespace(s)
    ensures Words(TrimStart(s)) == Words(s)
    decreases |s|
  {
    TrimStartStep(s);
    if s != [] && IsWhitespace(s[0]) {
      assert OnlyBlankWhitespace(s[1..]) by {
        assert forall i :: 1 <= i < |s| ==> s[1..][i - 1] == s[i];
      }
      WordsTrimStart(s[1..]);
      assert IsBlank(s[0]);
    }
  }

  lemma {:induction false} WordsTrimEnd(s: string)
    requires OnlyBlankWhitespace(s)
    ensures Words(TrimEnd(s)) == Words(s)
    decreases |s|
  {
    TrimEndStep(s);
    if s != [] && IsWhitespace(s[|s| - 1]) {
      var init := s[..|s| - 1];
      var b := s[|s| - 1];
      assert OnlyBlankWhitespace(init) by {
        assert forall i :: 0 <= i < |init| ==> init[i] == s[i];
      }
      WordsTrimEnd(init);
      assert IsBlank(b);
      WordsAppendBlank(init, b);
      assert s == init + [b];
    }
  }

  lemma OnlyBlankWhitespaceTrimStart(s: string)
    requires OnlyBlankWhitespace(s)
    ensures OnlyBlankWhitespace(TrimStart(s))
  {
    var a := TrimStart(s);
    assert forall i :: 0 <= i < |a| ==> a[i] == s[|s| - |a| + i];
  }

  /** For input with no quote characters and no white space but spaces and
      tabs, `parse_str` behaves as `parse_from` on the input pre-split on
      blanks: the string and vector forms the tests compare agree. */
  lemma ParseStrAsParseFrom<T>(s: string, parseArgs: seq<string> -> Result<T, ParseError>)
    requires QuoteFree(s) && OnlyBlankWhitespace(s)
    ensures ParseStr(s, parseArgs) == ParseFrom(Words(s), parseArgs)
  {
    var t := Trim(s);
    WordsEmpty(s);
    if AllWhitespace(s) {
      assert forall i :: 0 <= i < |s| ==> IsBlank(s[i]);
    } else {
      TrimKeeps(s);
      assert QuoteFree(t);
      TokenizeQuoteFree(t);
      OnlyBlankWhitespaceTrimStart(s);
      WordsTrimStart(s);
      WordsTrimEnd(TrimStart(s));
      assert !(forall i :: 0 <= i < |s| ==> IsBlank(s[i]));
    }
  }

  // ---------------------------------------------------------------------
  // Worked examples

  lemma RunOne(st: ScanState, c: char)
    ensures Run(st, [c]) == Step(st, c)
  {
    assert [c][0] == c && [c][1..] == [];
  }

  /** `a "b c" d` gives three tokens, the middle one with its space. */
  lemma QuotedTokenExample(s: string)
    requires s == "a \"b c\" d"
    ensures Tokenize(s) == Success(["a", "b c", "d"])
  {
    var q := "\"b c\"";
    var st2 := ScanState(["a"], "", false, false, '"');
    var st3 := ScanState(["a"], "b c", false, false, '"');
    var st5 := ScanState(["a", "b c"], "d", false, false, '"');
    QuotedTokenSteps();
    assert Run(Start, s) == st5 by {
      assert s == ("a" + " ") + q + (" " + "d");
      RunThree(Start, "a" + " ", q, " " + "d");
    }
    assert Flush(st5) == ["a", "b c", "d"];
  }

  /** The three stretches of `a "b c" d`, one at a time. */
  lemma QuotedTokenSteps()
    ensures Run(Start, "a" + " ") == ScanState(["a"], "", false, false, '"')
    ensures Run(ScanState(["a"], "", false, false, '"'), "\"b c\"") == ScanState(["a"], "b c", false, false, '"')
    ensures Run(ScanState(["a"], "b c", false, false, '"'), " " + "d") == ScanState(["a", "b c"], "d", false, false, '"')
  {
    WordThenBlank();
    var st2 := ScanState(["a"], "", false, false, '"');
    assert "\"b c\"" == ['"'] + "b c" + ['"'];
    QuotedRegion(st2, '"', "b c");
    BlankThenWord();
  }

  lemma WordThenBlank()
    ensures Run(Start, "a" + " ") == ScanState(["a"], "", false, false, '"')
  {
    RunOne(Start, 'a');
    assert Start.current + ['a'] == "a";
    RunOne(ScanState([], "a", false, false, '"'), ' ');
    assert [] + ["a"] == ["a"];
    RunAppend(Start, "a", " ");
  }

  lemma BlankThenWord()
    ensures Run(ScanState(["a"], "b c", false, false, '"'), " " + "d") == ScanState(["a", "b c"], "d", false, false, '"')
  {
    var st3 := ScanState(["a"], "b c", false, false, '"');
    RunOne(st3, ' ');
    RunOne(ScanState(["a", "b c"], "", false, false, '"'), 'd');
    RunAppend(st3, " ", "d");
  }

  /** Running over three stretches in a row. */
  lemma RunThree(st: ScanState, x: string, y: string, z: string)
    ensures Run(st, x + y + z) == Run(Run(Run(st, x), y), z)
  {
    RunAppend(st, x, y);
    RunAppend(st, x + y, z);
  }

  /** Quoted and unquoted pieces with no blank between them form one token:
      `a"b c"d` gives `ab cd`. */
  lemma AdjacentPiecesJoinExample(s: string)
    requires s == "a\"b c\"d"
    ensures Tokenize(s) == Success(["ab cd"])
  {
    var q := "\"b c\"";
    var st3 := ScanState([], "ab cd", false, false, '"');
    AdjacentPiecesSteps();
    assert Run(Start, s) == st3 by {
      assert s == "a" + q + "d";
      RunThree(Start, "a", q, "d");
    }
    assert Flush(st3) == ["ab cd"];
  }

  /** The three stretches of `a"b c"d`, one at a time. */
  lemma AdjacentPiecesSteps()
    ensures Run(Start, "a") == ScanState([], "a", false, false, '"')
    ensures Run(ScanState([], "a", false, false, '"'), "\"b c\"") == ScanState([], "ab c", false, false, '"')
    ensures Run(ScanState([], "ab c", false, false, '"'), "d") == ScanState([], "ab cd", false, false, '"')
  {
    assert Run(Start, "a") == ScanState([], "a", false, false, '"') by {
      RunOne(Start, 'a');
    }
    var st1 := ScanState([], "a", false, false, '"');
    assert Run(st1, "\"b c\"") == ScanState([], "ab c", false, false, '"') by {
      assert "\"b c\"" == ['"'] + "b c" + ['"'];
      QuotedRegion(st1, '"', "b c");
      assert st1.current + "b c" == "ab c";
    }
    var st2 := ScanState([], "ab c", false, false, '"');
    assert Run(st2, "d") == ScanState([], "ab cd", false, false, '"') by {
      RunOne(st2, 'd');
      assert st2.current + ['d'] == "ab cd";
    }
  }

  /** An empty quoted pair yields no token: `a "" b` gives `a` and `b`. */
  lemma EmptyQuotesExample(s: string)
    requires s == "a \"\" b"
    ensures Tokenize(s) == Success(["a", "b"])
  {
    var q := "\"\"";
    var st3 := ScanState(["a"], "b", false, false, '"');
    EmptyQuotesSteps();
    assert Run(Start, s) == st3 by {
      assert s == ("a" + " ") + q + (" " + "b");
      RunThree(Start, "a" + " ", q, " " + "b");
    }
    assert Flush(st3) == ["a", "b"];
  }

  /** The three stretches of `a "" b`, one at a time. */
  lemma EmptyQuotesSteps()
    ensures Run(Start, "a" + " ") == ScanState(["a"], "", false, false, '"')
    ensures Run(ScanState(["a"], "", false, false, '"'), "\"\"") == ScanState(["a"], "", false, false, '"')
    ensures Run(ScanState(["a"], "", false, false, '"'), " " + "b") == ScanState(["a"], "b", false, false, '"')
  {
    WordThenBlank();
    var st2 := ScanState(["a"], "", false, false, '"');
    assert "\"\"" == ['"'] + "" + ['"'];
    QuotedRegion(st2, '"', "");
    RunOne(st2, ' ');
    RunOne(st2, 'b');
    RunAppend(st2, " ", "b");
  }

  /** Input that is only an empty quoted pair is not blank, so it reaches
      `parse_args`, with no tokens at all. */
  lemma EmptyQuotedInputReachesParseArgs<T>(parseArgs: seq<string> -> Result<T, ParseError>)
    ensures ParseStr("\"\"", parseArgs) == parseArgs([])
  {
    assert !AllWhitespace("\"\"") by { assert !IsWhitespace("\"\""[0]); }
    assert TrimStart("\"\"") == "\"\"";
    assert TrimEnd("\"\"") == "\"\"";
    QuotedRegion(Start, '"', "");
    assert "\"\"" == ['"'] + "" + ['"'];
  }
}
