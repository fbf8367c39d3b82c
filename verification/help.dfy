/** The help renderer: a usage line, an options section listing the local
    and then the global arguments, and a commands section. */
module Help {
  import opened Wrappers
  import opened Text
  import opened ArgInfos
  import opened Subcommands

  const Indent := "  "
  const HelpSeparator := "\t\t\t"

  /** The usage line: `Usage: <name>`, then ` [OPTIONS]` when there are
      local arguments and ` [SUBCOMMAND]` when there are subcommands. The
      line break is written only when one of those two lists is
      non-empty. */
  function UsageText(name: Option<string>, args: seq<ArgInfo>, subcommands: seq<SubcommandInfo>): string
  {
    if name.None? then ""
    else
      "Usage: " + name.value
      + (if args != [] then " [OPTIONS]" else "")
      + (if subcommands != [] then " [SUBCOMMAND]" else "")
      + (if args != [] || subcommands != [] then "\n" else "")
  }

  /** One option line without its indent and line break: `-c`, `, ` when a
      long spelling follows, `--long`, and the help text after three tabs. */
  function OptionBody(a: ArgInfo): string
  {
    ShortPart(a) + LongPart(a) + HelpPart(a)
  }

  function ShortPart(a: ArgInfo): string
  {
    if a.short.Some? then ['-', a.short.value] + (if a.long.Some? then ", " else "") else ""
  }

  function LongPart(a: ArgInfo): string
  {
    if a.long.Some? then "--" + a.long.value else ""
  }

  function HelpPart(a: ArgInfo): string
  {
    if a.help.Some? then HelpSeparator + a.help.value else ""
  }

  function OptionLine(a: ArgInfo): string
  {
    Indent + OptionBody(a) + "\n"
  }

  /** One rendered line per element of `xs`, in order. */
  function Lines<T>(xs: seq<T>, line: T -> string): string
    decreases |xs|
  {
    if xs == [] then "" else Lines(xs[..|xs| - 1], line) + line(xs[|xs| - 1])
  }

  /** The option lines of `args`, in order. */
  function OptionLines(args: seq<ArgInfo>): string
  {
    Lines(args, OptionLine)
  }

  /** `Options:` and one line per local, then per global argument; nothing
      when both lists are empty. */
  function OptionsText(args: seq<ArgInfo>, globalArgs: seq<ArgInfo>): string
  {
    if args != [] || globalArgs != [] then "Options:\n" + OptionLines(args) + OptionLines(globalArgs) else ""
  }

  /** One command line without its indent and line break: the name, and
      the about text after three tabs. */
  function CommandBody(sub: SubcommandInfo): string
  {
    sub.name + (if sub.about.Some? then HelpSeparator + sub.about.value else "")
  }

  function CommandLine(sub: SubcommandInfo): string
  {
    Indent + CommandBody(sub) + "\n"
  }

  /** The command lines of `subcommands`, in order. */
  function CommandLines(subcommands: seq<SubcommandInfo>): string
  {
    Lines(subcommands, CommandLine)
  }

  /** `Commands:` and one line per subcommand, after a blank line only when
      there are local arguments; nothing when there are no subcommands. */
  function CommandsText(args: seq<ArgInfo>, subcommands: seq<SubcommandInfo>): string
  {
    if subcommands != [] then (if args != [] then "\n" else "") + "Commands:\n" + CommandLines(subcommands) else ""
  }

  /** The whole text `get_help` appends. */
  function HelpText(name: Option<string>, args: seq<ArgInfo>, globalArgs: seq<ArgInfo>,
                    subcommands: seq<SubcommandInfo>): string
  {
    UsageText(name, args, subcommands) + OptionsText(args, globalArgs) + CommandsText(args, subcommands)
  }

  /** Appends the help text to `out`; the prior contents are kept as a
      prefix. The three sections are written one after the other. */
  method GetHelp(out: string, name: Option<string>, args: seq<ArgInfo>, globalArgs: seq<ArgInfo>,
                 subcommands: seq<SubcommandInfo>) returns (res: string)
    ensures res == out + HelpText(name, args, globalArgs, subcommands)
    ensures out <= res
  {
    res := WriteUsage(out, name, args, subcommands);
    res := WriteOptions(res, args, globalArgs);
    res := WriteCommands(res, args, subcommands);
    Concat4(out, UsageText(name, args, subcommands), OptionsText(args, globalArgs), CommandsText(args, subcommands));
  }

  method WriteUsage(out: string, name: Option<string>, args: seq<ArgInfo>, subcommands: seq<SubcommandInfo>)
    returns (res: string)
    ensures res == out + UsageText(name, args, subcommands)
  {
    res := out;
    if name.Some? {
      res := res + ("Usage: " + name.value);
    }
    if name.Some? && args != [] {
      res := res + " [OPTIONS]";
    }
    if name.Some? && subcommands != [] {
      res := res + " [SUBCOMMAND]";
    }
    if name.Some? && (args != [] || subcommands != []) {
      res := res + "\n";
    }
  }

  method WriteOptions(out: string, args: seq<ArgInfo>, globalArgs: seq<ArgInfo>) returns (res: string)
    ensures res == out + OptionsText(args, globalArgs)
  {
    res := out;
    if args != [] || globalArgs != [] {
      res := res + "Options:\n";
      res := WriteOptionLines(res, args);
      res := WriteOptionLines(res, globalArgs);
      Concat4(out, "Options:\n", OptionLines(args), OptionLines(globalArgs));
    }
  }

  method WriteCommands(out: string, args: seq<ArgInfo>, subcommands: seq<SubcommandInfo>) returns (res: string)
    ensures res == out + CommandsText(args, subcommands)
  {
    res := out;
    if subcommands != [] {
      ghost var blank := if args != [] then "\n" else "";
      if args != [] {
        res := res + "\n";
      }
      assert res == out + blank;
      res := res + "Commands:\n";
      res := WriteCommandLines(res, subcommands);
      Concat4(out, blank, "Commands:\n", CommandLines(subcommands));
    }
  }

  /** The `for arg in …` loop of the options section (it appears twice,
      for the local and for the global arguments). */
  method WriteOptionLines(out: string, args: seq<ArgInfo>) returns (res: string)
    ensures res == out + OptionLines(args)
  {
    res := out;
    for i := 0 to |args|
      invariant res == out + OptionLines(args[..i])
    {
      var line := WriteOptionLine(args[i]);
      ghost var done := OptionLines(args[..i]);
      assert OptionLines(args[..i + 1]) == done + OptionLine(args[i]) by {
        LinesSnoc(args, i, OptionLine);
      }
      Concat3(out, done, OptionLine(args[i]));
      res := res + (Indent + line + "\n");
    }
    assert args[..|args|] == args;
  }

  /** The `for sub in subcommands` loop of the commands section. */
  method WriteCommandLines(out: string, subcommands: seq<SubcommandInfo>) returns (res: string)
    ensures res == out + CommandLines(subcommands)
  {
    res := out;
    for i := 0 to |subcommands|
      invariant res == out + CommandLines(subcommands[..i])
    {
      var sub := subcommands[i];
      var line := sub.name;
      if sub.about.Some? {
        line := line + (HelpSeparator + sub.about.value);
      }
      assert line == CommandBody(sub);
      res := res + (Indent + line + "\n");
      LinesSnoc(subcommands, i, CommandLine);
      Concat3(out, CommandLines(subcommands[..i]), CommandLine(subcommands[i]));
    }
    assert subcommands[..|subcommands|] == subcommands;
  }

  lemma Concat3(a: string, b: string, c: string)
    ensures a + b + c == a + (b + c)
  {
  }

  lemma Concat4(a: string, b: string, c: string, d: string)
    ensures a + b + c + d == a + (b + c + d)
  {
  }

  /** Builds one option line's text by successive pushes. */
  method WriteOptionLine(arg: ArgInfo) returns (line: string)
    ensures line == OptionBody(arg)
  {
    line := "";
    if arg.short.Some? {
      line := line + ['-'];
      line := line + [arg.short.value];
      if arg.long.Some? {
        line := line + ", ";
      }
    }
    assert line == ShortPart(arg);
    if arg.long.Some? {
      line := line + "--";
      line := line + arg.long.value;
      Concat3(ShortPart(arg), "--", arg.long.value);
    }
    assert line == ShortPart(arg) + LongPart(arg);
    if arg.help.Some? {
      line := line + (HelpSeparator + arg.help.value);
    }
  }

  // ---------------------------------------------------------------------
  // Properties of the layout

  predicate EndsWith(s: string, t: string)
  {
    |t| <= |s| && s[|s| - |t|..] == t
  }

  /** The usage line: after `Usage: <name>` comes ` [OPTIONS]` exactly when
      there are local arguments, it ends in ` [SUBCOMMAND]` exactly when
      there are subcommands, and it is closed by a line break exactly when
      one of the two lists is non-empty (global arguments play no part). */
  lemma UsageMarkers(name: string, args: seq<ArgInfo>, subcommands: seq<SubcommandInfo>)
    ensures var r := UsageText(Some(name), args, subcommands);
            var rest := r[|"Usage: " + name|..];
            && "Usage: " + name <= r
            && (" [OPTIONS]" <= rest <==> args != [])
            && (EndsWith(rest, " [SUBCOMMAND]\n") <==> subcommands != [])
            && (EndsWith(rest, "\n") <==> args != [] || subcommands != [])
  {
    var head := "Usage: " + name;
    var o := if args != [] then " [OPTIONS]" else "";
    var c := if subcommands != [] then " [SUBCOMMAND]" else "";
    var b := if args != [] || subcommands != [] then "\n" else "";
    var r := UsageText(Some(name), args, subcommands);
    assert r == head + (o + c + b);
    assert r[..|head|] == head;
    assert r[|head|..] == o + c + b;
    UsageTail(args != [], subcommands != []);
  }

  /** The part of the usage line after the name, for each of the four cases. */
  lemma UsageTail(hasArgs: bool, hasSubs: bool)
    ensures var rest := (if hasArgs then " [OPTIONS]" else "") + (if hasSubs then " [SUBCOMMAND]" else "")
                        + (if hasArgs || hasSubs then "\n" else "");
            && (" [OPTIONS]" <= rest <==> hasArgs)
            && (EndsWith(rest, " [SUBCOMMAND]\n") <==> hasSubs)
            && (EndsWith(rest, "\n") <==> hasArgs || hasSubs)
  {
    var opts := " [OPTIONS]";
    var subs := " [SUBCOMMAND]\n";
    assert opts[2] == 'O' && subs[2] == 'S';
    if !hasArgs && hasSubs {
      assert !(opts <= subs);
      assert EndsWith(subs, subs);
    } else if hasArgs && !hasSubs {
      var rest := " [OPTIONS]\n";
      assert rest[..10] == opts;
      assert rest[|rest| - 3] == 'S' && subs[|subs| - 3] == 'D';
    } else if hasArgs && hasSubs {
      var rest := " [OPTIONS] [SUBCOMMAND]\n";
      assert rest[..10] == opts;
      assert rest[|rest| - 14..] == subs;
    }
  }

  /** An option line: `-c` first when there is a short spelling, then `, `
      and `--long` when there is also a long one, `--long` first when there
      is only a long one, and the help text after three tabs at the end. */
  lemma OptionLineLayout(a: ArgInfo)
    ensures var line := OptionLine(a);
            var body := OptionBody(a);
            && line == Indent + body + "\n"
            && (a.short.Some? ==> ['-', a.short.value] <= body)
            && (a.short.Some? && a.long.Some? ==> ['-', a.short.value] + ", --" + a.long.value <= body)
            && (a.short.None? && a.long.Some? ==> "--" + a.long.value <= body)
            && (a.help.Some? ==> EndsWith(body, HelpSeparator + a.help.value))
            && (a.short.None? && a.long.None? && a.help.None? ==> body == "")
  {
    var sp := ShortPart(a);
    var lp := LongPart(a);
    var hp := HelpPart(a);
    var body := OptionBody(a);
    assert body == sp + lp + hp;
    assert body[..|sp + lp|] == sp + lp;
    assert body[|sp + lp|..] == hp;
    if a.short.Some? {
      assert sp[..2] == ['-', a.short.value];
      assert body[..2] == ['-', a.short.value];
      if a.long.Some? {
        assert sp + lp == ['-', a.short.value] + ", --" + a.long.value;
      }
    }
  }

  /** The commands section: nothing without subcommands; otherwise the
      `Commands:` header, preceded by a blank line exactly when there are
      local arguments. */
  lemma CommandsLayout(args: seq<ArgInfo>, subcommands: seq<SubcommandInfo>)
    ensures subcommands == [] ==> CommandsText(args, subcommands) == ""
    ensures subcommands != [] && args != [] ==> "\nCommands:\n" <= CommandsText(args, subcommands)
    ensures subcommands != [] && args == [] ==> "Commands:\n" <= CommandsText(args, subcommands)
  {
    if subcommands != [] {
      var blank := if args != [] then "\n" else "";
      var lines := CommandLines(subcommands);
      assert CommandsText(args, subcommands) == (blank + "Commands:\n") + lines;
      PrefixOfAppend(blank + "Commands:\n", lines);
      if args == [] {
        assert blank + "Commands:\n" == "Commands:\n";
      }
    }
  }

  lemma PrefixOfAppend(p: string, x: string)
    ensures p <= p + x
  {
    assert (p + x)[..|p|] == p;
  }

  /** With a name the help text starts with the usage line `Usage: <name>`;
      without one it does not start with `Usage: ` at all. */
  lemma UsageLeads(name: string, args: seq<ArgInfo>, globalArgs: seq<ArgInfo>, subcommands: seq<SubcommandInfo>)
    ensures "Usage: " + name <= HelpText(Some(name), args, globalArgs, subcommands)
  {
    var u := UsageText(Some(name), args, subcommands);
    var rest := OptionsText(args, globalArgs) + CommandsText(args, subcommands);
    UsageMarkers(name, args, subcommands);
    assert HelpText(Some(name), args, globalArgs, subcommands) == u + rest;
    PrefixOfAppend(u, rest);
    PrefixTransitive("Usage: " + name, u, u + rest);
  }

  lemma PrefixTransitive(a: string, b: string, c: string)
    requires a <= b && b <= c
    ensures a <= c
  {
    assert c[..|a|] == c[..|b|][..|a|];
  }

  lemma NoUsageWithoutName(args: seq<ArgInfo>, globalArgs: seq<ArgInfo>, subcommands: seq<SubcommandInfo>)
    ensures !("Usage: " <= HelpText(None, args, globalArgs, subcommands))
  {
    assert UsageText(None, args, subcommands) == "";
    OptionsTextHead(args, globalArgs);
    CommandsTextHead(args, subcommands);
    NoUsageShape(UsageText(None, args, subcommands), OptionsText(args, globalArgs), CommandsText(args, subcommands));
  }

  lemma NoUsageShape(u: string, o: string, c: string)
    requires u == ""
    requires o != [] ==> o[0] == 'O'
    requires c != [] ==> c[0] in "\nC"
    ensures !("Usage: " <= u + o + c)
  {
    var text := u + o + c;
    if o != [] {
      assert text[0] == o[0];
    } else {
      assert text == c;
    }
    NotUsage(text);
  }

  lemma OptionsTextHead(args: seq<ArgInfo>, globalArgs: seq<ArgInfo>)
    ensures OptionsText(args, globalArgs) != [] ==> OptionsText(args, globalArgs)[0] == 'O'
  {
    if args != [] || globalArgs != [] {
      SectionStart("Options:\n", OptionLines(args) + OptionLines(globalArgs));
    }
  }

  lemma CommandsTextHead(args: seq<ArgInfo>, subcommands: seq<SubcommandInfo>)
    ensures CommandsText(args, subcommands) != [] ==> CommandsText(args, subcommands)[0] in "\nC"
  {
    if subcommands != [] {
      if args != [] {
        SectionStart("\n", "Commands:\n" + CommandLines(subcommands));
      } else {
        SectionStart("Commands:\n", CommandLines(subcommands));
      }
    }
  }

  lemma SectionStart(head: string, rest: string)
    requires head != []
    ensures (head + rest)[0] == head[0]
  {
  }

  lemma NotUsage(text: string)
    requires text != [] ==> text[0] != 'U'
    ensures !("Usage: " <= text)
  {
    assert "Usage: "[0] == 'U';
  }

  /** The options section appears exactly when there are local or global
      arguments; it is the header followed by one line per argument of the
      local list and then of the global list, each in its given order. */
  lemma OptionsLayout(args: seq<ArgInfo>, globalArgs: seq<ArgInfo>)
    ensures OptionsText(args, globalArgs) == [] <==> args == [] && globalArgs == []
    ensures args != [] || globalArgs != [] ==>
              OptionsText(args, globalArgs) == "Options:\n" + OptionLines(args + globalArgs)
  {
    OptionLinesAppend(args, globalArgs);
  }

  /** The option lines of two lists are the lines of the first followed by
      the lines of the second: local arguments come first and each list
      keeps its order. */
  lemma {:induction false} OptionLinesAppend(xs: seq<ArgInfo>, ys: seq<ArgInfo>)
    ensures OptionLines(xs + ys) == OptionLines(xs) + OptionLines(ys)
    decreases |ys|
  {
    LinesAppend(xs, ys, OptionLine);
  }

  /** Extending the list by the element at `i` adds its line at the end. */
  lemma LinesSnoc<T>(xs: seq<T>, i: nat, line: T -> string)
    requires i < |xs|
    ensures Lines(xs[..i + 1], line) == Lines(xs[..i], line) + line(xs[i])
  {
    assert xs[..i + 1][..i] == xs[..i];
  }

  lemma {:induction false} LinesAppend<T>(xs: seq<T>, ys: seq<T>, line: T -> string)
    ensures Lines(xs + ys, line) == Lines(xs, line) + Lines(ys, line)
    decreases |ys|
  {
    if ys == [] {
      assert xs + ys == xs;
    } else {
      var init := ys[..|ys| - 1];
      var last := ys[|ys| - 1];
      var all := xs + ys;
      assert all[..|all| - 1] == xs + init;
      assert all[|all| - 1] == last;
      LinesAppend(xs, init, line);
      Concat3(Lines(xs, line), Lines(init, line), line(last));
    }
  }

  predicate SingleLine(s: string)
  {
    '\n' !in s
  }

  /** No spelling or help text of `a` holds a line break. */
  predicate PlainArg(a: ArgInfo)
  {
    (a.long.Some? ==> SingleLine(a.long.value))
    && (a.help.Some? ==> SingleLine(a.help.value))
    && a.short != Some('\n')
  }

  lemma OptionLineBreaks(a: ArgInfo)
    requires PlainArg(a)
    ensures Occurrences(OptionLine(a), '\n') == 1
  {
    var b := OptionBody(a);
    var s := ShortPart(a);
    var l := LongPart(a);
    var h := HelpPart(a);
    assert b == s + l + h;
    OccurrencesAbsent(s, '\n');
    OccurrencesAbsent(l, '\n');
    OccurrencesAbsent(h, '\n');
    OccurrencesAbsent(Indent, '\n');
    OccurrencesAppend(s, l, '\n');
    OccurrencesAppend(s + l, h, '\n');
    OccurrencesAppend(Indent, b, '\n');
    OccurrencesAppend(Indent + b, "\n", '\n');
  }

  /** One line per argument: with no line breaks inside spellings and help
      texts, the option lines of `args` hold exactly `|args|` line
      breaks. */
  lemma {:induction false} OptionLinesCount(args: seq<ArgInfo>)
    requires forall i :: 0 <= i < |args| ==> PlainArg(args[i])
    ensures Occurrences(OptionLines(args), '\n') == |args|
    decreases |args|
  {
    if args != [] {
      var init := args[..|args| - 1];
      OptionLinesCount(init);
      OptionLineBreaks(args[|args| - 1]);
      OccurrencesAppend(OptionLines(init), OptionLine(args[|args| - 1]), '\n');
    }
  }

  lemma LineBreakAtEnd(s: string)
    requires SingleLine(s)
    ensures Occurrences(s + "\n", '\n') == 1
  {
    OccurrencesAbsent(s, '\n');
    OccurrencesAppend(s, "\n", '\n');
  }

  /** The options section holds the header line and exactly one line per
      local and global argument. */
  lemma OptionsSectionLines(args: seq<ArgInfo>, globalArgs: seq<ArgInfo>)
    requires args != [] || globalArgs != []
    requires forall i :: 0 <= i < |args| ==> PlainArg(args[i])
    requires forall i :: 0 <= i < |globalArgs| ==> PlainArg(globalArgs[i])
    ensures Occurrences(OptionsText(args, globalArgs), '\n') == 1 + |args| + |globalArgs|
  {
    OptionLinesCount(args);
    OptionLinesCount(globalArgs);
    HeaderLineBreaks();
    OccurrencesOfThree("Options:\n", OptionLines(args), OptionLines(globalArgs), '\n');
  }

  lemma HeaderLineBreaks()
    ensures Occurrences("Options:\n", '\n') == 1
  {
    LineBreakAtEnd("Options:");
    assert "Options:" + "\n" == "Options:\n";
  }

  lemma OccurrencesOfThree(a: string, b: string, c: string, x: char)
    ensures Occurrences(a + b + c, x) == Occurrences(a, x) + Occurrences(b, x) + Occurrences(c, x)
  {
    OccurrencesAppend(a, b, x);
    OccurrencesAppend(a + b, c, x);
  }

  /** With a name and only global arguments, the usage line is not broken:
      the options header follows the name on the same line. */
  lemma UsageRunsIntoOptions(name: string, globalArgs: seq<ArgInfo>)
    requires globalArgs != []
    ensures HelpText(Some(name), [], globalArgs, []) == "Usage: " + name + "Options:\n" + OptionLines(globalArgs)
  {
    assert OptionLines([]) == "";
    assert [] + globalArgs == globalArgs;
  }
}
