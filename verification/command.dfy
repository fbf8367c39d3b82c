/** The manual command builder and its token loop: `--long value` and
    `-c value` pairs are looked up among the declared arguments and stored
    under the argument's name, other tokens are skipped, and required
    arguments are checked at the end. */
module Commands {
  import opened Wrappers
  import opened Errors
  import opened Arg

  datatype Command = Command(name: string, args: seq<ArgInfo>)
  {
    static function New(name: string): (r: Command)
      ensures r.name == name && r.args == []
    {
      Command(name, [])
    }

    /** Appends an argument descriptor at the end. */
    function Arg(a: ArgInfo): (r: Command)
      ensures r.name == name
      ensures |r.args| == |args| + 1 && r.args[..|args|] == args && r.args[|args|] == a
    {
      Command(name, args + [a])
    }
  }

  /** How a token names an argument: by its long or by its short
      spelling. */
  datatype Spelling = LongName(long: string) | ShortName(short: char)

  predicate Matches(a: ArgInfo, s: Spelling)
  {
    match s
    case LongName(l) => a.long == Some(l)
    case ShortName(c) => a.short == Some(c)
  }

  /** The first declared argument with spelling `s`, as `iter().find`
      returns it. */
  function FindArg(args: seq<ArgInfo>, s: Spelling): (r: Option<nat>)
    ensures r.Some? ==> r.value < |args| && Matches(args[r.value], s)
    ensures r.Some? ==> forall j :: 0 <= j < r.value ==> !Matches(args[j], s)
    ensures r.None? ==> forall j :: 0 <= j < |args| ==> !Matches(args[j], s)
  {
    if args == [] then None
    else if Matches(args[0], s) then Some(0)
    else match FindArg(args[1..], s)
      case None => None
      case Some(k) => Some(k + 1)
  }

  // ---------------------------------------------------------------------
  // Token shapes. `arg.len()` counts UTF-8 bytes, not characters.

  function CharUtf8Len(c: char): nat
  {
    if c as int < 0x80 then 1
    else if c as int < 0x800 then 2
    else if c as int < 0x1_0000 then 3
    else 4
  }

  /** Length of `s` in UTF-8 bytes. */
  function Utf8Len(s: string): (n: nat)
    ensures n >= |s|
  {
    if s == [] then 0 else CharUtf8Len(s[0]) + Utf8Len(s[1..])
  }

  predicate IsLongToken(t: string)
  {
    |t| >= 2 && t[..2] == "--"
  }

  /** A dash and exactly one more byte. */
  predicate IsShortToken(t: string)
    ensures IsShortToken(t) ==> |t| == 2
  {
    && |t| >= 1 && t[0] == '-'
    && assert Utf8Len(t) == 1 + Utf8Len(t[1..]); Utf8Len(t) == 2
  }

  /** A token is taken as a short option exactly when it is a dash followed
      by one ASCII character other than a dash; a dash followed by a
      multi-byte character is longer than two bytes and is skipped. */
  lemma ShortTokenShape(t: string)
    ensures IsShortToken(t) && !IsLongToken(t)
            <==> |t| == 2 && t[0] == '-' && t[1] != '-' && (t[1] as int) < 0x80
  {
    if |t| >= 1 && t[0] == '-' {
      assert Utf8Len(t) == 1 + Utf8Len(t[1..]);
      if |t| == 2 {
        assert t[1..][1..] == [];
        assert Utf8Len(t[1..]) == CharUtf8Len(t[1]);
      }
      if |t| == 2 && t[1] == '-' {
        assert t[..2] == "--";
      }
    }
  }

  // ---------------------------------------------------------------------
  // The token loop as a specification

  /** The loop from token `i` on, with the pairs stored so far in `acc`. */
  function Scan(cmd: Command, tokens: seq<string>, i: nat, acc: map<string, string>): Result<map<string, string>, ParseError>
    requires i <= |tokens|
    decreases |tokens| - i
  {
    if i == |tokens| then Success(acc)
    else
      var t := tokens[i];
      if IsLongToken(t) then
        var l := t[2..];
        match FindArg(cmd.args, LongName(l))
        case None => Failure(UnknownArgument(l))
        case Some(k) =>
          if i + 1 >= |tokens| then Failure(MissingArgument(l))
          else Scan(cmd, tokens, i + 2, acc[cmd.args[k].name := tokens[i + 1]])
      else if IsShortToken(t) then
        var c := t[1];
        match FindArg(cmd.args, ShortName(c))
        case None => Failure(UnknownArgument([c]))
        case Some(k) =>
          if i + 1 >= |tokens| then Failure(MissingArgument([c]))
          else Scan(cmd, tokens, i + 2, acc[cmd.args[k].name := tokens[i + 1]])
      else
        Scan(cmd, tokens, i + 1, acc)
  }

  /** Index of the first required argument whose name has no value in
      `result`, in declaration order. */
  function FirstMissing(args: seq<ArgInfo>, result: map<string, string>): (r: Option<nat>)
    ensures r.Some? ==> r.value < |args| && args[r.value].required && args[r.value].name !in result
    ensures r.Some? ==> forall j :: 0 <= j < r.value ==> !(args[j].required && args[j].name !in result)
    ensures r.None? ==> forall j :: 0 <= j < |args| ==> args[j].required ==> args[j].name in result
  {
    if args == [] then None
    else if args[0].required && args[0].name !in result then Some(0)
    else match FirstMissing(args[1..], result)
      case None => None
      case Some(k) => Some(k + 1)
  }

  /** The whole of `Command::parse`: the token loop, then the required
      check. */
  function ParseSpec(cmd: Command, tokens: seq<string>): Result<map<string, string>, ParseError>
  {
    match Scan(cmd, tokens, 0, map[])
    case Failure(e) => Failure(e)
    case Success(m) =>
      match FirstMissing(cmd.args, m)
      case Some(k) => Failure(MissingArgument(cmd.args[k].name))
      case None => Success(m)
  }

  method Parse(cmd: Command, tokens: seq<string>) returns (r: Result<map<string, string>, ParseError>)
    ensures r == ParseSpec(cmd, tokens)
  {
    var result: map<string, string> := map[];
    var i := 0;
    while i < |tokens|
      invariant i <= |tokens|
      invariant Scan(cmd, tokens, i, result) == Scan(cmd, tokens, 0, map[])
      decreases |tokens| - i
    {
      var t := tokens[i];
      if |t| >= 2 && t[..2] == "--" {
        var l := t[2..];
        var found := FindArg(cmd.args, LongName(l));
        if found.Some? {
          i := i + 1;
          if i >= |tokens| {
            return Failure(MissingArgument(l));
          }
          result := result[cmd.args[found.value].name := tokens[i]];
        } else {
          return Failure(UnknownArgument(l));
        }
      } else if IsShortToken(t) {
        var c := t[1];
        var found := FindArg(cmd.args, ShortName(c));
        if found.Some? {
          i := i + 1;
          if i >= |tokens| {
            return Failure(MissingArgument([c]));
          }
          result := result[cmd.args[found.value].name := tokens[i]];
        } else {
          return Failure(UnknownArgument([c]));
        }
      } else {
        i := i + 1;
        continue;
      }
      i := i + 1;
    }

    for j := 0 to |cmd.args|
      invariant forall k :: 0 <= k < j ==> !(cmd.args[k].required && cmd.args[k].name !in result)
    {
      if cmd.args[j].required && cmd.args[j].name !in result {
        FirstMissingIs(cmd.args, result, j);
        return Failure(MissingArgument(cmd.args[j].name));
      }
    }
    FirstMissingNone(cmd.args, result);
    return Success(result);
  }

  lemma {:induction false} FirstMissingIs(args: seq<ArgInfo>, result: map<string, string>, j: nat)
    requires j < |args| && args[j].required && args[j].name !in result
    requires forall k :: 0 <= k < j ==> !(args[k].required && args[k].name !in result)
    ensures FirstMissing(args, result) == Some(j)
    decreases j
  {
    if j > 0 {
      FirstMissingIs(args[1..], result, j - 1);
    }
  }

  lemma FirstMissingNone(args: seq<ArgInfo>, result: map<string, string>)
    requires forall k :: 0 <= k < |args| ==> !(args[k].required && args[k].name !in result)
    ensures FirstMissing(args, result) == None
  {
  }

  // ---------------------------------------------------------------------
  // Properties

  predicate Declared(cmd: Command, key: string)
  {
    exists k :: 0 <= k < |cmd.args| && cmd.args[k].name == key
  }

  /** Every key the loop stores is the name of a declared argument. */
  lemma {:induction false} ScanKeysDeclared(cmd: Command, tokens: seq<string>, i: nat, acc: map<string, string>)
    requires i <= |tokens|
    requires forall key :: key in acc ==> Declared(cmd, key)
    ensures Scan(cmd, tokens, i, acc).Success? ==>
              forall key :: key in Scan(cmd, tokens, i, acc).value ==> Declared(cmd, key)
    decreases |tokens| - i
  {
    if i < |tokens| {
      var t := tokens[i];
      if IsLongToken(t) {
        var f := FindArg(cmd.args, LongName(t[2..]));
        if f.Some? && i + 1 < |tokens| {
          ScanKeysDeclared(cmd, tokens, i + 2, acc[cmd.args[f.value].name := tokens[i + 1]]);
        }
      } else if IsShortToken(t) {
        var f := FindArg(cmd.args, ShortName(t[1]));
        if f.Some? && i + 1 < |tokens| {
          ScanKeysDeclared(cmd, tokens, i + 2, acc[cmd.args[f.value].name := tokens[i + 1]]);
        }
      } else {
        ScanKeysDeclared(cmd, tokens, i + 1, acc);
      }
    }
  }

  /** On success every key is a declared argument's name and every required
      argument has a value; on a failed required check the error names the
      first required argument without a value, in declaration order. */
  lemma ParseOutcome(cmd: Command, tokens: seq<string>)
    ensures ParseSpec(cmd, tokens).Success? ==>
              && (forall key :: key in ParseSpec(cmd, tokens).value ==> Declared(cmd, key))
              && (forall k :: 0 <= k < |cmd.args| && cmd.args[k].required ==> cmd.args[k].name in ParseSpec(cmd, tokens).value)
    ensures Scan(cmd, tokens, 0, map[]).Success? && ParseSpec(cmd, tokens).Failure? ==>
              exists k :: 0 <= k < |cmd.args| && FirstMissing(cmd.args, Scan(cmd, tokens, 0, map[]).value) == Some(k)
                          && ParseSpec(cmd, tokens) == Failure(MissingArgument(cmd.args[k].name))
  {
    ScanKeysDeclared(cmd, tokens, 0, map[]);
  }

  predicate IsOptionToken(t: string)
  {
    IsLongToken(t) || IsShortToken(t)
  }

  /** Tokens that are neither `--…` nor a two-byte `-c` are all skipped: a
      command line made only of them stores nothing and cannot fail in the
      loop. */
  lemma {:induction false} PositionalsSkipped(cmd: Command, tokens: seq<string>, i: nat, acc: map<string, string>)
    requires i <= |tokens|
    requires forall j :: i <= j < |tokens| ==> !IsOptionToken(tokens[j])
    ensures Scan(cmd, tokens, i, acc) == Success(acc)
    decreases |tokens| - i
  {
    if i < |tokens| {
      PositionalsSkipped(cmd, tokens, i + 1, acc);
    }
  }

  /** `--l` with no declared long spelling `l` fails with
      `UnknownArgument(l)`, whatever follows. */
  lemma UnknownLong(cmd: Command, l: string, rest: seq<string>)
    requires FindArg(cmd.args, LongName(l)).None?
    ensures ParseSpec(cmd, ["--" + l] + rest) == Failure(UnknownArgument(l))
  {
    var tokens := ["--" + l] + rest;
    assert tokens[0][2..] == l;
  }

  /** Skipped tokens between `i` and `k` leave the loop's outcome as it is
      at `k`. */
  lemma {:induction false} SkipTo(cmd: Command, tokens: seq<string>, i: nat, k: nat, acc: map<string, string>)
    requires i <= k <= |tokens|
    requires forall j :: i <= j < k ==> !IsOptionToken(tokens[j])
    ensures Scan(cmd, tokens, i, acc) == Scan(cmd, tokens, k, acc)
    decreases k - i
  {
    if i < k {
      SkipTo(cmd, tokens, i + 1, k, acc);
    }
  }

  /** A known `--l` as the last token fails with `MissingArgument(l)`,
      whatever pairs were stored before it; after skipped tokens only, the
      whole parse fails so. */
  lemma LongWithoutValue(cmd: Command, pre: seq<string>, l: string, acc: map<string, string>)
    requires FindArg(cmd.args, LongName(l)).Some?
    ensures Scan(cmd, pre + ["--" + l], |pre|, acc) == Failure(MissingArgument(l))
    ensures (forall j :: 0 <= j < |pre| ==> !IsOptionToken(pre[j])) ==>
              ParseSpec(cmd, pre + ["--" + l]) == Failure(MissingArgument(l))
  {
    var tokens := pre + ["--" + l];
    assert tokens[|pre|] == "--" + l;
    assert tokens[|pre|][2..] == l;
    if forall j :: 0 <= j < |pre| ==> !IsOptionToken(pre[j]) {
      assert forall j :: 0 <= j < |pre| ==> tokens[j] == pre[j];
      SkipTo(cmd, tokens, 0, |pre|, map[]);
    }
  }

  /** A known `-c` as the last token fails with `MissingArgument("c")`, an
      unknown one with `UnknownArgument("c")`, whatever pairs were stored
      before it; after skipped tokens only, the whole parse fails so. */
  lemma ShortOutcomes(cmd: Command, pre: seq<string>, c: char, acc: map<string, string>)
    requires c != '-' && (c as int) < 0x80
    ensures FindArg(cmd.args, ShortName(c)).Some? ==>
              Scan(cmd, pre + [['-', c]], |pre|, acc) == Failure(MissingArgument([c]))
    ensures FindArg(cmd.args, ShortName(c)).None? ==>
              Scan(cmd, pre + [['-', c]], |pre|, acc) == Failure(UnknownArgument([c]))
    ensures (forall j :: 0 <= j < |pre| ==> !IsOptionToken(pre[j])) ==>
              ParseSpec(cmd, pre + [['-', c]]) ==
                if FindArg(cmd.args, ShortName(c)).Some? then Failure(MissingArgument([c]))
                else Failure(UnknownArgument([c]))
  {
    var tokens := pre + [['-', c]];
    assert tokens[|pre|] == ['-', c];
    ShortTokenShape(['-', c]);
    if forall j :: 0 <= j < |pre| ==> !IsOptionToken(pre[j]) {
      assert forall j :: 0 <= j < |pre| ==> tokens[j] == pre[j];
      SkipTo(cmd, tokens, 0, |pre|, map[]);
    }
  }

  /** `--l v` stores `v` verbatim, even when it starts with a dash, under
      the name of the first argument declared with long spelling `l`; a
      second `--l w` later overwrites it. */
  lemma LongPairStored(cmd: Command, l: string, v: string, w: string, k: nat)
    requires FindArg(cmd.args, LongName(l)) == Some(k)
    ensures Scan(cmd, ["--" + l, v], 0, map[]) == Success(map[cmd.args[k].name := v])
    ensures Scan(cmd, ["--" + l, v, "--" + l, w], 0, map[]) == Success(map[cmd.args[k].name := w])
  {
    var t := "--" + l;
    assert t[..2] == "--" && t[2..] == l;
    var once := [t, v];
    assert Scan(cmd, once, 2, map[cmd.args[k].name := v]) == Success(map[cmd.args[k].name := v]);
    var twice := [t, v, t, w];
    var m1 := map[cmd.args[k].name := v];
    assert Scan(cmd, twice, 4, m1[cmd.args[k].name := w]) == Success(m1[cmd.args[k].name := w]);
    assert Scan(cmd, twice, 2, m1) == Scan(cmd, twice, 4, m1[cmd.args[k].name := w]);
    assert m1[cmd.args[k].name := w] == map[cmd.args[k].name := w];
  }

  /** `-c v` stores `v` verbatim under the name of the first argument
      declared with short spelling `c`; a second `-c w` later overwrites it. */
  lemma ShortPairStored(cmd: Command, c: char, v: string, w: string, k: nat)
    requires c != '-' && (c as int) < 0x80 && FindArg(cmd.args, ShortName(c)) == Some(k)
    ensures Scan(cmd, [['-', c], v], 0, map[]) == Success(map[cmd.args[k].name := v])
    ensures Scan(cmd, [['-', c], v, ['-', c], w], 0, map[]) == Success(map[cmd.args[k].name := w])
  {
    var t := ['-', c];
    ShortTokenShape(t);
    var once := [t, v];
    assert Scan(cmd, once, 2, map[cmd.args[k].name := v]) == Success(map[cmd.args[k].name := v]);
    var twice := [t, v, t, w];
    var m1 := map[cmd.args[k].name := v];
    assert Scan(cmd, twice, 4, m1[cmd.args[k].name := w]) == Success(m1[cmd.args[k].name := w]);
    assert Scan(cmd, twice, 2, m1) == Scan(cmd, twice, 4, m1[cmd.args[k].name := w]);
    assert m1[cmd.args[k].name := w] == map[cmd.args[k].name := w];
  }
}
