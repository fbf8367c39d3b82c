/** Subcommand descriptors: a name, an optional about text, the arguments
    of that level and nested subcommands, built by chained by-value
    setters. */
module Subcommands {
  import opened Wrappers
  import opened ArgInfos

  datatype SubcommandInfo = SubcommandInfo(
    name: string,
    about: Option<string>,
    args: seq<ArgInfo>,
    subcommands: seq<SubcommandInfo>)
  {
    /** A descriptor with only its name set. */
    static function New(name: string): (r: SubcommandInfo)
      ensures r.name == name && r.about.None?
      ensures r.args == [] && r.subcommands == []
    {
      SubcommandInfo(name, None, [], [])
    }

    function About(about: string): (r: SubcommandInfo)
      ensures r.about == Some(about)
      ensures r.(about := this.about) == this
    {
      this.(about := Some(about))
    }

    /** Appends an argument descriptor at the end. */
    function Arg(arg: ArgInfo): (r: SubcommandInfo)
      ensures |r.args| == |args| + 1 && r.args[..|args|] == args && r.args[|args|] == arg
      ensures r.(args := args) == this
    {
      this.(args := args + [arg])
    }

    /** Appends a nested subcommand descriptor at the end. */
    function Subcommand(sub: SubcommandInfo): (r: SubcommandInfo)
      ensures |r.subcommands| == |subcommands| + 1
      ensures r.subcommands[..|subcommands|] == subcommands && r.subcommands[|subcommands|] == sub
      ensures r.(subcommands := subcommands) == this
    {
      this.(subcommands := subcommands + [sub])
    }
  }

  /** A builder chain records the arguments in the order they were added. */
  lemma {:induction false} ArgsInOrder(s: SubcommandInfo, extra: seq<ArgInfo>)
    ensures AddArgs(s, extra).args == s.args + extra
    ensures AddArgs(s, extra).(args := s.args) == s
    decreases |extra|
  {
    if extra != [] {
      var last := extra[|extra| - 1];
      var init := extra[..|extra| - 1];
      ArgsInOrder(s, init);
      assert init + [last] == extra;
    }
  }

  /** `s.Arg(a1).Arg(a2)…` for the descriptors in `extra`, in order. */
  function AddArgs(s: SubcommandInfo, extra: seq<ArgInfo>): SubcommandInfo
    decreases |extra|
  {
    if extra == [] then s else AddArgs(s, extra[..|extra| - 1]).Arg(extra[|extra| - 1])
  }

  /** The about setter keeps the last value, and setting the about text
      commutes with adding arguments and subcommands. */
  lemma AboutSetters(s: SubcommandInfo, x: string, y: string, a: ArgInfo, t: SubcommandInfo)
    ensures s.About(x).About(y) == s.About(y)
    ensures s.About(x).Arg(a) == s.Arg(a).About(x)
    ensures s.About(x).Subcommand(t) == s.Subcommand(t).About(x)
    ensures s.Arg(a).Subcommand(t) == s.Subcommand(t).Arg(a)
  {
  }
}

/** `SubcommandInfo::get_help`: the help text of one subcommand level. */
module SubcommandHelp {
  import opened Wrappers
  import opened Subcommands
  import Help

  /** The name shown in the usage line: the parent chain, a space, and this
      level's name. */
  function DisplayName(info: SubcommandInfo, parentsName: Option<string>): (r: string)
    ensures parentsName.None? ==> r == info.name
    ensures parentsName.Some? ==> parentsName.value + " " <= r
    ensures parentsName.Some? ==> |r| == |parentsName.value| + 1 + |info.name|
    ensures parentsName.Some? ==> r[|parentsName.value| + 1..] == info.name
  {
    match parentsName
    case Some(p) => p + " " + info.name
    case None => info.name
  }

  /** The about text followed by a blank line, or nothing. */
  function AboutText(info: SubcommandInfo): (r: string)
    ensures info.about.None? <==> r == []
    ensures info.about.Some? ==> r == info.about.value + "\n\n"
  {
    if info.about.Some? then info.about.value + "\n" + "\n" else ""
  }

  method GetHelp(info: SubcommandInfo, parentsName: Option<string>) returns (out: string)
    ensures out == AboutText(info)
                   + Help.HelpText(Some(DisplayName(info, parentsName)), info.args, [], info.subcommands)
  {
    out := "";
    var name := match parentsName
      case Some(p) => p + " " + info.name
      case None => info.name;
    if info.about.Some? {
      out := out + info.about.value + "\n";
      out := out + "\n";
    }
    assert out == AboutText(info);
    assert name == DisplayName(info, parentsName);
    out := Help.GetHelp(out, Some(name), info.args, [], info.subcommands);
  }

  /** Without an about text, a subcommand's help starts with its usage line
      naming the parent chain and the subcommand. */
  lemma UsageNamesParents(info: SubcommandInfo, parents: string)
    requires info.about.None?
    ensures var text := AboutText(info)
                        + Help.HelpText(Some(DisplayName(info, Some(parents))), info.args, [], info.subcommands);
            "Usage: " + parents + " " + info.name <= text
  {
    var name := DisplayName(info, Some(parents));
    assert name == parents + " " + info.name;
    Help.UsageLeads(name, info.args, [], info.subcommands);
  }

  /** With an about text, the help text starts with it and a blank line,
      and the usage line follows. */
  lemma AboutComesFirst(info: SubcommandInfo, parentsName: Option<string>)
    requires info.about.Some?
    ensures var text := AboutText(info)
                        + Help.HelpText(Some(DisplayName(info, parentsName)), info.args, [], info.subcommands);
            && info.about.value + "\n\n" <= text
            && (info.about.value + "\n\n") + ("Usage: " + DisplayName(info, parentsName)) <= text
  {
    var name := DisplayName(info, parentsName);
    Help.UsageLeads(name, info.args, [], info.subcommands);
    PrefixExtends(AboutText(info), "Usage: " + name, Help.HelpText(Some(name), info.args, [], info.subcommands));
  }

  lemma PrefixExtends(a: string, u: string, h: string)
    requires u <= h
    ensures a <= a + h && a + u <= a + h
  {
    assert (a + h)[..|a + u|] == a + u;
  }
}
