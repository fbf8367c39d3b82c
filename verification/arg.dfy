/** The older argument descriptor, the one the manual `Command` builder
    consumes: the same setters, without the `global` flag. The string
    conversions of the same source file are modelled in module FromArg. */
module Arg {

  import opened Wrappers

  datatype ArgInfo = ArgInfo(
    name: string,
    short: Option<char>,
    long: Option<string>,
    help: Option<string>,
    required: bool,
    multiple: bool)
  {
    static function New(name: string): (r: ArgInfo)
      ensures r.name == name
      ensures r.short.None? && r.long.None? && r.help.None?
      ensures !r.required && !r.multiple
    {
      ArgInfo(name, None, None, None, false, false)
    }

    function Short(c: char): (r: ArgInfo)
      ensures r.short == Some(c)
      ensures r.(short := short) == this
    {
      this.(short := Some(c))
    }

    function Long(l: string): (r: ArgInfo)
      ensures r.long == Some(l)
      ensures r.(long := long) == this
    {
      this.(long := Some(l))
    }

    function Help(h: string): (r: ArgInfo)
      ensures r.help == Some(h)
      ensures r.(help := help) == this
    {
      this.(help := Some(h))
    }

    function Required(): (r: ArgInfo)
      ensures r.required
      ensures r.(required := required) == this
    {
      this.(required := true)
    }

    function Multiple(): (r: ArgInfo)
      ensures r.multiple
      ensures r.(multiple := multiple) == this
    {
      this.(multiple := true)
    }
  }

  /** The name given to `new` survives every setter. */
  lemma SettersKeepName(n: string, c: char, l: string, h: string)
    ensures ArgInfo.New(n).Short(c).Long(l).Help(h).Required().Multiple().name == n
  {
  }
}
