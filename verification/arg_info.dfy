/** Argument descriptors as the help renderer and subcommand descriptors use
    them: a record built by chained by-value setters. */
module ArgInfos {

  import opened Wrappers

  datatype ArgInfo = ArgInfo(
    name: string,
    short: Option<char>,
    long: Option<string>,
    help: Option<string>,
    required: bool,
    multiple: bool,
    global: bool)
  {
    /** A descriptor with only its name set. */
    static function New(name: string): (r: ArgInfo)
      ensures r.name == name
      ensures r.short.None? && r.long.None? && r.help.None?
      ensures !r.required && !r.multiple && !r.global
    {
      ArgInfo(name, None, None, None, false, false, false)
    }

    function Short(c: char): (r: ArgInfo)
      ensures r.short == Some(c)
      ensures r.(short := short) == this
    {
      this.(short := Some(c))
    }

    function Long(l: string): (r: ArgInfo)
      ensures r.long == Some(l)
      ensures r.(long := long) == this
    {
      this.(long := Some(l))
    }

    function Help(h: string): (r: ArgInfo)
      ensures r.help == Some(h)
      ensures r.(help := help) == this
    {
      this.(help := Some(h))
    }

    function Required(): (r: ArgInfo)
      ensures r.required
      ensures r.(required := required) == this
    {
      this.(required := true)
    }

    function Multiple(): (r: ArgInfo)
      ensures r.multiple
      ensures r.(multiple := multiple) == this
    {
      this.(multiple := true)
    }

    function Global(): (r: ArgInfo)
      ensures r.global
      ensures r.(global := global) == this
    {
      this.(global := true)
    }
  }

  /** Setting the same field twice keeps the last value; the flag setters
      are idempotent. */
  lemma RepeatedSettersKeepLast(a: ArgInfo, c: char, d: char, x: string, y: string)
    ensures a.Short(c).Short(d) == a.Short(d)
    ensures a.Long(x).Long(y) == a.Long(y)
    ensures a.Help(x).Help(y) == a.Help(y)
    ensures a.Required().Required() == a.Required()
    ensures a.Multiple().Multiple() == a.Multiple()
    ensures a.Global().Global() == a.Global()
  {
  }

  /** Setters of different fields commute, so the order of a builder chain
      does not matter. */
  lemma SettersCommute(a: ArgInfo, c: char, l: string, h: string)
    ensures a.Short(c).Long(l) == a.Long(l).Short(c)
    ensures a.Short(c).Help(h) == a.Help(h).Short(c)
    ensures a.Long(l).Help(h) == a.Help(h).Long(l)
    ensures a.Required().Multiple() == a.Multiple().Required()
    ensures a.Required().Global() == a.Global().Required()
    ensures a.Multiple().Global() == a.Global().Multiple()
    ensures a.Long(l).Required() == a.Required().Long(l)
    ensures a.Short(c).Global() == a.Global().Short(c)
  {
  }
}
