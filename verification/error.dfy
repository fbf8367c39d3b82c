/** The error kinds of the parsing library and the message each renders as. */
module Errors {

  import opened Wrappers

  datatype ParseError =
    | EmptyInput
    | Help(text: string)
    | MissingArgument(arg: string)
    | InvalidValue(msg: string)
    | UnknownArgument(arg: string)
    | UnknownSubcommand
    | InvalidFormat(msg: string)
    | UnknownEnumVariant(value: string, possibleValues: string)

  /** The `Display` rendering: one fixed message per variant, the payload
      appended after a fixed prefix; help text is shown verbatim. */
  function Message(e: ParseError): (m: string)
    ensures e.EmptyInput? ==> m == "Empty input"
    ensures e.Help? ==> m == e.text
    ensures e.MissingArgument? ==> m == "Missing required argument: " + e.arg
    ensures e.InvalidValue? ==> m == "Invalid value: " + e.msg
    ensures e.UnknownArgument? ==> m == "Unknown argument: " + e.arg
    ensures e.UnknownSubcommand? ==> m == "Unknown command"
    ensures e.InvalidFormat? ==> m == "Invalid format: " + e.msg
    ensures e.UnknownEnumVariant? ==>
      m == "Invalid value: " + e.value + ", possible values are: " + e.possibleValues
  {
    match e
    case EmptyInput => "Empty input"
    case Help(text) => text
    case MissingArgument(arg) => "Missing required argument: " + arg
    case InvalidValue(msg) => "Invalid value: " + msg
    case UnknownArgument(arg) => "Unknown argument: " + arg
    case UnknownSubcommand => "Unknown command"
    case InvalidFormat(msg) => "Invalid format: " + msg
    case UnknownEnumVariant(value, possible) =>
      "Invalid value: " + value + ", possible values are: " + possible
  }

  /** Drops a known prefix from a message; the inverse of prefixing. */
  function StripPrefix(prefix: string, m: string): (r: Option<string>)
    ensures r.Some? <==> prefix <= m
    ensures r.Some? ==> prefix + r.value == m
  {
    if prefix <= m then Some(m[|prefix|..]) else None
  }

  /** Every message with a payload determines that payload: the prefix of
      each variant can be stripped to give the payload back. */
  lemma PayloadRecoverable(e: ParseError)
    ensures e.MissingArgument? ==>
      StripPrefix("Missing required argument: ", Message(e)) == Some(e.arg)
    ensures e.UnknownArgument? ==>
      StripPrefix("Unknown argument: ", Message(e)) == Some(e.arg)
    ensures e.InvalidValue? ==>
      StripPrefix("Invalid value: ", Message(e)) == Some(e.msg)
    ensures e.InvalidFormat? ==>
      StripPrefix("Invalid format: ", Message(e)) == Some(e.msg)
  {
    match e
    case MissingArgument(a) =>
      assert ("Missing required argument: " + a)[|"Missing required argument: "|..] == a;
    case UnknownArgument(a) =>
      assert ("Unknown argument: " + a)[|"Unknown argument: "|..] == a;
    case InvalidValue(m) =>
      assert ("Invalid value: " + m)[|"Invalid value: "|..] == m;
    case InvalidFormat(m) =>
      assert ("Invalid format: " + m)[|"Invalid format: "|..] == m;
    case _ =>
  }
}
