# no_std_clap runtime core, modelled in Dafny

This project models the runtime half of `no_std_clap`, a command-line argument
library for `no_std` Rust (`no_std_clap_core`), plus the kebab-case converter
that its derive macros use to name commands and enum values. The pieces are:

- **The command-line tokenizer** (`parse_command_line`) and the two entry
  guards `parse_from` and `parse_str` (module `Parser`, `parser.dfy`).
  - The tokenizer is specified by a per-character step function `Step` folded
    over the input (`Run`).
  - The imperative scanner `ParseCommandLine` keeps the original's inner
    blank-skipping loop and is proved to compute exactly `Tokenize`.
  - Separate lemmas cover quoting, escaping, unclosed quotes and non-empty
    tokens. For quote-free input the output agrees with plain splitting on
    blanks (`Words`).
- **The manual argument dispatcher** `Command::parse` (module `Commands`,
  `command.dfy`).
  - The `while` loop is a method proved equal to the recursive specification
    `Scan` followed by the required-argument check `FirstMissing`.
  - A two-byte short token is measured in UTF-8 bytes, as `str::len` does.
- **The result store** `ParsedArgs` (module `ParsedArg`, `parsed_arg.dfy`).
  - It is a class whose methods update its value map, its counter map and its
    subcommand field in place.
  - The counter-folding loop of `set_subcommand` is the method `AddEach`. It is
    proved to give `AddCounts` whatever order the keys are taken in.
- **The help renderer** `get_help` (module `Help`, `help.dfy`) and
  `SubcommandInfo::get_help` (module `SubcommandHelp`, `subcommand.dfy`).
  - Each writing step is a method that appends to the buffer.
  - Each method is proved to append the text of a layout function (`HelpText`
    and its three sections).
  - Lemmas then state the layout rules.
- **The descriptor builders** of `ArgInfo` (module `ArgInfos`), of the older
  `ArgInfo` that `Command` consumes (module `Arg`), and of `SubcommandInfo`
  (module `Subcommands`). These are by-value record updates.
- **The value conversions** `FromArg` for strings, booleans, the integer types,
  `Option<T>` and `Vec<T>` (module `FromArg`, `from_arg.dfy`).
- **Error rendering** `Display for ParseError` (module `Errors`, `error.dfy`).
- **`to_kebab_case_case`** (module `KebabCase`, `utils.dfy`). The loop with its
  three-character window is a method proved equal to `Kebab`, a per-character
  definition: each character lowercased, with a dash before it at a word or
  acronym boundary.

Shared helpers live in `Wrappers` (`Option`, `Result`) and `Text`. `Text`
holds the blank and white-space classes, `str::trim`, ASCII case mapping, and
splitting and joining on a separator.

Notes on the code as written:

- The usage line in `help.rs` writes ` [OPTIONS]` only when local arguments
  exist (global arguments alone do not trigger it), and it renders no
  positional `<NAME>` entries.
- With a name and only global arguments, the usage line is not closed by a line
  break, so `Options:` follows the name on the same line
  (`Help.UsageRunsIntoOptions`).
- `Command::parse` stores `--long value` and `-c value` pairs and skips every
  other token.

## Model

| member | source | states |
|---|---|---|
| Errors.Message | no_std_clap_core/src/error.rs:18-31 | each variant renders as its own fixed message: `Empty input`, help text verbatim, `Missing required argument: `/`Invalid value: `/`Unknown argument: `/`Invalid format: ` followed by the payload, `Unknown command`, and `Invalid value: v, possible values are: p` |
| Errors.PayloadRecoverable | no_std_clap_core/src/error.rs:23-27 | for every variant with one payload, stripping the variant's prefix from its message gives the payload back |
| Text.Trim | no_std_clap_core/src/parser.rs:28 | `str::trim` strips leading then trailing white space: empty exactly when the input is all white space, otherwise neither end of the result is white space |
| Text.TrimKeeps | no_std_clap_core/src/parser.rs:28 | trimming only removes characters: every character of the result occurs in the input |
| Text.TrimIsSlice | no_std_clap_core/src/parser.rs:28 | `str::trim` returns a contiguous slice of its input with only white space before it and only white space after it (`BetweenWhitespace`) |
| Text.TrimUntouched | no_std_clap_core/src/arg/from_arg.rs:112 | text with no white space at either end is unchanged by trimming |
| Text.Lower | no_std_clap_core/src/arg/from_arg.rs:92 | lowercasing keeps the length and maps each ASCII capital to its small letter, every other character to itself |
| Text.SplitJoin | no_std_clap_core/src/arg/from_arg.rs:111 | joining the pieces of a split with the separator gives the text back |
| Text.Split | no_std_clap_core/src/arg/from_arg.rs:111 | `str::split`: at least one piece, and no piece contains the separator |
| Text.SplitCount | no_std_clap_core/src/arg/from_arg.rs:111 | splitting gives one piece more than the separator occurs: empty pieces are kept |
| Parser.Tokenize | no_std_clap_core/src/parser.rs:63-115 | fails exactly when the input ends inside a quoted region, with `InvalidFormat("Unclosed quote in command line")`; on success no token is empty |
| Parser.ParseCommandLine | no_std_clap_core/src/parser.rs:63-115 | the scanner loop, with its inner loop skipping runs of blanks, returns exactly `Tokenize(input)` |
| Parser.ParseFrom | no_std_clap_core/src/parser.rs:13-25 | an empty token list is refused with `EmptyInput`; any other list reaches `parse_args` unchanged |
| Parser.ParseStr | no_std_clap_core/src/parser.rs:27-36 | input that is all white space is refused with `EmptyInput`; otherwise the trimmed text is tokenized and an unclosed quote is reported, or the tokens go to `parse_args` |
| Parser.RunKeepsTokensNonEmpty | no_std_clap_core/src/parser.rs:90-112 | tokens are flushed only when non-empty, so no token, including the last one, is empty |
| Parser.RunEscapeOnlyInQuotes | no_std_clap_core/src/parser.rs:73-82 | a pending escape exists only inside a quoted region |
| Parser.InsideQuotes | no_std_clap_core/src/parser.rs:83-89 | inside a region, every character other than the opening quote and the backslash is kept verbatim, blanks and the other quote kind included |
| Parser.QuotedRegion | no_std_clap_core/src/parser.rs:83-89 | a whole quoted region adds its content to the current token and drops both quote characters |
| Parser.EscapeInsideQuotes | no_std_clap_core/src/parser.rs:73-82 | inside quotes a backslash makes the next character literal, even the quote that opened the region |
| Parser.BackslashOutsideQuotes | no_std_clap_core/src/parser.rs:79-102 | outside quotes a backslash is an ordinary character of the token |
| Parser.UnclosedQuoteRefused | no_std_clap_core/src/parser.rs:106-108 | input ending inside a region is refused, also when its last character is an in-quote backslash |
| Parser.TokenizeQuoteFree | no_std_clap_core/src/parser.rs:90-103 | without quote characters the tokenizer never fails and returns the maximal runs of non-blank characters, in order |
| Parser.WordsEmpty | no_std_clap_core/src/parser.rs:90-99 | splitting on blanks gives no piece exactly when the text is all blanks |
| Parser.WordsTrimStart | no_std_clap_core/src/parser.rs:28 | trimming leading blanks does not change the pieces of a blank split |
| Parser.WordsTrimEnd | no_std_clap_core/src/parser.rs:28 | trimming trailing blanks does not change the pieces of a blank split |
| Parser.ParseStrAsParseFrom | no_std_clap_core/src/parser.rs:13-36 | for input without quotes and with no white space other than spaces and tabs, `parse_str` equals `parse_from` on the input split on blanks |
| Parser.QuotedTokenExample | no_std_clap_core/src/parser.rs:83-103 | `a "b c" d` gives `a`, `b c`, `d` |
| Parser.AdjacentPiecesJoinExample | no_std_clap_core/src/parser.rs:83-102 | `a"b c"d` gives the single token `ab cd` |
| Parser.EmptyQuotesExample | no_std_clap_core/src/parser.rs:91-94 | `a "" b` gives `a` and `b`: an empty quoted pair yields no token |
| Parser.EmptyQuotedInputReachesParseArgs | no_std_clap_core/src/parser.rs:27-35 | the input `""` is not blank, so it reaches `parse_args` with no tokens at all |
| Commands.Command.New | no_std_clap_core/src/command.rs:14-19 | the command has the given name and no argument descriptors |
| Commands.Command.Arg | no_std_clap_core/src/command.rs:21-24 | the descriptor is appended at the end and the name is unchanged |
| Commands.FindArg | no_std_clap_core/src/command.rs:36 | the first declared argument with the spelling, or none when no argument has it |
| Commands.Utf8Len | no_std_clap_core/src/command.rs:47 | the byte length of a string is at least its character count |
| Commands.ShortTokenShape | no_std_clap_core/src/command.rs:47 | a token is taken as a short option exactly when it is a dash followed by one ASCII character other than a dash |
| Commands.Parse | no_std_clap_core/src/command.rs:26-77 | the token loop and the required check return exactly `ParseSpec(cmd, tokens)` |
| Commands.FirstMissing | no_std_clap_core/src/command.rs:69-76 | the first required argument, in declaration order, with no value; none when every required argument has one |
| Commands.ScanKeysDeclared | no_std_clap_core/src/command.rs:30-66 | every key the loop stores is the name of a declared argument |
| Commands.ParseOutcome | no_std_clap_core/src/command.rs:69-76 | on success every key is declared and every required argument has a value; a failed required check names the first missing required argument |
| Commands.PositionalsSkipped | no_std_clap_core/src/command.rs:61-65 | tokens that are neither `--…` nor two-byte `-c` are skipped without storing anything and without error |
| Commands.SkipTo | no_std_clap_core/src/command.rs:61-65 | skipped tokens between two positions leave the outcome of the token loop unchanged |
| Commands.UnknownLong | no_std_clap_core/src/command.rs:43-45 | `--l` with no declared long spelling `l` fails with `UnknownArgument(l)` |
| Commands.LongWithoutValue | no_std_clap_core/src/command.rs:37-40 | a known `--l` as the last token fails with `MissingArgument(l)` whatever was stored before; after only skipped tokens the whole parse fails so |
| Commands.ShortOutcomes | no_std_clap_core/src/command.rs:47-59 | a known `-c` as the last token fails with `MissingArgument(c)`, an unknown one with `UnknownArgument(c)`, whatever was stored before; after only skipped tokens the whole parse fails so |
| Commands.LongPairStored | no_std_clap_core/src/command.rs:33-41 | `--l v` stores `v` verbatim under the first matching argument's name; a repeated option keeps its last value |
| Commands.ShortPairStored | no_std_clap_core/src/command.rs:47-56 | `-c v` stores `v` verbatim under the first argument with short spelling `c`; a repeated option keeps its last value |
| ParsedArg.AddCounts | no_std_clap_core/src/arg/parsed_arg.rs:39-42 | the keys are the union of both key sets and each counter is the sum of the two counters |
| ParsedArg.AddEach | no_std_clap_core/src/arg/parsed_arg.rs:39-42 | adding the counters one key at a time, in any order, gives `AddCounts(c, d)` |
| ParsedArg.AddCountsOrderIrrelevant | no_std_clap_core/src/arg/parsed_arg.rs:38-45 | folding two counter maps in gives the same result in either order |
| ParsedArg.AddCountsSplit | no_std_clap_core/src/arg/parsed_arg.rs:39-42 | folding a counter map in equals folding it in split along any partition of its keys |
| ParsedArg.ParsedArgs.constructor | no_std_clap_core/src/arg/parsed_arg.rs:13-19 | a new store has no values, no counters and no subcommand |
| ParsedArg.ParsedArgs.Insert | no_std_clap_core/src/arg/parsed_arg.rs:21-23 | the value is appended to the key's list; every other key, the counters and the subcommand are unchanged; `get` of the key is its first value |
| ParsedArg.ParsedArgs.InsertFlag | no_std_clap_core/src/arg/parsed_arg.rs:25-27 | the empty string is appended, so the key is present and `get` of a new key is `Some("")` |
| ParsedArg.ParsedArgs.Increment | no_std_clap_core/src/arg/parsed_arg.rs:29-32 | the key's counter grows by exactly one; the other counters, the values and the subcommand are unchanged |
| ParsedArg.ParsedArgs.Count | no_std_clap_core/src/arg/parsed_arg.rs:34-36 | a key never incremented counts 0 |
| ParsedArg.ParsedArgs.SetSubcommand | no_std_clap_core/src/arg/parsed_arg.rs:38-45 | every counter of the sub-result is added into the counter of the same key, the subcommand becomes the given pair, and the values are unchanged |
| ParsedArg.ParsedArgs.Get | no_std_clap_core/src/arg/parsed_arg.rs:48-50 | present exactly when the key has a value, and then the first value inserted |
| ParsedArg.ParsedArgs.GetAll | no_std_clap_core/src/arg/parsed_arg.rs:53-57 | all values of the key in insertion order; empty for an unknown key |
| ParsedArg.ParsedArgs.ContainsKey | no_std_clap_core/src/arg/parsed_arg.rs:60-62 | true exactly when some value was inserted for the key |
| Help.GetHelp | no_std_clap_core/src/help.rs:8-86 | appends exactly `HelpText(...)` to the buffer; its prior contents stay a prefix |
| Help.WriteUsage | no_std_clap_core/src/help.rs:9-23 | appends exactly the usage line |
| Help.WriteOptions | no_std_clap_core/src/help.rs:25-70 | appends exactly the options section |
| Help.WriteOptionLines | no_std_clap_core/src/help.rs:27-47 | the per-argument loop appends one option line per argument, in order |
| Help.WriteOptionLine | no_std_clap_core/src/help.rs:28-44 | the pushes build exactly the option line's body |
| Help.WriteCommands | no_std_clap_core/src/help.rs:72-85 | appends exactly the commands section |
| Help.WriteCommandLines | no_std_clap_core/src/help.rs:78-84 | the per-subcommand loop appends one command line per subcommand, in order |
| Help.UsageMarkers | no_std_clap_core/src/help.rs:9-23 | the usage line starts `Usage: <name>`; ` [OPTIONS]` follows exactly when there are local arguments; it ends in ` [SUBCOMMAND]` exactly when there are subcommands; it ends in a line break exactly when one of the two lists is non-empty |
| Help.UsageLeads | no_std_clap_core/src/help.rs:9-11 | with a name the help text starts with `Usage: <name>` |
| Help.NoUsageWithoutName | no_std_clap_core/src/help.rs:9-11 | without a name the help text does not start with `Usage: ` |
| Help.OptionLineLayout | no_std_clap_core/src/help.rs:28-46 | an option line is two spaces, `-c` first when there is a short spelling, `, --long` when there is also a long one, `--long` first when there is only a long one, the help text after three tabs at the end, then a line break |
| Help.OptionsLayout | no_std_clap_core/src/help.rs:25-70 | the options section appears exactly when there are local or global arguments, and is the header followed by the lines of the local and then the global arguments, each in order |
| Help.OptionLinesAppend | no_std_clap_core/src/help.rs:27-69 | the lines of two lists are the lines of the first followed by the lines of the second |
| Help.OptionLinesCount | no_std_clap_core/src/help.rs:27-47 | with no line breaks inside spellings and help texts, the option lines of a list hold exactly one line break per argument |
| Help.OptionsSectionLines | no_std_clap_core/src/help.rs:25-70 | the options section holds exactly 1 + local + global line breaks |
| Help.CommandsLayout | no_std_clap_core/src/help.rs:72-85 | the commands section is empty without subcommands; otherwise it starts with `Commands:`, after a blank line exactly when there are local arguments |
| Help.UsageRunsIntoOptions | no_std_clap_core/src/help.rs:13-26 | with a name and only global arguments, `Options:` follows the name on the usage line with no line break between them |
| Subcommands.SubcommandInfo.New | no_std_clap_core/src/subcommand.rs:21-28 | the given name, no about text, no arguments and no subcommands |
| Subcommands.SubcommandInfo.About | no_std_clap_core/src/subcommand.rs:30-33 | the about text is set and nothing else changes |
| Subcommands.SubcommandInfo.Arg | no_std_clap_core/src/subcommand.rs:35-38 | the argument is appended at the end and nothing else changes |
| Subcommands.SubcommandInfo.Subcommand | no_std_clap_core/src/subcommand.rs:40-43 | the subcommand is appended at the end and nothing else changes |
| Subcommands.ArgsInOrder | no_std_clap_core/src/subcommand.rs:35-38 | a chain of `arg` calls records the arguments in the order they were added and changes nothing else |
| Subcommands.AboutSetters | no_std_clap_core/src/subcommand.rs:30-43 | the last about text wins, and setters of different fields commute |
| SubcommandHelp.DisplayName | no_std_clap_core/src/subcommand.rs:48-51 | the name is the parent chain, a space and this level's name when a parent chain is given, and this level's name otherwise |
| SubcommandHelp.AboutText | no_std_clap_core/src/subcommand.rs:53-56 | the about text followed by a blank line when present, nothing otherwise |
| SubcommandHelp.GetHelp | no_std_clap_core/src/subcommand.rs:45-61 | the about text, then the renderer's text for the display name, this level's arguments, no global arguments and this level's subcommands |
| SubcommandHelp.UsageNamesParents | no_std_clap_core/src/subcommand.rs:48-58 | without an about text the help starts with `Usage: <parents> <name>` |
| SubcommandHelp.AboutComesFirst | no_std_clap_core/src/subcommand.rs:53-58 | with an about text the help starts with it and a blank line, and the usage line follows |
| ArgInfos.ArgInfo.New | no_std_clap_core/src/arg/arg_info.rs:16-26 | the given name, no spellings or help, and all three flags false |
| ArgInfos.ArgInfo.Short | no_std_clap_core/src/arg/arg_info.rs:28-31 | sets the short spelling and nothing else |
| ArgInfos.ArgInfo.Long | no_std_clap_core/src/arg/arg_info.rs:33-36 | sets the long spelling and nothing else |
| ArgInfos.ArgInfo.Help | no_std_clap_core/src/arg/arg_info.rs:38-41 | sets the help text and nothing else |
| ArgInfos.ArgInfo.Required | no_std_clap_core/src/arg/arg_info.rs:43-46 | sets `required` and nothing else |
| ArgInfos.ArgInfo.Multiple | no_std_clap_core/src/arg/arg_info.rs:48-51 | sets `multiple` and nothing else |
| ArgInfos.ArgInfo.Global | no_std_clap_core/src/arg/arg_info.rs:53-56 | sets `global` and nothing else |
| ArgInfos.RepeatedSettersKeepLast | no_std_clap_core/src/arg/arg_info.rs:28-56 | a repeated setter keeps the last value; the flag setters are idempotent |
| ArgInfos.SettersCommute | no_std_clap_core/src/arg/arg_info.rs:28-56 | setters of different fields commute |
| Arg.ArgInfo.New | no_std_clap_core/src/arg.rs:115-125 | the given name, no spellings or help, `required` and `multiple` false |
| Arg.ArgInfo.Short | no_std_clap_core/src/arg.rs:127-130 | sets the short spelling and nothing else |
| Arg.ArgInfo.Long | no_std_clap_core/src/arg.rs:132-135 | sets the long spelling and nothing else |
| Arg.ArgInfo.Help | no_std_clap_core/src/arg.rs:137-140 | sets the help text and nothing else |
| Arg.ArgInfo.Required | no_std_clap_core/src/arg.rs:142-145 | sets `required` and nothing else |
| Arg.ArgInfo.Multiple | no_std_clap_core/src/arg.rs:147-150 | sets `multiple` and nothing else |
| Arg.SettersKeepName | no_std_clap_core/src/arg.rs:115-150 | the name given to `new` survives every setter |
| FromArg.StringFromArg | no_std_clap_core/src/arg/from_arg.rs:12-16 | the text itself, never an error |
| FromArg.BoolFromArg | no_std_clap_core/src/arg/from_arg.rs:90-98 | true exactly for the lowercase forms true/1/yes/on, false exactly for false/0/no/off, otherwise `InvalidValue("Cannot parse '<arg>' as bool")` |
| FromArg.BoolFromArgIgnoresCase | no_std_clap_core/src/arg/from_arg.rs:92 | texts with the same lowercase form convert alike |
| FromArg.BoolDisplayRoundTrip | no_std_clap_core/src/arg/from_arg.rs:93-94 | `true` and `false` convert back to the booleans they display |
| FromArg.BoolAnyCase | no_std_clap_core/src/arg/from_arg.rs:92-94 | `TRUE` gives true and `Off` gives false |
| FromArg.BoolRefusesOtherWords | no_std_clap_core/src/arg/from_arg.rs:95 | `maybe` is refused with a message quoting it |
| FromArg.ParseInt | no_std_clap_core/src/arg/from_arg.rs:18-76 | a parsed value lies within the type's range, and a leading minus is accepted only by a signed type |
| FromArg.IntFromArg | no_std_clap_core/src/arg/from_arg.rs:18-76 | succeeds exactly when the text parses, with the parsed value, which is in the type's range; otherwise `InvalidValue("Cannot parse '<arg>' as <type>")` |
| FromArg.IntFromDigits | no_std_clap_core/src/arg/from_arg.rs:18-76 | a digit run converts to the number it denotes when that fits the type; a leading `+` changes nothing; a leading `-` gives the negated number for signed types in range and is refused for unsigned ones |
| FromArg.ParseSigned | no_std_clap_core/src/arg/from_arg.rs:18-76 | `str::parse` on a sign and digits: `+` parses as the bare digits, `-` as the negated value for a signed type in range, otherwise nothing |
| FromArg.ParseBare | no_std_clap_core/src/arg/from_arg.rs:18-76 | `str::parse` on bare digits gives their decimal value exactly when it is at most the type's maximum |
| FromArg.LeadingZeroIgnored | no_std_clap_core/src/arg/from_arg.rs:18-76 | a leading zero does not change the decimal value of a digit string |
| FromArg.IntDisplayRoundTrip | no_std_clap_core/src/arg/from_arg.rs:18-76 | the decimal text of any in-range value converts back to that value |
| FromArg.IntSignExamples | no_std_clap_core/src/arg/from_arg.rs:18-76 | `5` as u8 is 5; `-0` as u8 is refused with its message; `+7` as i32 is 7; a lone `-` and an out-of-range `256` as u8 are refused |
| FromArg.OptionFromArg | no_std_clap_core/src/arg/from_arg.rs:101-105 | success of the inner conversion wrapped in `Some`, its error passed through; `None` is never produced |
| FromArg.TrimAll | no_std_clap_core/src/arg/from_arg.rs:112 | each piece trimmed, same number of pieces |
| FromArg.FirstFailure | no_std_clap_core/src/arg/from_arg.rs:110-113 | the index of the first text that fails to convert, or the number of texts when none fails |
| FromArg.ConvertAll | no_std_clap_core/src/arg/from_arg.rs:110-113 | succeeds exactly when every text converts, with the values in order; otherwise the error of the first failing text |
| FromArg.VecFromArg | no_std_clap_core/src/arg/from_arg.rs:108-114 | on success one value per comma-separated piece (commas + 1), each the conversion of the trimmed piece; on failure the error of the first failing piece |
| FromArg.VecOfStrings | no_std_clap_core/src/arg/from_arg.rs:108-114 | for strings the result is the trimmed pieces |
| FromArg.VecOfEmptyText | no_std_clap_core/src/arg/from_arg.rs:108-114 | the empty text gives one empty piece |
| FromArg.VecTrailingComma | no_std_clap_core/src/arg/from_arg.rs:108-114 | `a,` gives `a` and an empty piece |
| FromArg.VecTrimsPieces | no_std_clap_core/src/arg/from_arg.rs:108-114 | ` a , b` gives `a` and `b` |
| KebabCase.ToKebabCase | no_std_clap_macros/src/utils.rs:3-44 | the sliding-window loop returns exactly `Kebab(s)`: each character lowercased, with a dash before it at a word or acronym boundary |
| KebabCase.DashesAreTheOnlyAdditions | no_std_clap_macros/src/utils.rs:14-41 | for input without dashes, deleting the dashes from the output gives the input lowercased: each character is written once, in order |
| KebabCase.KebabStart | no_std_clap_macros/src/utils.rs:10-43 | the output is empty exactly for empty input, and it starts with the first character lowercased, never with an inserted dash |
| KebabCase.KebabPrefix | no_std_clap_macros/src/utils.rs:14-41 | the output for a longer prefix of the input extends the output for a shorter one, and is at least as long as the prefix |
| KebabCase.NoUpperUnchanged | no_std_clap_macros/src/utils.rs:21-40 | input with no uppercase letter comes back unchanged |
| KebabCase.KebabNoUpper | no_std_clap_macros/src/utils.rs:31-40 | the output holds no uppercase letter |
| KebabCase.Idempotent | no_std_clap_macros/src/utils.rs:3-44 | converting twice is converting once |
| KebabCase.ComposedName | no_std_clap_macros/src/utils.rs:33-37 | `ComposedName` gives `composed-name` |
| KebabCase.SmallExamples | no_std_clap_macros/src/utils.rs:21-37 | `abC` gives `ab-c` (word boundary) and `ABc` gives `a-bc` (acronym boundary) |

## Left out

- Floating-point conversions (`f32`/`f64` `from_arg`) are not modelled: floating-point parsing is outside the model.
- `parse_env` is a placeholder for reading the environment and is not modelled.
- The trait-level `Parser`, `Subcommand` and `Args` dispatch, and `Subcommand for Option<T>`, are glue that generated code fills in. `parse_args` is a function parameter of `ParseFrom` and `ParseStr`.
- The derive macros' code generation is not modelled. The only part taken from the macro crate is `to_kebab_case_case`. The `syn` type predicates of the same file are left out.
- The `FromArg` impls in `no_std_clap_core/src/arg.rs:12-102` repeat those of `from_arg.rs`, without `isize`/`usize`. They are modelled once, in module `FromArg`.
- The richer parsing engine that the library's tests call (counting flags, subcommand recursion, global arguments, the help short-circuit) is not part of this model, because `Command::parse` as written does none of it.
- `to_lowercase`, `is_lowercase` and `is_uppercase` are taken to act on ASCII letters only. `Text.Lower`, `FromArg.BoolFromArg` and every `KebabCase` member therefore do not cover non-ASCII letters, whose Unicode case mapping can change the length of a string.
- `KebabCase.Idempotent`: proved for the model's ASCII case mapping only.
- `FromArg.ParseInt`: `isize` and `usize` are taken as 64-bit. Rust's integer parsing is modelled by its rules: an optional `+`, a `-` for signed types only, at least one decimal digit, and a range check.
- `ParsedArg.ParsedArgs.Increment`: counters are unbounded naturals, so the `usize` overflow of `*entry += 1` is not modelled.
- `ParsedArg.ParsedArgs.SetSubcommand`: counters are unbounded naturals, so the `usize` overflow of `*entry += count` is not modelled. The sub-result is shared by reference rather than moved into a `Box`.
- `ParsedArg.ParsedArgs.GetSubcommand` is a plain read of the subcommand field. What it returns is stated by the constructor and `SetSubcommand`.
- `Help.GetHelp`: the `&mut String` buffer is passed in by value and the extended buffer is returned. The `unwrap` of each `write!` cannot fail on a `String` and is not modelled.
- `SubcommandHelp.GetHelp`: the fresh buffer and the call into the renderer follow the same convention as `Help.GetHelp`.
- `Parser.ParseFrom`: the conversion of an arbitrary iterable of string-like items into a `Vec<String>` is not modelled. The input is already a sequence of strings.
