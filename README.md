# recline / cliche, modelled in Dafny

recline turns decorated Python functions into the commands of an interactive
shell. The `@command` decorator registers a function (and its aliases) under a
name in a global registry, reads its signature and its docstring to build an
argparse parser, and renders help text and man pages for it. The REPL reads a
line, splits it on `;`, `&&` and `||`, runs each command through its parser
and its function (in a background thread when it is `async`), and offers tab
completion over the registered names and their arguments. Argument types
(`Positional`, `RangedInt`, `Choices`) validate and convert what the user
typed; a table formatter prints a command's list of records. The cliche
package adds the built-in commands `help`, `man`, `fg` and `exit`.

This project models those pieces, one Dafny module per source file:

| module | file | what it holds |
|---|---|---|
| `Wrappers` | wrappers.dfy | `Option` and `Result` |
| `PyText` | text.dfy | the Python `str` operations the code relies on (`split`, `join`, `strip`, `startswith`, `int()`, `str(int)`, `title`, `lower`), with their laws |
| `ReclineTypes` | recline_type.dfy | the base argument type and the `UniqueParam` argparse action |
| `ReclinePositional` | positional.dfy | recline's `Positional` type |
| `ClichePositional` | cliche_positional.dfy | cliche's copy of `Positional` |
| `RangedInt` | ranged_int.dfy | `RangedInt` |
| `Choices` | choices.dfy | `Choices`, a class whose state is the shared metavar, the choices cache and the number of calls of a callable source |
| `Docstring` | docstring.dfy | the parsed docstring and its `params`, `raises`, `returns`, `examples` accessors |
| `CliCommand`, `CliCommandExamples` | cli_command.dfy, cli_command_examples.dfy | command objects, their usage and help strings, and the registry filled by `@command` |
| `ManUtils` | man_utils.dfy | line wrapping and the man page text |
| `TableFormatter` | table_formatter.dfy | the table printer |
| `AsyncJobs` | async_command.dfy | background jobs and the job table |
| `Completer`, `CompleterExamples` | completer.dfy, completer_examples.dfy | tab completion |
| `Shell` | shell.dfy | command line splitting and the `;` / `&&` / `\|\|` evaluation |
| `BuiltinCommands` | builtin_commands.dfy | `help`, `man`, `fg` and `exit` |

cliche keeps its own copies of recline's globals (`cliche.JOBS`, `cliche.commands.COMMAND_REGISTRY`); the model has one job
table and one registry, which stand for both packages' copies.

Pure code (string building, parsing, validation) is modelled as functions with
lemmas about them. The code that changes state is modelled imperatively: the
job table and the jobs are classes whose methods change their fields, the
choices type is a class, the argparse namespace is a class, the registry is a
class filled by a method, and the loops of the table printer, the word wrapper,
the command help, the man page, the line evaluator and the built-in commands are
methods with loops proved against specification functions.

Python's `print` is modelled as the sequence of lines (or pieces) printed.
Output the program reads from the outside (the user's answer to a prompt, what a
command body returns or raises, what happens while the shell waits for a job,
whether a hidden-predicate callable answers true, the usage line argparse
prints) is a parameter.

## Model

| member | source | states |
|---|---|---|
| ReclineTypes.Str | recline/arg_types/choices.py:83 | `str(v)` of the values an argument can hold: a string is itself, booleans are `True`/`False`, integers their decimal text, None is `None` |
| ReclineTypes.Namespace.constructor | recline/arg_types/recline_type.py:15-21 | the namespace argparse hands to the action starts with every destination at its default |
| ReclineTypes.UniqueParam | recline/arg_types/recline_type.py:15-21 | a destination whose current value is neither its default nor None is a duplicate: the error `Duplicate parameter "<option>"` and the namespace is unchanged; otherwise exactly that destination is set to the values |
| ReclineTypes.TwoOptions | tests/test_arg_types/test_cliche_type.py:16-33 | giving one parameter twice fails with the duplicate message, while two different parameters once each both succeed |
| ReclinePositional.Define | recline/arg_types/positional.py:22-30 | the defined type keeps the data type it was given |
| ReclinePositional.CompleterOverride | recline/arg_types/positional.py:27-28 | a supplied completer replaces the base one; without one the base completer's `[None]` answers |
| ReclinePositional.Validate | recline/arg_types/positional.py:32-40 | a missing or empty argument fails with `Value cannot be empty`; otherwise the data type's conversion decides, and its failure is `Cannot parse <arg> as a valid <type>` |
| ReclinePositional.StrKeepsArgument | recline/arg_types/positional.py:22-40 | with the default `str` data type an argument is accepted unchanged exactly when it is not empty |
| ReclinePositional.IntAcceptsDecimal | recline/arg_types/positional.py:32-36 | with `int` as data type the decimal text of every number validates to that number |
| ClichePositional.Format | cliche/arg_types/positional.py:36-38 | the `%`-formatted parse message begins with `Cannot parse ` |
| ClichePositional.Validate | cliche/arg_types/positional.py:30-38 | validation fails exactly for a missing or empty argument or one the data type cannot convert; on success the value is the conversion's |
| ClichePositional.AgreesWithRecline | cliche/arg_types/positional.py:30-38 | the cliche copy accepts the same arguments with the same values as recline's and fails with the same message text |
| ClichePositional.DefineDefaults | cliche/arg_types/positional.py:20-28 | defining with no arguments converts with `str` and keeps the base completer |
| ClichePositional.Vectors | tests/test_arg_types/test_positional.py:17-50 | `my_dir` passes with `str`; the empty string and `my_val` with `int` are rejected with their messages |
| RangedInt.Metavar | recline/arg_types/ranged_int.py:49-58 | the metavar is `<int` + range string + `>`, and it is plain `<int>` exactly when neither bound is given |
| RangedInt.Validate | recline/arg_types/ranged_int.py:60-71 | accepts exactly an argument that parses as an integer within the given bounds, giving that integer; every failure (parse or range) is the same message, which contains the range string |
| RangedInt.MessageHoldsRange | recline/arg_types/ranged_int.py:69-71 | the error message holds the range string |
| RangedInt.ValidateNumber | recline/arg_types/ranged_int.py:60-71 | the decimal text of a number validates to it exactly when it is in range, and fails with the range message otherwise |
| RangedInt.Unbounded | recline/arg_types/ranged_int.py:52-66 | without bounds every number is accepted |
| RangedInt.AcceptedVectors | tests/test_arg_types/test_ranged_int.py:16-18 | 5 in {2-10}, 100 in {0-inf} and -50 in {-inf-100} are accepted |
| RangedInt.RejectedVectors | tests/test_arg_types/test_ranged_int.py:19-20 | 1 against {2-10}, -1 against {0-inf} and 105 against {-inf-100} are rejected |
| RangedInt.RejectsWord | tests/test_arg_types/test_ranged_int.py:21 | a word is rejected with the range message whatever the bounds |
| Choices.Stringify | recline/arg_types/choices.py:83 | the stringified choices are `str` of each value, position by position |
| Choices.StringifyStrings | recline/arg_types/choices.py:77-83 | a list of strings stringifies to itself |
| Choices.Bracketed | recline/arg_types/choices.py:86 | the metavar is `<`, the choices joined by `\|`, and `>` |
| Choices.BracketedRoundTrip | recline/arg_types/choices.py:86 | choices without a `\|` can be split back out of the metavar |
| Choices.ChoicesType.Define | recline/arg_types/choices.py:21-48 | the defined class keeps its source and flags, starts with the base metavar, no cache and no calls |
| Choices.ChoicesType.New | recline/arg_types/choices.py:49-54 | a listed source is shown in the metavar as soon as an instance is made; a callable source leaves it and the cache alone |
| Choices.ChoicesType.Choices | recline/arg_types/choices.py:69-87 | a cache answers first and changes nothing; a lazy look at a callable answers None and changes nothing; otherwise the answer is the stringified source, the callable is called once more, the metavar shows the answer and it is cached when caching is on |
| Choices.ChoicesType.Completer | recline/arg_types/choices.py:89-90 | the completer answers the eager choices, with the same effects on the state |
| Choices.ChoicesType.Validate | recline/arg_types/choices.py:56-67 | an inexact type passes the raw argument through untouched; otherwise the argument must be one of the eager choices (else `"<arg>" must be one of ...`) and convert with the data type (else `Unable to convert ...`); fetching the choices without a cache counts a call of a callable source, rewrites the metavar to the bracketed choices and caches them when caching is on |
| Choices.CallableScenario | tests/test_arg_types/test_choices.py:31-55 | with a callable source the lazy look answers nothing, the eager look and the completer answer the choices, exactly the listed choices validate, and the callable is called once when cached and three times otherwise |
| Choices.ListedScenario | tests/test_arg_types/test_choices.py:16-28 | with a listed source the metavar shows the list, the completer answers it, an exact type accepts exactly its members and an inexact one accepts anything unchanged |
| Docstring.ArgName | recline/vendor/docstring_parser/parser/common.py:51-58 | a param's argument name exists exactly when it has two words or more, and is its third word if there is one, else the second |
| Docstring.ParamTypeName | recline/vendor/docstring_parser/parser/common.py:60-62 | a param's type name exists exactly when it has more than two words and is the second word |
| Docstring.ParamWords | recline/vendor/docstring_parser/parser/common.py:51-62 | a param of two or three words is its tag, its type name when it has one, and its argument name |
| Docstring.TypeName | recline/vendor/docstring_parser/parser/common.py:42-44 | a returns, raises or examples entry has a type name exactly when it has a second word, which it is |
| Docstring.TypeNamesDiffer | recline/vendor/docstring_parser/parser/common.py:42-62 | for a two-word entry the type meta reads the second word as a type name while a param reads it as the argument name |
| Docstring.ExampleName | recline/vendor/docstring_parser/parser/common.py:81-86 | an examples entry of one word raises IndexError, an empty one has no name, otherwise the name is the second word |
| Docstring.Select | recline/vendor/docstring_parser/parser/common.py:100-117 | the filtering comprehension raises IndexError exactly when some entry has no words; otherwise it keeps exactly the entries whose first word is a tag |
| Docstring.SelectConcat | recline/vendor/docstring_parser/parser/common.py:100-117 | filtering two lists one after the other keeps the order of the entries and fails when either part fails |
| Docstring.SelectOne | recline/vendor/docstring_parser/parser/common.py:100-117 | one entry is kept exactly when its first word is a tag |
| Docstring.Params | recline/vendor/docstring_parser/parser/common.py:100-108 | `params` holds exactly the entries tagged param, parameter, arg, argument, key or keyword |
| Docstring.Raises | recline/vendor/docstring_parser/parser/common.py:110-117 | `raises` holds exactly the entries tagged raises, raise, except or exception |
| Docstring.Examples | recline/vendor/docstring_parser/parser/common.py:131-138 | the examples accessor selects exactly the entries tagged example or examples |
| Docstring.FirstTagged | recline/vendor/docstring_parser/parser/common.py:119-129 | `next(...)` answers None exactly when no entry is tagged and none before is empty; a found entry is a tagged member of the list |
| Docstring.FirstTaggedFinds | recline/vendor/docstring_parser/parser/common.py:119-129 | the entry found is the first tagged one |
| Docstring.FirstTaggedFails | recline/vendor/docstring_parser/parser/common.py:119-129 | an entry without words before every tagged one raises IndexError |
| Docstring.Returns | recline/vendor/docstring_parser/parser/common.py:119-129 | `returns` is a member of the list tagged return, returns, yield or yields |
| CliCommand.AnnotationType | recline/commands/cli_command.py:423-428 | a subscripted generic stands for its `__origin__`; a plain class for itself |
| CliCommand.MetavarByAnnotation | recline/commands/cli_command.py:209-232 | the metavar of each kind of annotation: `<name>` for none, a plain class or a Positional, the type's own metavar for a recline type, `<name> [name ...]` for a list, `<true\|false>` for a bool (which is also an int), `<int>` for an int |
| CliCommand.PositionalHidesTypeMetavar | recline/commands/cli_command.py:222-225 | a Positional always shows `<name>`, because its rule comes before the rule for recline types |
| CliCommand.IsHidden | recline/commands/cli_command.py:88-96 | a boolean `hidden` is returned as it is, a callable one is asked |
| CliCommand.Required | recline/commands/cli_command.py:57-60 | the required arguments are exactly the parameters without a default |
| CliCommand.Optional | recline/commands/cli_command.py:61-64 | the optional arguments are exactly the parameters with a default |
| CliCommand.SplitsParams | recline/commands/cli_command.py:57-64 | every parameter is either required or optional |
| CliCommand.NewCommand | recline/commands/cli_command.py:38-71 | the command is named by `name` when it is given and not empty, else by the function; it keeps the function, group, alias flag, hidden, async and background options and splits the parameters into required and optional |
| CliCommand.ShellEntry | recline/commands/cli_command.py:44-71 | the shell sees a command's async and background flags and whether it has an output formatter |
| CliCommand.Signature | recline/commands/cli_command.py:79-86 | `str(command)` is the name, `(`, the required names joined by `, `, then `, *, `, the optional arguments as `name=default` joined by `, `, and `)` |
| CliCommand.RequiredNames | recline/commands/cli_command.py:83 | the required arguments' names, in signature order |
| CliCommand.KeywordTexts | recline/commands/cli_command.py:84 | one `name=default` text per optional argument, in signature order |
| CliCommand.SignatureShowsEveryArg | recline/commands/cli_command.py:79-86 | `str(command)` contains every required argument's name and every optional argument's `name=default` |
| CliCommand.FirstParamNamed | recline/commands/cli_command.py:239-240 | the param found documents the argument and belongs to the docstring; none is found exactly when no param documents it |
| CliCommand.FirstParamNamedIsFirst | recline/commands/cli_command.py:239-243 | the param found is the first one documenting the argument |
| CliCommand.IndentText | recline/commands/cli_command.py:241-243 | without an indent the description is laid out on a single line |
| CliCommand.IndentOneLine | recline/commands/cli_command.py:241-243 | a one-line description is laid out as it is, indent or not |
| CliCommand.ArgDescription | recline/commands/cli_command.py:234-244 | reading the docstring's params fails (IndexError) exactly when that property does; otherwise the first documenting param's description laid out, or "" |
| CliCommand.DescriptionIn | recline/commands/cli_command.py:239-244 | "" when no param documents the argument, else that param's description laid out |
| CliCommand.NameMeta | recline/commands/cli_command.py:252-257 | the help line opens with two spaces and its name part ends with a space: a Flag shows only its (dashed) name, a Positional only its metavar, and any other argument its name, dashed unless it is a Remainder, then its metavar |
| CliCommand.DefaultText | recline/commands/cli_command.py:264-266 | a boolean default is shown as `true`/`false`, any other as `str(default)` |
| CliCommand.ArgHelpShape | recline/commands/cli_command.py:246-268 | an argument's help line is its name part, its description, then the default line when one is shown |
| CliCommand.ArgHelp | recline/commands/cli_command.py:246-268 | `get_arg_help` fails exactly when the docstring's params do, and is otherwise the help line built from them |
| CliCommand.DocumentedHelp | recline/commands/cli_command.py:246-268 | an argument documented on one line by its first documenting param gets name part + description + default line |
| CliCommand.HelpsIn | recline/commands/cli_command.py:282-283 | one help line per argument, in order |
| CliCommand.AppendHelps | recline/commands/cli_command.py:282-289 | the loop appends every argument's help line to the lines so far; it fails with IndexError only when there are arguments and the params cannot be read |
| CliCommand.ArgBlocks | recline/commands/cli_command.py:278-289 | the required block, a blank line only when optional ones follow, then the optional block; a block only when it has arguments |
| CliCommand.GetCommandHelp | recline/commands/cli_command.py:270-291 | the help is the intro and the argument blocks joined by line breaks; it fails only when there are arguments and the params cannot be read, and without arguments it is the short description alone |
| CliCommand.LayoutShowsEveryHelp | recline/commands/cli_command.py:275-291 | every argument help line occurs in the joined help text |
| CliCommand.BlockIndex | recline/commands/cli_command.py:280-289 | every help line has a place in the argument blocks |
| CliCommand.HelpShowsEveryArg | tests/test_commands/test_cli_command.py:95-107 | every required and optional argument's help line occurs in the command help |
| CliCommand.HelpOpensWithShortDescription | tests/test_commands/test_cli_command.py:95-100 | a non-empty short description opens the command help |
| CliCommand.HelpIgnoresLongDescription | tests/test_commands/test_cli_command.py:95-101 | the long description does not enter the command help: replacing it changes nothing |
| CliCommand.CommandUsage | recline/commands/cli_command.py:293-301 | the usage opens with the command's name and a space |
| CliCommand.UsageLine | recline/commands/cli_command.py:296-301 | `usage: prog rest` becomes the command's name, a space and `rest` stripped |
| CliCommand.AliasList | recline/commands/cli_command.py:402-409 | the names written are the primary name (`name` when given, else the function's) followed by the aliases |
| CliCommand.Registered | recline/commands/cli_command.py:411-416 | the command written under a name is named by it, is an alias as told, and carries the decorator's `background` (corrected) |
| CliCommand.RegisteredAsWritten | recline/commands/cli_command.py:413-416 | as written, a registered command never has `is_background` set |
| CliCommand.AsWrittenDropsOnlyBackground | recline/commands/cli_command.py:411-416 | the entry written as the code stands differs from the corrected one only in its background flag, which is false |
| CliCommand.BackgroundDropped | recline/commands/cli_command.py:385-416 | with `background=True`, the command registered as written is not a background command for the shell, while the corrected one and the start command are |
| CliCommand.ExpandDistinct | recline/commands/cli_command.py:411-416 | with distinct names, each name maps to a command named by it that is an alias exactly when it is not first, and other keys keep their commands (the corrected entry `Registered`) |
| CliCommand.ExpandKeys | recline/commands/cli_command.py:411-416 | after the loop the registry's keys are the old keys and every name written |
| CliCommand.ExpandUntouched | recline/commands/cli_command.py:411-416 | a key that is not one of the names keeps its old command |
| CliCommand.ExpandNamed | recline/commands/cli_command.py:411-416 | with distinct names, each name holds the command built for it, an alias exactly when it is not the first (the corrected entry `Registered`) |
| CliCommand.RepeatedPrimaryIsAlias | recline/commands/cli_command.py:406-416 | an alias equal to the primary name overwrites the primary entry with an alias |
| CliCommand.StartCommand | recline/commands/cli_command.py:394 | the start command is the function under its own name, not an alias, with its async and background flags |
| CliCommand.ExitCommand | recline/commands/cli_command.py:399 | the exit command is the function under its own name with every option at its default |
| CliCommand.Registry.constructor | recline/commands/cli_command.py:390-400 | the registry starts empty with no start and no exit command |
| CliCommand.Registry.Register | recline/commands/cli_command.py:390-420 | an `atstart` command fills the start slot, or fails with `A start command is already defined` leaving everything as it was; `atexit` likewise for the exit slot; any other command writes the primary name and every alias in order, each as the corrected entry `Registered` (see Findings), and touches nothing else |
| CliCommand.StartTwice | tests/test_commands/test_cli_command.py:110-128 | a second start command is refused, the first stays, and neither is registered as a command |
| CliCommand.ExitTwice | tests/test_commands/test_cli_command.py:131-149 | a second exit command is refused, the first stays, and neither is registered as a command |
| CliCommand.RegisterWithAliases | recline/commands/cli_command.py:402-420 | with distinct names, the registry's keys are exactly the primary name and the aliases; each names itself and only the primary one is not an alias |
| CliCommandExamples.TypesParts | tests/test_commands/test_cli_command.py:75 | a Choices argument's name part shows the choices metavar and it has no default line |
| CliCommandExamples.TypesHelp | tests/test_commands/test_cli_command.py:75 | `  -types <type1\|type2\|type3> This is the types parameter` |
| CliCommandExamples.NamesParts | tests/test_commands/test_cli_command.py:76 | a list argument shows `<names> [names ...]` |
| CliCommandExamples.NamesHelp | tests/test_commands/test_cli_command.py:76 | `  -names <names> [names ...] This is the names parameter` |
| CliCommandExamples.OptionalParts | tests/test_commands/test_cli_command.py:77 | a string default is shown on a line of its own |
| CliCommandExamples.OptionalHelp | tests/test_commands/test_cli_command.py:77 | `  -optional <optional> This is the optional parameter` and `    Default: foo` |
| CliCommandExamples.Optional2Parts | tests/test_commands/test_cli_command.py:78 | a bool shows `<true\|false>` and a false default in lower case |
| CliCommandExamples.Optional2Help | tests/test_commands/test_cli_command.py:78 | `  -optional2 <true\|false> This is the optional2 parameter` and `    Default: false` |
| CliCommandExamples.Optional3Parts | tests/test_commands/test_cli_command.py:79 | a Flag shows neither a metavar nor its default |
| CliCommandExamples.Optional3Help | tests/test_commands/test_cli_command.py:79 | `  -optional3 This is the optional3 parameter` |
| ManUtils.WrapParagraph | recline/commands/man_utils.py:43-63 | the word loop computes the specification `WrapLine` of a one-paragraph text |
| ManUtils.WrappedString | recline/commands/man_utils.py:14-63 | `wrapped_string` computes the specification `Wrapped`: nothing for an empty text, each paragraph wrapped and indented after the first, or the single paragraph |
| ManUtils.WrapLineLayout | recline/commands/man_utils.py:43-63 | a wrapped paragraph splits into lines that each fit the screen (or hold one word too long to break), and every line after the first starts with the indentation |
| ManUtils.LaidLines | recline/commands/man_utils.py:47-62 | the loop invariant read back: the finished lines and the right-stripped current line are exactly the output lines, and they fit and are indented |
| ManUtils.PlaceLaid | recline/commands/man_utils.py:47-61 | one turn of the loop (fit, move to the next line, or hyphenate) keeps the layout invariant |
| ManUtils.PlaceAllLaid | recline/commands/man_utils.py:47-61 | the whole loop keeps the layout invariant |
| ManUtils.ShortLineUnchanged | recline/commands/man_utils.py:43-44 | a one-paragraph text that fits with its indentation comes back unchanged |
| ManUtils.TwoParagraphs | recline/commands/man_utils.py:35-41 | two paragraphs are wrapped on their own, the second indented, each followed by a line break and the whole right-stripped |
| ManUtils.WrapWords | recline/commands/man_utils.py:45-63 | a paragraph too long for the screen is what the word loop makes of its space-separated words |
| ManUtils.WrapsAtTen | tests/test_commands/test_man_utils.py:19-25 | four words of 5, 6, 6 and 6 characters, 10 wide: the second moves down, the third is hyphenated after two characters, the fourth moves down |
| ManUtils.WrapsIndented | tests/test_commands/test_man_utils.py:47-53 | the same words 12 wide with an indentation of 3: the second word is hyphenated and every continuation line is indented |
| ManUtils.RenderedLinePieces | recline/commands/man_utils.py:85-86 | the line pieces of a text show the text followed by a line break |
| ManUtils.ExamplesPieces | recline/commands/man_utils.py:142-151 | the examples loop fails with IndexError exactly when some example entry has a single word |
| ManUtils.AppendLines | recline/commands/man_utils.py:85-86 | the loop appends one piece per line of the text, each with its line break |
| ManUtils.AppendArg | recline/commands/man_utils.py:113-126 | `print_arg` appends the argument's prefix, its wrapped description and a blank line |
| ManUtils.AppendArgs | recline/commands/man_utils.py:131-137 | the loop appends `print_arg` of every argument in order |
| ManUtils.AppendExample | recline/commands/man_utils.py:143-151 | one example appends its underlined name and its description wrapped two columns deeper |
| ManUtils.AppendExamples | recline/commands/man_utils.py:142-151 | the examples loop appends every example, or fails with IndexError as the specification says |
| ManUtils.AppendName | recline/commands/man_utils.py:76-87 | the NAME section as specified |
| ManUtils.AppendTextSection | recline/commands/man_utils.py:89-109 | the SYNOPSIS and DESCRIPTION sections as specified |
| ManUtils.AppendOptions | recline/commands/man_utils.py:111-137 | the OPTIONS section as specified |
| ManUtils.GenerateHelpText | recline/commands/man_utils.py:66-153 | `generate_help_text` computes the specification `HelpText`, section by section |
| ManUtils.NameStyled | recline/commands/man_utils.py:77-87 | NAME shows `NAME` and the command's name in bold and nothing underlined |
| ManUtils.TextStyled | recline/commands/man_utils.py:90-109 | SYNOPSIS and DESCRIPTION show their title in bold and nothing underlined |
| ManUtils.OptionsStyled | recline/commands/man_utils.py:112-137 | OPTIONS is bold when the docstring documents a parameter, with `Required:` and `Optional:` underlined above the non-empty lists |
| ManUtils.ExampleStyled | recline/commands/man_utils.py:143-151 | an example shows nothing in bold and its name and a colon underlined |
| ManUtils.ExamplesStyled | recline/commands/man_utils.py:142-151 | the examples show nothing in bold and each example's label underlined, in order |
| ManUtils.ExamplesSectionStyled | recline/commands/man_utils.py:140-151 | EXAMPLES is bold when there is an example, followed by each example's label underlined |
| ManUtils.HelpTextFails | recline/commands/man_utils.py:100-145 | the man page fails with IndexError exactly when a docstring entry has no words or an examples entry has no name |
| ManUtils.HelpTextParts | recline/commands/man_utils.py:66-153 | a man page is the head sections, then OPTIONS, then EXAMPLES |
| ManUtils.HelpTextBold | recline/commands/man_utils.py:66-153 | the bold pieces are `NAME`, the command's name, `SYNOPSIS`, then `DESCRIPTION` when the long description is not empty, `OPTIONS` when a parameter is documented and `EXAMPLES` when there is an example |
| ManUtils.HelpTextUnderlined | recline/commands/man_utils.py:127-145 | the underlined pieces are `Required:` and `Optional:` above the non-empty lists when a parameter is documented, then every example's label in order |
| ManUtils.HelpTextExamplesNamed | recline/commands/man_utils.py:140-145 | on a man page every example has a name, and its label is that name and a colon |
| ManUtils.NameRendered | recline/commands/man_utils.py:76-87 | NAME reads as the title, the indentation, the name, ` -- `, the short description wrapped past them, and a blank line |
| ManUtils.TextRendered | recline/commands/man_utils.py:89-109 | SYNOPSIS and DESCRIPTION read as the title, the text wrapped under the indentation, and a blank line |
| ManUtils.ArgRendered | recline/commands/man_utils.py:113-126 | an argument reads as its prefix, its one-line description wrapped past the prefix, and a blank line |
| ManUtils.ExampleRendered | recline/commands/man_utils.py:143-151 | an example reads as its name and a colon, then its description on the next line two columns deeper |
| ManUtils.ArgsShown | recline/commands/man_utils.py:131-137 | every argument of a list is shown with its prefix |
| ManUtils.HelpTextShowsArgs | tests/test_commands/test_man_utils.py:102-109 | when the docstring documents a parameter every required and optional argument appears with its prefix; when it documents none the OPTIONS section is empty |
| ManUtils.NameLayout | recline/commands/man_utils.py:76-87 | the NAME section shows only its heading and the command name in bold, and nothing underlined |
| ManUtils.HeadStyled | recline/commands/man_utils.py:76-109 | the bold parts of the first sections are NAME, the command name, SYNOPSIS and, only when there is a long description, DESCRIPTION |
| ManUtils.SubheaderStyled | recline/commands/man_utils.py:128-135 | a `Required:` or `Optional:` sub-header is printed, underlined, only when its argument list is non-empty |
| ManUtils.OptionsLayout | recline/commands/man_utils.py:127-137 | the OPTIONS section has one bold heading and underlines `Required:` and `Optional:` exactly for the non-empty argument lists, in that order |
| ManUtils.ExampleLayout | recline/commands/man_utils.py:143-151 | an example prints as the indent, its underlined caption, a new line indented by two more spaces, then its wrapped description |
| ManUtils.AtTenLoop | tests/test_commands/test_man_utils.py:19-25 | the word loop on four words at width 10 closes three lines, hyphenating the third word after two characters |
| ManUtils.IndentedLoop | tests/test_commands/test_man_utils.py:47-53 | the word loop at width 12 with a prefix of 3 hyphenates the second word and starts every continuation line with three spaces |
| Completer.StartingWithMembers | recline/repl/completer.py:95 | the filter keeps exactly the names that start with the prefix |
| Completer.SurvivorsMembers | recline/repl/completer.py:111-119 | the tie-break keeps exactly the candidates whose words equal the supplied words at every position both have |
| Completer.SearchFindsLongestDecisive | recline/repl/completer.py:89-125 | the search finds nothing exactly when no prefix length decides, and otherwise returns the decision of the longest deciding prefix: shorter ones are never tried |
| Completer.ExactNameResolves | recline/repl/completer.py:86-87 | with `exact` set, a text that is a registered name resolves to itself |
| Completer.SearchPicksOption | recline/repl/completer.py:93-123 | whatever the search decides is a registered name, equal to or starting with the prefix it came from |
| Completer.ResolvedIsRegistered | recline/repl/completer.py:86-129 | when no registered name ends in whitespace, a resolved name is a registered name |
| Completer.ResolvedIsStripped | recline/repl/completer.py:86-129 | a resolved name is the text itself (the exact short-cut) or equal to its own stripped form |
| Completer.WordsAgree | recline/repl/completer.py:113-119 | the for/else loop over a candidate's words answers whether it survives the tie-break |
| Completer.StillPossible | recline/repl/completer.py:111-119 | the loop collects exactly the surviving candidates, in order |
| Completer.GetCommandName | recline/repl/completer.py:81-129 | `get_command_name` computes the specification `Resolve` |
| Completer.LongestPrefixSearch | recline/repl/completer.py:89-125 | the `while i > 0` loop computes the specification search from the longest prefix down |
| Completer.LastSegmentFacts | recline/repl/completer.py:163 | the right-hand side is a suffix of the text and holds no `&&`, `\|\|` or `;` |
| Completer.ParseAroundBooleansSplitsText | recline/repl/completer.py:147-165 | the left side followed by the un-stripped right side is the input, and the returned right side is that segment left-stripped and free of control operators |
| Completer.LeftOfSegment | recline/repl/completer.py:164 | the reversed-replace removes exactly the last segment from the end of the text |
| Completer.PlainSegment | recline/repl/completer.py:163-165 | a text with no control operator is all right-hand side, with an empty left side |
| Completer.Chunks | recline/repl/completer.py:58 | the rows hold between one and `cols` items, and all but the last exactly `cols` |
| Completer.ChunksFlatten | recline/repl/completer.py:58 | the rows together hold the items in order |
| Completer.MaxLength | recline/repl/completer.py:55 | the longest length bounds every item and is attained by one |
| Completer.ColumnRows | recline/repl/completer.py:62-65 | one printed row per row of items |
| Completer.PadRowLength | recline/repl/completer.py:63 | a row of items left-justified to a width no shorter than any item prints `width` characters per item |
| Completer.PrintColumnsLayout | recline/repl/completer.py:41-67 | rows of min(cols, n) items, fewer only in the last, together hold the items in order |
| Completer.ColumnRowLengths | recline/repl/completer.py:41-67 | `print_columns` joins the rows with line breaks, and every row is its items each padded to the longest item plus `gap` |
| Completer.CommandCompleter.constructor | recline/repl/completer.py:75-78 | the options are the command names sorted (strictly, being dict keys) and the matches start as a copy of them |
| Completer.CommandCompleter.Complete | recline/repl/completer.py:167-190 | at state 0 the match list is rebuilt for the segment being typed; the options never change; the answer is the `state`-th match, or None past the end |
| Completer.MatchesWithoutCommand | recline/repl/completer.py:175-184 | with no resolvable command, state 0 offers exactly the names starting with the stripped text, or every name for an empty text, in sorted order |
| Completer.FilterSorted | recline/repl/completer.py:182 | filtering a sorted list keeps it sorted |
| CompleterExamples.HelpResolvesToNothing | tests/test_repl/test_completer.py:45 | `help` resolves to nothing among the cake names, even with `exact` set |
| CompleterExamples.CakeMakeExact | tests/test_repl/test_completer.py:44 | `cake make` typed verbatim resolves to itself with `exact` set |
| CompleterExamples.ShowWithArgumentsResolves | tests/test_repl/test_completer.py:42 | `cake show -cake 1` resolves to `cake show`: the two-word prefix decides |
| CompleterExamples.CakeMakeIsAmbiguous | tests/test_repl/test_completer.py:43 | without `exact`, `cake make` resolves to nothing: two names survive at every prefix length |
| CompleterExamples.CakResolvesToNothing | tests/test_repl/test_completer.py:57 | `cak` resolves to no command |
| CompleterExamples.CakOffersAllNames | tests/test_repl/test_completer.py:57-60 | typing `cak` offers the four cake names in sorted order |
| CompleterExamples.EmptyOffersAllNames | tests/test_repl/test_completer.py:56 | an empty line offers every name |
| Shell.Separator | recline/repl/shell.py:116-129 | every operator is a non-empty separator |
| Shell.ModeOf | recline/repl/shell.py:116-136 | a line is split on `;` when it holds one, else on `&&` when it holds one, else on `\|\|`, and is a simple command exactly when it holds none of them |
| Shell.ParseAll | recline/repl/shell.py:117-130 | one tree per segment |
| Shell.ParseAllPieces | recline/repl/shell.py:117-130 | each segment is read on its own, as the recursive call does |
| Shell.ParseNested | recline/repl/shell.py:111-136 | every parsed line has the nested shape: operator nodes of at least two segments of lower rank, and stripped simple commands without operators |
| Shell.PartNested | recline/repl/shell.py:117-130 | every segment of a split line parses to a nested tree of lower rank |
| Shell.EvalLine | recline/repl/shell.py:111-136 | evaluating a line records at least one status |
| Shell.EvalParts | recline/repl/shell.py:117-133 | the loop over the segments runs at least one more segment and never more than remain |
| Shell.ShortCircuitGoesOn | recline/repl/shell.py:117-133 | the loop went on past every segment it ran but the last |
| Shell.ShortCircuitStops | recline/repl/shell.py:117-133 | the loop ends before the last segment only on a segment whose status stops it |
| Shell.SplitLine | recline/repl/shell.py:116-133 | a line holding an operator is split into at least two segments, and its evaluation is the loop over them |
| Shell.SequenceRunsEverySegment | recline/repl/shell.py:116-119 | with `;` every segment runs, whatever the earlier codes, unless one escapes with the exit command |
| Shell.AndStopsAfterFailure | recline/repl/shell.py:121-126 | with `&&` the segments run while each gives a code of 0 or less, and the loop ends early only after a code above 0 |
| Shell.OrStopsAfterSuccess | recline/repl/shell.py:128-133 | with `\|\|` the segments run while each gives a non-zero code, and the loop ends early only after a code of 0 |
| Shell.PlainSegmentRunsOnce | recline/repl/shell.py:135-136 | a segment with no operator is one call of `run_one_command` on its stripped text |
| Shell.Execute | recline/repl/shell.py:111-136 | `execute` returns the status of the last segment run and calls `run_one_command` on exactly the commands the specification `EvalLine` lists, in order |
| Shell.ExecuteSplit | recline/repl/shell.py:117-133 | splitting and looping gives the specification's outcome and calls |
| Shell.ExecuteParts | recline/repl/shell.py:117-133 | the `for`/`break` loop gives the specification's outcome and calls |
| Shell.CommandArgs | recline/repl/shell.py:151-153 | the arguments are the tokens of the line with the first occurrence of the command name removed; a final `?` becomes `-help` unless the command is `?`; no token is empty |
| Shell.NoneToZero | recline/repl/shell.py:230-231 | a None result becomes 0, any other value stays |
| Shell.RunCommand | recline/repl/shell.py:212-232 | a parse failure escapes as SystemExit; a plain command gives its body's outcome; an async command takes the next job id, escapes as Backgrounded with that id when asked to, and is otherwise waited on; the table keeps every earlier job, gains the new id exactly when the job was backgrounded (asked to, or by ctrl+z), and stays valid; the job left there has recorded no result or exception, is not killed, and still counts as waited on exactly when it was backgrounded at once (`FreshJobLeft`) |
| Shell.ExitStatus | recline/repl/shell.py:154-180 | an output formatter makes a finished command 0, a backgrounded job gives 0, a cancelled job and every Exception give 1, SystemExit(222) escapes the line and any other SystemExit gives its code; otherwise the command's own value |
| Shell.RunOneCommand | recline/repl/shell.py:139-180 | an unknown command gives 1 and runs nothing; otherwise the command runs on its arguments and its outcome is mapped to an exit code as `ExitStatus` says; the job table is untouched unless an async command parsed, in which case the counter moves on by one, the new id stays exactly when the job was backgrounded, earlier jobs are kept, and the job left behind is as `FreshJobLeft` says |
| AsyncJobs.Decide | recline/commands/async_command.py:109-116 | after the wait: a killed job is cancelled, one no longer waited for is backgrounded, and otherwise a job missing from the table is a KeyError, a recorded exception is re-raised and a clean job hands back its stored result; each outcome holds exactly when its condition does |
| AsyncJobs.JobTable.constructor | recline/__init__.py:11-12 | the job table starts empty with the next job id at 1 |
| AsyncJobs.AsyncCommand.constructor | recline/commands/async_command.py:47-64 | a new job takes the next job id (one not yet in the table), registers itself under it, advances the counter by one, and starts waiting, not killed, with no result and no exception |
| AsyncJobs.AsyncCommand.Run | recline/commands/async_command.py:66-79 | a returned value is stored as the result; an `Exception` is stored as the exception; a non-`Exception` (such as `SystemExit`) stores neither; the wait and kill flags are untouched |
| AsyncJobs.AsyncCommand.Stop | recline/commands/async_command.py:81-89 | the job is marked killed; with `dont_delete` the table is untouched, otherwise the job's id is removed and a KeyError is reported exactly when it was already gone |
| AsyncJobs.AsyncCommand.Background | recline/commands/async_command.py:91-96 | the job is no longer waited for, and nothing else about it changes |
| AsyncJobs.AsyncCommand.Foreground | recline/commands/async_command.py:98-116 | the job is waited for again; a suspend leaves it backgrounded, an interrupt stops it, a body that ends records its outcome as `run` does; the answer is the one `Decide` gives on the new state, and the job leaves the table exactly when it is cancelled, re-raises or returns its result |
| TableFormatter.Keys | recline/formatters/table_formatter.py:39 | the column names are the first record's keys, in order |
| TableFormatter.Values | recline/formatters/table_formatter.py:42 | a row is its record's values, in key order |
| TableFormatter.Rows | recline/formatters/table_formatter.py:40-42 | one row per record, each the record's values |
| TableFormatter.Longest | recline/formatters/table_formatter.py:54-57 | a column's width is at least its heading's length and at least the length of every cell in the column |
| TableFormatter.LongestAttained | recline/formatters/table_formatter.py:54-57 | the width is attained: it is the heading's length or the length of some cell in the column |
| TableFormatter.Widths | recline/formatters/table_formatter.py:50-61 | one width per heading |
| TableFormatter.HeaderTexts | recline/formatters/table_formatter.py:94-95 | each heading is shown title-cased with underscores turned into spaces |
| TableFormatter.DataLines | recline/formatters/table_formatter.py:75-76 | one printed line per data row, each that row's cells in the column widths |
| TableFormatter.PrintBorder | recline/formatters/table_formatter.py:81-87 | the border is `+` and `width + 2` dashes per column, closed by `+` |
| TableFormatter.PrintDataLine | recline/formatters/table_formatter.py:90-98 | a data line is, per column, a bar, a space and the cell padded to the column width plus one space, closed by a bar; headings are title-cased first |
| TableFormatter.MeasureColumn | recline/formatters/table_formatter.py:52-58 | the inner loop fails with an IndexError exactly when some row is too short for the column, and otherwise finds the column's width |
| TableFormatter.PrintTable | recline/formatters/table_formatter.py:45-78 | the table fails with an IndexError exactly when a row is shorter than the headers; otherwise it prints border, headings, border, one line per row and a closing border, in the widths measured |
| TableFormatter.PrintLines | recline/formatters/table_formatter.py:63-78 | the print order: border, heading line, border, the data lines in order, border |
| TableFormatter.FormatOutput | recline/formatters/table_formatter.py:30-43 | no records print `No records`; otherwise the table of the first record's keys over every record's values, failing exactly when a record has fewer values than the first has keys |
| TableFormatter.BorderAt | recline/formatters/table_formatter.py:81-87 | every column occupies its own stretch of the border, starting at the sum of the earlier widths, holding `+` and `width + 2` dashes |
| TableFormatter.CellsLineLength | recline/formatters/table_formatter.py:90-98 | when every cell fits its width, a data line is as long as the border |
| TableFormatter.CellAt | recline/formatters/table_formatter.py:93-97 | when every cell fits, each cell sits in its column's stretch of the line, padded to the width |
| TableFormatter.RowFits | recline/formatters/table_formatter.py:54-59 | every cell of every row fits the measured width of its column |
| TableFormatter.HeadersFit | recline/formatters/table_formatter.py:94-95 | every title-cased heading fits its column's width |
| TableFormatter.LineLength | recline/formatters/table_formatter.py:84-98 | a line of fitting cells has the border's length |
| TableFormatter.TableLines | recline/formatters/table_formatter.py:71-78 | the table has four lines more than there are rows: border, headings, border, rows, border |
| TableFormatter.LinesLength | recline/formatters/table_formatter.py:71-78 | the heading line and every data line have the border's length |
| TableFormatter.TableShape | recline/formatters/table_formatter.py:45-78 | the table is rectangular: every line has the border's length, and the first, third and last lines are the border |
| TableFormatter.LineColumn | recline/formatters/table_formatter.py:90-98 | each cell of a fitting line lies in its column's stretch, and the line has the border's length |
| TableFormatter.BorderColumn | recline/formatters/table_formatter.py:81-87 | each column's stretch of the border is `+` and `width + 2` dashes |
| TableFormatter.DataColumn | recline/formatters/table_formatter.py:45-78 | in the printed table, cell `k` of row `i` sits directly below column `k`'s stretch of the border |
| TableFormatter.ReplaceCharLength | recline/formatters/table_formatter.py:95 | replacing `_` by a space keeps a heading's length |
| BuiltinCommands.MemberOf | cliche/commands/builtin_commands.py:33-40 | a command lands in a group's list exactly when it is registered, is neither an alias nor hidden, and has that group (no group counting as `""`) |
| BuiltinCommands.InOrder | cliche/commands/builtin_commands.py:37-39 | a group is a key of the collected groups exactly when some listed command belongs to it |
| BuiltinCommands.Without | cliche/commands/builtin_commands.py:43 | popping the built-in group leaves every other group and only those |
| BuiltinCommands.SortKeys | cliche/commands/builtin_commands.py:45 | the group names are visited in strictly increasing order, each exactly once |
| BuiltinCommands.InsertSorts | cliche/commands/builtin_commands.py:48 | inserting a command into a name-sorted list keeps it sorted by name and adds exactly that command |
| BuiltinCommands.SortSorts | cliche/commands/builtin_commands.py:48 | sorting by name yields a list ordered by name that is a permutation of the input |
| BuiltinCommands.EntryLinesAt | cliche/commands/builtin_commands.py:48-49 | one `name - short description` line per command, in order |
| BuiltinCommands.PrintGroup | cliche/commands/builtin_commands.py:46-49 | a group prints its underlined name (unless it is the empty group) and then its commands' lines sorted by name |
| BuiltinCommands.CollectGroups | cliche/commands/builtin_commands.py:30-40 | the collecting loop keeps one list per group in first-seen order, each holding the group's listed commands in registry order |
| BuiltinCommands.PrintGroups | cliche/commands/builtin_commands.py:45-49 | the groups loop prints each group's block in the order of the sorted keys |
| BuiltinCommands.PrintBuiltins | cliche/commands/builtin_commands.py:51-56 | the built-in group prints its underlined title and then the lines of its commands that are neither aliases nor hidden |
| BuiltinCommands.CommandHelp | cliche/commands/builtin_commands.py:26-56 | `help` prints exactly the title, a blank line, the other groups' blocks in sorted order, a blank line and the built-in block |
| BuiltinCommands.KeysListGroups | cliche/commands/builtin_commands.py:37-45 | the groups printed before the built-ins are sorted, and are exactly the groups other than the built-in one that hold a listed command |
| BuiltinCommands.BuiltinsAllShown | cliche/commands/builtin_commands.py:53-56 | the second alias and hidden filter drops nothing, since the built-in list was filtered when it was collected |
| BuiltinCommands.HelpEndsWithBuiltins | cliche/commands/builtin_commands.py:42-56 | the built-in commands come last, under their own heading, after every other group |
| BuiltinCommands.BlockLines | cliche/commands/builtin_commands.py:46-49 | a group's block holds only its heading and lines of listed commands |
| BuiltinCommands.ShownInBlock | cliche/commands/builtin_commands.py:45-49 | every listed command of a group appears in that group's block |
| BuiltinCommands.BlocksOnlyListed | cliche/commands/builtin_commands.py:45-49 | the group blocks hold only group headings and lines of listed commands |
| BuiltinCommands.BlocksShowListed | cliche/commands/builtin_commands.py:45-49 | the group blocks show every listed command of every printed group |
| BuiltinCommands.HelpShowsEveryListed | cliche/commands/builtin_commands.py:26-56 | every command that is neither an alias nor hidden is shown by `help` |
| BuiltinCommands.HelpShowsOnlyListed | cliche/commands/builtin_commands.py:26-56 | every line `help` prints is the title, a blank line, a group heading or the line of a listed command: aliases and hidden commands never appear |
| BuiltinCommands.ManCommands | cliche/commands/builtin_commands.py:59-66 | the `man` completer offers exactly the registered names that are not aliases |
| BuiltinCommands.ManCommandsRegister | cliche/commands/builtin_commands.py:59-66 | after registering a command under a name and aliases, `man` offers its primary name but none of its aliases, and keeps the other names it offered |
| BuiltinCommands.ManLookup | cliche/commands/builtin_commands.py:78-82 | `man` joins its words with spaces and finds that command, or answers `No manual entry for` the joined words |
| BuiltinCommands.ManFindsOffered | cliche/commands/builtin_commands.py:59-82 | every name the completer offers has a manual entry, and that entry is not an alias |
| BuiltinCommands.ManFindsWords | cliche/commands/builtin_commands.py:78-79 | a registered name typed as its space-separated words is found |
| BuiltinCommands.ManPage | cliche/commands/builtin_commands.py:69-151 | `man` shows the help text of the command it finds, and the missing-entry message otherwise |
| BuiltinCommands.Largest | cliche/commands/builtin_commands.py:218 | the last of the sorted job ids is the largest id in the table |
| BuiltinCommands.PickJob | cliche/commands/builtin_commands.py:216-222 | with no job given (or job 0) `fg` picks the newest job, or fails with `No running jobs found` on an empty table; a given job must be in the table or `fg` fails naming it |
| BuiltinCommands.PicksNewest | cliche/commands/builtin_commands.py:216-218 | the job started last is the one `fg` picks by default |
| BuiltinCommands.StartThenPick | cliche/commands/builtin_commands.py:203-218 | starting a job and then running `fg` with no argument foregrounds that job |
| BuiltinCommands.Fg | cliche/commands/builtin_commands.py:203-227 | `fg` fails with the pick's error and leaves the table alone; otherwise the picked job is waited for again, its kill flag, result and exception change as `foreground` says, and `fg` answers `Decide` on the job's new state (never a KeyError), dropping the job from the table exactly when it is interrupted or its foreground removes it |
| BuiltinCommands.BackgroundThenFg | cliche/commands/builtin_commands.py:203-227 | a command started with `-background` is left in the table as job 1, `fg` with no argument picks it, and once its body returns `fg` answers that value and the job leaves the table |
| BuiltinCommands.Exit | cliche/commands/builtin_commands.py:154-178 | with jobs running and no `-abort-jobs` the user is asked, and an answer not starting with `y` returns with nothing changed; otherwise every job is stopped without being deleted (killed, with its result, exception and wait flag unchanged), the table is emptied and the exit code is 222 |
| BuiltinCommands.ExitScenario | cliche/commands/builtin_commands.py:158-178 | with a running job, answering `no` keeps the job and stays; answering `Yes` kills the job, empties the table and exits with 222 |

## Left out

- The REPL loop and its set-up (`relax`, `_setup_repl`, `track_command_history`, `setup_tab_complete` in recline/repl/shell.py): readline, `input`, signal handlers, `atexit` and `sys.exit` are I/O outside the model.
- The readline and argcomplete glue of the completer: `match_command_hook`, `_get_command_matches`, `_already_added_match` and the tail of `completer` that reads the readline buffer (recline/repl/completer.py:192-196). The argument matches argcomplete would add are a parameter.
- Completer.CommandCompleter.Complete: answers `matches[state]` (or nothing past the end) and does not assemble the readline response from the line buffer.
- The thread, the asyncio loop, the signal swapping of `_manipulate_signals`, `set_terminal_echo` and the sleep-polling wait of `foreground`: concurrency and terminal I/O. What happens during the wait is the `WaitEvent` parameter (the body was already done, the body ends with an outcome, the user suspends, the user interrupts).
- argparse and inspect plumbing in recline/commands/cli_command.py: `_create_parser`, `_get_arg_spec`, `print_help`, `get_arg_action` and the usage line argparse formats. Annotations are an abstract kind; the usage line is a parameter of `CommandUsage` and `ManPage`, and argument parsing in `run_one_command` is an oracle.
- Shell.CommandArgs: `shlex.split` is modelled as splitting on whitespace, without quotes or escapes.
- The curses pager inside `man` (cliche/commands/builtin_commands.py:84-151); `ManPage` stops at the help text the pager would show.
- The `debug` command (pdb/pudb).
- The output formatter calls at the end of `fg` and `run_one_command`: the result is handed back rather than printed through the command's formatter.
- The answer `input()` reads in `exit_command` is a parameter.
- Python dict order: the registry is a `map`, so the order in which `help` meets commands is given as a sequence of entries.
- `str.lower` is applied only to the first character of the answer to the quit prompt (`Agrees`), and only for ASCII letters; `str.title` is modelled for ASCII text.
- `int()` accepts the decimal grammar only (sign, digits, underscores, surrounding whitespace), not other bases or non-ASCII digits; `float` and `json` conversions are left out.
- cliche/arg_types/cliche_type_error.py (it reads stack frames), cliche/arg_types/flag.py, recline/arg_types/remainder.py and recline/formatters/output_formatter.py become cases of the annotation kind and the error kinds.
- The `ReclineType` defaults (`choices`, `completer`, `nargs`, `validate`, `metavar`, `action`) are constants of `ReclineTypes`, and `DocstringParam.from_meta` and its siblings are the identity on `Meta`.
- TableFormatter.PrintTable: the column headings keyed `1..n` in the source's `col_data` are not kept; only the widths they carry are.
- BuiltinCommands.SortKeys: drops repeated group names, which cannot occur because they come from a dictionary's keys.
- The `('\n')` in man_utils.py that is not a one-element tuple is modelled as the plain piece it evaluates to.
- CliCommand.StartTaken / CliCommand.ExitTaken: the messages stop before the `: {func}` tail of cli_command.py:392 and 397, because the function's repr carries a memory address that the model has no counterpart for.
- CliCommand.AliasList: builds a fresh sequence; `aliases.insert(0, command_name)` at cli_command.py:408 also puts the primary name at the front of the caller's own list, and that change to the caller's list is not modelled.
- CliCommand.Registry.Register: the registry is filled with the corrected entry `Registered`, which keeps the `background` flag; the code as written (cli_command.py:413-416) drops it, as the Findings row records. `RegisteredAsWritten` is the written entry, and `AsWrittenDropsOnlyBackground` says the two differ in that flag alone, so the as-written registry is the one stated here with every `isBackground` false.
- Shell.ExitStatus: a finished command's value is an integer (None read as 0). `run_one_command` hands back whatever the body returns, and a non-integer result (a string, a list) that reaches the `&&` test `result > 0` raises a TypeError, which the model cannot express. A command with an output formatter always gives 0 here; in the code `format_output` runs inside the `try`, and a formatter that raises (the table formatter on a short record, say) ends in `except Exception` and gives 1.
- Shell.RunOneCommand: inherits both gaps of `ExitStatus`: results are integers only, and a raising output formatter is not modelled, so the formatter path always gives 0 instead of 1 on failure.

## Findings

| source | as written | input that shows it | evidently intended | confidence | as-written member | corrected member |
|---|---|---|---|---|---|---|
| recline/commands/cli_command.py:411-416 | `_register` builds each registry entry without passing `is_background`, so the entries are never background commands | `@command(background=True)` on an `async` function: the registry entry has `is_background` false, and the shell waits for the job instead of leaving it in the background | the `background` flag reaches the registered command, as it does for the start command on line 394 | not executed | CliCommand.RegisteredAsWritten | CliCommand.Registered |
