/**
 * A registered command (`CLICommand`) and the registry the `command`
 * decorator writes: the start and exit slots, the primary name and its
 * aliases, and the help text built from an annotated signature and the
 * function's docstring. An annotation is reduced to the classes it is a
 * subclass of, which is all the help text asks of it.
 */
module CliCommand {
  import opened Wrappers
  import opened PyText
  import opened ReclineTypes
  import opened Docstring
  import Shell

  // ---------------------------------------------------------------------
  // Annotations and parameters

  /** The classes whose subclasses the help text tells apart. */
  datatype Kind = ReclineTypeKind | PositionalKind | RemainderKind | FlagKind | ListKind | BoolKind | IntKind

  /** A class: the kinds it is a subclass of, and its `metavar` attribute (a recline type's). */
  datatype TypeInfo = TypeInfo(kinds: set<Kind>, metavar: string)

  /** An annotation: a class, or a subscripted generic such as `List[str]`, whose `__origin__` is a class. */
  datatype Annotation = Class(t: TypeInfo) | Generic(origin: TypeInfo, args: seq<TypeInfo>)

  /** `get_annotation_type`: the `__origin__` of a generic, the annotation itself otherwise. */
  function AnnotationType(a: Annotation): (t: TypeInfo)
    ensures a.Class? ==> t == a.t
    ensures a.Generic? ==> t == a.origin
  {
    match a
    case Class(t) => t
    case Generic(o, _) => o
  }

  /** A formal parameter: its name, annotation, and default (None for `Parameter.empty`). */
  datatype Param = Param(name: string, annotation: Annotation, default: Option<Value>)

  predicate IsA(p: Param, k: Kind) {
    k in AnnotationType(p.annotation).kinds
  }

  /** Some classes the examples annotate with. An unannotated parameter carries `Parameter.empty`, a plain class. */
  const Unannotated: Annotation := Class(TypeInfo({}, ""))
  const StrClass: Annotation := Class(TypeInfo({}, ""))
  const IntClass: Annotation := Class(TypeInfo({IntKind}, ""))
  const BoolClass: Annotation := Class(TypeInfo({BoolKind, IntKind}, ""))
  const ListOfStr: Annotation := Generic(TypeInfo({ListKind}, ""), [TypeInfo({}, "")])
  const FlagClass: Annotation := Class(TypeInfo({FlagKind, ReclineTypeKind}, "<value>"))
  /** A type from `Positional.define` or `Choices.define`, with the metavar its class holds. */
  function PositionalClass(metavar: string): Annotation { Class(TypeInfo({PositionalKind, ReclineTypeKind}, metavar)) }
  function ReclineClass(metavar: string): Annotation { Class(TypeInfo({ReclineTypeKind}, metavar)) }

  /** `CLICommand.get_arg_metavar`: the first matching rule, in the order the method checks them. */
  function Metavar(p: Param): string {
    var t := AnnotationType(p.annotation);
    var basic := "<" + p.name + ">";
    if PositionalKind in t.kinds then basic
    else if ReclineTypeKind in t.kinds then t.metavar
    else if ListKind in t.kinds then basic + " [" + p.name + " ...]"
    else if BoolKind in t.kinds then "<true|false>"
    else if IntKind in t.kinds then "<int>"
    else basic
  }

  /**
   * The metavar of each kind of annotation. A bool is a subclass of int,
   * and it is shown as a bool because that rule comes first.
   */
  lemma MetavarByAnnotation(name: string, metavar: string)
    ensures Metavar(Param(name, Unannotated, None)) == "<" + name + ">"
    ensures Metavar(Param(name, StrClass, None)) == "<" + name + ">"
    ensures Metavar(Param(name, PositionalClass(metavar), None)) == "<" + name + ">"
    ensures Metavar(Param(name, ReclineClass(metavar), None)) == metavar
    ensures Metavar(Param(name, ListOfStr, None)) == "<" + name + "> [" + name + " ...]"
    ensures Metavar(Param(name, BoolClass, None)) == "<true|false>"
    ensures Metavar(Param(name, IntClass, None)) == "<int>"
  {
  }

  /** A Positional's own metavar never shows: the rule for Positional precedes the one for recline types. */
  lemma PositionalHidesTypeMetavar(p: Param)
    requires IsA(p, PositionalKind)
    ensures Metavar(p) == "<" + p.name + ">"
  {
  }

  // ---------------------------------------------------------------------
  // Hidden commands

  /** `hidden=`: a constant, or a predicate named here and answered by an oracle. */
  datatype Hidden = Static(b: bool) | Dynamic(test: string)

  /** `CLICommand.hidden`: a boolean as it is; otherwise the predicate's current answer. */
  function IsHidden(h: Hidden, ask: string -> bool): (r: bool)
    ensures h.Static? ==> r == h.b
    ensures h.Dynamic? ==> r == ask(h.test)
  {
    match h
    case Static(b) => b
    case Dynamic(f) => ask(f)
  }

  // ---------------------------------------------------------------------
  // Commands

  /** The decorated function: its `__name__`, signature, docstring, and whether it returns an output formatter. */
  datatype Func = Func(name: string, params: seq<Param>, doc: Doc, formatter: bool)

  datatype Command = Command(
    func: Func, name: string, group: Option<string>, isAlias: bool, hidden: Hidden,
    isAsync: bool, isBackground: bool, required: seq<Param>, optional: seq<Param>)

  /** The parameters with no default, in signature order. */
  function Required(ps: seq<Param>): (r: seq<Param>)
    ensures forall p :: p in r <==> p in ps && p.default.None?
    ensures |r| <= |ps|
  {
    if ps == [] then []
    else (if ps[0].default.None? then [ps[0]] else []) + Required(ps[1..])
  }

  /** The parameters with a default, in signature order. */
  function Optional(ps: seq<Param>): (r: seq<Param>)
    ensures forall p :: p in r <==> p in ps && p.default.Some?
    ensures |r| <= |ps|
  {
    if ps == [] then []
    else (if ps[0].default.Some? then [ps[0]] else []) + Optional(ps[1..])
  }

  /** Every parameter is either required or optional. */
  lemma {:induction false} SplitsParams(ps: seq<Param>)
    ensures |Required(ps)| + |Optional(ps)| == |ps|
  {
    if ps != [] {
      SplitsParams(ps[1..]);
    }
  }

  /** `CLICommand(func, name, group, is_alias, hidden, is_async, is_background)`. */
  function NewCommand(f: Func, name: Option<string>, group: Option<string>, isAlias: bool, hidden: Hidden,
                      isAsync: bool, isBackground: bool): (c: Command)
    ensures c.name == if name.Some? && name.value != "" then name.value else f.name
    ensures c.required == Required(f.params) && c.optional == Optional(f.params)
    ensures c.func == f && c.group == group && c.isAlias == isAlias && c.hidden == hidden
    ensures c.isAsync == isAsync && c.isBackground == isBackground
  {
    Command(f, if name.Some? && name.value != "" then name.value else f.name, group, isAlias, hidden,
            isAsync, isBackground, Required(f.params), Optional(f.params))
  }

  /** What the shell consults about a registered command. */
  function ShellEntry(c: Command): (e: Shell.Entry)
    ensures e.isAsync == c.isAsync && e.isBackground == c.isBackground && e.hasFormatter == c.func.formatter
  {
    Shell.Entry(c.isAsync, c.isBackground, c.func.formatter)
  }

  /** `name=default` for an optional parameter (every optional one has a default). */
  function KeywordText(p: Param): string {
    p.name + "=" + (if p.default.Some? then Str(p.default.value) else "")
  }

  /** The required arguments' names, in signature order. */
  function RequiredNames(c: Command): (r: seq<string>)
    ensures |r| == |c.required| && forall i :: 0 <= i < |r| ==> r[i] == c.required[i].name
  {
    seq(|c.required|, i requires 0 <= i < |c.required| => c.required[i].name)
  }

  /** The optional arguments as `name=default`, in signature order. */
  function KeywordTexts(c: Command): (r: seq<string>)
    ensures |r| == |c.optional| && forall i :: 0 <= i < |r| ==> r[i] == KeywordText(c.optional[i])
  {
    seq(|c.optional|, i requires 0 <= i < |c.optional| => KeywordText(c.optional[i]))
  }

  /** `CLICommand.__str__`: `name(required, *, key=default)`. */
  function Signature(c: Command): (r: string)
    ensures StartsWith(r, c.name + "(") && r[|r| - 1] == ')'
    ensures r == c.name + "(" + Join(", ", RequiredNames(c)) + ", *, " + Join(", ", KeywordTexts(c)) + ")"
  {
    var req := Join(", ", RequiredNames(c));
    var opt := Join(", ", KeywordTexts(c));
    var r := c.name + "(" + req + ", *, " + opt + ")";
    StartsWithConcat(c.name + "(", req + ", *, " + opt + ")");
    assert r == (c.name + "(") + (req + ", *, " + opt + ")");
    r
  }

  /** The signature names every required argument and shows every optional one with its default. */
  lemma SignatureShowsEveryArg(c: Command)
    ensures forall i :: 0 <= i < |c.required| ==> Contains(Signature(c), c.required[i].name)
    ensures forall i :: 0 <= i < |c.optional| ==> Contains(Signature(c), KeywordText(c.optional[i]))
  {
    var head := c.name + "(";
    var req := Join(", ", RequiredNames(c));
    var opt := Join(", ", KeywordTexts(c));
    assert Signature(c) == head + req + (", *, " + opt + ")");
    assert Signature(c) == (head + req + ", *, ") + opt + ")";
    forall i | 0 <= i < |c.required|
      ensures Contains(Signature(c), c.required[i].name)
    {
      JoinContains(", ", RequiredNames(c), i);
      InfixContains(head, req, ", *, " + opt + ")", c.required[i].name);
    }
    forall i | 0 <= i < |c.optional|
      ensures Contains(Signature(c), KeywordText(c.optional[i]))
    {
      JoinContains(", ", KeywordTexts(c), i);
      InfixContains(head + req + ", *, ", opt, ")", KeywordText(c.optional[i]));
    }
  }

  // ---------------------------------------------------------------------
  // Help text for one argument

  /** The first docstring param documenting `name`. */
  function FirstParamNamed(params: seq<Meta>, name: string): (r: Option<Meta>)
    ensures r.Some? ==> r.value in params && ArgName(r.value) == Some(name)
    ensures r.None? <==> forall k :: 0 <= k < |params| ==> ArgName(params[k]) != Some(name)
  {
    if params == [] then None
    else if ArgName(params[0]) == Some(name) then Some(params[0])
    else
      assert forall k :: 0 < k < |params| ==> params[k] == params[1..][k - 1];
      FirstParamNamed(params[1..], name)
  }

  /** It is the first: an earlier param documenting the name would have been found. */
  lemma {:induction false} FirstParamNamedIsFirst(params: seq<Meta>, name: string, k: nat)
    requires k < |params| && ArgName(params[k]) == Some(name)
    requires forall j :: 0 <= j < k ==> ArgName(params[j]) != Some(name)
    ensures FirstParamNamed(params, name) == Some(params[k])
  {
    if k > 0 {
      assert params[1..][k - 1] == params[k];
      FirstParamNamedIsFirst(params[1..], name, k - 1);
    }
  }

  /** A description laid out for the help text: on one line, or with every line break indented. */
  function IndentText(description: string, indent: Option<nat>): (r: string)
    ensures indent.None? ==> forall i :: 0 <= i < |r| ==> r[i] != '\n'
  {
    if indent.None? then
      ReplaceCharRemoves(description, '\n', " ");
      ReplaceChar(description, '\n', " ")
    else ReplaceChar(description, '\n', "\n" + Spaces(indent.value))
  }

  /** A description on one line is laid out as it is, with or without an indent. */
  lemma IndentOneLine(description: string, indent: Option<nat>)
    requires forall i :: 0 <= i < |description| ==> description[i] != '\n'
    ensures IndentText(description, indent) == description
  {
    ReplaceCharAbsent(description, '\n', if indent.None? then " " else "\n" + Spaces(indent.value));
  }

  /**
   * `CLICommand.get_arg_description`: the description of the first docstring
   * param documenting the argument, laid out; "" when none does.
   */
  function ArgDescription(doc: Doc, name: string, indent: Option<nat>): (r: Result<string, string>)
    ensures r.Failure? <==> Params(doc).Failure?
    ensures r.Failure? ==> r.error == IndexError
    ensures r.Success? ==> r.value == DescriptionIn(Params(doc).value, name, indent)
  {
    match Params(doc)
    case Failure(e) => Failure(e)
    case Success(ps) => Success(DescriptionIn(ps, name, indent))
  }

  /** The description among the docstring's params: the first one documenting the name, or "". */
  function DescriptionIn(params: seq<Meta>, name: string, indent: Option<nat>): (r: string)
    ensures FirstParamNamed(params, name).None? ==> r == ""
    ensures FirstParamNamed(params, name).Some? ==> r == IndentText(FirstParamNamed(params, name).value.description, indent)
  {
    match FirstParamNamed(params, name)
    case None => ""
    case Some(m) => IndentText(m.description, indent)
  }

  /** The dash of an option; a Positional or Remainder argument has none. */
  function Dash(p: Param): string {
    if IsA(p, PositionalKind) || IsA(p, RemainderKind) then "" else "-"
  }

  /** `name_meta`: the argument as the help line opens with it. */
  function NameMeta(p: Param): (r: string)
    ensures StartsWith(r, "  ") && r[|r| - 1] == ' '
    ensures IsA(p, FlagKind) ==> r == "  " + Dash(p) + p.name + " "
    ensures !IsA(p, FlagKind) && IsA(p, PositionalKind) ==> r == "  " + Metavar(p) + " "
    ensures !IsA(p, FlagKind) && !IsA(p, PositionalKind) ==> r == "  " + Dash(p) + p.name + " " + Metavar(p) + " "
  {
    var dash := Dash(p);
    var r := if IsA(p, FlagKind) then "  " + dash + p.name + " "
             else if IsA(p, PositionalKind) then "  " + Metavar(p) + " "
             else "  " + dash + p.name + " " + Metavar(p) + " ";
    assert r[..2] == "  ";
    r
  }

  /** A default as the help shows it: `str(v)`, lowered for a boolean. */
  function DefaultText(v: Value): (r: string)
    ensures v.BoolValue? ==> r == (if v.b then "true" else "false")
    ensures !v.BoolValue? ==> r == Str(v)
  {
    if v.BoolValue? then (if v.b then "true" else "false") else Str(v)
  }

  /** Whether the help line ends with the default: a default is given and the argument is not a Flag. */
  predicate ShowsDefault(p: Param) {
    p.default.Some? && !IsA(p, FlagKind)
  }

  /** The default line, or nothing. */
  function Tail(p: Param): string {
    if ShowsDefault(p) then "\n    Default: " + DefaultText(p.default.value) else ""
  }

  /** The indentation of continued description lines: the width of `name_meta`, or none. */
  function DescriptionIndent(p: Param, indent: bool): Option<nat> {
    if indent then Some(|NameMeta(p)|) else None
  }

  /** The help line of an argument given the docstring's params. */
  function ArgHelpIn(params: seq<Meta>, p: Param, indent: bool): string {
    NameMeta(p) + DescriptionIn(params, p.name, DescriptionIndent(p, indent)) + Tail(p)
  }

  /** The help line is `name_meta`, then the description, then the default line when shown. */
  lemma ArgHelpShape(params: seq<Meta>, p: Param, indent: bool)
    ensures var r := ArgHelpIn(params, p, indent);
            var d := DescriptionIn(params, p.name, DescriptionIndent(p, indent));
            && |r| == |NameMeta(p)| + |d| + |Tail(p)|
            && StartsWith(r, NameMeta(p))
            && r[|NameMeta(p)|..|NameMeta(p)| + |d|] == d
            && EndsWith(r, Tail(p))
  {
    var r := ArgHelpIn(params, p, indent);
    var nameMeta := NameMeta(p);
    var d := DescriptionIn(params, p.name, DescriptionIndent(p, indent));
    assert r[..|nameMeta|] == nameMeta;
    assert r[|nameMeta|..|nameMeta| + |d|] == d;
    assert r[|r| - |Tail(p)|..] == Tail(p);
  }

  /** `CLICommand.get_arg_help`: the help line, once the docstring's params are read. */
  function ArgHelp(doc: Doc, p: Param, indent: bool): (r: Result<string, string>)
    ensures r.Failure? <==> Params(doc).Failure?
    ensures r.Failure? ==> r.error == IndexError
    ensures r.Success? ==> r.value == ArgHelpIn(Params(doc).value, p, indent)
  {
    match Params(doc)
    case Failure(e) => Failure(e)
    case Success(ps) => Success(ArgHelpIn(ps, p, indent))
  }

  /** A help line whose argument is documented, on one line, by the `k`th docstring param and by no earlier one. */
  lemma DocumentedHelp(params: seq<Meta>, p: Param, k: nat, description: string)
    requires k < |params| && ArgName(params[k]) == Some(p.name) && params[k].description == description
    requires forall j :: 0 <= j < k ==> ArgName(params[j]) != Some(p.name)
    requires forall i :: 0 <= i < |description| ==> description[i] != '\n'
    ensures ArgHelpIn(params, p, true) == NameMeta(p) + description + Tail(p)
  {
    FirstParamNamedIsFirst(params, p.name, k);
    IndentOneLine(description, DescriptionIndent(p, true));
  }

  // ---------------------------------------------------------------------
  // Help text for a command

  /** The help lines of a list of arguments. */
  function HelpsIn(params: seq<Meta>, ps: seq<Param>): (r: seq<string>)
    ensures |r| == |ps| && forall i :: 0 <= i < |ps| ==> r[i] == ArgHelpIn(params, ps[i], true)
  {
    seq(|ps|, i requires 0 <= i < |ps| => ArgHelpIn(params, ps[i], true))
  }

  lemma HelpsInAppend(params: seq<Meta>, ps: seq<Param>, i: nat)
    requires i < |ps|
    ensures HelpsIn(params, ps[..i + 1]) == HelpsIn(params, ps[..i]) + [ArgHelpIn(params, ps[i], true)]
  {
  }

  lemma HelpsStep(lines: seq<string>, params: seq<Meta>, ps: seq<Param>, i: nat, out: seq<string>)
    requires i < |ps| && out == lines + HelpsIn(params, ps[..i])
    ensures out + [ArgHelpIn(params, ps[i], true)] == lines + HelpsIn(params, ps[..i + 1])
  {
    HelpsInAppend(params, ps, i);
  }

  /** The short description if it is non-empty, then a blank line if there are arguments. */
  function Intro(short: Option<string>, hasArgs: bool): seq<string> {
    (if short.Some? && short.value != "" then [short.value] else []) + (if hasArgs then [""] else [])
  }

  /**
   * The argument blocks, given the help lines of the required and of the
   * optional arguments: "Required arguments:" and its lines, a blank line when
   * optional ones follow, then "Optional arguments:" and its lines; a block
   * only when it has lines.
   */
  function Blocks(reqHelps: seq<string>, optHelps: seq<string>): seq<string> {
    (if |reqHelps| > 0
     then ["Required arguments:"] + reqHelps + (if |optHelps| > 0 then [""] else [])
     else [])
    + (if |optHelps| > 0 then ["Optional arguments:"] + optHelps else [])
  }

  /** The lines of the command help: the intro, then the argument blocks. */
  function Layout(short: Option<string>, reqHelps: seq<string>, optHelps: seq<string>): seq<string> {
    Intro(short, |reqHelps| > 0 || |optHelps| > 0) + Blocks(reqHelps, optHelps)
  }

  function HelpLines(c: Command): seq<string>
    requires Params(c.func.doc).Success?
  {
    var ps := Params(c.func.doc).value;
    Layout(c.func.doc.shortDescription, HelpsIn(ps, c.required), HelpsIn(ps, c.optional))
  }

  /** Whether building the help fails: only when there are arguments, whose help reads the docstring's params. */
  predicate HelpFails(c: Command) {
    (|c.required| > 0 || |c.optional| > 0) && Params(c.func.doc).Failure?
  }

  /** The loop of `get_command_help` over one list of arguments, appending each help line. */
  method AppendHelps(doc: Doc, ps: seq<Param>, lines: seq<string>) returns (r: Result<seq<string>, string>)
    ensures Params(doc).Success? ==> r == Success(lines + HelpsIn(Params(doc).value, ps))
    ensures Params(doc).Failure? && |ps| > 0 ==> r == Failure(IndexError)
    ensures |ps| == 0 ==> r == Success(lines)
  {
    var out := lines;
    var i := 0;
    while i < |ps|
      invariant 0 <= i <= |ps|
      invariant i == 0 ==> out == lines
      invariant Params(doc).Failure? ==> i == 0
      invariant Params(doc).Success? ==> out == lines + HelpsIn(Params(doc).value, ps[..i])
    {
      var h := ArgHelp(doc, ps[i], true);
      if h.Failure? {
        assert Params(doc).Failure? && i == 0;
        return Failure(h.error);
      }
      HelpsStep(lines, Params(doc).value, ps, i, out);
      out := out + [h.value];
      i := i + 1;
    }
    assert ps[..i] == ps;
    r := Success(out);
  }

  /** The two argument loops of `get_command_help`, with the blank line between their blocks. */
  method ArgBlocks(doc: Doc, required: seq<Param>, optional: seq<Param>) returns (r: Result<seq<string>, string>)
    ensures Params(doc).Success? ==>
              r == Success(Blocks(HelpsIn(Params(doc).value, required), HelpsIn(Params(doc).value, optional)))
    ensures Params(doc).Failure? && (|required| > 0 || |optional| > 0) ==> r == Failure(IndexError)
    ensures |required| == 0 && |optional| == 0 ==> r == Success([])
  {
    ghost var ps := if Params(doc).Success? then Params(doc).value else [];
    ghost var reqHelps := HelpsIn(ps, required);
    ghost var optHelps := HelpsIn(ps, optional);
    var lines: seq<string> := [];
    if |required| > 0 {
      var res := AppendHelps(doc, required, ["Required arguments:"]);
      if res.Failure? {
        return Failure(res.error);
      }
      lines := res.value;
      if |optional| > 0 {
        lines := lines + [""];
      }
    }
    ghost var reqPart := if |reqHelps| > 0 then ["Required arguments:"] + reqHelps + (if |optHelps| > 0 then [""] else []) else [];
    assert Params(doc).Success? ==> lines == reqPart;
    if |optional| > 0 {
      var res := AppendHelps(doc, optional, lines + ["Optional arguments:"]);
      if res.Failure? {
        return Failure(res.error);
      }
      lines := res.value;
    }
    assert Params(doc).Success? ==> lines == reqPart + (if |optHelps| > 0 then ["Optional arguments:"] + optHelps else []);
    r := Success(lines);
  }

  /** `CLICommand.get_command_help`: the help lines joined by line breaks. */
  method GetCommandHelp(c: Command) returns (r: Result<string, string>)
    ensures HelpFails(c) ==> r == Failure(IndexError)
    ensures Params(c.func.doc).Success? ==> r == Success(Join("\n", HelpLines(c)))
    ensures !HelpFails(c) && Params(c.func.doc).Failure? ==> r == Success(Join("\n", Intro(c.func.doc.shortDescription, false)))
  {
    var doc := c.func.doc;
    var lines: seq<string> := [];
    if doc.shortDescription.Some? && doc.shortDescription.value != "" {
      lines := lines + [doc.shortDescription.value];
    }
    if |c.required| > 0 || |c.optional| > 0 {
      lines := lines + [""];
    }
    assert lines == Intro(doc.shortDescription, |c.required| > 0 || |c.optional| > 0);
    var blocks := ArgBlocks(doc, c.required, c.optional);
    if blocks.Failure? {
      return Failure(blocks.error);
    }
    r := Success(Join("\n", lines + blocks.value));
  }

  /** Every help line given to the layout occurs in the joined help. */
  lemma LayoutShowsEveryHelp(short: Option<string>, reqHelps: seq<string>, optHelps: seq<string>, h: string)
    requires h in reqHelps || h in optHelps
    ensures Contains(Join("\n", Layout(short, reqHelps, optHelps)), h)
  {
    var intro := Intro(short, |reqHelps| > 0 || |optHelps| > 0);
    var blocks := Blocks(reqHelps, optHelps);
    var k := BlockIndex(reqHelps, optHelps, h);
    assert (intro + blocks)[|intro| + k] == h;
    JoinContains("\n", intro + blocks, |intro| + k);
  }

  /** Where a help line sits in the blocks. */
  lemma BlockIndex(reqHelps: seq<string>, optHelps: seq<string>, h: string) returns (k: nat)
    requires h in reqHelps || h in optHelps
    ensures k < |Blocks(reqHelps, optHelps)| && Blocks(reqHelps, optHelps)[k] == h
  {
    var reqPart := if |reqHelps| > 0 then ["Required arguments:"] + reqHelps + (if |optHelps| > 0 then [""] else []) else [];
    var optPart := if |optHelps| > 0 then ["Optional arguments:"] + optHelps else [];
    assert Blocks(reqHelps, optHelps) == reqPart + optPart;
    if h in reqHelps {
      var j :| 0 <= j < |reqHelps| && reqHelps[j] == h;
      k := 1 + j;
      assert reqPart[k] == h;
    } else {
      var j :| 0 <= j < |optHelps| && optHelps[j] == h;
      k := |reqPart| + 1 + j;
      assert optPart[1 + j] == h;
    }
  }

  /** Every argument's help line occurs in the command help. */
  lemma HelpShowsEveryArg(c: Command, p: Param)
    requires Params(c.func.doc).Success?
    requires p in c.required || p in c.optional
    ensures Contains(Join("\n", HelpLines(c)), ArgHelp(c.func.doc, p, true).value)
  {
    var ps := Params(c.func.doc).value;
    var h := ArgHelpIn(ps, p, true);
    if p in c.required {
      var j :| 0 <= j < |c.required| && c.required[j] == p;
      assert HelpsIn(ps, c.required)[j] == h;
    } else {
      var j :| 0 <= j < |c.optional| && c.optional[j] == p;
      assert HelpsIn(ps, c.optional)[j] == h;
    }
    LayoutShowsEveryHelp(c.func.doc.shortDescription, HelpsIn(ps, c.required), HelpsIn(ps, c.optional), h);
  }

  /** A non-empty short description opens the command help. */
  lemma HelpOpensWithShortDescription(short: Option<string>, reqHelps: seq<string>, optHelps: seq<string>)
    requires short.Some? && short.value != ""
    ensures StartsWith(Join("\n", Layout(short, reqHelps, optHelps)), short.value)
  {
    var lines := Layout(short, reqHelps, optHelps);
    var s := short.value;
    assert lines == [s] + lines[1..];
    if |lines| == 1 {
      assert Join("\n", lines) == s;
      StartsWithConcat(s, "");
      assert s + "" == s;
    } else {
      JoinCons("\n", s, lines[1..]);
      StartsWithConcat(s, "\n" + Join("\n", lines[1..]));
      assert s + "\n" + Join("\n", lines[1..]) == s + ("\n" + Join("\n", lines[1..]));
    }
  }

  /** The long description never enters the command help: replacing it changes nothing. */
  lemma HelpIgnoresLongDescription(c: Command, long: Option<string>)
    requires Params(c.func.doc).Success?
    ensures var c' := c.(func := c.func.(doc := c.func.doc.(longDescription := long)));
            Params(c'.func.doc).Success? && HelpLines(c') == HelpLines(c)
  {
    var c' := c.(func := c.func.(doc := c.func.doc.(longDescription := long)));
    assert c'.func.doc.meta == c.func.doc.meta;
    assert Params(c'.func.doc) == Params(c.func.doc);
  }

  // ---------------------------------------------------------------------
  // Usage

  /**
   * `CLICommand.get_command_usage`: the usage line argparse prints, less its
   * first two words ("usage:" and the program name) and stripped, after the
   * command's name.
   */
  function CommandUsage(name: string, argparseUsage: string): (r: string)
    ensures StartsWith(r, name + " ")
  {
    var words := Split(argparseUsage, " ");
    var r := name + " " + Strip(Join(" ", if |words| >= 2 then words[2..] else []));
    assert r[..|name| + 1] == name + " ";
    r
  }

  /** A usage line `usage: prog rest` becomes the command's name followed by `rest` stripped. */
  lemma UsageLine(name: string, prog: string, rest: string)
    requires forall i :: 0 <= i < |prog| ==> prog[i] != ' '
    ensures CommandUsage(name, "usage: " + prog + " " + rest) == name + " " + Strip(rest)
  {
    var tail := prog + " " + rest;
    assert "usage: " + prog + " " + rest == "usage:" + [' '] + tail;
    SplitAtChar("usage:", ' ', tail);
    assert tail == prog + [' '] + rest;
    SplitAtChar(prog, ' ', rest);
    var words := Split("usage: " + prog + " " + rest, " ");
    assert words == ["usage:", prog] + Split(rest, " ");
    assert words[2..] == Split(rest, " ");
    JoinSplit(rest, " ");
  }

  // ---------------------------------------------------------------------
  // Registration

  /** What the `command` decorator was given, besides the names. */
  datatype Registration = Registration(func: Func, group: Option<string>, hidden: Hidden, isAsync: bool, background: bool)

  /** The name the command is registered under first: `name` when given, else the function's name. */
  function PrimaryName(f: Func, name: Option<string>): string {
    if name.Some? then name.value else f.name
  }

  /** `aliases` once the primary name is inserted at its front (an absent list counts as empty). */
  function AliasList(f: Func, name: Option<string>, aliases: seq<string>): (r: seq<string>)
    ensures |r| == |aliases| + 1 && r[0] == PrimaryName(f, name) && r[1..] == aliases
  {
    [PrimaryName(f, name)] + aliases
  }

  /** The command registered under `alias`, carrying the decorator's `background`. */
  function Registered(reg: Registration, alias: string, isAlias: bool): (c: Command)
    ensures c.isBackground == reg.background && c.isAlias == isAlias
    ensures c.name == if alias != "" then alias else reg.func.name
  {
    NewCommand(reg.func, Some(alias), reg.group, isAlias, reg.hidden, reg.isAsync, reg.background)
  }

  /** The command `_register` builds as written: `is_background` is not passed on. */
  function RegisteredAsWritten(reg: Registration, alias: string, isAlias: bool): (c: Command)
    ensures !c.isBackground && c.isAlias == isAlias
  {
    NewCommand(reg.func, Some(alias), reg.group, isAlias, reg.hidden, reg.isAsync, false)
  }

  /**
   * As written, `background=True` never reaches a registered command, so the
   * shell only backgrounds it when `-background` is typed; the start command,
   * built with `is_background`, keeps it.
   */
  lemma BackgroundDropped(reg: Registration, alias: string, isAlias: bool)
    requires reg.background
    ensures !ShellEntry(RegisteredAsWritten(reg, alias, isAlias)).isBackground
    ensures ShellEntry(Registered(reg, alias, isAlias)).isBackground
    ensures StartCommand(reg.func, reg.isAsync, reg.background).isBackground
  {
  }

  /** The entry `_register` writes as written is the corrected one with the background flag cleared. */
  lemma AsWrittenDropsOnlyBackground(reg: Registration, alias: string, isAlias: bool)
    ensures RegisteredAsWritten(reg, alias, isAlias) == Registered(reg, alias, isAlias).(isBackground := false)
  {
  }

  /** The registry after writing the commands of `names[..n]` in order; a later name overwrites an earlier equal one. */
  function Expand(r: map<string, Command>, reg: Registration, names: seq<string>, n: nat): map<string, Command>
    requires n <= |names|
  {
    if n == 0 then r else Expand(r, reg, names, n - 1)[names[n - 1] := Registered(reg, names[n - 1], n - 1 > 0)]
  }

  predicate Distinct(names: seq<string>) {
    forall i, j :: 0 <= i < j < |names| ==> names[i] != names[j]
  }

  /** The keys after the expansion are the old keys and the names written. */
  lemma {:induction false} ExpandKeys(r: map<string, Command>, reg: Registration, names: seq<string>, n: nat)
    requires n <= |names|
    ensures forall key :: key in Expand(r, reg, names, n) <==> key in r || key in names[..n]
  {
    if n > 0 {
      ExpandKeys(r, reg, names, n - 1);
      assert names[..n] == names[..n - 1] + [names[n - 1]];
    }
  }

  /** A key that is not among the names written keeps its old command. */
  lemma {:induction false} ExpandUntouched(r: map<string, Command>, reg: Registration, names: seq<string>, n: nat)
    requires n <= |names|
    ensures forall key :: key in r && key !in names[..n] ==>
              key in Expand(r, reg, names, n) && Expand(r, reg, names, n)[key] == r[key]
  {
    if n > 0 {
      ExpandUntouched(r, reg, names, n - 1);
      assert names[..n] == names[..n - 1] + [names[n - 1]];
    }
  }

  /** With distinct names, each name written holds the command registered under it. */
  lemma {:induction false} ExpandNamed(r: map<string, Command>, reg: Registration, names: seq<string>, n: nat)
    requires n <= |names| && Distinct(names)
    ensures forall k :: 0 <= k < n ==>
              names[k] in Expand(r, reg, names, n) && Expand(r, reg, names, n)[names[k]] == Registered(reg, names[k], k > 0)
  {
    if n > 0 {
      ExpandNamed(r, reg, names, n - 1);
      var x := names[n - 1];
      var next := Expand(r, reg, names, n);
      assert next == Expand(r, reg, names, n - 1)[x := Registered(reg, x, n - 1 > 0)];
      forall k | 0 <= k < n - 1
        ensures names[k] in next && next[names[k]] == Registered(reg, names[k], k > 0)
      {
        assert names[k] != x;
      }
    }
  }

  /**
   * With distinct names, every name maps to a command named by it that is an
   * alias exactly when it is not the first, and every other key is untouched.
   */
  lemma ExpandDistinct(r: map<string, Command>, reg: Registration, names: seq<string>, n: nat)
    requires n <= |names| && Distinct(names)
    ensures forall key :: key in Expand(r, reg, names, n) <==> key in r || key in names[..n]
    ensures forall k :: 0 <= k < n ==> Expand(r, reg, names, n)[names[k]] == Registered(reg, names[k], k > 0)
    ensures forall key :: key in r && key !in names[..n] ==> Expand(r, reg, names, n)[key] == r[key]
  {
    ExpandKeys(r, reg, names, n);
    ExpandUntouched(r, reg, names, n);
    ExpandNamed(r, reg, names, n);
  }

  /** Listing the primary name again among the aliases turns the primary entry into an alias. */
  lemma RepeatedPrimaryIsAlias(reg: Registration, name: string)
    ensures Expand(map[], reg, [name, name], 2)[name].isAlias
  {
  }

  /** `START_COMMAND`: the function under its own name, keeping `is_async` and `is_background`. */
  function StartCommand(f: Func, isAsync: bool, isBackground: bool): (c: Command)
    ensures c.name == f.name && !c.isAlias && c.isAsync == isAsync && c.isBackground == isBackground
  {
    NewCommand(f, None, None, false, Static(false), isAsync, isBackground)
  }

  /** `EXIT_COMMAND`: the function under its own name, with every option at its default. */
  function ExitCommand(f: Func): (c: Command)
    ensures c.name == f.name && !c.isAlias && !c.isAsync && !c.isBackground
  {
    NewCommand(f, None, None, false, Static(false), false, false)
  }

  const StartTaken: string := "A start command is already defined"
  const ExitTaken: string := "An exit command is already defined"

  /** The global registry and the two singleton slots. */
  class Registry {
    var commands: map<string, Command>
    var start: Option<Command>
    var exit: Option<Command>

    constructor()
      ensures commands == map[] && start == None && exit == None
    {
      commands := map[];
      start := None;
      exit := None;
    }

    /**
     * `_register`: an `atstart` command fills the start slot, an `atexit` one
     * the exit slot, a second of either raises RuntimeError; any other command
     * is written under its primary name and each alias, in that order.
     */
    method Register(reg: Registration, name: Option<string>, aliases: seq<string>, atstart: bool, atexit: bool)
      returns (r: Result<(), string>)
      modifies this
      ensures atstart && old(start).Some? ==> r == Failure(StartTaken) && unchanged(this)
      ensures atstart && old(start).None? ==>
                r == Success(()) && start == Some(StartCommand(reg.func, reg.isAsync, reg.background))
                && commands == old(commands) && exit == old(exit)
      ensures !atstart && atexit && old(exit).Some? ==> r == Failure(ExitTaken) && unchanged(this)
      ensures !atstart && atexit && old(exit).None? ==>
                r == Success(()) && exit == Some(ExitCommand(reg.func))
                && commands == old(commands) && start == old(start)
      ensures !atstart && !atexit ==>
                var names := AliasList(reg.func, name, aliases);
                r == Success(()) && commands == Expand(old(commands), reg, names, |names|)
                && start == old(start) && exit == old(exit)
    {
      if atstart {
        if start.Some? {
          return Failure(StartTaken);
        }
        start := Some(StartCommand(reg.func, reg.isAsync, reg.background));
        return Success(());
      }
      if atexit {
        if exit.Some? {
          return Failure(ExitTaken);
        }
        exit := Some(ExitCommand(reg.func));
        return Success(());
      }
      var names := AliasList(reg.func, name, aliases);
      var i := 0;
      while i < |names|
        invariant 0 <= i <= |names|
        invariant commands == Expand(old(commands), reg, names, i)
        invariant start == old(start) && exit == old(exit)
      {
        commands := commands[names[i] := Registered(reg, names[i], i > 0)];
        i := i + 1;
      }
      r := Success(());
    }
  }

  /** A second start command is refused and leaves the first in place, and neither enters the registry. */
  method StartTwice(first: Func, second: Func) returns (r1: Result<(), string>, r2: Result<(), string>,
                                                        start: Option<Command>, registered: set<string>)
    ensures r1.Success? && r2 == Failure(StartTaken)
    ensures start == Some(StartCommand(first, false, false)) && registered == {}
  {
    var registry := new Registry();
    r1 := registry.Register(Registration(first, None, Static(false), false, false), None, [], true, false);
    r2 := registry.Register(Registration(second, None, Static(false), false, false), None, [], true, false);
    start := registry.start;
    registered := registry.commands.Keys;
  }

  /** The same for the exit command. */
  method ExitTwice(first: Func, second: Func) returns (r1: Result<(), string>, r2: Result<(), string>,
                                                       exit: Option<Command>, registered: set<string>)
    ensures r1.Success? && r2 == Failure(ExitTaken)
    ensures exit == Some(ExitCommand(first)) && registered == {}
  {
    var registry := new Registry();
    r1 := registry.Register(Registration(first, None, Static(false), false, false), None, [], false, true);
    r2 := registry.Register(Registration(second, None, Static(false), false, false), None, [], false, true);
    exit := registry.exit;
    registered := registry.commands.Keys;
  }

  /**
   * A command with distinct aliases: the primary name and every alias are
   * keys, each naming itself, and only the primary one is not an alias.
   */
  method RegisterWithAliases(reg: Registration, name: Option<string>, aliases: seq<string>)
    returns (commands: map<string, Command>)
    requires Distinct(AliasList(reg.func, name, aliases))
    requires forall k :: 0 <= k < |aliases| ==> aliases[k] != ""
    requires PrimaryName(reg.func, name) != ""
    ensures forall key :: key in commands <==> key == PrimaryName(reg.func, name) || key in aliases
    ensures !commands[PrimaryName(reg.func, name)].isAlias
    ensures forall k :: 0 <= k < |aliases| ==> commands[aliases[k]].isAlias && commands[aliases[k]].name == aliases[k]
    ensures commands[PrimaryName(reg.func, name)].name == PrimaryName(reg.func, name)
  {
    var registry := new Registry();
    var names := AliasList(reg.func, name, aliases);
    var r := registry.Register(reg, name, aliases, false, false);
    commands := registry.commands;
    ExpandDistinct(map[], reg, names, |names|);
    assert names[..|names|] == names;
    var primary := PrimaryName(reg.func, name);
    assert commands[primary] == Registered(reg, names[0], false);
    forall k | 0 <= k < |aliases| ensures commands[aliases[k]] == Registered(reg, aliases[k], true) {
      assert aliases[k] == names[k + 1];
    }
    forall key ensures key in commands <==> key == primary || key in aliases {
      assert names == [primary] + aliases;
    }
  }

}
