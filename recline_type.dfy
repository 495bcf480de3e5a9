/**
 * The base class of the custom argument types and the `UniqueParam` action
 * that every argument uses unless its type names another one. An argument
 * value is one of the Python values the shell's commands deal in.
 */
module ReclineTypes {
  import opened Wrappers
  import opened PyText

  /** The Python values an argument or a default can hold. */
  datatype Value = NoneValue | BoolValue(b: bool) | IntValue(i: int) | StrValue(s: string)

  /** `str(v)`. */
  function Str(v: Value): (r: string)
    ensures v.StrValue? ==> r == v.s
    ensures v.BoolValue? ==> r == (if v.b then "True" else "False")
    ensures v.IntValue? ==> r == IntToStr(v.i)
    ensures v.NoneValue? ==> r == "None"
  {
    match v
    case NoneValue => "None"
    case BoolValue(b) => if b then "True" else "False"
    case IntValue(i) => IntToStr(i)
    case StrValue(s) => s
  }

  /** The actions argparse can take for an argument. */
  datatype Action = UniqueParamAction | StoreTrue

  /** The metavar and the action a type has unless it names its own. */
  const BaseMetavar: string := "<value>"
  const BaseAction: Action := UniqueParamAction

  /**
   * The answers of the base type's methods: no choices (eagerly or not), a
   * single None completion, argparse's own nargs, and a validation that
   * hands the argument back unchanged.
   */
  const BaseChoices: Option<seq<string>> := None
  const BaseCompletions: seq<Value> := [NoneValue]
  const BaseNargs: Option<nat> := None
  const BaseValidate: string -> string := arg => arg

  /** The parsed-arguments namespace: one attribute per destination. */
  class Namespace {
    var attrs: map<string, Value>

    /** argparse fills every destination with its default before parsing. */
    constructor(defaults: map<string, Value>)
      ensures attrs == defaults
    {
      attrs := defaults;
    }
  }

  /** A value already given for a destination: neither its default nor None. */
  predicate AlreadySet(current: Value, default: Value) {
    current != default && current != NoneValue
  }

  /** The message of `parser.error`, which argparse turns into SystemExit(2). */
  function DuplicateMessage(optionString: Option<string>): string {
    "Duplicate parameter \"" + (if optionString.Some? then optionString.value else "None") + "\""
  }

  /**
   * `UniqueParam.__call__`: a destination already set is an error and the
   * namespace stays as it was; otherwise the value is stored under it.
   */
  method UniqueParam(ns: Namespace, dest: string, default: Value, values: Value, optionString: Option<string>)
    returns (r: Result<(), string>)
    requires dest in ns.attrs
    modifies ns
    ensures AlreadySet(old(ns.attrs[dest]), default) ==>
              r == Failure(DuplicateMessage(optionString)) && ns.attrs == old(ns.attrs)
    ensures !AlreadySet(old(ns.attrs[dest]), default) ==>
              r == Success(()) && ns.attrs == old(ns.attrs)[dest := values]
  {
    var current := ns.attrs[dest];
    if current != default && current != NoneValue {
      return Failure(DuplicateMessage(optionString));
    }
    ns.attrs := ns.attrs[dest := values];
    r := Success(());
  }

  /**
   * Giving two distinct parameters once each never conflicts, while giving
   * one parameter a second (non-None) value does.
   */
  method TwoOptions(first: string, second: string, default: Value, x: Value, y: Value)
    returns (r1: Result<(), string>, r2: Result<(), string>)
    requires x != default && x != NoneValue
    ensures r1.Success?
    ensures first != second ==> r2.Success?
    ensures first == second ==> r2 == Failure(DuplicateMessage(Some(second)))
  {
    var ns := new Namespace(map[first := default, second := default]);
    r1 := UniqueParam(ns, first, default, x, Some(first));
    r2 := UniqueParam(ns, second, default, y, Some(second));
  }
}
