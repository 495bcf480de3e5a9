/**
 * The Choices argument type: an argument restricted to a list of choices
 * given either as a list or as a callable. The callable is only called
 * when the choices are needed eagerly; its answer may be cached, and every
 * fetch of the choices rewrites the type's metavar.
 */
module Choices {
  import opened Wrappers
  import opened PyText
  import opened ReclineTypes
  import P = ReclinePositional

  /**
   * `available_choices`: a list of strings, or a callable. The callable's
   * answer may change from call to call, so it is given by the number of
   * calls made before it.
   */
  datatype Source = Listed(items: seq<string>) | Computed(answer: nat -> seq<Value>)

  /** What `validate` hands back: the raw argument when inexact, else the converted one. */
  datatype Validated<T> = Raw(arg: string) | Converted(value: T)

  /** `[str(c) for c in values]`. */
  function Stringify(values: seq<Value>): (r: seq<string>)
    ensures |r| == |values| && forall i :: 0 <= i < |values| ==> r[i] == Str(values[i])
  {
    seq(|values|, i requires 0 <= i < |values| => Str(values[i]))
  }

  /** Strings stringify to themselves. */
  lemma StringifyStrings(items: seq<string>)
    ensures Stringify(seq(|items|, i requires 0 <= i < |items| => StrValue(items[i]))) == items
  {
  }

  /** `f"<{'|'.join(choices)}>"`. */
  function Bracketed(choices: seq<string>): (r: string)
    ensures |r| >= 2 && r[0] == '<' && r[|r| - 1] == '>'
    ensures r[1..|r| - 1] == Join("|", choices)
  {
    "<" + Join("|", choices) + ">"
  }

  /** The choices can be read back from the metavar when none of them holds a `|`. */
  lemma BracketedRoundTrip(choices: seq<string>)
    requires |choices| >= 1
    requires forall k, i :: 0 <= k < |choices| && 0 <= i < |choices[k]| ==> choices[k][i] != '|'
    ensures var m := Bracketed(choices); Split(m[1..|m| - 1], "|") == choices
  {
    SplitJoinChar(choices, '|');
  }

  /** `f"\"{arg}\" must be one of {', '.join(choices)}."`. */
  function NotAChoice(arg: string, choices: seq<string>): string {
    "\"" + arg + "\" must be one of " + Join(", ", choices) + "."
  }

  /** `f'Unable to convert "{arg}" to type {data_type}'`, a type printing as `<class 'name'>`. */
  function Unconvertible(arg: string, typeName: string): string {
    "Unable to convert \"" + arg + "\" to type <class '" + typeName + "'>"
  }

  /**
   * The class `Choices.define(...)` returns. Its class attributes are shared by
   * all its instances, so one object stands for the class: `metavar`, the
   * cache `_cached_choices`, and the number of times the callable was called.
   */
  class ChoicesType {
    const source: Source
    const cacheChoices: bool
    const inexact: bool
    var metavar: string
    var cached: Option<seq<string>>
    var calls: nat

    /** `Choices.define(available_choices, cache_choices, inexact)`: the class, with the base metavar. */
    constructor Define(source: Source, cacheChoices: bool, inexact: bool)
      ensures this.source == source && this.cacheChoices == cacheChoices && this.inexact == inexact
      ensures metavar == BaseMetavar && cached == None && calls == 0
    {
      this.source := source;
      this.cacheChoices := cacheChoices;
      this.inexact := inexact;
      metavar := BaseMetavar;
      cached := None;
      calls := 0;
    }

    /** What a fetch of the source answers after `n` calls of the callable. */
    function Fetch(n: nat): seq<string> {
      match source
      case Listed(items) => items
      case Computed(answer) => Stringify(answer(n))
    }

    /** What `choices(eager=True)` answers in the current state. */
    function Eager(): seq<string>
      reads this
    {
      if cached.Some? then cached.value else Fetch(calls)
    }

    /** `_Choices.__new__`: a list of choices shows in the metavar from the first instance on. */
    method New()
      modifies this
      ensures source.Listed? ==> metavar == Bracketed(source.items)
      ensures source.Computed? ==> metavar == old(metavar)
      ensures cached == old(cached) && calls == old(calls)
    {
      if source.Listed? {
        metavar := Bracketed(source.items);
      }
    }

    /**
     * `_Choices.choices(eager)`: the cache if there is one; nothing for a lazy
     * look at a callable; otherwise the stringified choices, a call of the
     * callable counted, the metavar rewritten and the answer cached if asked.
     */
    method Choices(eager: bool) returns (r: Option<seq<string>>)
      modifies this
      ensures old(cached).Some? ==> r == old(cached) && unchanged(this)
      ensures old(cached).None? && !eager && source.Computed? ==> r == None && unchanged(this)
      ensures old(cached).None? && (eager || source.Listed?) ==>
                && r == Some(old(Eager()))
                && calls == old(calls) + (if source.Computed? then 1 else 0)
                && metavar == Bracketed(r.value)
                && cached == (if cacheChoices then r else None)
    {
      if cached.Some? {
        return cached;
      }
      if !eager && !source.Listed? {
        return None;
      }
      var current := Fetch(calls);
      if source.Computed? {
        calls := calls + 1;
      }
      if cacheChoices {
        cached := Some(current);
      }
      metavar := Bracketed(current);
      r := Some(current);
    }

    /** `_Choices.completer`: the eager choices. */
    method Completer() returns (r: Option<seq<string>>)
      modifies this
      ensures r == Some(old(Eager()))
      ensures old(cached).Some? ==> unchanged(this)
      ensures old(cached).None? ==>
                && calls == old(calls) + (if source.Computed? then 1 else 0)
                && metavar == Bracketed(r.value)
                && cached == (if cacheChoices then r else None)
    {
      r := Choices(true);
    }

    /**
     * `_Choices.validate`: an inexact type passes the argument through untouched;
     * otherwise it must be one of the eager choices and convert with the data type.
     */
    method Validate<T>(arg: string, dataType: P.DataType<T>) returns (r: Result<Validated<T>, string>)
      modifies this
      ensures inexact ==> r == Success(Raw(arg)) && unchanged(this)
      ensures !inexact ==>
                var current := old(Eager());
                if arg !in current then r == Failure(NotAChoice(arg, current))
                else match dataType.convert(arg)
                     case None => r == Failure(Unconvertible(arg, dataType.name))
                     case Some(v) => r == Success(Converted(v))
      ensures !inexact && old(cached).None? ==>
                && calls == old(calls) + (if source.Computed? then 1 else 0)
                && metavar == Bracketed(old(Eager()))
                && cached == (if cacheChoices then Some(old(Eager())) else None)
      ensures !inexact && old(cached).Some? ==> unchanged(this)
    {
      if inexact {
        return Success(Raw(arg));
      }
      var current := Choices(true);
      if arg !in current.value {
        return Failure(NotAChoice(arg, current.value));
      }
      match dataType.convert(arg)
      case None => r := Failure(Unconvertible(arg, dataType.name));
      case Some(v) => r := Success(Converted(v));
    }
  }

  /** A callable answering `valid` as strings on every call. */
  function Constant(valid: seq<string>): nat -> seq<Value> {
    _ => seq(|valid|, i requires 0 <= i < |valid| => StrValue(valid[i]))
  }

  /**
   * A callable source looked at lazily, then eagerly, then through the
   * completer and the validation: the lazy look answers nothing, and the
   * callable is called once when cached and three times otherwise.
   */
  method CallableScenario(valid: seq<string>, cache: bool, choice: string)
    returns (lazy: Option<seq<string>>, eager: Option<seq<string>>, completion: Option<seq<string>>,
             verdict: Result<Validated<string>, string>, calls: nat)
    ensures lazy == None && eager == Some(valid) && completion == Some(valid)
    ensures verdict.Success? <==> choice in valid
    ensures verdict.Success? ==> verdict.value == Converted(choice)
    ensures calls == if cache then 1 else 3
  {
    StringifyStrings(valid);
    var c := new ChoicesType.Define(Computed(Constant(valid)), cache, false);
    assert forall n: nat :: c.Fetch(n) == valid;
    c.New();
    assert c.cached == None && c.calls == 0;
    lazy := c.Choices(false);
    assert c.cached == None && c.calls == 0;
    eager := c.Choices(true);
    assert eager == Some(valid) && c.calls == 1 && c.cached == (if cache then Some(valid) else None);
    completion := c.Completer();
    assert completion == Some(valid) && c.calls == (if cache then 1 else 2);
    assert c.Eager() == valid;
    verdict := c.Validate(choice, P.StrType);
    calls := c.calls;
  }

  /**
   * A listed source: the metavar shows the list from the start, the completer
   * answers it, and an exact type accepts exactly its members while an inexact
   * one accepts anything.
   */
  method ListedScenario(valid: seq<string>, inexact: bool, choice: string)
    returns (metavar: string, completion: Option<seq<string>>, verdict: Result<Validated<string>, string>)
    ensures metavar == Bracketed(valid)
    ensures completion == Some(valid)
    ensures verdict.Success? <==> inexact || choice in valid
    ensures inexact ==> verdict == Success(Raw(choice))
  {
    var c := new ChoicesType.Define(Listed(valid), false, inexact);
    c.New();
    metavar := c.metavar;
    completion := c.Completer();
    verdict := c.Validate(choice, P.StrType);
  }
}
