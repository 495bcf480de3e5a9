/**
 * The Positional argument type: a value given without its `-name`. A
 * defined Positional keeps the completer it was given, if any, and converts
 * its argument with a data type (str unless another is named), rejecting an
 * empty argument and one the data type cannot convert.
 */
module ReclinePositional {
  import opened Wrappers
  import opened PyText
  import opened ReclineTypes

  /** A Python type used as a converter: its `__name__` and the conversion, None where it raises. */
  datatype DataType<T> = DataType(name: string, convert: string -> Option<T>)

  /** `str`, which converts every string to itself. */
  const StrType: DataType<string> := DataType("str", s => Some(s))

  /** `int`, on the decimal grammar. */
  const IntType: DataType<int> := DataType("int", ParseInt)

  /** A completer: the suggestions for the text being completed. */
  type Completer = string -> seq<Value>

  /** An instance of a defined Positional: its completer override and its data type. */
  datatype Positional<T> = Positional(completer: Option<Completer>, dataType: DataType<T>)

  /**
   * `Positional.define(completer, data_type)` followed by instantiation.
   * Python's `if completer:` keeps the base completer for None.
   */
  function Define<T>(completer: Option<Completer>, dataType: DataType<T>): (p: Positional<T>)
    ensures p.dataType == dataType
  {
    Positional(completer, dataType)
  }

  /** What the instance's `completer` answers. */
  function Complete<T>(p: Positional<T>, text: string): seq<Value> {
    if p.completer.Some? then p.completer.value(text) else BaseCompletions
  }

  /** The completer is replaced only when one is supplied. */
  lemma CompleterOverride<T>(c: Completer, dataType: DataType<T>, text: string)
    ensures Complete(Define(Some(c), dataType), text) == c(text)
    ensures Complete(Define(None, dataType), text) == [NoneValue]
  {
  }

  const EmptyMessage: string := "Value cannot be empty"

  function ParseMessage(arg: string, typeName: string): string {
    "Cannot parse " + arg + " as a valid " + typeName
  }

  /**
   * `_Positional.validate`: a missing or empty argument is rejected, then the
   * data type's conversion decides; its failure is reported with the type's name.
   */
  function Validate<T>(p: Positional<T>, arg: Option<string>): (r: Result<T, string>)
    ensures (arg == None || arg == Some("")) ==> r == Failure(EmptyMessage)
    ensures arg.Some? && arg.value != "" ==>
              match p.dataType.convert(arg.value)
              case None => r == Failure(ParseMessage(arg.value, p.dataType.name))
              case Some(v) => r == Success(v)
  {
    if arg.None? || arg.value == "" then Failure(EmptyMessage)
    else
      match p.dataType.convert(arg.value)
      case None => Failure(ParseMessage(arg.value, p.dataType.name))
      case Some(v) => Success(v)
  }

  /** With the default str data type a non-empty argument comes back unchanged, and only an empty one fails. */
  lemma StrKeepsArgument(c: Option<Completer>, arg: string)
    ensures arg != "" ==> Validate(Define(c, StrType), Some(arg)) == Success(arg)
    ensures Validate(Define(c, StrType), Some(arg)).Failure? <==> arg == ""
  {
  }

  /** With int as the data type the decimal text of a number gives the number back. */
  lemma IntAcceptsDecimal(c: Option<Completer>, n: int)
    ensures Validate(Define(c, IntType), Some(IntToStr(n))) == Success(n)
  {
    ParseIntToStr(n);
    assert IntToStr(n) != "" by {
      if n < 0 { } else { assert |NatToStr(n)| >= 1; }
    }
  }
}
