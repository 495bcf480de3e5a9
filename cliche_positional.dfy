/**
 * The cliche copy of the Positional type. It is defined like the recline
 * one; its validation raises ClicheTypeError and builds the parse message
 * with `%`-formatting instead of an f-string.
 */
module ClichePositional {
  import opened Wrappers
  import opened PyText
  import opened ReclineTypes
  import R = ReclinePositional

  datatype TypeError = ClicheTypeError(message: string)

  /** `"Cannot parse %s as a valid %s" % (arg, name)`. */
  function Format(arg: string, typeName: string): (r: string)
    ensures StartsWith(r, "Cannot parse ")
  {
    var r := "Cannot parse " + arg + " as a valid " + typeName;
    assert r[..13] == "Cannot parse ";
    r
  }

  /** `_Positional.validate`: empty input, then the conversion. */
  function Validate<T>(p: R.Positional<T>, arg: Option<string>): (r: Result<T, TypeError>)
    ensures r.Failure? <==> arg == None || arg == Some("") || p.dataType.convert(arg.value).None?
    ensures r.Success? ==> p.dataType.convert(arg.value) == Some(r.value)
  {
    if arg == None || arg == Some("") then Failure(ClicheTypeError("Value cannot be empty"))
    else
      match p.dataType.convert(arg.value)
      case Some(v) => Success(v)
      case None => Failure(ClicheTypeError(Format(arg.value, p.dataType.name)))
  }

  /** The two copies accept the same arguments with the same values and fail with the same messages. */
  lemma AgreesWithRecline<T>(p: R.Positional<T>, arg: Option<string>)
    ensures Validate(p, arg).Success? <==> R.Validate(p, arg).Success?
    ensures Validate(p, arg).Success? ==> Validate(p, arg).value == R.Validate(p, arg).value
    ensures Validate(p, arg).Failure? ==> Validate(p, arg).error.message == R.Validate(p, arg).error
  {
  }

  /** Defining with no arguments keeps the base completer and converts with str. */
  lemma DefineDefaults(text: string)
    ensures R.Define(None, R.StrType).dataType.name == "str"
    ensures R.Complete(R.Define(None, R.StrType), text) == BaseCompletions
  {
  }

  /** "my_dir" passes with str, "" and "my_val" with int are rejected. */
  lemma Vectors(c: Option<R.Completer>)
    ensures Validate(R.Define(c, R.StrType), Some("my_dir")) == Success("my_dir")
    ensures Validate(R.Define(c, R.StrType), Some("")) == Failure(ClicheTypeError("Value cannot be empty"))
    ensures Validate(R.Define(c, R.IntType), Some("my_val")) == Failure(ClicheTypeError("Cannot parse my_val as a valid int"))
  {
    assert Strip("my_val") == "my_val" by { StripUnchanged("my_val"); }
    assert !IsDigit("my_val"[0]);
    assert ParseInt("my_val") == None;
    assert R.IntType.convert("my_val") == None;
    assert Format("my_val", "int") == "Cannot parse my_val as a valid int";
  }
}
