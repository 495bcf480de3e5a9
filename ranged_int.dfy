/**
 * The RangedInt argument type: an integer with an optional lower and an
 * optional upper bound, both inclusive. Its metavar shows the range, and
 * validation accepts exactly the integers inside it.
 */
module RangedInt {
  import opened Wrappers
  import opened PyText

  /** The `min` and `max` given to `RangedInt.define`; None leaves that side open. */
  datatype Bounds = Bounds(min: Option<int>, max: Option<int>)

  /** `range_str`: `{min-max}`, `{min-inf}`, `{-inf-max}` or nothing. */
  function RangeStr(b: Bounds): string {
    if b.min.Some? && b.max.Some? then "{" + IntToStr(b.min.value) + "-" + IntToStr(b.max.value) + "}"
    else if b.min.Some? then "{" + IntToStr(b.min.value) + "-inf}"
    else if b.max.Some? then "{-inf-" + IntToStr(b.max.value) + "}"
    else ""
  }

  /** The class's `metavar`. */
  function Metavar(b: Bounds): (r: string)
    ensures r == "<int" + RangeStr(b) + ">"
    ensures r == "<int>" <==> b.min.None? && b.max.None?
  {
    var r := "<int" + RangeStr(b) + ">";
    assert b.min.Some? || b.max.Some? ==> r[4] == '{';
    r
  }

  /** Whether `v` lies within the bounds that are given. */
  predicate InRange(b: Bounds, v: int) {
    (b.min.None? || b.min.value <= v) && (b.max.None? || v <= b.max.value)
  }

  function RangeMessage(arg: string, b: Bounds): string {
    "\"" + arg + "\" is not an integer in the range " + RangeStr(b) + "."
  }

  /**
   * `_RangedInt.validate`: the integer when the argument parses and is in
   * range; a parse failure and a value outside the range are the same error.
   */
  function Validate(b: Bounds, arg: string): (r: Result<int, string>)
    ensures r.Success? <==> ParseInt(arg).Some? && InRange(b, ParseInt(arg).value)
    ensures r.Success? ==> Some(r.value) == ParseInt(arg)
    ensures r.Failure? ==> r.error == RangeMessage(arg, b) && Contains(r.error, RangeStr(b))
  {
    MessageHoldsRange(arg, b);
    match ParseInt(arg)
    case None => Failure(RangeMessage(arg, b))
    case Some(v) =>
      if b.min.Some? && v < b.min.value then Failure(RangeMessage(arg, b))
      else if b.max.Some? && v > b.max.value then Failure(RangeMessage(arg, b))
      else Success(v)
  }

  /** `RangeMessage` holds the range string where the format puts it. */
  lemma MessageHoldsRange(arg: string, b: Bounds)
    ensures Contains(RangeMessage(arg, b), RangeStr(b))
  {
    var m := RangeMessage(arg, b);
    var j := |arg| + 2 + |" is not an integer in the range "|;
    assert m[j..j + |RangeStr(b)|] == RangeStr(b);
    ContainsAt(m, RangeStr(b), j);
  }

  /** Every number has a decimal text that validates exactly when it is in range. */
  lemma ValidateNumber(b: Bounds, n: int)
    ensures Validate(b, IntToStr(n)) == if InRange(b, n) then Success(n) else Failure(RangeMessage(IntToStr(n), b))
  {
    ParseIntToStr(n);
  }

  /** Without bounds every number is accepted. */
  lemma Unbounded(n: int)
    ensures Validate(Bounds(None, None), IntToStr(n)) == Success(n)
  {
    ValidateNumber(Bounds(None, None), n);
  }

  /** The accepted numbers of the type's parametrised examples. */
  lemma AcceptedVectors()
    ensures Validate(Bounds(Some(2), Some(10)), IntToStr(5)) == Success(5)
    ensures Validate(Bounds(Some(0), None), IntToStr(100)) == Success(100)
    ensures Validate(Bounds(None, Some(100)), IntToStr(-50)) == Success(-50)
  {
    ValidateNumber(Bounds(Some(2), Some(10)), 5);
    ValidateNumber(Bounds(Some(0), None), 100);
    ValidateNumber(Bounds(None, Some(100)), -50);
  }

  /** The rejected numbers of the same examples: one past a bound on either side. */
  lemma RejectedVectors()
    ensures Validate(Bounds(Some(2), Some(10)), IntToStr(1)).Failure?
    ensures Validate(Bounds(Some(0), None), IntToStr(-1)).Failure?
    ensures Validate(Bounds(None, Some(100)), IntToStr(105)).Failure?
  {
    ValidateNumber(Bounds(Some(2), Some(10)), 1);
    ValidateNumber(Bounds(Some(0), None), -1);
    ValidateNumber(Bounds(None, Some(100)), 105);
  }

  /** A word is not an integer, whatever the bounds. */
  lemma RejectsWord(b: Bounds)
    ensures Validate(b, "foo") == Failure(RangeMessage("foo", b))
  {
    StripUnchanged("foo");
    assert !IsDigit("foo"[0]);
    assert ParseInt("foo") == None;
  }
}
