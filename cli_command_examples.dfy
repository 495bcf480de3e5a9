/**
 * The help lines of the example command's five arguments, documented by a
 * Google-style docstring: a recline type, a list, a string with a default,
 * a bool with a default, and a Flag.
 */
module CliCommandExamples {
  import opened Wrappers
  import opened ReclineTypes
  import opened Docstring
  import opened CliCommand

  /** The params of the example command's docstring. */
  const ExampleParams: seq<Meta> := [
    Meta(["param", "types"], "This is the types parameter"),
    Meta(["param", "names"], "This is the names parameter"),
    Meta(["param", "optional"], "This is the optional parameter"),
    Meta(["param", "optional2"], "This is the optional2 parameter"),
    Meta(["param", "optional3"], "This is the optional3 parameter")]

  /** A recline type shows its own metavar. */
  lemma TypesParts()
    ensures NameMeta(Param("types", ReclineClass("<type1|type2|type3>"), None)) == "  " + "-" + "types" + " " + "<type1|type2|type3>" + " "
    ensures Tail(Param("types", ReclineClass("<type1|type2|type3>"), None)) == ""
  {
    var p := Param("types", ReclineClass("<type1|type2|type3>"), None);
    assert !IsA(p, PositionalKind) && !IsA(p, RemainderKind) && !IsA(p, FlagKind);
    assert Metavar(p) == "<type1|type2|type3>";
  }

  /** The types argument is documented by the param at index 0, on one line. */
  lemma TypesDocumented()
    ensures ArgName(ExampleParams[0]) == Some("types") && ExampleParams[0].description == "This is the types parameter"
    ensures forall i :: 0 <= i < |"This is the types parameter"| ==> "This is the types parameter"[i] != '\n'
  {
  }

  lemma TypesHelp()
    ensures ArgHelpIn(ExampleParams, Param("types", ReclineClass("<type1|type2|type3>"), None), true)
              == "  " + "-" + "types" + " " + "<type1|type2|type3>" + " " + "This is the types parameter" + ""
  {
    TypesParts();
    TypesDocumented();
    DocumentedHelp(ExampleParams, Param("types", ReclineClass("<type1|type2|type3>"), None), 0, "This is the types parameter");
  }

  /** A list shows one value and an ellipsis. */
  lemma NamesParts()
    ensures NameMeta(Param("names", ListOfStr, None)) == "  " + "-" + "names" + " " + "<names> [names ...]" + " "
    ensures Tail(Param("names", ListOfStr, None)) == ""
  {
    var p := Param("names", ListOfStr, None);
    assert !IsA(p, PositionalKind) && !IsA(p, RemainderKind) && !IsA(p, FlagKind) && !IsA(p, ReclineTypeKind);
    assert Metavar(p) == "<names>" + " [" + "names" + " ...]";
  }

  /** The names argument is documented by the param at index 1, and by no earlier one, on one line. */
  lemma NamesDocumented()
    ensures ArgName(ExampleParams[1]) == Some("names") && ExampleParams[1].description == "This is the names parameter"
    ensures forall j :: 0 <= j < 1 ==> ArgName(ExampleParams[j]) != Some("names")
    ensures forall i :: 0 <= i < |"This is the names parameter"| ==> "This is the names parameter"[i] != '\n'
  {
  }

  lemma NamesHelp()
    ensures ArgHelpIn(ExampleParams, Param("names", ListOfStr, None), true)
              == "  " + "-" + "names" + " " + "<names> [names ...]" + " " + "This is the names parameter" + ""
  {
    NamesParts();
    NamesDocumented();
    DocumentedHelp(ExampleParams, Param("names", ListOfStr, None), 1, "This is the names parameter");
  }

  /** A string default is shown on its own line. */
  lemma OptionalParts()
    ensures NameMeta(Param("optional", StrClass, Some(StrValue("foo")))) == "  " + "-" + "optional" + " " + "<optional>" + " "
    ensures Tail(Param("optional", StrClass, Some(StrValue("foo")))) == "\n    Default: " + "foo"
  {
    var p := Param("optional", StrClass, Some(StrValue("foo")));
    assert !IsA(p, PositionalKind) && !IsA(p, RemainderKind) && !IsA(p, FlagKind);
    assert Metavar(p) == "<optional>";
  }

  /** The optional argument is documented by the param at index 2, and by no earlier one, on one line. */
  lemma OptionalDocumented()
    ensures ArgName(ExampleParams[2]) == Some("optional") && ExampleParams[2].description == "This is the optional parameter"
    ensures forall j :: 0 <= j < 2 ==> ArgName(ExampleParams[j]) != Some("optional")
    ensures forall i :: 0 <= i < |"This is the optional parameter"| ==> "This is the optional parameter"[i] != '\n'
  {
  }

  lemma OptionalHelp()
    ensures ArgHelpIn(ExampleParams, Param("optional", StrClass, Some(StrValue("foo"))), true)
              == "  " + "-" + "optional" + " " + "<optional>" + " " + "This is the optional parameter" + "\n    Default: " + "foo"
  {
    OptionalParts();
    OptionalDocumented();
    DocumentedHelp(ExampleParams, Param("optional", StrClass, Some(StrValue("foo"))), 2, "This is the optional parameter");
  }

  /** A bool shows its two values, and a false default in lower case. */
  lemma Optional2Parts()
    ensures NameMeta(Param("optional2", BoolClass, Some(BoolValue(false)))) == "  " + "-" + "optional2" + " " + "<true|false>" + " "
    ensures Tail(Param("optional2", BoolClass, Some(BoolValue(false)))) == "\n    Default: " + "false"
  {
    var p := Param("optional2", BoolClass, Some(BoolValue(false)));
    assert !IsA(p, PositionalKind) && !IsA(p, RemainderKind) && !IsA(p, FlagKind);
    assert Metavar(p) == "<true|false>";
  }

  /** The optional2 argument is documented by the param at index 3, and by no earlier one, on one line. */
  lemma Optional2Documented()
    ensures ArgName(ExampleParams[3]) == Some("optional2") && ExampleParams[3].description == "This is the optional2 parameter"
    ensures forall j :: 0 <= j < 3 ==> ArgName(ExampleParams[j]) != Some("optional2")
    ensures forall i :: 0 <= i < |"This is the optional2 parameter"| ==> "This is the optional2 parameter"[i] != '\n'
  {
  }

  lemma Optional2Help()
    ensures ArgHelpIn(ExampleParams, Param("optional2", BoolClass, Some(BoolValue(false))), true)
              == "  " + "-" + "optional2" + " " + "<true|false>" + " " + "This is the optional2 parameter" + "\n    Default: " + "false"
  {
    Optional2Parts();
    Optional2Documented();
    DocumentedHelp(ExampleParams, Param("optional2", BoolClass, Some(BoolValue(false))), 3, "This is the optional2 parameter");
  }

  /** A Flag shows neither a metavar nor its default. */
  lemma Optional3Parts()
    ensures NameMeta(Param("optional3", FlagClass, Some(BoolValue(false)))) == "  " + "-" + "optional3" + " "
    ensures Tail(Param("optional3", FlagClass, Some(BoolValue(false)))) == ""
  {
    var p := Param("optional3", FlagClass, Some(BoolValue(false)));
    assert !IsA(p, PositionalKind) && !IsA(p, RemainderKind) && IsA(p, FlagKind);
  }

  /** The optional3 argument is documented by the param at index 4, and by no earlier one, on one line. */
  lemma Optional3Documented()
    ensures ArgName(ExampleParams[4]) == Some("optional3") && ExampleParams[4].description == "This is the optional3 parameter"
    ensures forall j :: 0 <= j < 4 ==> ArgName(ExampleParams[j]) != Some("optional3")
    ensures forall i :: 0 <= i < |"This is the optional3 parameter"| ==> "This is the optional3 parameter"[i] != '\n'
  {
  }

  lemma Optional3Help()
    ensures ArgHelpIn(ExampleParams, Param("optional3", FlagClass, Some(BoolValue(false))), true)
              == "  " + "-" + "optional3" + " " + "This is the optional3 parameter" + ""
  {
    Optional3Parts();
    Optional3Documented();
    DocumentedHelp(ExampleParams, Param("optional3", FlagClass, Some(BoolValue(false))), 4, "This is the optional3 parameter");
  }
}
