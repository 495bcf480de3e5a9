/**
 * Concrete resolutions over the names `cake show`, `cake make` and
 * `cake make again`, and the state-0 match list over those names plus
 * `cake eat`.
 */
module CompleterExamples {
  import opened Wrappers
  import opened PyText
  import opened Completer

  const Cakes: seq<string> := ["cake show", "cake make", "cake make again"]

  /** Two words without spaces, joined by one space, split back into the two. */
  lemma TwoWords(a: string, b: string, joined: string)
    requires ' ' !in a && ' ' !in b && joined == a + " " + b
    ensures Split(joined, " ") == [a, b]
  {
    assert Join(" ", [a, b]) == joined;
    SplitJoinChar([a, b], ' ');
  }

  lemma CakeMakeAgainWords()
    ensures Split("cake make again", " ") == ["cake", "make", "again"]
  {
    assert Join(" ", ["cake", "make", "again"]) == "cake make again";
    SplitJoinChar(["cake", "make", "again"], ' ');
  }

  /** "help" names nothing, even with the exact short-cut enabled. */
  lemma HelpResolvesToNothing()
    ensures Resolve("help", Cakes, true) == None
  {
    SplitAbsentChar("help", ' ');
    assert StartingWith(Cakes, "help") == [];
  }

  /** An exactly typed name resolves to itself when `exact` is set. */
  lemma CakeMakeExact()
    ensures Resolve("cake make", Cakes, true) == Some("cake make")
  {
    ExactNameResolves("cake make", Cakes);
  }

  const ShowPieces: seq<string> := ["cake", "show", "-cake", "1"]

  lemma ShowSplit()
    ensures Split("cake show -cake 1", " ") == ShowPieces
  {
    assert Join(" ", ShowPieces) == "cake show -cake 1";
    SplitJoinChar(ShowPieces, ' ');
  }

  lemma ShowPrefixes(pieces: seq<string>)
    requires pieces == ShowPieces
    ensures PrefixOf(pieces, 4) == "cake show -cake 1"
    ensures PrefixOf(pieces, 3) == "cake show -cake"
    ensures PrefixOf(pieces, 2) == "cake show"
  {
    assert pieces[..4] == pieces;
    assert pieces[..3] == ["cake", "show", "-cake"];
    assert pieces[..2] == ["cake", "show"];
  }

  lemma ShowLongPrefixes(options: seq<string>)
    requires options == Cakes
    ensures StartingWith(options, "cake show -cake 1") == []
    ensures StartingWith(options, "cake show -cake") == []
  {
    DiffersAt("cake make again", "cake show -cake", 5);
  }

  lemma ShowTwoWords(options: seq<string>)
    requires options == Cakes
    ensures StartingWith(options, "cake show") == ["cake show"]
  {
    StartsWithConcat("cake show", "");
    assert "cake show" + "" == "cake show";
    DiffersAt("cake make", "cake show", 5);
    DiffersAt("cake make again", "cake show", 5);
  }

  /** Arguments after a unique name are ignored: the two-word prefix decides. */
  lemma ShowWithArgumentsResolves()
    ensures Resolve("cake show -cake 1", Cakes, false) == Some("cake show")
  {
    ShowResolves("cake show -cake 1", Cakes);
  }

  lemma ShowResolves(text: string, options: seq<string>)
    requires text == "cake show -cake 1" && options == Cakes
    ensures Resolve(text, options, false) == Some("cake show")
  {
    ShowSplit();
    ShowPrefixes(ShowPieces);
    ShowLongPrefixes(options);
    ShowTwoWords(options);
    assert Search(ShowPieces, options, 4) == Some(("cake show", "cake show"));
    StripUnchanged("cake show");
  }

  const MakePieces: seq<string> := ["cake", "make"]

  lemma MakeSurvivorsOfTwo(pieces: seq<string>)
    requires pieces == MakePieces
    ensures Survivors(["cake make", "cake make again"], pieces) == ["cake make", "cake make again"]
  {
    assert Survives("cake make", pieces) by { TwoWords("cake", "make", "cake make"); }
    assert Survives("cake make again", pieces) by { CakeMakeAgainWords(); }
  }

  lemma MakeSurvivorsOfAll(pieces: seq<string>, options: seq<string>)
    requires pieces == MakePieces && options == Cakes
    ensures Survivors(options, pieces) == ["cake make", "cake make again"]
  {
    MakeSurvivorsOfTwo(pieces);
    assert !Survives("cake show", pieces) by {
      TwoWords("cake", "show", "cake show");
      assert Split("cake show", " ")[1] != pieces[1];
    }
  }

  lemma MakeTwoWords(pieces: seq<string>, options: seq<string>)
    requires pieces == MakePieces && options == Cakes
    ensures Decision(pieces, options, 2) == None
  {
    assert PrefixOf(pieces, 2) == "cake make" by { assert pieces[..2] == pieces; }
    StartsWithConcat("cake make", "");
    assert "cake make" + "" == "cake make";
    StartsWithConcat("cake make", " again");
    assert "cake make" + " again" == "cake make again";
    DiffersAt("cake show", "cake make", 5);
    assert StartingWith(options, "cake make") == ["cake make", "cake make again"];
    MakeSurvivorsOfTwo(pieces);
  }

  lemma MakeOneWord(pieces: seq<string>, options: seq<string>)
    requires pieces == MakePieces && options == Cakes
    ensures Decision(pieces, options, 1) == None
  {
    assert PrefixOf(pieces, 1) == "cake" by { assert pieces[..1] == ["cake"]; }
    StartsWithConcat("cake", " show");
    StartsWithConcat("cake", " make");
    StartsWithConcat("cake", " make again");
    assert StartingWith(options, "cake") == options;
    MakeSurvivorsOfAll(pieces, options);
  }

  /** Without the exact short-cut, "cake make" is ambiguous: two names survive every prefix. */
  lemma CakeMakeIsAmbiguous()
    ensures Resolve("cake make", Cakes, false) == None
  {
    MakeAmbiguous("cake make", Cakes);
  }

  lemma MakeAmbiguous(text: string, options: seq<string>)
    requires text == "cake make" && options == Cakes
    ensures Resolve(text, options, false) == None
  {
    TwoWords("cake", "make", "cake make");
    MakeTwoWords(MakePieces, options);
    MakeOneWord(MakePieces, options);
    assert Search(MakePieces, options, 2) == None;
  }

  /** The four cake names in sorted order. */
  const SortedCakes: seq<string> := ["cake eat", "cake make", "cake make again", "cake show"]

  lemma CakPossibles(options: seq<string>)
    requires options == SortedCakes
    ensures StartingWith(options, "cak") == options
  {
    StartsWithConcat("cak", "e eat");
    StartsWithConcat("cak", "e make");
    StartsWithConcat("cak", "e make again");
    StartsWithConcat("cak", "e show");
  }

  lemma CakeEatDies(pieces: seq<string>)
    requires |pieces| == 1 && pieces[0] != "cake"
    ensures !Survives("cake eat", pieces)
  {
    TwoWords("cake", "eat", "cake eat");
  }

  lemma CakeMakeDies(pieces: seq<string>)
    requires |pieces| == 1 && pieces[0] != "cake"
    ensures !Survives("cake make", pieces)
  {
    TwoWords("cake", "make", "cake make");
  }

  lemma CakeMakeAgainDies(pieces: seq<string>)
    requires |pieces| == 1 && pieces[0] != "cake"
    ensures !Survives("cake make again", pieces)
  {
    CakeMakeAgainWords();
  }

  lemma CakeShowDies(pieces: seq<string>)
    requires |pieces| == 1 && pieces[0] != "cake"
    ensures !Survives("cake show", pieces)
  {
    TwoWords("cake", "show", "cake show");
  }

  lemma CakSurvivors(options: seq<string>, pieces: seq<string>)
    requires options == SortedCakes && |pieces| == 1 && pieces[0] != "cake"
    ensures Survivors(options, pieces) == []
  {
    CakeShowDies(pieces);
    assert Survivors(options[3..], pieces) == [] by {
      assert options[3..] == ["cake show"];
      assert options[3..][1..] == [];
    }
    CakeMakeAgainDies(pieces);
    assert Survivors(options[2..], pieces) == [] by {
      assert options[2..][1..] == options[3..];
    }
    CakeMakeDies(pieces);
    assert Survivors(options[1..], pieces) == [] by {
      assert options[1..][1..] == options[2..];
    }
    CakeEatDies(pieces);
    assert options[0] == "cake eat";
  }

  lemma CakResolvesToNothing(text: string, options: seq<string>)
    requires text == "cak" && options == SortedCakes
    ensures Resolve(text, options, false) == None
  {
    SplitAbsentChar("cak", ' ');
    var pieces := ["cak"];
    assert PrefixOf(pieces, 1) == "cak" by { assert pieces[..1] == pieces; }
    CakPossibles(options);
    CakSurvivors(options, pieces);
    assert Decision(pieces, options, 1) == None;
  }

  /**
   * Typing "cak" offers every name in sorted order, so states 0 to 3
   * return "cake eat", "cake make", "cake make again", "cake show".
   */
  lemma CakOffersAllNames(argMatches: seq<string>)
    ensures MatchesAt(SortedCakes, ParseAroundBooleans("cak").1, argMatches) == SortedCakes
  {
    CakMatches("cak", SortedCakes, argMatches);
  }

  lemma CakMatches(text: string, options: seq<string>, argMatches: seq<string>)
    requires text == "cak" && options == SortedCakes
    ensures MatchesAt(options, ParseAroundBooleans(text).1, argMatches) == options
  {
    AbsentFirstChar(text, "&&");
    AbsentFirstChar(text, "||");
    AbsentFirstChar(text, ";");
    PlainSegment(text);
    StripUnchanged(text);
    CakResolvesToNothing(text, options);
    CakPossibles(options);
  }

  /** An empty line offers every name. */
  lemma EmptyOffersAllNames(argMatches: seq<string>)
    ensures MatchesAt(SortedCakes, "", argMatches) == SortedCakes
  {
    EmptyMatches("", SortedCakes, argMatches);
  }

  lemma EmptyMatches(text: string, options: seq<string>, argMatches: seq<string>)
    requires text == "" && options == SortedCakes
    ensures MatchesAt(options, text, argMatches) == options
  {
    SplitAbsentChar(text, ' ');
    var pieces := [""];
    assert PrefixOf(pieces, 1) == "" by { assert pieces[..1] == pieces; }
    assert StartingWith(options, "") == options;
    CakSurvivors(options, pieces);
    assert Decision(pieces, options, 1) == None;
  }
}
