/**
 * The command-name resolver and the completion helpers of the REPL:
 * `get_command_name`, `_parse_around_booleans`, `print_columns` and the
 * match list a `CommandCompleter` keeps between calls.
 */
module Completer {
  import opened Wrappers
  import opened PyText

  // ---------------------------------------------------------------------
  // Specification of get_command_name

  /** `[x for x in options if x.startswith(prefix)]`. */
  function StartingWith(options: seq<string>, prefix: string): (r: seq<string>)
  {
    if options == [] then []
    else (if StartsWith(options[0], prefix) then [options[0]] else [])
         + StartingWith(options[1..], prefix)
  }

  /** The filter keeps exactly the names that start with the prefix. */
  lemma {:induction false} StartingWithMembers(options: seq<string>, prefix: string)
    ensures forall x :: x in StartingWith(options, prefix) <==> x in options && StartsWith(x, prefix)
  {
    if options != [] {
      StartingWithMembers(options[1..], prefix);
      assert options == [options[0]] + options[1..];
    }
  }

  /**
   * A candidate survives the tie-break when each of its words equals the
   * supplied word at the same position, for every position both have.
   */
  predicate Survives(possible: string, pieces: seq<string>) {
    var words := Split(possible, " ");
    forall k :: 0 <= k < |words| && k < |pieces| ==> words[k] == pieces[k]
  }

  /** The candidates that survive the tie-break, in order. */
  function Survivors(possibles: seq<string>, pieces: seq<string>): (r: seq<string>)
  {
    if possibles == [] then []
    else (if Survives(possibles[0], pieces) then [possibles[0]] else [])
         + Survivors(possibles[1..], pieces)
  }

  lemma {:induction false} SurvivorsMembers(possibles: seq<string>, pieces: seq<string>)
    ensures forall x :: x in Survivors(possibles, pieces) <==> x in possibles && Survives(x, pieces)
  {
    if possibles != [] {
      SurvivorsMembers(possibles[1..], pieces);
      assert possibles == [possibles[0]] + possibles[1..];
    }
  }

  /** The first `i` words joined back together. */
  function PrefixOf(pieces: seq<string>, i: nat): string
    requires i <= |pieces|
  {
    Join(" ", pieces[..i])
  }

  /**
   * What the `i`-word prefix decides: a unique name starting with it gives
   * (prefix, name); otherwise a unique survivor of the tie-break gives
   * (survivor, survivor); otherwise nothing is decided at this length.
   */
  function Decision(pieces: seq<string>, options: seq<string>, i: nat): Option<(string, string)>
    requires 1 <= i <= |pieces|
  {
    var prefix := PrefixOf(pieces, i);
    var possibles := StartingWith(options, prefix);
    if |possibles| == 1 then Some((prefix, possibles[0]))
    else if |possibles| > 1 && |Survivors(possibles, pieces)| == 1 then
      var s := Survivors(possibles, pieces)[0];
      Some((s, s))
    else None
  }

  /** Prefix lengths tried from `i` down to 1; the first decision wins. */
  function Search(pieces: seq<string>, options: seq<string>, i: nat): Option<(string, string)>
    requires i <= |pieces|
    decreases i
  {
    if i == 0 then None
    else match Decision(pieces, options, i)
      case Some(d) => Some(d)
      case None => Search(pieces, options, i - 1)
  }

  /** `CommandCompleter.get_command_name(text, options, exact)`. */
  function Resolve(text: string, options: seq<string>, exact: bool): Option<string> {
    if exact && text in options then Some(text)
    else
      var pieces := Split(text, " ");
      match Search(pieces, options, |pieces|)
      case Some((name, possible)) => if name == Strip(possible) then Some(name) else None
      case None => None
  }

  /** A prefix length at which a decision is taken. */
  predicate Decisive(pieces: seq<string>, options: seq<string>, j: nat)
    requires j <= |pieces|
  {
    1 <= j && Decision(pieces, options, j).Some?
  }

  /**
   * The search returns the decision of the longest decisive prefix not
   * longer than `n`: nothing shorter is looked at once a prefix decides,
   * and nothing is found when no prefix decides.
   */
  lemma {:induction false} SearchFindsLongestDecisive(pieces: seq<string>, options: seq<string>, n: nat)
    requires n <= |pieces|
    ensures Search(pieces, options, n).None? <==>
      forall j :: 1 <= j <= n ==> !Decisive(pieces, options, j)
    ensures forall j :: LongestDecisive(pieces, options, n, j) ==>
      Search(pieces, options, n) == Decision(pieces, options, j)
    decreases n
  {
    if n > 0 {
      SearchFindsLongestDecisive(pieces, options, n - 1);
      if !Decisive(pieces, options, n) {
        assert Search(pieces, options, n) == Search(pieces, options, n - 1);
        forall j | LongestDecisive(pieces, options, n, j)
          ensures Search(pieces, options, n) == Decision(pieces, options, j)
        {
          assert LongestDecisive(pieces, options, n - 1, j);
        }
      }
    }
  }

  /** `j` is the longest prefix length up to `n` at which a decision is taken. */
  predicate LongestDecisive(pieces: seq<string>, options: seq<string>, n: nat, j: nat)
    requires n <= |pieces|
  {
    && 1 <= j <= n
    && Decisive(pieces, options, j)
    && forall k :: j < k <= n ==> !Decisive(pieces, options, k)
  }

  /** The exact match short-cut: a registered name typed verbatim resolves to itself. */
  lemma ExactNameResolves(text: string, options: seq<string>)
    requires text in options
    ensures Resolve(text, options, true) == Some(text)
  {
  }

  /** Whatever the search decided, it is a name from `options` and starts with the prefix it came from. */
  lemma {:induction false} SearchPicksOption(pieces: seq<string>, options: seq<string>, n: nat)
    requires n <= |pieces|
    ensures Search(pieces, options, n).Some? ==>
      var (name, possible) := Search(pieces, options, n).value;
      possible in options && (name == possible || StartsWith(possible, name))
    decreases n
  {
    if n > 0 {
      match Decision(pieces, options, n)
      case Some(d) =>
        var possibles := StartingWith(options, PrefixOf(pieces, n));
        StartingWithMembers(options, PrefixOf(pieces, n));
        if |possibles| == 1 {
          assert possibles[0] in possibles;
        } else {
          var s := Survivors(possibles, pieces);
          SurvivorsMembers(possibles, pieces);
          assert s[0] in s;
        }
      case None =>
        SearchPicksOption(pieces, options, n - 1);
    }
  }

  /** A name that does not end in whitespace. */
  predicate NoTrailingSpace(x: string) {
    x == "" || !IsSpace(x[|x| - 1])
  }

  /** If `x` starts with its own stripped form and has no trailing whitespace, `x` is that form. */
  lemma StartsWithOwnStrip(x: string)
    requires NoTrailingSpace(x) && StartsWith(x, Strip(x))
    ensures Strip(x) == x
  {
    var l := LStrip(x);
    assert RStrip(l) == l by {
      if l != "" { assert l[|l| - 1] == x[|x| - 1]; }
    }
  }

  /** When no registered name ends in whitespace, a resolved name is a registered name. */
  lemma ResolvedIsRegistered(text: string, options: seq<string>, exact: bool)
    requires forall x :: x in options ==> NoTrailingSpace(x)
    ensures Resolve(text, options, exact).Some? ==> Resolve(text, options, exact).value in options
  {
    var pieces := Split(text, " ");
    SearchPicksOption(pieces, options, |pieces|);
    if !(exact && text in options) {
      match Search(pieces, options, |pieces|)
      case Some((name, possible)) =>
        if name == Strip(possible) && name != possible {
          StartsWithOwnStrip(possible);
        }
      case None =>
    }
  }

  /** A resolved name is the text itself (exact hit) or a stripped name. */
  lemma ResolvedIsStripped(text: string, options: seq<string>, exact: bool)
    ensures Resolve(text, options, exact).Some? ==>
      var r := Resolve(text, options, exact).value;
      (exact && r == text) || Strip(r) == r
  {
    var pieces := Split(text, " ");
    if !(exact && text in options) {
      match Search(pieces, options, |pieces|)
      case Some((name, possible)) =>
        if name == Strip(possible) {
          StripIdempotent(possible);
        }
      case None =>
    }
  }

  lemma StripIdempotent(x: string)
    ensures Strip(Strip(x)) == Strip(x)
  {
    StripUnchanged(Strip(x));
  }

  // ---------------------------------------------------------------------
  // get_command_name as the source computes it

  /** The for/else loop over a candidate's words: false at the first disagreeing word. */
  method WordsAgree(possible: string, pieces: seq<string>) returns (ok: bool)
    ensures ok == Survives(possible, pieces)
  {
    var words := Split(possible, " ");
    var index := 0;
    while index < |words|
      invariant 0 <= index <= |words|
      invariant forall k :: 0 <= k < index && k < |pieces| ==> words[k] == pieces[k]
    {
      if index > |pieces| - 1 {
        index := index + 1;
        continue;
      }
      if words[index] != pieces[index] {
        return false;
      }
      index := index + 1;
    }
    return true;
  }

  /** `still_possible`: the candidates whose words agree with the supplied ones. */
  method StillPossible(possibles: seq<string>, pieces: seq<string>) returns (still: seq<string>)
    ensures still == Survivors(possibles, pieces)
  {
    still := [];
    var j := 0;
    while j < |possibles|
      invariant 0 <= j <= |possibles|
      invariant Survivors(possibles, pieces) == still + Survivors(possibles[j..], pieces)
    {
      assert possibles[j..] == [possibles[j]] + possibles[j + 1..];
      var ok := WordsAgree(possibles[j], pieces);
      if ok {
        still := still + [possibles[j]];
      }
      j := j + 1;
    }
    assert possibles[j..] == [];
  }

  /** `CommandCompleter.get_command_name`: longest decisive prefix, then the strip check. */
  method GetCommandName(text: string, options: seq<string>, exact: bool) returns (r: Option<string>)
    ensures r == Resolve(text, options, exact)
  {
    if exact && text in options {
      return Some(text);
    }
    var pieces := Split(text, " ");
    var found := LongestPrefixSearch(pieces, options);
    if found.Some? && found.value.0 == Strip(found.value.1) {
      return Some(found.value.0);
    }
    return None;
  }

  /** The loop of `get_command_name` over the prefix lengths, longest first. */
  method LongestPrefixSearch(pieces: seq<string>, options: seq<string>) returns (found: Option<(string, string)>)
    ensures found == Search(pieces, options, |pieces|)
  {
    var i := |pieces|;
    found := None;
    while i > 0
      invariant 0 <= i <= |pieces|
      invariant found == None
      invariant Search(pieces, options, |pieces|) == Search(pieces, options, i)
    {
      var prefix := Join(" ", pieces[..i]);
      assert prefix == PrefixOf(pieces, i);
      var possibles := StartingWith(options, prefix);
      if |possibles| == 1 {
        found := Some((prefix, possibles[0]));
        assert Search(pieces, options, i) == found;
        return;
      }
      if |possibles| > 1 {
        var still := StillPossible(possibles, pieces);
        if |still| == 1 {
          found := Some((still[0], still[0]));
          assert Search(pieces, options, i) == found;
          return;
        }
      }
      assert Decision(pieces, options, i) == None;
      i := i - 1;
    }
  }

  // ---------------------------------------------------------------------
  // _parse_around_booleans

  /** The segment after the last `&&`, then the last `||`, then the last `;`. */
  function LastSegment(text: string): string {
    Last(Split(Last(Split(Last(Split(text, "&&")), "||")), ";"))
  }

  /** `_parse_around_booleans(text)`: (everything before the segment, the segment left-stripped). */
  function ParseAroundBooleans(text: string): (string, string) {
    var right := LastSegment(text);
    var left := Reverse(ReplaceFirst(Reverse(text), Reverse(right), ""));
    (left, LStrip(right))
  }

  lemma EndsWithTrans(a: string, b: string, c: string)
    requires EndsWith(a, b) && EndsWith(b, c)
    ensures EndsWith(a, c)
  {
    assert a[|a| - |b|..][|b| - |c|..] == a[|a| - |c|..];
  }

  lemma SuffixAvoidsAll(s: string, t: string, p: string)
    requires p != "" && EndsWith(s, t) && !Contains(s, p)
    ensures !Contains(t, p)
  {
    SuffixAvoids(s, p, |s| - |t|);
  }

  /** The last piece of a split is a suffix free of the separator. */
  lemma LastPiece(s: string, sep: string)
    requires sep != ""
    ensures EndsWith(s, Last(Split(s, sep))) && !Contains(Last(Split(s, sep)), sep)
  {
    SplitLastSuffix(s, sep);
    SplitPiecesAvoid(s, sep);
    var r := Split(s, sep);
    assert Last(r) == r[|r| - 1];
  }

  /** The segment is a suffix of the text and holds no control operator. */
  lemma LastSegmentFacts(text: string)
    ensures EndsWith(text, LastSegment(text))
    ensures !Contains(LastSegment(text), "&&")
    ensures !Contains(LastSegment(text), "||")
    ensures !Contains(LastSegment(text), ";")
  {
    var a := Last(Split(text, "&&"));
    var b := Last(Split(a, "||"));
    var c := Last(Split(b, ";"));
    LastPiece(text, "&&");
    LastPiece(a, "||");
    LastPiece(b, ";");
    EndsWithTrans(text, a, b);
    EndsWithTrans(text, b, c);
    SuffixAvoidsAll(a, b, "&&");
    SuffixAvoidsAll(b, c, "&&");
    SuffixAvoidsAll(b, c, "||");
  }

  /** Reversing a string whose reverse has `r` as prefix: `r` occurs first at index 0. */
  lemma ReverseSuffix(text: string, right: string)
    requires EndsWith(text, right)
    ensures Reverse(text)[|right|..] == Reverse(text[..|text| - |right|])
    ensures OccursAt(Reverse(text), Reverse(right), 0)
  {
    var rt := Reverse(text);
    assert rt[..|right|] == Reverse(right) by {
      forall i | 0 <= i < |right| ensures rt[i] == Reverse(right)[i] {
        assert right[|right| - 1 - i] == text[|text| - |right|..][|right| - 1 - i];
      }
    }
  }

  /**
   * The left side followed by the un-stripped segment is the input, and
   * neither the segment nor its stripped form contains `&&`, `||` or `;`.
   */
  lemma ParseAroundBooleansSplitsText(text: string)
    ensures ParseAroundBooleans(text).0 + LastSegment(text) == text
    ensures ParseAroundBooleans(text).1 == LStrip(LastSegment(text))
    ensures var rhs := ParseAroundBooleans(text).1;
      !Contains(rhs, "&&") && !Contains(rhs, "||") && !Contains(rhs, ";")
  {
    LeftOfSegment(text);
    var right := LastSegment(text);
    LastSegmentFacts(text);
    var rhs := LStrip(right);
    LStripSuffix(right);
    SuffixAvoidsAll(right, rhs, "&&");
    SuffixAvoidsAll(right, rhs, "||");
    SuffixAvoidsAll(right, rhs, ";");
  }

  /** Removing the reversed segment from the reversed text leaves the text before the segment. */
  lemma LeftOfSegment(text: string)
    ensures var right := LastSegment(text);
            && |right| <= |text|
            && ParseAroundBooleans(text).0 == text[..|text| - |right|]
            && text[..|text| - |right|] + right == text
  {
    var right := LastSegment(text);
    LastSegmentFacts(text);
    ReverseSuffix(text, right);
    var rt := Reverse(text);
    assert FindFrom(rt, Reverse(right), 0) == 0;
    assert ReplaceFirst(rt, Reverse(right), "") == rt[|right|..];
    var l := text[..|text| - |right|];
    ReverseTwice(l);
    assert l + right == text;
  }

  lemma ReverseTwice(s: string)
    ensures Reverse(Reverse(s)) == s
  {
  }

  /** A text with no control operator is one segment, with nothing on its left. */
  lemma PlainSegment(text: string)
    requires !Contains(text, "&&") && !Contains(text, "||") && !Contains(text, ";")
    ensures LastSegment(text) == text
    ensures ParseAroundBooleans(text) == ("", LStrip(text))
  {
    SplitPieceLengths(text, "&&");
    SplitPieceLengths(text, "||");
    SplitPieceLengths(text, ";");
    ParseAroundBooleansSplitsText(text);
    var left := ParseAroundBooleans(text).0;
    assert left + text == "" + text;
  }

  // ---------------------------------------------------------------------
  // print_columns

  /** `[s[i:i+cols] for i in range(0, len(s), cols)]`. */
  function Chunks<T>(s: seq<T>, cols: nat): (r: seq<seq<T>>)
    requires cols >= 1
    ensures forall k :: 0 <= k < |r| ==> 1 <= |r[k]| <= cols
    ensures forall k :: 0 <= k < |r| - 1 ==> |r[k]| == cols
    decreases |s|
  {
    if s == [] then []
    else if |s| <= cols then [s]
    else [s[..cols]] + Chunks(s[cols..], cols)
  }

  /** Flattening the rows gives the items back. */
  lemma {:induction false} ChunksFlatten<T>(s: seq<T>, cols: nat)
    requires cols >= 1
    ensures Flatten(Chunks(s, cols)) == s
    decreases |s|
  {
    if s != [] && |s| > cols {
      ChunksFlatten(s[cols..], cols);
      assert Chunks(s, cols) == [s[..cols]] + Chunks(s[cols..], cols);
      assert s == s[..cols] + s[cols..];
    }
  }

  function Flatten<T>(rows: seq<seq<T>>): seq<T> {
    if rows == [] then [] else rows[0] + Flatten(rows[1..])
  }

  function MaxLength(xs: seq<string>): (m: nat)
    requires xs != []
    ensures forall i :: 0 <= i < |xs| ==> |xs[i]| <= m
    ensures exists i :: 0 <= i < |xs| && |xs[i]| == m
  {
    if |xs| == 1 then |xs[0]|
    else
      var m := MaxLength(xs[1..]);
      assert forall i :: 1 <= i < |xs| ==> xs[i] == xs[1..][i - 1];
      if |xs[0]| >= m then |xs[0]| else m
  }

  /** Every item of a row left-justified to `width`, then the row glued together. */
  function PadRow(row: seq<string>, width: int): (r: string)
  {
    if row == [] then "" else Ljust(row[0], width) + PadRow(row[1..], width)
  }

  /** `cols`, lowered to the number of items when there are fewer. */
  function Columns(objects: seq<string>, cols: nat): nat {
    if cols > |objects| then |objects| else cols
  }

  /** The items grouped into rows of `Columns(objects, cols)`. */
  function Rows(objects: seq<string>, cols: nat): seq<seq<string>>
    requires objects != [] && cols >= 1
  {
    Chunks(objects, Columns(objects, cols))
  }

  /** The rows of printed text, before they are joined with newlines. */
  function ColumnRows(objects: seq<string>, cols: nat, gap: int): (r: seq<string>)
    requires objects != [] && cols >= 1
    ensures |r| == |Rows(objects, cols)|
  {
    var width := MaxLength(objects) + gap;
    var rows := Rows(objects, cols);
    seq(|rows|, k requires 0 <= k < |rows| => PadRow(rows[k], width))
  }

  /**
   * `print_columns(objects, cols, gap)`. A zero column count is the
   * ValueError `range()` raises (None); a negative one gives no rows.
   */
  function PrintColumns(objects: seq<string>, cols: int, gap: int): Option<string> {
    if objects == [] then Some("")
    else if cols == 0 then None
    else if cols < 0 then Some("")
    else Some(Join("\n", ColumnRows(objects, cols, gap)))
  }

  lemma {:induction false} PadRowLength(row: seq<string>, width: int)
    requires forall i :: 0 <= i < |row| ==> |row[i]| <= width
    ensures |PadRow(row, width)| == |row| * width
  {
    if row != [] {
      var rest := row[1..];
      assert forall i :: 0 <= i < |rest| ==> rest[i] == row[i + 1];
      PadRowLength(rest, width);
      assert |Ljust(row[0], width)| == width;
      assert |row| * width == width + |rest| * width;
    }
  }

  /**
   * The layout of a non-empty list with a positive column count: rows of
   * min(cols, n) items (fewer only in the last row) that together hold the
   * items in order, each item padded to the longest item plus `gap`.
   */
  lemma PrintColumnsLayout(objects: seq<string>, cols: int, gap: int)
    requires objects != [] && cols >= 1 && gap >= 0
    ensures Flatten(Rows(objects, cols)) == objects
    ensures forall k :: 0 <= k < |Rows(objects, cols)| - 1 ==> |Rows(objects, cols)[k]| == Columns(objects, cols)
  {
    ChunksFlatten(objects, Columns(objects, cols));
  }

  /** The printed text joins the rows, and every row prints as its items padded to the longest item plus `gap`. */
  lemma ColumnRowLengths(objects: seq<string>, cols: int, gap: int)
    requires objects != [] && cols >= 1 && gap >= 0
    ensures PrintColumns(objects, cols, gap) == Some(Join("\n", ColumnRows(objects, cols, gap)))
    ensures forall k :: 0 <= k < |Rows(objects, cols)| ==>
      |ColumnRows(objects, cols, gap)[k]| == |Rows(objects, cols)[k]| * (MaxLength(objects) + gap)
  {
    forall k | 0 <= k < |Rows(objects, cols)|
      ensures |ColumnRows(objects, cols, gap)[k]| == |Rows(objects, cols)[k]| * (MaxLength(objects) + gap)
    {
      ColumnRowLength(objects, cols, gap, k);
    }
  }

  lemma ColumnRowLength(objects: seq<string>, cols: int, gap: int, k: nat)
    requires objects != [] && cols >= 1 && gap >= 0 && k < |Rows(objects, cols)|
    ensures |ColumnRows(objects, cols, gap)[k]| == |Rows(objects, cols)[k]| * (MaxLength(objects) + gap)
  {
    var rows := Rows(objects, cols);
    var width := MaxLength(objects) + gap;
    assert |PadRow(rows[k], width)| == |rows[k]| * width by {
      ChunksFlatten(objects, Columns(objects, cols));
      RowLength(objects, rows, k, width);
    }
    assert ColumnRows(objects, cols, gap)[k] == PadRow(rows[k], width);
  }

  /** A row of items no longer than `width` prints as `width` characters per item. */
  lemma RowLength(objects: seq<string>, rows: seq<seq<string>>, k: nat, width: int)
    requires Flatten(rows) == objects && objects != [] && k < |rows|
    requires width >= MaxLength(objects)
    ensures |PadRow(rows[k], width)| == |rows[k]| * width
  {
    forall i | 0 <= i < |rows[k]| ensures |rows[k][i]| <= width {
      FlattenMember(rows, k, i);
    }
    PadRowLength(rows[k], width);
  }

  /** An element of a row is an element of the flattened list. */
  lemma {:induction false} FlattenMember<T>(rows: seq<seq<T>>, k: nat, i: nat)
    requires k < |rows| && i < |rows[k]|
    ensures rows[k][i] in Flatten(rows)
  {
    if k == 0 {
      assert Flatten(rows) == rows[0] + Flatten(rows[1..]);
    } else {
      FlattenMember(rows[1..], k - 1, i);
    }
  }

  // ---------------------------------------------------------------------
  // The completer object

  /** The match list after a state-0 call, given the completer's own match list `argMatches`. */
  function MatchesAt(options: seq<string>, text: string, argMatches: seq<string>): seq<string> {
    var name := Resolve(text, options, false);
    if name.Some? && name.value != "" then
      if argMatches == [] && name.value == text then [name.value + " "] else argMatches
    else if text != "" then StartingWith(options, Strip(text))
    else options
  }

  class CommandCompleter {
    /** The registered names, sorted. */
    var options: seq<string>
    /** The registered names as a set (the registry's keys). */
    var commands: set<string>
    /** The match list built at state 0 and read by the later states. */
    var matches: seq<string>

    constructor(commandNames: set<string>)
      ensures StrictlySorted(options)
      ensures forall x :: x in options <==> x in commandNames
      ensures commands == commandNames
      ensures matches == options
    {
      var keys := SortedStrings(commandNames);
      options := keys;
      commands := commandNames;
      matches := keys;
    }

    /**
     * `completer(text, state)` up to the response assembly: at state 0 the
     * match list is rebuilt for the segment being typed, then the
     * `state`-th match is returned, or None past the end. `argMatches`
     * are the sorted argument completions of a resolved command.
     */
    method Complete(text: string, state: nat, argMatches: seq<string>) returns (response: Option<string>)
      modifies this
      ensures options == old(options) && commands == old(commands)
      ensures state == 0 ==> matches == MatchesAt(options, ParseAroundBooleans(text).1, argMatches)
      ensures state != 0 ==> matches == old(matches)
      ensures response == if state < |matches| then Some(matches[state]) else None
    {
      var rest := ParseAroundBooleans(text).1;
      if state == 0 {
        var commandName := GetCommandName(rest, options, false);
        if commandName.Some? && commandName.value != "" {
          matches := argMatches;
          if matches == [] && commandName.value == rest {
            matches := matches + [commandName.value + " "];
          }
        } else if rest != "" {
          matches := StartingWith(options, Strip(rest));
        } else {
          matches := options;
        }
      }
      if state < |matches| {
        response := Some(matches[state]);
      } else {
        response := None;
      }
    }
  }

  /**
   * With no resolvable command in the segment, state 0 offers the sorted
   * names that start with the stripped segment, or every name for an
   * empty segment.
   */
  lemma MatchesWithoutCommand(options: seq<string>, text: string, argMatches: seq<string>)
    requires StrictlySorted(options)
    requires Resolve(text, options, false).None?
    ensures forall x :: x in MatchesAt(options, text, argMatches) <==>
      x in options && (text == "" || StartsWith(x, Strip(text)))
    ensures StrictlySorted(MatchesAt(options, text, argMatches))
  {
    if text != "" {
      FilterSorted(options, Strip(text));
      StartingWithMembers(options, Strip(text));
    }
  }

  lemma {:induction false} FilterSorted(options: seq<string>, prefix: string)
    requires StrictlySorted(options)
    ensures StrictlySorted(StartingWith(options, prefix))
  {
    if options != [] {
      FilterSorted(options[1..], prefix);
      StartingWithMembers(options[1..], prefix);
      var t := StartingWith(options[1..], prefix);
      forall y | y in t ensures LexLess(options[0], y) {
        var j :| 0 <= j < |options[1..]| && options[1..][j] == y;
        assert options[j + 1] == y;
      }
    }
  }
}
