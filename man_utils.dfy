/**
 * The text layout of the `man` command. `wrapped_string` fits a text to the
 * screen width: it breaks lines on spaces, hyphenates a word when enough of it
 * fits, indents the continuation lines, and wraps each paragraph on its own.
 * `generate_help_text` lays out a command's man page as styled pieces,
 * section by section.
 */
module ManUtils {
  import opened Wrappers
  import opened PyText
  import opened Docstring
  import opened CliCommand

  /** `c` does not occur in `s`. */
  predicate Avoids(s: string, c: char) {
    forall i :: 0 <= i < |s| ==> s[i] != c
  }

  // ---------------------------------------------------------------------
  // wrapped_string

  /** The state of the word loop: the finished lines, and `current_line`. */
  datatype Wrap = Wrap(lines: seq<string>, current: string)

  /**
   * One turn of the word loop. A word that fits goes on the current line with
   * a space after it. Otherwise, with at least 3 columns left and at least 3
   * characters of the word that would not fit, the line is finished with as
   * much of the word as leaves room for a hyphen, and the rest of the word
   * starts the next line; else the whole word starts the next line. The next
   * line starts with `prefix` spaces.
   */
  function Place(w: Wrap, word: string, width: int, prefix: nat): Wrap {
    if prefix + |w.current| + |word| + 1 < width then Wrap(w.lines, w.current + word + " ")
    else
      var spaceLeft := width - (prefix + |w.current|);
      if spaceLeft < 3 || |word| - spaceLeft < 3 then
        Wrap(w.lines + [RStrip(w.current)], Spaces(prefix) + word + " ")
      else
        Wrap(w.lines + [RStrip(w.current + word[..spaceLeft - 1] + "-")], Spaces(prefix) + word[spaceLeft - 1..] + " ")
  }

  /** The word loop over `words`, from the state `w`. */
  function PlaceAll(w: Wrap, words: seq<string>, width: int, prefix: nat): Wrap
    decreases |words|
  {
    if words == [] then w else PlaceAll(Place(w, words[0], width, prefix), words[1..], width, prefix)
  }

  /** `new_text` after each finished line was added with its line break. */
  function Terminated(lines: seq<string>): string {
    if lines == [] then "" else Terminated(lines[..|lines| - 1]) + Last(lines) + "\n"
  }

  /** `wrapped_string` on a text with no line break: empty, short enough, or word by word. */
  function WrapLine(text: string, width: int, prefix: nat): string {
    if text == "" then ""
    else if |text| + prefix < width then text
    else
      var w := PlaceAll(Wrap([], ""), Split(text, " "), width, prefix);
      Terminated(w.lines) + RStrip(w.current)
  }

  /** The paragraphs each wrapped and followed by a line break, every one after the first indented. */
  function Paragraphs(lines: seq<string>, width: int, prefix: nat): string {
    if lines == [] then ""
    else
      Paragraphs(lines[..|lines| - 1], width, prefix) + (if |lines| > 1 then Spaces(prefix) else "")
      + WrapLine(Last(lines), width, prefix) + "\n"
  }

  /** One more paragraph: its separating indentation, its wrapped text and a line break. */
  lemma ParagraphsStep(lines: seq<string>, index: nat, width: int, prefix: nat)
    requires index < |lines|
    ensures Paragraphs(lines[..index + 1], width, prefix)
            == Paragraphs(lines[..index], width, prefix) + (if index > 0 then Spaces(prefix) else "")
               + WrapLine(lines[index], width, prefix) + "\n"
  {
    assert lines[..index + 1][..index] == lines[..index];
  }

  /** `wrapped_string(text, screen_width, prefix)`. */
  function Wrapped(text: string, width: int, prefix: nat): string {
    if text == "" then ""
    else
      var lines := Split(text, "\n");
      if |lines| > 1 then RStrip(Paragraphs(lines, width, prefix)) else WrapLine(text, width, prefix)
  }

  /** The word loop of `wrapped_string`, with `new_text` and `current_line`. */
  method WrapParagraph(text: string, width: int, prefix: nat) returns (r: string)
    ensures r == WrapLine(text, width, prefix)
  {
    if text == "" {
      return "";
    }
    if |text| + prefix < width {
      return text;
    }
    var words := Split(text, " ");
    var newText := "";
    var current := "";
    ghost var lines: seq<string> := [];
    var i := 0;
    while i < |words|
      invariant 0 <= i <= |words|
      invariant newText == Terminated(lines)
      invariant PlaceAll(Wrap(lines, current), words[i..], width, prefix) == PlaceAll(Wrap([], ""), words, width, prefix)
    {
      var word := words[i];
      assert words[i..][1..] == words[i + 1..];
      ghost var before := Wrap(lines, current);
      if prefix + |current| + |word| + 1 < width {
        current := current + word + " ";
      } else {
        var spaceLeft := width - (prefix + |current|);
        if spaceLeft < 3 || |word| - spaceLeft < 3 {
          newText := newText + RStrip(current) + "\n";
          lines := lines + [RStrip(current)];
          current := Spaces(prefix) + word + " ";
        } else {
          current := current + word[..spaceLeft - 1] + "-";
          newText := newText + RStrip(current) + "\n";
          lines := lines + [RStrip(current)];
          current := Spaces(prefix) + word[spaceLeft - 1..] + " ";
        }
      }
      assert Wrap(lines, current) == Place(before, word, width, prefix);
      i := i + 1;
    }
    newText := newText + RStrip(current);
    r := newText;
  }

  /** `wrapped_string`: each paragraph through the word loop, or the one paragraph. */
  method WrappedString(text: string, width: int, prefix: nat) returns (r: string)
    ensures r == Wrapped(text, width, prefix)
  {
    if text == "" {
      return "";
    }
    var newText := "";
    var lines := Split(text, "\n");
    if |lines| > 1 {
      var index := 0;
      while index < |lines|
        invariant 0 <= index <= |lines|
        invariant newText == Paragraphs(lines[..index], width, prefix)
      {
        var line := WrapParagraph(lines[index], width, prefix);
        ParagraphsStep(lines, index, width, prefix);
        newText := newText + (if index > 0 then Spaces(prefix) else "") + line + "\n";
        index := index + 1;
      }
      assert lines[..|lines|] == lines;
      return RStrip(newText);
    }
    r := WrapParagraph(text, width, prefix);
  }
  // ---------------------------------------------------------------------
  // What the layout promises

  /** Past the indentation, the line holds no space: a single word. */
  predicate OneWord(line: string, prefix: nat) {
    forall i :: prefix <= i < |line| ==> line[i] != ' '
  }

  /** A line fits the width once indented, or it is a single word too long to break. */
  predicate Fits(line: string, width: int, prefix: nat) {
    prefix + |line| <= width || OneWord(line, prefix)
  }

  /** A continuation line starts with the indentation, unless nothing is left of it. */
  predicate Indented(line: string, prefix: nat) {
    line == "" || StartsWith(line, Spaces(prefix))
  }

  /** The current line holds one word and its trailing space past the indentation. */
  predicate LoneWord(current: string, prefix: nat) {
    forall i :: prefix <= i < |current| - 1 ==> current[i] != ' '
  }

  /** What the word loop keeps: finished lines fit and are indented, and the current line can still become one. */
  predicate Laid(w: Wrap, width: int, prefix: nat) {
    && (forall k :: 0 <= k < |w.lines| ==> Fits(w.lines[k], width, prefix) && Avoids(w.lines[k], '\n'))
    && (forall k :: 1 <= k < |w.lines| ==> Indented(w.lines[k], prefix))
    && (prefix + |w.current| < width || LoneWord(w.current, prefix))
    && Avoids(w.current, '\n')
    && (|w.lines| > 0 ==> StartsWith(w.current, Spaces(prefix)))
  }

  /** The current line once right-stripped: a prefix of it that keeps its indentation, its single word and its lack of line breaks. */
  lemma RStripLine(current: string, width: int, prefix: nat)
    requires prefix + |current| < width || LoneWord(current, prefix)
    requires Avoids(current, '\n')
    ensures Fits(RStrip(current), width, prefix) && Avoids(RStrip(current), '\n')
    ensures StartsWith(current, Spaces(prefix)) ==> Indented(RStrip(current), prefix)
  {
    var l := RStrip(current);
    RStripPrefix(current);
    assert l == "" || l[|l| - 1] != ' ';
    PrefixLine(current, l, width, prefix);
  }

  /** A prefix of the current line that does not end in a space keeps what the current line had. */
  lemma PrefixLine(current: string, l: string, width: int, prefix: nat)
    requires prefix + |current| < width || LoneWord(current, prefix)
    requires Avoids(current, '\n')
    requires |l| <= |current| && l == current[..|l|] && (l == "" || l[|l| - 1] != ' ')
    ensures Fits(l, width, prefix) && Avoids(l, '\n')
    ensures StartsWith(current, Spaces(prefix)) ==> Indented(l, prefix)
  {
    assert forall i :: 0 <= i < |l| ==> l[i] == current[i];
    if prefix + |current| >= width {
      forall i | prefix <= i < |l| ensures l[i] != ' ' {
        if i == |current| - 1 { assert i == |l| - 1; }
      }
    }
    if StartsWith(current, Spaces(prefix)) && l != "" {
      assert |l| > prefix by {
        if |l| <= prefix {
          assert false;
        }
      }
      assert l[..prefix] == current[..prefix];
    }
  }

  /** A line started with a word: indented, then the word and a space. */
  lemma StartLine(word: string, prefix: nat)
    requires Avoids(word, ' ') && Avoids(word, '\n')
    ensures var next := Spaces(prefix) + word + " ";
            LoneWord(next, prefix) && Avoids(next, '\n') && StartsWith(next, Spaces(prefix))
  {
    var next := Spaces(prefix) + word + " ";
    assert next[..prefix] == Spaces(prefix);
    assert forall i :: prefix <= i < |next| - 1 ==> next[i] == word[i - prefix];
  }

  /** Finishing a line that fits, and starting a line with one word, keeps the invariant. */
  lemma FinishLine(w: Wrap, line: string, next: string, width: int, prefix: nat)
    requires Laid(w, width, prefix)
    requires Fits(line, width, prefix) && Avoids(line, '\n') && (|w.lines| > 0 ==> Indented(line, prefix))
    requires LoneWord(next, prefix) && Avoids(next, '\n') && StartsWith(next, Spaces(prefix))
    ensures Laid(Wrap(w.lines + [line], next), width, prefix)
  {
    var lines := w.lines + [line];
    assert forall k :: 0 <= k < |w.lines| ==> lines[k] == w.lines[k];
  }

  /** One word keeps the invariant of the loop. */
  lemma PlaceLaid(w: Wrap, word: string, width: int, prefix: nat)
    requires Laid(w, width, prefix) && Avoids(word, ' ') && Avoids(word, '\n')
    ensures Laid(Place(w, word, width, prefix), width, prefix)
  {
    if prefix + |w.current| + |word| + 1 < width {
      var next := w.current + word + " ";
      assert |w.lines| > 0 ==> next[..prefix] == w.current[..prefix];
    } else {
      var spaceLeft := width - (prefix + |w.current|);
      if spaceLeft < 3 || |word| - spaceLeft < 3 {
        RStripLine(w.current, width, prefix);
        StartLine(word, prefix);
        FinishLine(w, RStrip(w.current), Spaces(prefix) + word + " ", width, prefix);
      } else {
        var k := spaceLeft - 1;
        var full := w.current + word[..k] + "-";
        assert RStrip(full) == full by { assert full[|full| - 1] == '-'; }
        assert prefix + |full| == width;
        assert |w.lines| > 0 ==> full[..prefix] == w.current[..prefix];
        assert Avoids(word[k..], ' ') && Avoids(word[k..], '\n');
        StartLine(word[k..], prefix);
        FinishLine(w, full, Spaces(prefix) + word[k..] + " ", width, prefix);
      }
    }
  }

  /** The whole loop keeps it. */
  lemma {:induction false} PlaceAllLaid(w: Wrap, words: seq<string>, width: int, prefix: nat)
    requires Laid(w, width, prefix)
    requires forall k :: 0 <= k < |words| ==> Avoids(words[k], ' ') && Avoids(words[k], '\n')
    ensures Laid(PlaceAll(w, words, width, prefix), width, prefix)
    decreases |words|
  {
    if words != [] {
      PlaceLaid(w, words[0], width, prefix);
      PlaceAllLaid(Place(w, words[0], width, prefix), words[1..], width, prefix);
    }
  }

  /** `new_text` plus the last line is the lines joined with line breaks. */
  lemma {:induction false} TerminatedJoin(lines: seq<string>, last: string)
    ensures Terminated(lines) + last == Join("\n", lines + [last])
    decreases |lines|
  {
    if lines != [] {
      var front := lines[..|lines| - 1];
      TerminatedJoin(front, Last(lines));
      JoinSnoc(front + [Last(lines)], last);
      assert front + [Last(lines)] == lines;
    }
  }

  /** Joining one more piece puts the separator before it. */
  lemma {:induction false} JoinSnoc(parts: seq<string>, last: string)
    requires parts != []
    ensures Join("\n", parts + [last]) == Join("\n", parts) + "\n" + last
    decreases |parts|
  {
    if |parts| > 1 {
      JoinSnoc(parts[1..], last);
      assert (parts + [last])[1..] == parts[1..] + [last];
    }
  }

  /** A text in which `c` does not occur, in terms of `in`. */
  lemma AvoidsChar(s: string, c: char)
    requires !Contains(s, [c])
    ensures Avoids(s, c)
  {
    forall i | 0 <= i < |s| ensures s[i] != c {
      if s[i] == c {
        assert s[i..i + 1] == [c];
        ContainsAt(s, [c], i);
      }
    }
  }

  /** The words of a paragraph hold neither spaces nor line breaks. */
  lemma WordsAvoid(text: string)
    requires Avoids(text, '\n')
    ensures forall k :: 0 <= k < |Split(text, " ")| ==> Avoids(Split(text, " ")[k], ' ') && Avoids(Split(text, " ")[k], '\n')
  {
    var words := Split(text, " ");
    AbsentFirstChar(text, "\n");
    SplitPiecesAvoid(text, " ");
    SplitPiecesInherit(text, " ", "\n");
    forall k | 0 <= k < |words| ensures Avoids(words[k], ' ') && Avoids(words[k], '\n') {
      AvoidsChar(words[k], ' ');
      AvoidsChar(words[k], '\n');
    }
  }

  /**
   * A paragraph wraps to lines that each fit the width unless they hold a
   * single word, and every line after the first starts with the indentation.
   */
  lemma WrapLineLayout(text: string, width: int, prefix: nat)
    requires Avoids(text, '\n')
    ensures var ls := Split(WrapLine(text, width, prefix), "\n");
            && (forall k :: 0 <= k < |ls| ==> Fits(ls[k], width, prefix))
            && (forall k :: 1 <= k < |ls| ==> Indented(ls[k], prefix))
  {
    if text == "" || |text| + prefix < width {
      SplitAbsentChar(text, '\n');
    } else {
      var w := PlaceAll(Wrap([], ""), Split(text, " "), width, prefix);
      assert Laid(w, width, prefix) by {
        WordsAvoid(text);
        PlaceAllLaid(Wrap([], ""), Split(text, " "), width, prefix);
      }
      LaidLines(w, width, prefix);
    }
  }

  /** The finished lines and the right-stripped current line, read back by splitting at line breaks, keep the layout. */
  lemma LaidLines(w: Wrap, width: int, prefix: nat)
    requires Laid(w, width, prefix)
    ensures var ls := Split(Terminated(w.lines) + RStrip(w.current), "\n");
            && ls == w.lines + [RStrip(w.current)]
            && (forall k :: 0 <= k < |ls| ==> Fits(ls[k], width, prefix))
            && (forall k :: 1 <= k < |ls| ==> Indented(ls[k], prefix))
  {
    var ls := w.lines + [RStrip(w.current)];
    assert Split(Terminated(w.lines) + RStrip(w.current), "\n") == ls by {
      RStripLine(w.current, width, prefix);
      assert forall k :: 0 <= k < |ls| ==> Avoids(ls[k], '\n');
      TerminatedJoin(w.lines, RStrip(w.current));
      SplitJoinChar(ls, '\n');
    }
    assert forall k :: 0 <= k < |ls| ==> Fits(ls[k], width, prefix) by {
      RStripLine(w.current, width, prefix);
    }
    assert forall k :: 1 <= k < |ls| ==> Indented(ls[k], prefix) by {
      RStripLine(w.current, width, prefix);
    }
  }

  /** A single line that fits with its indentation comes back unchanged, and no text wraps to nothing. */
  lemma ShortLineUnchanged(text: string, width: int, prefix: nat)
    requires Avoids(text, '\n') && |text| + prefix < width
    ensures Wrapped(text, width, prefix) == text
  {
    SplitAbsentChar(text, '\n');
  }

  /** Two paragraphs wrap each on its own; the second is indented, and the end is right-stripped. */
  lemma TwoParagraphs(a: string, b: string, width: int, prefix: nat)
    requires Avoids(a, '\n') && Avoids(b, '\n')
    ensures Wrapped(a + "\n" + b, width, prefix)
            == RStrip(WrapLine(a, width, prefix) + "\n" + Spaces(prefix) + WrapLine(b, width, prefix) + "\n")
  {
    assert Join("\n", [a, b]) == a + "\n" + b;
    SplitJoinChar([a, b], '\n');
    assert [a, b][..1] == [a];
    assert Paragraphs([a], width, prefix) == WrapLine(a, width, prefix) + "\n";
    assert Paragraphs([a, b], width, prefix) == Paragraphs([a], width, prefix) + Spaces(prefix) + WrapLine(b, width, prefix) + "\n";
  }

  /** Joining pieces that avoid `c` with a separator that avoids it gives a text that avoids it. */
  lemma {:induction false} JoinAvoids(sep: string, parts: seq<string>, c: char)
    requires Avoids(sep, c) && forall k :: 0 <= k < |parts| ==> Avoids(parts[k], c)
    ensures Avoids(Join(sep, parts), c)
    decreases |parts|
  {
    if |parts| > 1 {
      JoinAvoids(sep, parts[1..], c);
    }
  }

  /** A paragraph too long for the screen is wrapped word by word, its words being what it joins with spaces. */
  lemma WrapWords(words: seq<string>, width: int, prefix: nat)
    requires |words| >= 1 && forall k :: 0 <= k < |words| ==> Avoids(words[k], ' ') && Avoids(words[k], '\n')
    requires |Join(" ", words)| + prefix >= width && Join(" ", words) != ""
    ensures var w := PlaceAll(Wrap([], ""), words, width, prefix);
            Wrapped(Join(" ", words), width, prefix) == Terminated(w.lines) + RStrip(w.current)
  {
    var text := Join(" ", words);
    SplitJoinChar(words, ' ');
    JoinAvoids(" ", words, '\n');
    SplitAbsentChar(text, '\n');
  }

  /** A word right-stripped of the space the loop put after it. */
  lemma RStripSpace(x: string)
    requires x != "" && !IsSpace(x[|x| - 1])
    ensures RStrip(x + " ") == x
  {
    assert (x + " ")[..|x|] == x;
  }

  /** The finished lines and the last one, right-stripped of its trailing space, are the output lines. */
  lemma LastLine(lines: seq<string>, d: string)
    requires d != "" && !IsSpace(d[|d| - 1])
    ensures Terminated(lines) + RStrip(d + " ") == Join("\n", lines + [d])
  {
    RStripSpace(d);
    TerminatedJoin(lines, d);
  }

  /** A sample word: no space, no line break, and a last character that `rstrip` keeps. */
  predicate Solid(x: string) {
    x != "" && Avoids(x, ' ') && Avoids(x, '\n') && !IsSpace(x[|x| - 1])
  }

  /** The word loop on four words of 5, 6, 6 and 6 characters, 10 wide. */
  lemma AtTenLoop(a: string, b: string, c: string, d: string)
    requires |a| == 5 && |b| == 6 && |c| == 6 && |d| == 6
    requires Solid(a) && Solid(b) && Solid(c) && Solid(d)
    ensures PlaceAll(Wrap([], ""), [a, b, c, d], 10, 0) == Wrap([a, b + " " + c[..2] + "-", c[2..]], d + " ")
  {
    var w1 := Wrap([], a + " ");
    var w2 := Wrap([a], b + " ");
    var w3 := Wrap([a, b + " " + c[..2] + "-"], c[2..] + " ");
    var w4 := Wrap([a, b + " " + c[..2] + "-", c[2..]], d + " ");
    assert PlaceAll(w3, [d], 10, 0) == w4 by {
      assert Place(w3, d, 10, 0) == w4 by { RStripSpace(c[2..]); }
      assert [d][1..] == [];
    }
    assert PlaceAll(w2, [c, d], 10, 0) == w4 by {
      assert Place(w2, c, 10, 0) == w3 by {
        var line := b + " " + c[..2] + "-";
        assert RStrip(line) == line by { assert line[|line| - 1] == '-'; }
      }
      assert [c, d][1..] == [d];
    }
    assert PlaceAll(w1, [b, c, d], 10, 0) == w4 by {
      assert Place(w1, b, 10, 0) == w2 by { RStripSpace(a); }
      assert [b, c, d][1..] == [c, d];
    }
    assert Place(Wrap([], ""), a, 10, 0) == w1;
    assert [a, b, c, d][1..] == [b, c, d];
  }

  /** Four words joined with spaces, taken apart again. */
  lemma JoinFour(a: string, b: string, c: string, d: string)
    ensures Join(" ", [a, b, c, d]) == a + " " + (b + " " + (c + " " + d))
  {
    JoinCons(" ", c, [d]);
    assert [c] + [d] == [c, d];
    JoinCons(" ", b, [c, d]);
    assert [b] + [c, d] == [b, c, d];
    JoinCons(" ", a, [b, c, d]);
    assert [a] + [b, c, d] == [a, b, c, d];
  }

  /**
   * Four words of 5, 6, 6 and 6 characters on a screen 10 wide, as in
   * "Hello there, fellow tester": the second moves down, the third is
   * hyphenated after two characters, the fourth moves down.
   */
  lemma WrapsAtTen(a: string, b: string, c: string, d: string)
    requires |a| == 5 && |b| == 6 && |c| == 6 && |d| == 6
    requires Solid(a) && Solid(b) && Solid(c) && Solid(d)
    ensures Wrapped(Join(" ", [a, b, c, d]), 10, 0) == Join("\n", [a, b + " " + c[..2] + "-", c[2..], d])
  {
    JoinFour(a, b, c, d);
    WrapWords([a, b, c, d], 10, 0);
    AtTenLoop(a, b, c, d);
    LastLine([a, b + " " + c[..2] + "-", c[2..]], d);
    assert [a, b + " " + c[..2] + "-", c[2..]] + [d] == [a, b + " " + c[..2] + "-", c[2..], d];
  }

  /** The word loop on the same words, 12 wide and indented by 3. */
  lemma IndentedLoop(a: string, b: string, c: string, d: string)
    requires |a| == 5 && |b| == 6 && |c| == 6 && |d| == 6
    requires Solid(a) && Solid(b) && Solid(c) && Solid(d)
    ensures PlaceAll(Wrap([], ""), [a, b, c, d], 12, 3)
            == Wrap([a + " " + b[..2] + "-", Spaces(3) + b[2..], Spaces(3) + c], Spaces(3) + d + " ")
  {
    var w1 := Wrap([], a + " ");
    var w2 := Wrap([a + " " + b[..2] + "-"], Spaces(3) + b[2..] + " ");
    var w3 := Wrap(w2.lines + [Spaces(3) + b[2..]], Spaces(3) + c + " ");
    var w4 := Wrap(w3.lines + [Spaces(3) + c], Spaces(3) + d + " ");
    assert PlaceAll(w3, [d], 12, 3) == w4 by {
      assert Place(w3, d, 12, 3) == w4 by { RStripSpace(Spaces(3) + c); }
      assert [d][1..] == [];
    }
    assert PlaceAll(w2, [c, d], 12, 3) == w4 by {
      assert Place(w2, c, 12, 3) == w3 by { RStripSpace(Spaces(3) + b[2..]); }
      assert [c, d][1..] == [d];
    }
    assert PlaceAll(w1, [b, c, d], 12, 3) == w4 by {
      assert Place(w1, b, 12, 3) == w2 by {
        var line := a + " " + b[..2] + "-";
        assert RStrip(line) == line by { assert line[|line| - 1] == '-'; }
      }
      assert [b, c, d][1..] == [c, d];
    }
    assert Place(Wrap([], ""), a, 12, 3) == w1;
    assert [a, b, c, d][1..] == [b, c, d];
  }

  /**
   * The same words 12 wide with an indentation of 3, as in the sample
   * "Hello th-", "   ere,", "   fellow", "   tester": the second word is
   * hyphenated, and every continuation line is indented.
   */
  lemma WrapsIndented(a: string, b: string, c: string, d: string)
    requires |a| == 5 && |b| == 6 && |c| == 6 && |d| == 6
    requires Solid(a) && Solid(b) && Solid(c) && Solid(d)
    ensures Wrapped(Join(" ", [a, b, c, d]), 12, 3)
            == Join("\n", [a + " " + b[..2] + "-", Spaces(3) + b[2..], Spaces(3) + c, Spaces(3) + d])
  {
    JoinFour(a, b, c, d);
    WrapWords([a, b, c, d], 12, 3);
    IndentedLoop(a, b, c, d);
    var lines := [a + " " + b[..2] + "-", Spaces(3) + b[2..], Spaces(3) + c];
    LastLine(lines, Spaces(3) + d);
    assert lines + [Spaces(3) + d] == [a + " " + b[..2] + "-", Spaces(3) + b[2..], Spaces(3) + c, Spaces(3) + d];
  }

  // ---------------------------------------------------------------------
  // generate_help_text

  /** The curses attribute a piece of the man page is drawn with. */
  datatype Style = Plain | Bold | Underline

  /** One entry of `help_text`: a text and its attribute, Plain for a one-element tuple. */
  datatype Piece = Piece(text: string, style: Style)

  const Indent: string := "     "

  /** The texts of the pieces drawn with a style, in order. */
  function Styled(ps: seq<Piece>, s: Style): seq<string>
    decreases |ps|
  {
    if ps == [] then [] else (if ps[0].style == s then [ps[0].text] else []) + Styled(ps[1..], s)
  }

  /** What the pager shows: the texts one after the other. */
  function Rendered(ps: seq<Piece>): string
    decreases |ps|
  {
    if ps == [] then "" else ps[0].text + Rendered(ps[1..])
  }

  lemma {:induction false} StyledAppend(a: seq<Piece>, b: seq<Piece>, s: Style)
    ensures Styled(a + b, s) == Styled(a, s) + Styled(b, s)
    decreases |a|
  {
    if a == [] {
      assert a + b == b;
    } else {
      assert (a + b)[0] == a[0] && (a + b)[1..] == a[1..] + b;
      StyledAppend(a[1..], b, s);
    }
  }

  lemma {:induction false} RenderedAppend(a: seq<Piece>, b: seq<Piece>)
    ensures Rendered(a + b) == Rendered(a) + Rendered(b)
    decreases |a|
  {
    if a == [] {
      assert a + b == b;
    } else {
      assert (a + b)[0] == a[0] && (a + b)[1..] == a[1..] + b;
      RenderedAppend(a[1..], b);
    }
  }

  /** Every piece is drawn plain. */
  predicate AllPlain(ps: seq<Piece>) {
    forall i :: 0 <= i < |ps| ==> ps[i].style == Plain
  }

  lemma {:induction false} PlainStyled(ps: seq<Piece>, s: Style)
    requires AllPlain(ps) && s != Plain
    ensures Styled(ps, s) == []
    decreases |ps|
  {
    if ps != [] {
      PlainStyled(ps[1..], s);
    }
  }

  /** The pieces of a list of lines, each followed by a line break. */
  function LinesOf(ls: seq<string>): seq<Piece>
  {
    seq(|ls|, i requires 0 <= i < |ls| => Piece(ls[i] + "\n", Plain))
  }

  /** `for line in description.split('\n'): help_text.append((f'{line}\n',))`. */
  function LinePieces(text: string): seq<Piece>
  {
    LinesOf(Split(text, "\n"))
  }

  lemma {:induction false} RenderedLines(ls: seq<string>)
    requires |ls| >= 1
    ensures Rendered(LinesOf(ls)) == Join("\n", ls) + "\n"
    decreases |ls|
  {
    var ps := LinesOf(ls);
    if |ls| > 1 {
      assert ps[1..] == LinesOf(ls[1..]);
      RenderedLines(ls[1..]);
      JoinCons("\n", ls[0], ls[1..]);
      assert [ls[0]] + ls[1..] == ls;
    } else {
      assert ps[1..] == [];
    }
  }

  /** The line pieces of a text show the text, then a line break. */
  lemma RenderedLinePieces(text: string)
    ensures Rendered(LinePieces(text)) == text + "\n"
  {
    RenderedLines(Split(text, "\n"));
    JoinSplit(text, "\n");
  }

  /** `wrapped_string` on an optional text: nothing for None. */
  function OrEmpty(s: Option<string>): string {
    if s.Some? then s.value else ""
  }

  /** The NAME section: the name in bold, then the short description wrapped past the name. */
  function NameSection(name: string, short: Option<string>, width: int): seq<Piece> {
    [Piece("NAME\n", Bold), Piece(Indent, Plain), Piece(name, Bold), Piece(" -- ", Plain)]
    + LinePieces(Wrapped(OrEmpty(short), width, |name| + |Indent| + 4)) + [Piece("\n", Plain)]
  }

  /** A section holding one text, wrapped under the indentation: SYNOPSIS and DESCRIPTION. */
  function TextSection(title: string, text: string, width: int): seq<Piece> {
    [Piece(title, Bold), Piece(Indent, Plain)] + LinePieces(Wrapped(text, width, |Indent|)) + [Piece("\n", Plain)]
  }

  /** `positional`: no dash before a positional or remainder argument. */
  function Dash(p: Param): string {
    if IsA(p, RemainderKind) || IsA(p, PositionalKind) then "" else "-"
  }

  /** `arg_name`: a positional argument shows only its metavar. */
  function ArgLabel(p: Param): string {
    if IsA(p, PositionalKind) then "" else p.name + " "
  }

  /** The `prefix` of `print_arg`: the argument as the OPTIONS section opens with it. */
  function ArgPrefix(p: Param): string {
    Indent + "  " + Dash(p) + ArgLabel(p) + Metavar(p) + " "
  }

  /** `print_arg`: the prefix, then the one-line description wrapped past it, then a blank line. */
  function ArgPieces(params: seq<Meta>, p: Param, width: int): seq<Piece>
  {
    var prefix := ArgPrefix(p);
    [Piece(prefix, Plain)] + LinePieces(Wrapped(DescriptionIn(params, p.name, None), width, |prefix|)) + [Piece("\n", Plain)]
  }

  /** `print_arg` on each argument in turn. */
  function ArgsPieces(params: seq<Meta>, ps: seq<Param>, width: int): seq<Piece>
    decreases |ps|
  {
    if ps == [] then []
    else ArgsPieces(params, ps[..|ps| - 1], width) + ArgPieces(params, Last(ps), width)
  }

  /** An underlined sub-header, shown only above a non-empty list of arguments. */
  function Subheader(title: string, ps: seq<Param>): seq<Piece> {
    if ps == [] then [] else [Piece(Indent, Plain), Piece(title, Underline)]
  }

  /** The OPTIONS section, present when the docstring documents a parameter. */
  function OptionsSection(params: seq<Meta>, required: seq<Param>, optional: seq<Param>, width: int): seq<Piece> {
    if params == [] then []
    else
      [Piece("OPTIONS\n", Bold)]
      + Subheader("Required:\n", required) + ArgsPieces(params, required, width)
      + Subheader("Optional:\n", optional) + ArgsPieces(params, optional, width)
  }

  /** `f'{example.name}'`: a name, or "None". */
  function NameText(name: Option<string>): string {
    if name.Some? then name.value else "None"
  }

  /** One example: its name underlined, then its description wrapped under a deeper indentation. */
  function ExamplePieces(name: Option<string>, description: string, width: int): seq<Piece> {
    [Piece(Indent, Plain), Piece(NameText(name) + ":", Underline), Piece("\n" + Indent + "  ", Plain)]
    + LinePieces(Wrapped(description, width, |Indent| + 2))
  }

  /** Every example in turn; asking an example of one word for its name raises IndexError. */
  function ExamplesPieces(examples: seq<Meta>, width: int): (r: Result<seq<Piece>, string>)
    ensures r.Failure? <==> exists k :: 0 <= k < |examples| && |examples[k].args| == 1
    ensures r.Failure? ==> r.error == IndexError
    decreases |examples|
  {
    if examples == [] then Success([])
    else
      var front := examples[..|examples| - 1];
      var m := Last(examples);
      assert (exists k :: 0 <= k < |examples| && |examples[k].args| == 1)
             <==> (exists k :: 0 <= k < |front| && |front[k].args| == 1) || |m.args| == 1 by {
        assert forall k :: 0 <= k < |front| ==> front[k] == examples[k];
      }
      match ExamplesPieces(front, width)
      case Failure(e) => Failure(e)
      case Success(done) =>
        match ExampleName(m)
        case Failure(e) => Failure(e)
        case Success(name) => Success(done + ExamplePieces(name, m.description, width))
  }

  /** The EXAMPLES section, present when the docstring holds an example. */
  function ExamplesSection(examples: seq<Meta>, width: int): Result<seq<Piece>, string> {
    match ExamplesPieces(examples, width)
    case Failure(e) => Failure(e)
    case Success(ex) => Success(if examples == [] then [] else [Piece("EXAMPLES\n", Bold)] + ex)
  }

  /** The long description is shown when it is there and not empty. */
  predicate HasLong(doc: Doc) {
    doc.longDescription.Some? && doc.longDescription.value != ""
  }

  /** The sections up to DESCRIPTION, which read nothing that can fail. */
  function Head(c: Command, argparseUsage: string, width: int): seq<Piece> {
    var doc := c.func.doc;
    NameSection(c.name, doc.shortDescription, width)
    + TextSection("SYNOPSIS\n", CommandUsage(c.name, argparseUsage), width)
    + (if HasLong(doc) then TextSection("DESCRIPTION\n", doc.longDescription.value, width) else [])
  }

  /**
   * `generate_help_text(screen_width, command_class)`: the man page as styled
   * pieces, or the IndexError a malformed docstring raises. The usage line
   * argparse prints is given.
   */
  function HelpText(c: Command, argparseUsage: string, width: int): Result<seq<Piece>, string> {
    var doc := c.func.doc;
    match Params(doc)
    case Failure(e) => Failure(e)
    case Success(params) =>
      match Examples(doc)
      case Failure(e) => Failure(e)
      case Success(examples) =>
        match ExamplesSection(examples, width)
        case Failure(e) => Failure(e)
        case Success(ex) => Success(Head(c, argparseUsage, width) + OptionsSection(params, c.required, c.optional, width) + ex)
  }

  /** The `for line in description.split('\n')` loop. */
  method AppendLines(help: seq<Piece>, text: string) returns (r: seq<Piece>)
    ensures r == help + LinePieces(text)
  {
    var lines := Split(text, "\n");
    r := help;
    for i := 0 to |lines|
      invariant r == help + LinesOf(lines[..i])
    {
      assert LinesOf(lines[..i + 1]) == LinesOf(lines[..i]) + [Piece(lines[i] + "\n", Plain)];
      r := r + [Piece(lines[i] + "\n", Plain)];
    }
    assert lines[..|lines|] == lines;
  }

  /** `print_arg(arg)`. */
  method AppendArg(help: seq<Piece>, params: seq<Meta>, p: Param, width: int) returns (r: seq<Piece>)
    ensures r == help + ArgPieces(params, p, width)
  {
    var prefix := ArgPrefix(p);
    r := help + [Piece(prefix, Plain)];
    var description := WrappedString(DescriptionIn(params, p.name, None), width, |prefix|);
    r := AppendLines(r, description);
    r := r + [Piece("\n", Plain)];
  }

  lemma Regroup(a: seq<Piece>, b: seq<Piece>, c: seq<Piece>)
    ensures (a + b) + c == a + (b + c)
  {
  }

  /** `for arg in ...: print_arg(arg)`. */
  method AppendArgs(help: seq<Piece>, params: seq<Meta>, ps: seq<Param>, width: int) returns (r: seq<Piece>)
    ensures r == help + ArgsPieces(params, ps, width)
  {
    r := help;
    for i := 0 to |ps|
      invariant r == help + ArgsPieces(params, ps[..i], width)
    {
      ArgsStep(params, ps, i, width);
      Regroup(help, ArgsPieces(params, ps[..i], width), ArgPieces(params, ps[i], width));
      r := AppendArg(r, params, ps[i], width);
    }
    assert ps[..|ps|] == ps;
  }

  lemma ArgsStep(params: seq<Meta>, ps: seq<Param>, i: nat, width: int)
    requires i < |ps|
    ensures ArgsPieces(params, ps[..i + 1], width) == ArgsPieces(params, ps[..i], width) + ArgPieces(params, ps[i], width)
  {
    assert ps[..i + 1][..i] == ps[..i];
  }

  /** Once the examples up to some point fail, all of them do. */
  lemma {:induction false} ExamplesFailFrom(examples: seq<Meta>, i: nat, width: int)
    requires i <= |examples| && ExamplesPieces(examples[..i], width).Failure?
    ensures ExamplesPieces(examples, width).Failure?
    decreases |examples|
  {
    if i < |examples| {
      var front := examples[..|examples| - 1];
      assert front[..i] == examples[..i];
      ExamplesFailFrom(front, i, width);
    } else {
      assert examples[..i] == examples;
    }
  }

  lemma ExamplesStep(examples: seq<Meta>, i: nat, width: int)
    requires i < |examples| && ExamplesPieces(examples[..i], width).Success?
    ensures ExampleName(examples[i]).Failure? ==> ExamplesPieces(examples, width).Failure?
    ensures ExampleName(examples[i]).Success? ==>
              ExamplesPieces(examples[..i + 1], width)
              == Success(ExamplesPieces(examples[..i], width).value
                         + ExamplePieces(ExampleName(examples[i]).value, examples[i].description, width))
  {
    assert examples[..i + 1][..i] == examples[..i];
    if ExampleName(examples[i]).Failure? {
      ExamplesFailFrom(examples, i + 1, width);
    }
  }

  /** One example, as the loop body appends it. */
  method AppendExample(help: seq<Piece>, name: Option<string>, description: string, width: int) returns (r: seq<Piece>)
    ensures r == help + ExamplePieces(name, description, width)
  {
    var prefix := Indent + "  ";
    r := help + [Piece(Indent, Plain), Piece(NameText(name) + ":", Underline), Piece("\n" + Indent + "  ", Plain)];
    var wrapped := WrappedString(description, width, |prefix|);
    r := AppendLines(r, wrapped);
  }

  /** The loop over `command_class.docstring.examples`. */
  method AppendExamples(help: seq<Piece>, examples: seq<Meta>, width: int) returns (r: Result<seq<Piece>, string>)
    ensures ExamplesPieces(examples, width).Failure? ==> r == Failure(IndexError)
    ensures ExamplesPieces(examples, width).Success? ==> r == Success(help + ExamplesPieces(examples, width).value)
  {
    var out := help;
    for i := 0 to |examples|
      invariant ExamplesPieces(examples[..i], width).Success?
      invariant out == help + ExamplesPieces(examples[..i], width).value
    {
      ExamplesStep(examples, i, width);
      var name := ExampleName(examples[i]);
      if name.Failure? {
        return Failure(name.error);
      }
      Regroup(help, ExamplesPieces(examples[..i], width).value, ExamplePieces(name.value, examples[i].description, width));
      out := AppendExample(out, name.value, examples[i].description, width);
    }
    assert examples[..|examples|] == examples;
    return Success(out);
  }

  /** The NAME section as `generate_help_text` appends it. */
  method AppendName(help: seq<Piece>, name: string, short: Option<string>, width: int) returns (r: seq<Piece>)
    ensures r == help + NameSection(name, short, width)
  {
    r := help + [Piece("NAME\n", Bold), Piece(Indent, Plain), Piece(name, Bold), Piece(" -- ", Plain)];
    var description := WrappedString(OrEmpty(short), width, |name| + |Indent| + 4);
    r := AppendLines(r, description);
    r := r + [Piece("\n", Plain)];
  }

  /** The SYNOPSIS or DESCRIPTION section as `generate_help_text` appends it. */
  method AppendTextSection(help: seq<Piece>, title: string, text: string, width: int) returns (r: seq<Piece>)
    ensures r == help + TextSection(title, text, width)
  {
    r := help + [Piece(title, Bold), Piece(Indent, Plain)];
    var description := WrappedString(text, width, |Indent|);
    r := AppendLines(r, description);
    r := r + [Piece("\n", Plain)];
  }

  /** The OPTIONS section, when the docstring documents parameters. */
  method AppendOptions(help: seq<Piece>, params: seq<Meta>, required: seq<Param>, optional: seq<Param>, width: int)
    returns (r: seq<Piece>)
    ensures r == help + OptionsSection(params, required, optional, width)
  {
    r := help;
    if params != [] {
      var heading := [Piece("OPTIONS\n", Bold)] + Subheader("Required:\n", required);
      var requiredArgs := ArgsPieces(params, required, width);
      var optionalHeading := Subheader("Optional:\n", optional);
      r := AppendArgs(help + heading, params, required, width);
      r := AppendArgs(r + optionalHeading, params, optional, width);
      Regroup(help, heading, requiredArgs);
      Regroup(help, heading + requiredArgs, optionalHeading);
      Regroup(help, heading + requiredArgs + optionalHeading, ArgsPieces(params, optional, width));
    }
  }

  /**
   * `generate_help_text`, appending to `help_text` section by section. It
   * answers exactly the man page the specification function describes.
   */
  method GenerateHelpText(width: int, c: Command, argparseUsage: string) returns (r: Result<seq<Piece>, string>)
    ensures r == HelpText(c, argparseUsage, width)
  {
    var doc := c.func.doc;
    var help := AppendName([], c.name, doc.shortDescription, width);
    assert [] + NameSection(c.name, doc.shortDescription, width) == NameSection(c.name, doc.shortDescription, width);
    help := AppendTextSection(help, "SYNOPSIS\n", CommandUsage(c.name, argparseUsage), width);
    if doc.longDescription.Some? && doc.longDescription.value != "" {
      help := AppendTextSection(help, "DESCRIPTION\n", doc.longDescription.value, width);
    }
    assert help == Head(c, argparseUsage, width);
    var params := Params(doc);
    if params.Failure? {
      return Failure(params.error);
    }
    help := AppendOptions(help, params.value, c.required, c.optional, width);
    // Both lists are read from the same entries and fail on the same ones.
    var examples := Examples(doc);
    assert examples.Success?;
    if examples.value != [] {
      help := help + [Piece("EXAMPLES\n", Bold)];
    }
    r := AppendExamples(help, examples.value, width);
    if ExamplesPieces(examples.value, width).Success? && examples.value != [] {
      Regroup(help[..|help| - 1], [Piece("EXAMPLES\n", Bold)], ExamplesPieces(examples.value, width).value);
    }
  }

  // ---------------------------------------------------------------------
  // What the man page shows

  lemma {:induction false} PlainAppend(a: seq<Piece>, b: seq<Piece>)
    requires AllPlain(a) && AllPlain(b)
    ensures AllPlain(a + b)
  {
    assert forall i :: |a| <= i < |a + b| ==> (a + b)[i] == b[i - |a|];
  }

  lemma {:induction false} ArgsPlain(params: seq<Meta>, ps: seq<Param>, width: int)
    ensures AllPlain(ArgsPieces(params, ps, width))
    decreases |ps|
  {
    if ps != [] {
      ArgsPlain(params, ps[..|ps| - 1], width);
      var one := ArgPieces(params, Last(ps), width);
      var lines := LinePieces(Wrapped(DescriptionIn(params, Last(ps).name, None), width, |ArgPrefix(Last(ps))|));
      PlainAppend([Piece(ArgPrefix(Last(ps)), Plain)], lines);
      PlainAppend([Piece(ArgPrefix(Last(ps)), Plain)] + lines, [Piece("\n", Plain)]);
      PlainAppend(ArgsPieces(params, ps[..|ps| - 1], width), one);
    }
  }

  /** Three parts, read through a style. */
  lemma StyledThree(a: seq<Piece>, b: seq<Piece>, c: seq<Piece>, s: Style)
    ensures Styled(a + b + c, s) == Styled(a, s) + Styled(b, s) + Styled(c, s)
  {
    StyledAppend(a + b, c, s);
    StyledAppend(a, b, s);
  }

  /** Plain pieces between two others add nothing to a style other than Plain. */
  lemma PlainBetween(a: seq<Piece>, lines: seq<Piece>, b: seq<Piece>, s: Style)
    requires AllPlain(lines) && s != Plain
    ensures Styled(a + lines + b, s) == Styled(a, s) + Styled(b, s)
  {
    StyledThree(a, lines, b, s);
    PlainStyled(lines, s);
  }

  lemma StyledOne(p: Piece, s: Style)
    ensures Styled([p], s) == if p.style == s then [p.text] else []
  {
    assert [p][1..] == [];
  }

  lemma StyledTwo(p: Piece, q: Piece, s: Style)
    ensures Styled([p, q], s) == Styled([p], s) + Styled([q], s)
  {
    assert [p, q] == [p] + [q];
    StyledAppend([p], [q], s);
  }

  lemma PlainLines(text: string)
    ensures AllPlain(LinePieces(text))
  {
  }

  /** NAME shows the title and the command's name in bold, and nothing underlined. */
  lemma NameStyled(name: string, short: Option<string>, width: int)
    ensures Styled(NameSection(name, short, width), Bold) == ["NAME\n", name]
    ensures Styled(NameSection(name, short, width), Underline) == []
  {
    var lines := LinePieces(Wrapped(OrEmpty(short), width, |name| + |Indent| + 4));
    PlainLines(Wrapped(OrEmpty(short), width, |name| + |Indent| + 4));
    NameLayout(name, lines);
  }

  /** The NAME layout around any plain lines. */
  lemma NameLayout(name: string, lines: seq<Piece>)
    requires AllPlain(lines)
    ensures var all := [Piece("NAME\n", Bold), Piece(Indent, Plain), Piece(name, Bold), Piece(" -- ", Plain)] + lines + [Piece("\n", Plain)];
            Styled(all, Bold) == ["NAME\n", name] && Styled(all, Underline) == []
  {
    var opening := [Piece("NAME\n", Bold), Piece(Indent, Plain), Piece(name, Bold), Piece(" -- ", Plain)];
    PlainBetween(opening, lines, [Piece("\n", Plain)], Bold);
    PlainBetween(opening, lines, [Piece("\n", Plain)], Underline);
    assert opening == [Piece("NAME\n", Bold), Piece(Indent, Plain)] + [Piece(name, Bold), Piece(" -- ", Plain)];
    forall s: Style | s != Plain
      ensures Styled(opening, s) == (if s == Bold then ["NAME\n", name] else []) && Styled([Piece("\n", Plain)], s) == []
    {
      StyledAppend([Piece("NAME\n", Bold), Piece(Indent, Plain)], [Piece(name, Bold), Piece(" -- ", Plain)], s);
      StyledTwo(Piece("NAME\n", Bold), Piece(Indent, Plain), s);
      StyledTwo(Piece(name, Bold), Piece(" -- ", Plain), s);
      StyledOne(Piece("NAME\n", Bold), s);
      StyledOne(Piece(Indent, Plain), s);
      StyledOne(Piece(name, Bold), s);
      StyledOne(Piece(" -- ", Plain), s);
      StyledOne(Piece("\n", Plain), s);
    }
  }

  /** A text section shows its title in bold, and nothing underlined. */
  lemma TextStyled(title: string, text: string, width: int)
    ensures Styled(TextSection(title, text, width), Bold) == [title]
    ensures Styled(TextSection(title, text, width), Underline) == []
  {
    var opening := [Piece(title, Bold), Piece(Indent, Plain)];
    var lines := LinePieces(Wrapped(text, width, |Indent|));
    PlainLines(Wrapped(text, width, |Indent|));
    PlainBetween(opening, lines, [Piece("\n", Plain)], Bold);
    PlainBetween(opening, lines, [Piece("\n", Plain)], Underline);
    forall s: Style | s != Plain
      ensures Styled(opening, s) == (if s == Bold then [title] else []) && Styled([Piece("\n", Plain)], s) == []
    {
      StyledTwo(Piece(title, Bold), Piece(Indent, Plain), s);
      StyledOne(Piece(title, Bold), s);
      StyledOne(Piece(Indent, Plain), s);
      StyledOne(Piece("\n", Plain), s);
    }
  }

  /** The sections before OPTIONS. */
  lemma HeadStyled(c: Command, argparseUsage: string, width: int)
    ensures Styled(Head(c, argparseUsage, width), Bold)
            == ["NAME\n", c.name, "SYNOPSIS\n"] + (if HasLong(c.func.doc) then ["DESCRIPTION\n"] else [])
    ensures Styled(Head(c, argparseUsage, width), Underline) == []
  {
    var doc := c.func.doc;
    var name := NameSection(c.name, doc.shortDescription, width);
    var synopsis := TextSection("SYNOPSIS\n", CommandUsage(c.name, argparseUsage), width);
    var description := if HasLong(doc) then TextSection("DESCRIPTION\n", doc.longDescription.value, width) else [];
    assert Head(c, argparseUsage, width) == name + synopsis + description;
    StyledThree(name, synopsis, description, Bold);
    StyledThree(name, synopsis, description, Underline);
    NameStyled(c.name, doc.shortDescription, width);
    TextStyled("SYNOPSIS\n", CommandUsage(c.name, argparseUsage), width);
    if HasLong(doc) {
      TextStyled("DESCRIPTION\n", doc.longDescription.value, width);
    }
    Titles("NAME\n", c.name, "SYNOPSIS\n", Styled(description, Bold));
  }

  lemma Titles(x: string, y: string, z: string, rest: seq<string>)
    ensures [x, y] + [z] + rest == [x, y, z] + rest
  {
  }

  /** Plain argument lists between the headings add nothing to a style other than Plain. */
  lemma OptionsParts(heading: seq<Piece>, a: seq<Piece>, sub: seq<Piece>, b: seq<Piece>, s: Style)
    requires AllPlain(a) && AllPlain(b) && s != Plain
    ensures Styled(heading + a + sub + b, s) == Styled(heading, s) + Styled(sub, s)
  {
    StyledThree(heading, a, sub, s);
    StyledAppend(heading + a + sub, b, s);
    PlainStyled(a, s);
    PlainStyled(b, s);
  }

  /** An underlined sub-header and nothing in bold, or nothing at all. */
  lemma SubheaderStyled(title: string, ps: seq<Param>)
    ensures Styled(Subheader(title, ps), Bold) == []
    ensures Styled(Subheader(title, ps), Underline) == if ps != [] then [title] else []
  {
    if ps != [] {
      StyledTwo(Piece(Indent, Plain), Piece(title, Underline), Bold);
      StyledTwo(Piece(Indent, Plain), Piece(title, Underline), Underline);
      StyledOne(Piece(Indent, Plain), Bold);
      StyledOne(Piece(Indent, Plain), Underline);
      StyledOne(Piece(title, Underline), Bold);
      StyledOne(Piece(title, Underline), Underline);
    }
  }

  /**
   * OPTIONS shows its title in bold when the docstring documents a parameter,
   * and "Required:" and "Optional:" underlined above the lists that are not
   * empty.
   */
  lemma OptionsStyled(params: seq<Meta>, required: seq<Param>, optional: seq<Param>, width: int)
    ensures Styled(OptionsSection(params, required, optional, width), Bold)
            == if params != [] then ["OPTIONS\n"] else []
    ensures Styled(OptionsSection(params, required, optional, width), Underline)
            == (if params != [] && required != [] then ["Required:\n"] else [])
               + (if params != [] && optional != [] then ["Optional:\n"] else [])
  {
    if params != [] {
      ArgsPlain(params, required, width);
      ArgsPlain(params, optional, width);
      OptionsLayout(required, optional, ArgsPieces(params, required, width), ArgsPieces(params, optional, width));
    }
  }

  /** The OPTIONS layout around any two plain argument lists. */
  lemma OptionsLayout(required: seq<Param>, optional: seq<Param>, a: seq<Piece>, b: seq<Piece>)
    requires AllPlain(a) && AllPlain(b)
    ensures var all := [Piece("OPTIONS\n", Bold)] + Subheader("Required:\n", required) + a + Subheader("Optional:\n", optional) + b;
            && Styled(all, Bold) == ["OPTIONS\n"]
            && Styled(all, Underline)
               == (if required != [] then ["Required:\n"] else []) + (if optional != [] then ["Optional:\n"] else [])
  {
    var title := [Piece("OPTIONS\n", Bold)];
    var heading := title + Subheader("Required:\n", required);
    var sub := Subheader("Optional:\n", optional);
    OptionsParts(heading, a, sub, b, Bold);
    OptionsParts(heading, a, sub, b, Underline);
    StyledAppend(title, Subheader("Required:\n", required), Bold);
    StyledAppend(title, Subheader("Required:\n", required), Underline);
    StyledOne(Piece("OPTIONS\n", Bold), Bold);
    StyledOne(Piece("OPTIONS\n", Bold), Underline);
    SubheaderStyled("Required:\n", required);
    SubheaderStyled("Optional:\n", optional);
  }

  /** The label an example's name is underlined with. */
  function ExampleLabel(m: Meta): string {
    (if |m.args| > 1 then m.args[1] else "None") + ":"
  }

  /** The labels of a list of examples, in order. */
  function Labels(examples: seq<Meta>): (r: seq<string>)
    ensures |r| == |examples| && forall k :: 0 <= k < |examples| ==> r[k] == ExampleLabel(examples[k])
  {
    seq(|examples|, k requires 0 <= k < |examples| => ExampleLabel(examples[k]))
  }

  lemma LabelsSnoc(examples: seq<Meta>)
    requires examples != []
    ensures Labels(examples) == Labels(examples[..|examples| - 1]) + [ExampleLabel(Last(examples))]
  {
  }

  /** One example shows nothing in bold and its label underlined. */
  lemma ExampleStyled(name: Option<string>, description: string, width: int)
    ensures Styled(ExamplePieces(name, description, width), Bold) == []
    ensures Styled(ExamplePieces(name, description, width), Underline) == [NameText(name) + ":"]
  {
    var caption := NameText(name) + ":";
    var opening := [Piece(Indent, Plain), Piece(caption, Underline), Piece("\n" + Indent + "  ", Plain)];
    var lines := LinePieces(Wrapped(description, width, |Indent| + 2));
    PlainLines(Wrapped(description, width, |Indent| + 2));
    PlainBetween(opening, lines, [], Bold);
    PlainBetween(opening, lines, [], Underline);
    assert opening + lines + [] == ExamplePieces(name, description, width);
    OpeningStyled(Piece(Indent, Plain), Piece(caption, Underline), Piece("\n" + Indent + "  ", Plain));
  }

  lemma OpeningStyled(p: Piece, q: Piece, t: Piece)
    requires p.style == Plain && q.style == Underline && t.style == Plain
    ensures Styled([p, q, t], Bold) == [] && Styled([p, q, t], Underline) == [q.text]
  {
    assert [p, q, t] == [p] + [q] + [t];
    forall s: Style
      ensures Styled([p, q, t], s) == Styled([p], s) + Styled([q], s) + Styled([t], s)
    {
      StyledThree([p], [q], [t], s);
    }
    StyledOne(p, Bold);
    StyledOne(q, Bold);
    StyledOne(t, Bold);
    StyledOne(p, Underline);
    StyledOne(q, Underline);
    StyledOne(t, Underline);
  }

  /** The examples show nothing in bold and each example's label underlined, in order. */
  lemma {:induction false} ExamplesStyled(examples: seq<Meta>, width: int)
    ensures ExamplesPieces(examples, width).Success? ==>
              && Styled(ExamplesPieces(examples, width).value, Bold) == []
              && Styled(ExamplesPieces(examples, width).value, Underline) == Labels(examples)
    decreases |examples|
  {
    if examples != [] && ExamplesPieces(examples, width).Success? {
      var front := examples[..|examples| - 1];
      var m := Last(examples);
      ExamplesStyled(front, width);
      var name := ExampleName(m).value;
      var before := ExamplesPieces(front, width).value;
      var one := ExamplePieces(name, m.description, width);
      assert ExamplesPieces(examples, width).value == before + one;
      assert NameText(name) + ":" == ExampleLabel(m);
      StyledAppend(before, one, Bold);
      StyledAppend(before, one, Underline);
      ExampleStyled(name, m.description, width);
      LabelsSnoc(examples);
    }
  }

  /**
   * A man page fails with IndexError exactly when a docstring entry has no
   * words, or an example entry has no name.
   */
  lemma HelpTextFails(c: Command, argparseUsage: string, width: int)
    ensures var meta := c.func.doc.meta;
            HelpText(c, argparseUsage, width).Failure? <==>
              || (exists k :: 0 <= k < |meta| && meta[k].args == [])
              || (exists k :: 0 <= k < |meta| && |meta[k].args| == 1 && meta[k].args[0] in ExampleTags)
    ensures HelpText(c, argparseUsage, width).Failure? ==> HelpText(c, argparseUsage, width).error == IndexError
  {
    var doc := c.func.doc;
    var meta := doc.meta;
    if Params(doc).Success? {
      var examples := Examples(doc).value;
      if exists k :: 0 <= k < |meta| && |meta[k].args| == 1 && meta[k].args[0] in ExampleTags {
        var k :| 0 <= k < |meta| && |meta[k].args| == 1 && meta[k].args[0] in ExampleTags;
        assert meta[k] in examples;
      }
      if ExamplesPieces(examples, width).Failure? {
        var k :| 0 <= k < |examples| && |examples[k].args| == 1;
        assert examples[k] in meta;
      }
    }
  }

  /** EXAMPLES shows its title in bold when there is an example, and each example's label underlined. */
  lemma ExamplesSectionStyled(examples: seq<Meta>, width: int)
    ensures var r := ExamplesSection(examples, width);
            r.Success? ==>
              && Styled(r.value, Bold) == (if examples != [] then ["EXAMPLES\n"] else [])
              && Styled(r.value, Underline) == Labels(examples)
  {
    if ExamplesPieces(examples, width).Success? {
      var ex := ExamplesPieces(examples, width).value;
      ExamplesStyled(examples, width);
      if examples != [] {
        StyledAppend([Piece("EXAMPLES\n", Bold)], ex, Bold);
        StyledAppend([Piece("EXAMPLES\n", Bold)], ex, Underline);
        StyledOne(Piece("EXAMPLES\n", Bold), Bold);
        StyledOne(Piece("EXAMPLES\n", Bold), Underline);
      }
    }
  }

  /** A successful man page is its three parts one after the other. */
  lemma HelpTextParts(c: Command, argparseUsage: string, width: int)
    requires HelpText(c, argparseUsage, width).Success?
    ensures Params(c.func.doc).Success? && Examples(c.func.doc).Success?
    ensures ExamplesSection(Examples(c.func.doc).value, width).Success?
    ensures HelpText(c, argparseUsage, width).value
            == Head(c, argparseUsage, width)
               + OptionsSection(Params(c.func.doc).value, c.required, c.optional, width)
               + ExamplesSection(Examples(c.func.doc).value, width).value
  {
  }

  /**
   * The bold pieces of a man page: the section titles in order, with the
   * command's name after NAME. DESCRIPTION is there when the long description
   * is not empty, OPTIONS when the docstring documents a parameter, EXAMPLES
   * when it holds an example.
   */
  lemma HelpTextBold(c: Command, argparseUsage: string, width: int)
    ensures var r := HelpText(c, argparseUsage, width);
            r.Success? ==>
              Styled(r.value, Bold)
              == ["NAME\n", c.name, "SYNOPSIS\n"]
                 + (if HasLong(c.func.doc) then ["DESCRIPTION\n"] else [])
                 + (if Params(c.func.doc).value != [] then ["OPTIONS\n"] else [])
                 + (if Examples(c.func.doc).value != [] then ["EXAMPLES\n"] else [])
  {
    if HelpText(c, argparseUsage, width).Success? {
      HelpTextParts(c, argparseUsage, width);
      var params := Params(c.func.doc).value;
      var examples := Examples(c.func.doc).value;
      var head := Head(c, argparseUsage, width);
      var options := OptionsSection(params, c.required, c.optional, width);
      var tail := ExamplesSection(examples, width).value;
      StyledThree(head, options, tail, Bold);
      HeadStyled(c, argparseUsage, width);
      OptionsStyled(params, c.required, c.optional, width);
      ExamplesSectionStyled(examples, width);
    }
  }

  lemma EmptyFront(x: seq<string>, y: seq<string>)
    ensures [] + x + y == x + y
  {
  }

  /**
   * The underlined pieces of a man page: "Required:" and "Optional:" above
   * the lists that are not empty, when the docstring documents a parameter,
   * then the label of every example in order.
   */
  lemma HelpTextUnderlined(c: Command, argparseUsage: string, width: int)
    ensures var r := HelpText(c, argparseUsage, width);
            r.Success? ==>
              Styled(r.value, Underline)
              == (if Params(c.func.doc).value != [] && c.required != [] then ["Required:\n"] else [])
                 + (if Params(c.func.doc).value != [] && c.optional != [] then ["Optional:\n"] else [])
                 + Labels(Examples(c.func.doc).value)
  {
    if HelpText(c, argparseUsage, width).Success? {
      HelpTextParts(c, argparseUsage, width);
      var params := Params(c.func.doc).value;
      var examples := Examples(c.func.doc).value;
      var head := Head(c, argparseUsage, width);
      var options := OptionsSection(params, c.required, c.optional, width);
      var tail := ExamplesSection(examples, width).value;
      StyledThree(head, options, tail, Underline);
      HeadStyled(c, argparseUsage, width);
      OptionsStyled(params, c.required, c.optional, width);
      ExamplesSectionStyled(examples, width);
      EmptyFront(Styled(options, Underline), Labels(examples));
    }
  }

  /** Every example of a man page has a name, so its label is that name and a colon. */
  lemma HelpTextExamplesNamed(c: Command, argparseUsage: string, width: int)
    ensures var examples := Examples(c.func.doc);
            HelpText(c, argparseUsage, width).Success? ==>
              forall k :: 0 <= k < |examples.value| ==>
                |examples.value[k].args| >= 2 && Labels(examples.value)[k] == examples.value[k].args[1] + ":"
  {
    if HelpText(c, argparseUsage, width).Success? {
      HelpTextParts(c, argparseUsage, width);
      var examples := Examples(c.func.doc).value;
      assert forall k :: 0 <= k < |examples| ==> examples[k] in examples;
    }
  }

  lemma RenderedFrame(opening: seq<Piece>, text: string, closing: seq<Piece>)
    ensures Rendered(opening + LinePieces(text) + closing) == Rendered(opening) + text + "\n" + Rendered(closing)
  {
    RenderedAppend(opening + LinePieces(text), closing);
    RenderedAppend(opening, LinePieces(text));
    RenderedLinePieces(text);
  }

  lemma RenderedOne(p: Piece)
    ensures Rendered([p]) == p.text
  {
    assert [p][1..] == [];
  }

  lemma RenderedTwo(p: Piece, q: Piece)
    ensures Rendered([p, q]) == p.text + q.text
  {
    assert [p, q] == [p] + [q];
    RenderedAppend([p], [q]);
    RenderedOne(p);
    RenderedOne(q);
  }

  lemma RenderedThree(p: Piece, q: Piece, t: Piece)
    ensures Rendered([p, q, t]) == p.text + q.text + t.text
  {
    assert [p, q, t] == [p, q] + [t];
    RenderedAppend([p, q], [t]);
    RenderedTwo(p, q);
    RenderedOne(t);
  }

  lemma RenderedFour(p: Piece, q: Piece, t: Piece, u: Piece)
    ensures Rendered([p, q, t, u]) == p.text + q.text + t.text + u.text
  {
    assert [p, q, t, u] == [p, q] + [t, u];
    RenderedAppend([p, q], [t, u]);
    RenderedTwo(p, q);
    RenderedTwo(t, u);
  }

  /** NAME reads as the title, the name, " -- ", the short description wrapped past them, and a blank line. */
  lemma NameRendered(name: string, short: Option<string>, width: int)
    ensures Rendered(NameSection(name, short, width))
            == "NAME\n" + Indent + name + " -- " + Wrapped(OrEmpty(short), width, |name| + |Indent| + 4) + "\n" + "\n"
  {
    var opening := [Piece("NAME\n", Bold), Piece(Indent, Plain), Piece(name, Bold), Piece(" -- ", Plain)];
    RenderedFrame(opening, Wrapped(OrEmpty(short), width, |name| + |Indent| + 4), [Piece("\n", Plain)]);
    RenderedFour(Piece("NAME\n", Bold), Piece(Indent, Plain), Piece(name, Bold), Piece(" -- ", Plain));
    RenderedOne(Piece("\n", Plain));
  }

  /** SYNOPSIS and DESCRIPTION read as the title, the text wrapped under the indentation, and a blank line. */
  lemma TextRendered(title: string, text: string, width: int)
    ensures Rendered(TextSection(title, text, width)) == title + Indent + Wrapped(text, width, |Indent|) + "\n" + "\n"
  {
    RenderedFrame([Piece(title, Bold), Piece(Indent, Plain)], Wrapped(text, width, |Indent|), [Piece("\n", Plain)]);
    RenderedTwo(Piece(title, Bold), Piece(Indent, Plain));
    RenderedOne(Piece("\n", Plain));
  }

  /** An argument reads as its prefix, its description on one line wrapped past the prefix, and a blank line. */
  lemma ArgRendered(params: seq<Meta>, p: Param, width: int)
    ensures Rendered(ArgPieces(params, p, width))
            == ArgPrefix(p) + Wrapped(DescriptionIn(params, p.name, None), width, |ArgPrefix(p)|) + "\n" + "\n"
  {
    RenderedFrame([Piece(ArgPrefix(p), Plain)], Wrapped(DescriptionIn(params, p.name, None), width, |ArgPrefix(p)|), [Piece("\n", Plain)]);
    RenderedOne(Piece(ArgPrefix(p), Plain));
    RenderedOne(Piece("\n", Plain));
  }

  /** An example reads as its name and a colon, then its description wrapped on the next line two columns deeper. */
  lemma ExampleRendered(name: Option<string>, description: string, width: int)
    ensures Rendered(ExamplePieces(name, description, width))
            == Indent + (NameText(name) + ":") + ("\n" + Indent + "  ") + (Wrapped(description, width, |Indent| + 2) + "\n")
  {
    var lines := LinePieces(Wrapped(description, width, |Indent| + 2));
    RenderedLinePieces(Wrapped(description, width, |Indent| + 2));
    ExampleLayout(NameText(name) + ":", lines);
  }

  lemma ExampleLayout(caption: string, lines: seq<Piece>)
    ensures Rendered([Piece(Indent, Plain), Piece(caption, Underline), Piece("\n" + Indent + "  ", Plain)] + lines)
            == Indent + caption + ("\n" + Indent + "  ") + Rendered(lines)
  {
    var opening := [Piece(Indent, Plain), Piece(caption, Underline), Piece("\n" + Indent + "  ", Plain)];
    RenderedAppend(opening, lines);
    RenderedThree(Piece(Indent, Plain), Piece(caption, Underline), Piece("\n" + Indent + "  ", Plain));
  }

  /** Every argument of a list is shown with its prefix. */
  lemma {:induction false} ArgsShown(params: seq<Meta>, ps: seq<Param>, width: int)
    ensures forall p :: p in ps ==> Piece(ArgPrefix(p), Plain) in ArgsPieces(params, ps, width)
    decreases |ps|
  {
    if ps != [] {
      var front := ps[..|ps| - 1];
      ArgsShown(params, front, width);
      var one := ArgPieces(params, Last(ps), width);
      assert one[0] == Piece(ArgPrefix(Last(ps)), Plain);
      assert forall p :: p in ps ==> p in front || p == Last(ps) by {
        assert ps == front + [Last(ps)];
      }
    }
  }

  /**
   * When the docstring documents a parameter, every required and optional
   * argument of the command is shown with its prefix; when it documents none,
   * no argument is shown at all.
   */
  lemma HelpTextShowsArgs(c: Command, argparseUsage: string, width: int)
    ensures var r := HelpText(c, argparseUsage, width);
            r.Success? && Params(c.func.doc).value != [] ==>
              forall p :: p in c.required || p in c.optional ==> Piece(ArgPrefix(p), Plain) in r.value
    ensures var r := HelpText(c, argparseUsage, width);
            r.Success? && Params(c.func.doc).value == [] ==>
              OptionsSection(Params(c.func.doc).value, c.required, c.optional, width) == []
  {
    if HelpText(c, argparseUsage, width).Success? && Params(c.func.doc).value != [] {
      HelpTextParts(c, argparseUsage, width);
      var params := Params(c.func.doc).value;
      ArgsShown(params, c.required, width);
      ArgsShown(params, c.optional, width);
    }
  }
}
