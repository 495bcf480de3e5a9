/**
 * The parts of Python's `str` behaviour that the shell relies on: whitespace,
 * strip, split and join on a literal separator, first-occurrence replace,
 * padding, decimal `int()`/`str()` and `str.title()` on ASCII text, and the
 * code-point order that `sorted()` uses on strings.
 */
module PyText {
  import opened Wrappers

  /** Python's `str.isspace()`: what `strip()`, `lstrip()` and `rstrip()` remove. */
  predicate IsSpace(c: char) {
    c == ' ' || ('\t' <= c <= '\r') || ('\U{1c}' <= c <= '\U{1f}')
    || c == '\U{85}' || c == '\U{a0}' || c == '\U{1680}'
    || ('\U{2000}' <= c <= '\U{200a}') || c == '\U{2028}' || c == '\U{2029}'
    || c == '\U{202f}' || c == '\U{205f}' || c == '\U{3000}'
  }

  /** `' ' * n`, which is empty for a negative `n`. */
  function Spaces(n: int): (r: string)
    ensures |r| == if n < 0 then 0 else n
    ensures forall i :: 0 <= i < |r| ==> r[i] == ' '
  {
    if n <= 0 then "" else seq(n, _ => ' ')
  }

  /** `c * n` for a one-character string. */
  function Repeat(c: char, n: nat): (r: string)
    ensures |r| == n && forall i :: 0 <= i < n ==> r[i] == c
  {
    seq(n, _ => c)
  }

  /** `s.ljust(width)`. */
  function Ljust(s: string, width: int): (r: string)
    ensures r == s + Spaces(width - |s|)
    ensures |r| == if width > |s| then width else |s|
  {
    s + Spaces(width - |s|)
  }

  predicate StartsWith(s: string, p: string) {
    |p| <= |s| && s[..|p|] == p
  }

  /** A string does not start with `p` when they differ at a position both have. */
  lemma DiffersAt(s: string, p: string, i: nat)
    requires i < |s| && i < |p| && s[i] != p[i]
    ensures !StartsWith(s, p)
  {
  }

  lemma StartsWithConcat(a: string, b: string)
    ensures StartsWith(a + b, a)
  {
    assert (a + b)[..|a|] == a;
  }

  predicate EndsWith(s: string, p: string) {
    |p| <= |s| && s[|s| - |p|..] == p
  }

  function LStrip(s: string): (r: string)
    ensures |r| <= |s|
    ensures r == "" || !IsSpace(r[0])
    ensures forall i :: 0 <= i < |s| - |r| ==> IsSpace(s[i])
    decreases |s|
  {
    if s == "" || !IsSpace(s[0]) then s else LStrip(s[1..])
  }

  /** What `lstrip` keeps is a suffix of the text. */
  lemma {:induction false} LStripSuffix(s: string)
    ensures LStrip(s) == s[|s| - |LStrip(s)|..]
    decreases |s|
  {
    if s != "" && IsSpace(s[0]) {
      LStripSuffix(s[1..]);
      assert s[1..][|s| - 1 - |LStrip(s)|..] == s[|s| - |LStrip(s)|..];
    }
  }

  function RStrip(s: string): (r: string)
    ensures |r| <= |s|
    ensures r == "" || !IsSpace(r[|r| - 1])
    ensures forall i :: |r| <= i < |s| ==> IsSpace(s[i])
    decreases |s|
  {
    if s == "" || !IsSpace(s[|s| - 1]) then s else RStrip(s[..|s| - 1])
  }

  /** What `rstrip` keeps is a prefix of the text. */
  lemma {:induction false} RStripPrefix(s: string)
    ensures RStrip(s) == s[..|RStrip(s)|]
    decreases |s|
  {
    if s != "" && IsSpace(s[|s| - 1]) {
      RStripPrefix(s[..|s| - 1]);
    }
  }

  /** `s.strip()`: both ends. */
  function Strip(s: string): (r: string)
    ensures r == "" || (!IsSpace(r[0]) && !IsSpace(r[|r| - 1]))
  {
    var l := LStrip(s);
    var r := RStrip(l);
    RStripPrefix(l);
    assert r == "" || r[0] == l[0];
    r
  }

  lemma StripUnchanged(s: string)
    requires s == "" || (!IsSpace(s[0]) && !IsSpace(s[|s| - 1]))
    ensures Strip(s) == s && LStrip(s) == s && RStrip(s) == s
  {
  }

  /** `p` occurs in `s` at index `j`. */
  predicate OccursAt(s: string, p: string, j: int) {
    0 <= j && j + |p| <= |s| && s[j..j + |p|] == p
  }

  /** `s.find(p, k)`: the first index at or after `k` where `p` occurs, or -1. */
  function FindFrom(s: string, p: string, k: nat): (r: int)
    requires k <= |s|
    ensures r == -1 || (k <= r && OccursAt(s, p, r))
    ensures r == -1 <==> forall j :: k <= j <= |s| ==> !OccursAt(s, p, j)
    ensures r >= 0 ==> forall j :: k <= j < r ==> !OccursAt(s, p, j)
    decreases |s| - k
  {
    if k + |p| > |s| then -1
    else if s[k..k + |p|] == p then k
    else if k == |s| then -1
    else FindFrom(s, p, k + 1)
  }

  /** Python's `p in s`. */
  predicate Contains(s: string, p: string) {
    FindFrom(s, p, 0) >= 0
  }

  lemma ContainsAt(s: string, p: string, j: int)
    requires OccursAt(s, p, j)
    ensures Contains(s, p)
  {
  }

  /** A suffix of a string in which `p` does not occur does not contain `p` either. */
  lemma SuffixAvoids(s: string, p: string, k: nat)
    requires k <= |s| && !Contains(s, p)
    ensures !Contains(s[k..], p)
  {
    if Contains(s[k..], p) {
      var j := FindFrom(s[k..], p, 0);
      assert s[k..][j..j + |p|] == s[k + j..k + j + |p|];
      assert OccursAt(s, p, k + j);
    }
  }

  /** A text none of whose characters is the first character of `p` does not contain `p`. */
  lemma AbsentFirstChar(s: string, p: string)
    requires p != "" && forall i :: 0 <= i < |s| ==> s[i] != p[0]
    ensures !Contains(s, p)
  {
    FoundFirstChar(s, p);
  }

  /** Where `p` is found, the text has the first character of `p`. */
  lemma FoundFirstChar(s: string, p: string)
    requires p != ""
    ensures var j := FindFrom(s, p, 0); j >= 0 ==> s[j] == p[0]
  {
    var j := FindFrom(s, p, 0);
    if j >= 0 {
      assert s[j..j + |p|][0] == s[j];
    }
  }

  /** `s.split(sep)` for a non-empty literal separator. */
  function Split(s: string, sep: string): (r: seq<string>)
    requires sep != ""
    ensures |r| >= 1
    decreases |s|
  {
    var i := FindFrom(s, sep, 0);
    if i < 0 then [s] else [s[..i]] + Split(s[i + |sep|..], sep)
  }

  /** Without the separator there is one piece; with it, at least two, each shorter than the text. */
  lemma {:induction false} SplitPieceLengths(s: string, sep: string)
    requires sep != ""
    ensures !Contains(s, sep) ==> Split(s, sep) == [s]
    ensures forall k :: 0 <= k < |Split(s, sep)| ==> |Split(s, sep)[k]| <= |s|
    ensures Contains(s, sep) ==>
      |Split(s, sep)| >= 2 && forall k :: 0 <= k < |Split(s, sep)| ==> |Split(s, sep)[k]| < |s|
    decreases |s|
  {
    var i := FindFrom(s, sep, 0);
    if i >= 0 {
      var rest := s[i + |sep|..];
      SplitPieceLengths(rest, sep);
      var r := Split(s, sep);
      assert r == [s[..i]] + Split(rest, sep);
      forall k | 0 <= k < |r| ensures |r[k]| < |s| {
        if k > 0 { assert r[k] == Split(rest, sep)[k - 1]; }
      }
    }
  }

  /** `sep.join(parts)`. */
  function Join(sep: string, parts: seq<string>): string {
    if |parts| == 0 then ""
    else if |parts| == 1 then parts[0]
    else parts[0] + sep + Join(sep, parts[1..])
  }

  function Last<T>(s: seq<T>): T
    requires |s| > 0
  {
    s[|s| - 1]
  }

  /** Joining a list of at least two pieces puts the separator after the first. */
  lemma JoinCons(sep: string, a: string, t: seq<string>)
    requires |t| >= 1
    ensures Join(sep, [a] + t) == a + sep + Join(sep, t)
  {
    assert ([a] + t)[1..] == t;
  }

  /** Every piece of a join occurs in the joined text. */
  lemma {:induction false} JoinContains(sep: string, parts: seq<string>, k: nat)
    requires k < |parts|
    ensures Contains(Join(sep, parts), parts[k])
    decreases |parts|
  {
    if |parts| == 1 {
      assert OccursAt(parts[0], parts[0], 0) by { assert parts[0][0..|parts[0]|] == parts[0]; }
      ContainsAt(parts[0], parts[0], 0);
    } else {
      var t := parts[1..];
      assert parts == [parts[0]] + t;
      JoinCons(sep, parts[0], t);
      if k == 0 {
        var s := Join(sep, parts);
        assert s[0..|parts[0]|] == parts[0];
        ContainsAt(s, parts[0], 0);
      } else {
        JoinContains(sep, t, k - 1);
        assert Join(sep, parts) == parts[0] + sep + Join(sep, t) + "";
        InfixContains(parts[0] + sep, Join(sep, t), "", parts[k]);
      }
    }
  }

  /** One step of a split: no separator gives the text; otherwise the text up to the first one, then the rest split. */
  lemma SplitStep(s: string, sep: string)
    requires sep != ""
    ensures var i := FindFrom(s, sep, 0);
      && (i < 0 ==> Split(s, sep) == [s])
      && (i >= 0 ==> Split(s, sep) == [s[..i]] + Split(s[i + |sep|..], sep)
                     && s == s[..i] + sep + s[i + |sep|..])
  {
    var i := FindFrom(s, sep, 0);
    if i >= 0 {
      assert s[i..i + |sep|] == sep;
      assert s == s[..i] + s[i..i + |sep|] + s[i + |sep|..];
    }
  }

  /** A one-character separator that does not appear leaves the text in one piece. */
  lemma SplitAbsentChar(s: string, c: char)
    requires forall i :: 0 <= i < |s| ==> s[i] != c
    ensures Split(s, [c]) == [s]
  {
    if Contains(s, [c]) {
      var j := FindFrom(s, [c], 0);
      assert s[j..j + 1][0] == s[j];
    }
    SplitStep(s, [c]);
  }

  /** Splitting at the first occurrence of a one-character separator. */
  lemma SplitAtChar(a: string, c: char, b: string)
    requires forall i :: 0 <= i < |a| ==> a[i] != c
    ensures Split(a + [c] + b, [c]) == [a] + Split(b, [c])
  {
    var s := a + [c] + b;
    assert OccursAt(s, [c], |a|) by { assert s[|a|..|a| + 1] == [c]; }
    forall j | 0 <= j < |a| ensures !OccursAt(s, [c], j) {
      assert s[j..j + 1] == [a[j]];
    }
    var j := FindFrom(s, [c], 0);
    assert j == |a|;
    SplitStep(s, [c]);
    assert s[..|a|] == a && s[|a| + 1..] == b;
  }

  /** Splitting words joined with a one-character separator they do not contain gives the words back. */
  lemma {:induction false} SplitJoinChar(ws: seq<string>, c: char)
    requires |ws| >= 1
    requires forall k, i :: 0 <= k < |ws| && 0 <= i < |ws[k]| ==> ws[k][i] != c
    ensures Split(Join([c], ws), [c]) == ws
  {
    if |ws| == 1 {
      SplitAbsentChar(ws[0], c);
    } else {
      SplitJoinChar(ws[1..], c);
      JoinCons([c], ws[0], ws[1..]);
      assert ws == [ws[0]] + ws[1..];
      SplitAtChar(ws[0], c, Join([c], ws[1..]));
    }
  }

  /** Joining the pieces of a split with the same separator gives the text back. */
  lemma {:induction false} JoinSplit(s: string, sep: string)
    requires sep != ""
    ensures Join(sep, Split(s, sep)) == s
    decreases |s|
  {
    var i := FindFrom(s, sep, 0);
    SplitStep(s, sep);
    if i >= 0 {
      var rest := s[i + |sep|..];
      JoinSplit(rest, sep);
      JoinCons(sep, s[..i], Split(rest, sep));
    }
  }

  /** No piece of a split contains the separator. */
  lemma {:induction false} SplitPiecesAvoid(s: string, sep: string)
    requires sep != ""
    ensures forall k :: 0 <= k < |Split(s, sep)| ==> !Contains(Split(s, sep)[k], sep)
    decreases |s|
  {
    var i := FindFrom(s, sep, 0);
    SplitStep(s, sep);
    if i >= 0 {
      var rest := s[i + |sep|..];
      SplitPiecesAvoid(rest, sep);
      PrefixBeforeFirstAvoids(s, sep, i);
      ConsAvoids(s[..i], Split(rest, sep), sep);
    } else {
      assert !Contains(s, sep);
    }
  }

  lemma ConsAvoids(a: string, t: seq<string>, p: string)
    requires !Contains(a, p) && forall k :: 0 <= k < |t| ==> !Contains(t[k], p)
    ensures forall k :: 0 <= k < |[a] + t| ==> !Contains(([a] + t)[k], p)
  {
    forall k | 0 <= k < |[a] + t| ensures !Contains(([a] + t)[k], p) {
      if k > 0 { assert ([a] + t)[k] == t[k - 1]; }
    }
  }

  /** The text before the first occurrence of `p` does not contain `p`. */
  /** An occurrence inside `b` is an occurrence inside `a + b + c`. */
  lemma InfixContains(a: string, b: string, c: string, p: string)
    requires Contains(b, p)
    ensures Contains(a + b + c, p)
  {
    var j := FindFrom(b, p, 0);
    var s := a + b + c;
    assert s[|a| + j..|a| + j + |p|] == b[j..j + |p|];
    ContainsAt(s, p, |a| + j);
  }

  lemma InfixAvoids(a: string, b: string, c: string, p: string)
    requires !Contains(a + b + c, p)
    ensures !Contains(b, p)
  {
    if Contains(b, p) {
      InfixContains(a, b, c, p);
    }
  }

  /** The pieces of a split avoid whatever the whole string avoids. */
  lemma {:induction false} SplitPiecesInherit(s: string, sep: string, p: string)
    requires sep != "" && !Contains(s, p)
    ensures forall k :: 0 <= k < |Split(s, sep)| ==> !Contains(Split(s, sep)[k], p)
    decreases |s|
  {
    var i := FindFrom(s, sep, 0);
    SplitStep(s, sep);
    if i >= 0 {
      var rest := s[i + |sep|..];
      PrefixAvoids(s, p, i);
      SuffixAvoids(s, p, i + |sep|);
      SplitPiecesInherit(rest, sep, p);
      ConsAvoids(s[..i], Split(rest, sep), p);
    }
  }

  lemma PrefixAvoids(s: string, p: string, k: nat)
    requires k <= |s| && !Contains(s, p)
    ensures !Contains(s[..k], p)
  {
    assert "" + s[..k] + s[k..] == s;
    InfixAvoids("", s[..k], s[k..], p);
  }

  /** Stripping cannot create an occurrence. */
  lemma StripAvoids(s: string, p: string)
    requires !Contains(s, p)
    ensures !Contains(Strip(s), p)
  {
    var l := LStrip(s);
    LStripSuffix(s);
    SuffixAvoids(s, p, |s| - |l|);
    var r := RStrip(l);
    RStripPrefix(l);
    PrefixAvoids(l, p, |r|);
    assert Strip(s) == r;
  }

  lemma PrefixBeforeFirstAvoids(s: string, p: string, i: int)
    requires p != "" && 0 <= i <= |s| && i == FindFrom(s, p, 0)
    ensures !Contains(s[..i], p)
  {
    if Contains(s[..i], p) {
      var j := FindFrom(s[..i], p, 0);
      assert s[..i][j..j + |p|] == s[j..j + |p|];
      assert OccursAt(s, p, j);
    }
  }

  /** The last piece of a split is a suffix of the text. */
  lemma SplitLastSuffix(s: string, sep: string)
    requires sep != ""
    ensures EndsWith(s, Last(Split(s, sep)))
  {
    JoinSplit(s, sep);
    JoinLastSuffix(sep, Split(s, sep));
  }

  /** The last part of a join is a suffix of the joined text. */
  lemma {:induction false} JoinLastSuffix(sep: string, parts: seq<string>)
    requires |parts| > 0
    ensures EndsWith(Join(sep, parts), Last(parts))
    decreases |parts|
  {
    if |parts| == 1 {
      assert Join(sep, parts)[|parts[0]| - |parts[0]|..] == parts[0];
    } else {
      var t := parts[1..];
      JoinLastSuffix(sep, t);
      var j := Join(sep, t);
      var front := parts[0] + sep;
      assert Join(sep, parts) == front + j;
      assert Last(parts) == Last(t);
      assert (front + j)[|front + j| - |Last(t)|..] == j[|j| - |Last(t)|..];
    }
  }

  lemma LastOfCons<T>(a: T, t: seq<T>)
    requires |t| > 0
    ensures Last([a] + t) == Last(t)
  {
  }

  lemma SuffixOfSuffix(s: string, k: nat, n: nat)
    requires k <= |s| && n <= |s| - k
    ensures s[k..][|s| - k - n..] == s[|s| - n..]
  {
  }

  function Reverse(s: string): (r: string)
    ensures |r| == |s| && forall i :: 0 <= i < |s| ==> r[i] == s[|s| - 1 - i]
  {
    seq(|s|, i requires 0 <= i < |s| => s[|s| - 1 - i])
  }

  /** `s.replace(old, new, 1)`. */
  function ReplaceFirst(s: string, pat: string, rep: string): string {
    var i := FindFrom(s, pat, 0);
    if i < 0 then s else s[..i] + rep + s[i + |pat|..]
  }

  /** `s.replace(c, rep)` for a single character `c`: every occurrence. */
  function ReplaceChar(s: string, c: char, rep: string): string {
    if s == "" then ""
    else (if s[0] == c then rep else [s[0]]) + ReplaceChar(s[1..], c, rep)
  }

  /** A text without the character is left as it is. */
  lemma {:induction false} ReplaceCharAbsent(s: string, c: char, rep: string)
    requires forall i :: 0 <= i < |s| ==> s[i] != c
    ensures ReplaceChar(s, c, rep) == s
    decreases |s|
  {
    if s != "" {
      ReplaceCharAbsent(s[1..], c, rep);
      assert s == [s[0]] + s[1..];
    }
  }

  /** Replacing a character by a text without it leaves no occurrence of it. */
  lemma {:induction false} ReplaceCharRemoves(s: string, c: char, rep: string)
    requires forall i :: 0 <= i < |rep| ==> rep[i] != c
    ensures forall i :: 0 <= i < |ReplaceChar(s, c, rep)| ==> ReplaceChar(s, c, rep)[i] != c
    decreases |s|
  {
    if s != "" {
      ReplaceCharRemoves(s[1..], c, rep);
    }
  }

  /** `''.join(parts)`. */
  function Concat(parts: seq<string>): string {
    if parts == [] then "" else parts[0] + Concat(parts[1..])
  }

  lemma {:induction false} ConcatAppend(a: seq<string>, b: seq<string>)
    ensures Concat(a + b) == Concat(a) + Concat(b)
  {
    if a == [] {
      assert a + b == b;
    } else {
      var ab := a + b;
      assert ab[0] == a[0] && ab[1..] == a[1..] + b;
      ConcatAppend(a[1..], b);
      calc {
        Concat(ab);
        ab[0] + Concat(ab[1..]);
        a[0] + (Concat(a[1..]) + Concat(b));
        (a[0] + Concat(a[1..])) + Concat(b);
      }
    }
  }

  // ---------------------------------------------------------------------
  // shlex.split, restricted to unquoted input

  /** The characters `shlex` treats as separators. */
  predicate IsShlexSpace(c: char) {
    c == ' ' || c == '\t' || c == '\r' || c == '\n'
  }

  /** The number of leading characters of `s` that are not separators. */
  function RunLength(s: string): (n: nat)
    ensures n <= |s|
    ensures forall i :: 0 <= i < n ==> !IsShlexSpace(s[i])
    ensures n < |s| ==> IsShlexSpace(s[n])
  {
    if s == "" || IsShlexSpace(s[0]) then 0 else 1 + RunLength(s[1..])
  }

  /** The tokens of `s`: maximal runs of non-separator characters, in order. */
  function Tokens(s: string): (r: seq<string>)
    ensures forall k :: 0 <= k < |r| ==> r[k] != "" && forall i :: 0 <= i < |r[k]| ==> !IsShlexSpace(r[k][i])
    decreases |s|
  {
    if s == "" then []
    else if IsShlexSpace(s[0]) then Tokens(s[1..])
    else
      var n := RunLength(s);
      [s[..n]] + Tokens(s[n..])
  }

  // ---------------------------------------------------------------------
  // Decimal integers: str(n) and int(s)

  predicate IsDigit(c: char) {
    '0' <= c <= '9'
  }

  function DigitChar(d: nat): (c: char)
    requires d < 10
    ensures IsDigit(c)
  {
    ('0' as int + d) as char
  }

  function DigitValue(c: char): (d: nat)
    requires IsDigit(c)
    ensures d < 10
  {
    c as int - '0' as int
  }

  /** `str(n)` for a natural number. */
  function NatToStr(n: nat): (r: string)
    ensures |r| >= 1 && forall i :: 0 <= i < |r| ==> IsDigit(r[i])
  {
    if n < 10 then [DigitChar(n)] else NatToStr(n / 10) + [DigitChar(n % 10)]
  }

  /** `str(n)` for any integer. */
  function IntToStr(n: int): string {
    if n < 0 then "-" + NatToStr(-n) else NatToStr(n)
  }

  /** Digits with single underscores between them, as Python's `int()` accepts. */
  predicate ValidDigits(s: string) {
    && |s| >= 1
    && IsDigit(s[0])
    && IsDigit(s[|s| - 1])
    && (forall i :: 0 <= i < |s| ==> IsDigit(s[i]) || s[i] == '_')
    && (forall i, j :: 0 <= i && j == i + 1 < |s| ==> !(s[i] == '_' && s[j] == '_'))
  }

  /** The number the digits of `s` spell, ignoring underscores. */
  function DigitsValue(s: string): nat
    requires forall i :: 0 <= i < |s| ==> IsDigit(s[i]) || s[i] == '_'
  {
    if s == "" then 0
    else if s[|s| - 1] == '_' then DigitsValue(s[..|s| - 1])
    else DigitsValue(s[..|s| - 1]) * 10 + DigitValue(s[|s| - 1])
  }

  function ParseDigits(s: string): Option<nat> {
    if ValidDigits(s) then Some(DigitsValue(s)) else None
  }

  /** Python's `int(s)` on ASCII decimal text: surrounding whitespace, an optional sign, digits. */
  function ParseInt(s: string): Option<int> {
    var t := Strip(s);
    if |t| > 0 && (t[0] == '-' || t[0] == '+') then
      match ParseDigits(t[1..])
      case None => None
      case Some(d) =>
        var di: int := d;
        var v: int := if t[0] == '-' then -di else di;
        Some(v)
    else
      match ParseDigits(t)
      case None => None
      case Some(d) => Some(d)
  }

  lemma {:induction false} NatToStrValue(n: nat)
    ensures ValidDigits(NatToStr(n)) && DigitsValue(NatToStr(n)) == n
  {
    var r := NatToStr(n);
    if n >= 10 {
      NatToStrValue(n / 10);
      assert r[..|r| - 1] == NatToStr(n / 10);
    }
  }

  /** `int(str(n)) == n`. */
  lemma ParseIntToStr(n: int)
    ensures ParseInt(IntToStr(n)) == Some(n)
  {
    if n < 0 {
      ParseNegativeToStr(n);
    } else {
      ParseNatToStr(n);
    }
  }

  lemma ParseNatToStr(n: int)
    requires n >= 0
    ensures ParseInt(IntToStr(n)) == Some(n)
  {
    var t := NatToStr(n);
    NatToStrValue(n);
    assert IsDigit(t[0]) && IsDigit(t[|t| - 1]);
    StripUnchanged(t);
    assert ParseDigits(t) == Some(n);
  }

  lemma ParseNegativeToStr(n: int)
    requires n < 0
    ensures ParseInt(IntToStr(n)) == Some(n)
  {
    var u := NatToStr(-n);
    var t := IntToStr(n);
    assert t == "-" + u && t[1..] == u;
    NatToStrValue(-n);
    assert ParseDigits(t[1..]) == Some(-n);
    assert t[|t| - 1] == u[|u| - 1];
    StripUnchanged(t);
  }

  // ---------------------------------------------------------------------
  // str.title() and str.lower() on ASCII letters

  predicate IsUpper(c: char) { 'A' <= c <= 'Z' }
  predicate IsLower(c: char) { 'a' <= c <= 'z' }
  predicate IsLetter(c: char) { IsUpper(c) || IsLower(c) }

  function ToUpper(c: char): char {
    if IsLower(c) then (c as int - 32) as char else c
  }

  function ToLower(c: char): char {
    if IsUpper(c) then (c as int + 32) as char else c
  }

  /** `str.title()`: a letter after a letter is lowered, any other letter is raised. */
  function TitleFrom(s: string, afterLetter: bool): (r: string)
    ensures |r| == |s|
  {
    if s == "" then ""
    else
      var c := s[0];
      var c' := if !IsLetter(c) then c else if afterLetter then ToLower(c) else ToUpper(c);
      [c'] + TitleFrom(s[1..], IsLetter(c))
  }

  function Title(s: string): (r: string)
    ensures |r| == |s|
  {
    TitleFrom(s, false)
  }

  // ---------------------------------------------------------------------
  // The order `sorted()` puts strings in

  /** Python's `a < b` on strings: code point by code point. */
  predicate LexLess(a: string, b: string) {
    if a == "" then b != ""
    else if b == "" then false
    else if a[0] != b[0] then a[0] < b[0]
    else LexLess(a[1..], b[1..])
  }

  lemma {:induction false} LexIrreflexive(a: string)
    ensures !LexLess(a, a)
  {
    if a != "" { LexIrreflexive(a[1..]); }
  }

  lemma {:induction false} LexTransitive(a: string, b: string, c: string)
    requires LexLess(a, b) && LexLess(b, c)
    ensures LexLess(a, c)
  {
    if a != "" && b != "" && c != "" && a[0] == b[0] && b[0] == c[0] {
      LexTransitive(a[1..], b[1..], c[1..]);
    }
  }

  lemma {:induction false} LexTotal(a: string, b: string)
    requires a != b
    ensures LexLess(a, b) || LexLess(b, a)
  {
    if a != "" && b != "" && a[0] == b[0] {
      assert a == [a[0]] + a[1..] && b == [b[0]] + b[1..];
      LexTotal(a[1..], b[1..]);
    }
  }

  predicate StrictlySorted(s: seq<string>) {
    forall i, j :: 0 <= i < j < |s| ==> LexLess(s[i], s[j])
  }

  /** Inserting a new string into a strictly sorted list at its place. */
  function InsertSorted(s: seq<string>, x: string): (r: seq<string>)
    requires StrictlySorted(s) && x !in s
    ensures StrictlySorted(r)
    ensures forall y :: y in r <==> y in s || y == x
    ensures |r| == |s| + 1
  {
    if s == [] then [x]
    else if LexLess(x, s[0]) then
      assert forall j :: 0 <= j < |s| ==> LexLess(x, s[j]) by {
        forall j | 0 < j < |s| { LexTransitive(x, s[0], s[j]); }
      }
      [x] + s
    else
      LexTotal(x, s[0]);
      var t := InsertSorted(s[1..], x);
      assert forall y :: y in t ==> LexLess(s[0], y) by {
        forall y | y in t ensures LexLess(s[0], y) {
          if y != x {
            var j :| 0 <= j < |s[1..]| && s[1..][j] == y;
            assert s[j + 1] == y;
          }
        }
      }
      [s[0]] + t
  }

  /** `sorted(keys)` of a set of strings. */
  method SortedStrings(keys: set<string>) returns (r: seq<string>)
    ensures StrictlySorted(r)
    ensures forall y :: y in r <==> y in keys
    ensures |r| == |keys|
  {
    r := [];
    var rest := keys;
    while rest != {}
      invariant StrictlySorted(r)
      invariant rest <= keys
      invariant forall y :: y in r <==> y in keys && y !in rest
      invariant |r| + |rest| == |keys|
      decreases |rest|
    {
      var x :| x in rest;
      r := InsertSorted(r, x);
      rest := rest - {x};
    }
  }
}
