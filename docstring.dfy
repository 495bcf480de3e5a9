/**
 * The accessors of a parsed docstring: the short and long description and
 * the meta entries, each the words before a section's colon (`:param x:`,
 * `Args:` items, ...) and the description after it. Reading the first word
 * of an entry without words raises IndexError, as indexing an empty Python
 * list does.
 */
module Docstring {
  import opened Wrappers

  /** One meta entry. Every meta class of the parser carries exactly these two fields. */
  datatype Meta = Meta(args: seq<string>, description: string)

  datatype Doc = Doc(shortDescription: Option<string>, longDescription: Option<string>, meta: seq<Meta>)

  const IndexError: string := "IndexError"

  const ParamTags: set<string> := {"param", "parameter", "arg", "argument", "key", "keyword"}
  const RaisesTags: set<string> := {"raises", "raise", "except", "exception"}
  const ReturnsTags: set<string> := {"return", "returns", "yield", "yields"}
  const ExampleTags: set<string> := {"example", "examples"}

  /** `DocstringParam.arg_name`: the third word if there is one, else the second. */
  function ArgName(m: Meta): (r: Option<string>)
    ensures r.Some? <==> |m.args| >= 2
    ensures r.Some? ==> r.value == m.args[if |m.args| > 2 then 2 else 1]
  {
    if |m.args| > 2 then Some(m.args[2])
    else if |m.args| > 1 then Some(m.args[1])
    else None
  }

  /** `DocstringParam.type_name`: the second word, only when a name follows it. */
  function ParamTypeName(m: Meta): (r: Option<string>)
    ensures r.Some? <==> |m.args| > 2
    ensures r.Some? ==> r.value == m.args[1]
  {
    if |m.args| > 2 then Some(m.args[1]) else None
  }

  /**
   * A param entry of two or three words is its tag, its type name when it
   * has one, and its argument name: the two accessors take it apart.
   */
  lemma ParamWords(m: Meta)
    requires 2 <= |m.args| <= 3
    ensures ArgName(m).Some?
    ensures m.args == [m.args[0]] + (if ParamTypeName(m).Some? then [ParamTypeName(m).value] else [])
                      + [ArgName(m).value]
  {
  }

  /** `DocstringTypeMeta.type_name` (returns, raises, examples): the second word, if any. */
  function TypeName(m: Meta): (r: Option<string>)
    ensures r.Some? <==> |m.args| > 1
    ensures r.Some? ==> r.value == m.args[1]
  {
    if |m.args| > 1 then Some(m.args[1]) else None
  }

  /**
   * A type meta and a param read the type from the same word, but a param
   * of two words has none: its second word is the argument name.
   */
  lemma TypeNamesDiffer(m: Meta)
    requires |m.args| == 2
    ensures TypeName(m) == Some(m.args[1]) && ParamTypeName(m) == None
    ensures ArgName(m) == TypeName(m)
  {
  }

  /**
   * `DocstringExamples.name`: the second word of a non-empty entry, None for
   * an empty one; an entry of one word raises IndexError.
   */
  function ExampleName(m: Meta): (r: Result<Option<string>, string>)
    ensures r.Failure? <==> |m.args| == 1
    ensures r.Failure? ==> r.error == IndexError
    ensures r == Success(None) <==> m.args == []
    ensures r.Success? && r.value.Some? ==> r.value.value == m.args[1]
  {
    if m.args != [] then
      if |m.args| > 1 then Success(Some(m.args[1])) else Failure(IndexError)
    else Success(None)
  }

  /**
   * The comprehension `[... for meta in metas if meta.args[0] in tags]`,
   * which visits every entry.
   */
  function Select(metas: seq<Meta>, tags: set<string>): (r: Result<seq<Meta>, string>)
    ensures r.Failure? <==> exists k :: 0 <= k < |metas| && metas[k].args == []
    ensures r.Failure? ==> r.error == IndexError
    ensures r.Success? ==> forall m :: m in r.value <==> m in metas && m.args[0] in tags
    ensures r.Success? ==> |r.value| <= |metas|
  {
    if metas == [] then Success([])
    else if metas[0].args == [] then Failure(IndexError)
    else
      match Select(metas[1..], tags)
      case Failure(e) => Failure(e)
      case Success(rest) =>
        assert forall m :: m in metas <==> m == metas[0] || m in metas[1..];
        Success(if metas[0].args[0] in tags then [metas[0]] + rest else rest)
  }

  /** Selecting from two lists one after the other: the kept entries stay in their order. */
  lemma {:induction false} SelectConcat(a: seq<Meta>, b: seq<Meta>, tags: set<string>)
    ensures Select(a + b, tags) ==
              if Select(a, tags).Success? && Select(b, tags).Success?
              then Success(Select(a, tags).value + Select(b, tags).value)
              else Failure(IndexError)
    decreases |a|
  {
    if a == [] {
      assert a + b == b;
      if Select(b, tags).Success? {
        assert [] + Select(b, tags).value == Select(b, tags).value;
      }
    } else {
      assert (a + b)[0] == a[0];
      assert (a + b)[1..] == a[1..] + b;
      if a[0].args != [] {
        SelectConcat(a[1..], b, tags);
        var ra, rb := Select(a[1..], tags), Select(b, tags);
        if ra.Success? && rb.Success? {
          assert [a[0]] + (ra.value + rb.value) == ([a[0]] + ra.value) + rb.value;
        }
      }
    }
  }

  /** One entry is kept exactly when its first word is a tag. */
  lemma SelectOne(m: Meta, tags: set<string>)
    requires m.args != []
    ensures Select([m], tags) == Success(if m.args[0] in tags then [m] else [])
  {
    assert [m][1..] == [];
    assert [m] + [] == [m];
  }

  /** `Docstring.params`. */
  function Params(doc: Doc): (r: Result<seq<Meta>, string>)
    ensures r.Success? ==> forall m :: m in r.value <==> m in doc.meta && m.args != [] && m.args[0] in ParamTags
  {
    Select(doc.meta, ParamTags)
  }

  /** `Docstring.raises`. */
  function Raises(doc: Doc): (r: Result<seq<Meta>, string>)
    ensures r.Success? ==> forall m :: m in r.value <==> m in doc.meta && m.args != [] && m.args[0] in RaisesTags
  {
    Select(doc.meta, RaisesTags)
  }

  /** `Docstring.examples`. */
  function Examples(doc: Doc): (r: Result<seq<Meta>, string>)
    ensures r.Success? ==> forall m :: m in r.value <==> m in doc.meta && m.args != [] && m.args[0] in ExampleTags
  {
    Select(doc.meta, ExampleTags)
  }

  /** Every entry before the `k`-th has words and is not tagged. */
  predicate UntaggedBefore(metas: seq<Meta>, tags: set<string>, k: int)
    requires k <= |metas|
  {
    forall j :: 0 <= j < k ==> metas[j].args != [] && metas[j].args[0] !in tags
  }

  /**
   * `next(meta for meta in metas if meta.args[0] in tags)`, None when the
   * generator runs out: it stops at the first tagged entry, so only the
   * entries before it can raise IndexError.
   */
  function FirstTagged(metas: seq<Meta>, tags: set<string>): (r: Result<Option<Meta>, string>)
    ensures r == Success(None) <==> UntaggedBefore(metas, tags, |metas|)
    ensures r.Success? && r.value.Some? ==>
              r.value.value in metas && r.value.value.args != [] && r.value.value.args[0] in tags
    ensures r.Failure? ==> r.error == IndexError
  {
    if metas == [] then Success(None)
    else if metas[0].args == [] then Failure(IndexError)
    else if metas[0].args[0] in tags then Success(Some(metas[0]))
    else
      assert forall j :: 0 < j < |metas| ==> metas[j] == metas[1..][j - 1];
      FirstTagged(metas[1..], tags)
  }

  /** The entry found is the first tagged one, when every entry before it has words. */
  lemma {:induction false} FirstTaggedFinds(metas: seq<Meta>, tags: set<string>, k: nat)
    requires k < |metas| && metas[k].args != [] && metas[k].args[0] in tags
    requires UntaggedBefore(metas, tags, k)
    ensures FirstTagged(metas, tags) == Success(Some(metas[k]))
  {
    if k > 0 {
      assert metas[1..][k - 1] == metas[k];
      assert UntaggedBefore(metas[1..], tags, k - 1) by {
        assert forall j :: 0 <= j < k - 1 ==> metas[1..][j] == metas[j + 1];
      }
      FirstTaggedFinds(metas[1..], tags, k - 1);
    }
  }

  /** An entry without words before any tagged one raises IndexError. */
  lemma {:induction false} FirstTaggedFails(metas: seq<Meta>, tags: set<string>, k: nat)
    requires k < |metas| && metas[k].args == []
    requires UntaggedBefore(metas, tags, k)
    ensures FirstTagged(metas, tags) == Failure(IndexError)
  {
    if k > 0 {
      assert metas[1..][k - 1] == metas[k];
      assert UntaggedBefore(metas[1..], tags, k - 1) by {
        assert forall j :: 0 <= j < k - 1 ==> metas[1..][j] == metas[j + 1];
      }
      FirstTaggedFails(metas[1..], tags, k - 1);
    }
  }

  /** `Docstring.returns`. */
  function Returns(doc: Doc): (r: Result<Option<Meta>, string>)
    ensures r.Success? && r.value.Some? ==> r.value.value in doc.meta && r.value.value.args != [] && r.value.value.args[0] in ReturnsTags
  {
    FirstTagged(doc.meta, ReturnsTags)
  }
}
