/**
 * The snippet record shared by the identifier pool and the cursor list
 * (src/snippet.rs). A snippet is a plain value: equality is structural over
 * all four fields, exactly like the derived `PartialEq` of the source.
 */
module Snippet {

  /** The name every freshly created snippet starts with. */
  const DefaultName: string := "Unnamed Code Snippet"

  datatype CodeSnippet = CodeSnippet(tags: seq<string>, name: string, code: string, idx: nat)

  /** `CodeSnippet::new`: a blank snippet carrying the identifier it was given. */
  function New(newIdx: nat): (s: CodeSnippet)
    ensures s.idx == newIdx
    ensures s.tags == [] && s.code == []
    ensures s.name == DefaultName && |s.name| == 20
  {
    CodeSnippet([], DefaultName, "", newIdx)
  }

  /** Two snippets that differ only in their identifier are different snippets. */
  lemma IdxTakesPartInEquality(a: CodeSnippet, b: CodeSnippet)
    requires a.tags == b.tags && a.name == b.name && a.code == b.code
    ensures a == b <==> a.idx == b.idx
  {
  }

  /** Hence `New` never gives the same snippet for two identifiers. */
  lemma NewIsInjective(i: nat, j: nat)
    ensures New(i) == New(j) <==> i == j
  {
    IdxTakesPartInEquality(New(i), New(j));
  }
}
