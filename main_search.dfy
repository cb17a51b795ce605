/**
 * The snippet record of the src/main.rs snapshot (no identifier there), the
 * substring search over snippets, and the way search hits are added to the
 * list of found snippets.
 */
module MainSearch {
  import opened MainText

  datatype CodeSnippet = CodeSnippet(tags: seq<string>, name: string, code: string)

  /** `CodeSnippet::new` of src/main.rs. */
  function NewCodeSnippet(): (s: CodeSnippet)
    ensures s.tags == [] && s.code == []
    ensures s.name == "Unnamed Code Snippet"
  {
    CodeSnippet([], "Unnamed Code Snippet", "")
  }

  /** The query occurs, case-sensitively, in the snippet's name or in one of its tags. */
  predicate Matches(s: CodeSnippet, query: string)
  {
    Contains(s.name, query) || exists j :: 0 <= j < |s.tags| && Contains(s.tags[j], query)
  }

  /** The positions below `n` whose snippet matches, in increasing order. */
  function MatchingPositions(snippets: seq<CodeSnippet>, query: string, n: nat): (r: seq<nat>)
    requires n <= |snippets|
    ensures forall i :: 0 <= i < |r| ==> r[i] < n
  {
    if n == 0 then []
    else MatchingPositions(snippets, query, n - 1) + (if Matches(snippets[n - 1], query) then [n - 1] else [])
  }

  ghost predicate StrictlyIncreasing(s: seq<nat>)
  {
    forall i, j :: 0 <= i < j < |s| ==> s[i] < s[j]
  }

  /**
   * The positions below `n` that match are exactly the result, which is
   * strictly increasing (so it repeats nothing).
   */
  lemma {:induction false} MatchingPositionsSpec(snippets: seq<CodeSnippet>, query: string, n: nat)
    requires n <= |snippets|
    ensures StrictlyIncreasing(MatchingPositions(snippets, query, n))
    ensures forall i :: i in MatchingPositions(snippets, query, n) <==> 0 <= i < n && Matches(snippets[i], query)
  {
    if n > 0 {
      MatchingPositionsSpec(snippets, query, n - 1);
      var prev := MatchingPositions(snippets, query, n - 1);
      forall i | 0 <= i < |prev|
        ensures prev[i] < n - 1
      {
        assert prev[i] in prev;
      }
    }
  }

  /** The query `""` occurs everywhere, so searching for it returns every position. */
  lemma EmptyQueryMatchesAll(snippets: seq<CodeSnippet>)
    ensures forall i :: i in MatchingPositions(snippets, "", |snippets|) <==> 0 <= i < |snippets|
  {
    MatchingPositionsSpec(snippets, "", |snippets|);
    forall i | 0 <= i < |snippets|
      ensures Matches(snippets[i], "")
    {
      EverythingContainsEmpty(snippets[i].name);
    }
  }

  /**
   * `search_snippets`: for each snippet, its position is pushed by the first
   * tag that contains the query, or else by its name, unless already pushed.
   */
  method SearchSnippets(snippets: seq<CodeSnippet>, input: string) returns (indices: seq<nat>)
    ensures indices == MatchingPositions(snippets, input, |snippets|)
    ensures StrictlyIncreasing(indices)
    ensures forall i :: i in indices <==> 0 <= i < |snippets| && Matches(snippets[i], input)
  {
    indices := [];
    for snippetIdx := 0 to |snippets|
      invariant indices == MatchingPositions(snippets, input, snippetIdx)
    {
      MatchingPositionsSpec(snippets, input, snippetIdx);
      var snippet := snippets[snippetIdx];
      ghost var before := indices;
      for t := 0 to |snippet.tags|
        invariant indices == before + (if exists j :: 0 <= j < t && Contains(snippet.tags[j], input) then [snippetIdx] else [])
      {
        if Contains(snippet.tags[t], input) && snippetIdx !in indices {
          indices := indices + [snippetIdx];
        }
      }
      if Contains(snippet.name, input) && snippetIdx !in indices {
        indices := indices + [snippetIdx];
      }
    }
    MatchingPositionsSpec(snippets, input, |snippets|);
  }

  /** The snippets at the given positions. */
  function Select(snippets: seq<CodeSnippet>, positions: seq<nat>): (r: seq<CodeSnippet>)
    requires forall i :: 0 <= i < |positions| ==> positions[i] < |snippets|
    ensures |r| == |positions|
    ensures forall i :: 0 <= i < |positions| ==> r[i] == snippets[positions[i]]
  {
    seq(|positions|, i requires 0 <= i < |positions| => snippets[positions[i]])
  }

  /** The found list after offering it `xs` one by one: each is appended unless it is already there. */
  function AddUnseen(found: seq<CodeSnippet>, xs: seq<CodeSnippet>): seq<CodeSnippet>
  {
    if xs == [] then found
    else
      var grown := AddUnseen(found, xs[..|xs| - 1]);
      if xs[|xs| - 1] in grown then grown else grown + [xs[|xs| - 1]]
  }

  ghost predicate NoDuplicates(s: seq<CodeSnippet>)
  {
    forall i, j :: 0 <= i < j < |s| ==> s[i] != s[j]
  }

  /**
   * Adding search hits keeps the old list as a prefix, keeps it free of
   * duplicates, and the result holds exactly the old entries and the hits.
   */
  lemma {:induction false} AddUnseenSpec(found: seq<CodeSnippet>, xs: seq<CodeSnippet>)
    ensures found <= AddUnseen(found, xs)
    ensures NoDuplicates(found) ==> NoDuplicates(AddUnseen(found, xs))
    ensures forall x :: x in AddUnseen(found, xs) <==> x in found || x in xs
  {
    if xs != [] {
      var init := xs[..|xs| - 1];
      AddUnseenSpec(found, init);
      assert xs == init + [xs[|xs| - 1]];
    }
  }

  /** The loop over `found_indices`: push each hit not already in the found list. */
  method AppendUnseen(found: seq<CodeSnippet>, snippets: seq<CodeSnippet>, indices: seq<nat>) returns (r: seq<CodeSnippet>)
    requires forall i :: 0 <= i < |indices| ==> indices[i] < |snippets|
    ensures r == AddUnseen(found, Select(snippets, indices))
  {
    r := found;
    for k := 0 to |indices|
      invariant r == AddUnseen(found, Select(snippets, indices[..k]))
    {
      var snip := snippets[indices[k]];
      assert Select(snippets, indices[..k + 1]) == Select(snippets, indices[..k]) + [snip];
      if snip !in r {
        r := r + [snip];
      }
    }
    assert indices[..|indices|] == indices;
  }
}
