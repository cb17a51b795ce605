/**
 * The application state of src/app.rs: the snippet list together with the
 * FIFO queue of identifiers freed by deletion, and the identifier-recycling
 * rule that decides which identifier the next new snippet gets.
 *
 * The rule is stated once, on values (`NextIdx`, `QueueAfterIssue`,
 * `RemoveByIdx`), and the class `App` is proved to follow it. The identity
 * invariant (`IdentityInvariant`) is about those values: live identifiers and
 * queued identifiers are together a permutation of `0 .. |snippets| + |queue|`.
 */
module SnippetStore {
  import opened Options
  import opened Snippet
  import opened CursorList

  datatype NewSnippetMode = TypeName | TypeTags | TypeCode

  datatype InputMode = Normal | Search | NewSnippet(stage: NewSnippetMode)

  /** The identifiers of the live snippets, in list order. */
  function Idxs(snippets: seq<CodeSnippet>): (r: seq<nat>)
    ensures |r| == |snippets|
    ensures forall i :: 0 <= i < |snippets| ==> r[i] == snippets[i].idx
  {
    seq(|snippets|, i requires 0 <= i < |snippets| => snippets[i].idx)
  }

  /** Some live snippet carries identifier `k`. */
  predicate HasIdx(snippets: seq<CodeSnippet>, k: nat)
  {
    exists i :: 0 <= i < |snippets| && snippets[i].idx == k
  }

  /** `0, 1, .., n - 1`. */
  function Upto(n: nat): (r: seq<nat>)
    ensures |r| == n
    ensures forall i :: 0 <= i < n ==> r[i] == i
  {
    seq(n, i requires 0 <= i < n => i as nat)
  }

  ghost predicate Distinct(s: seq<nat>)
  {
    forall i, j :: 0 <= i < j < |s| ==> s[i] != s[j]
  }

  /** `s` is a permutation of `0 .. |s|`. */
  ghost predicate PermutationOfRange(s: seq<nat>)
  {
    multiset(s) == multiset(Upto(|s|))
  }

  /**
   * The identity invariant: the live identifiers followed by the queued ones
   * are a permutation of `0 .. |snippets| + |open|`. `IdentityInvariantMeans`
   * spells out what that says about each part.
   */
  ghost predicate IdentityInvariant(snippets: seq<CodeSnippet>, open: seq<nat>)
  {
    PermutationOfRange(Idxs(snippets) + open)
  }

  /** Reordering a permutation of a range gives a permutation of the same range. */
  lemma ReorderedPermutation(a: seq<nat>, b: seq<nat>)
    requires PermutationOfRange(a) && multiset(a) == multiset(b)
    ensures PermutationOfRange(b)
  {
    assert |a| == |multiset(a)| == |multiset(b)| == |b|;
  }

  /** Whether issuing an identifier takes it from the queue (the guard of `get_next_idx`). */
  predicate IssuesFromQueue(snippets: seq<CodeSnippet>, open: seq<nat>)
  {
    |snippets| > 0 && |open| > 0
  }

  /** The identifier `get_next_idx` reports and `return_next_idx` hands out. */
  function NextIdx(snippets: seq<CodeSnippet>, open: seq<nat>): nat
  {
    if IssuesFromQueue(snippets, open) then open[0] else |snippets|
  }

  /** The queue once `return_next_idx` has handed out an identifier. */
  function QueueAfterIssue(snippets: seq<CodeSnippet>, open: seq<nat>): (r: seq<nat>)
    ensures IssuesFromQueue(snippets, open) ==> [NextIdx(snippets, open)] + r == open
    ensures !IssuesFromQueue(snippets, open) ==> r == open
  {
    if IssuesFromQueue(snippets, open) then open[1..] else open
  }

  /** The position `iter().position(|r| r.idx == k)` finds: the first snippet with identifier `k`. */
  function FirstPosition(snippets: seq<CodeSnippet>, k: nat): (p: nat)
    requires HasIdx(snippets, k)
    ensures p < |snippets| && snippets[p].idx == k
    ensures forall j :: 0 <= j < p ==> snippets[j].idx != k
  {
    if snippets[0].idx == k then 0
    else
      assert HasIdx(snippets[1..], k) by {
        var i :| 0 <= i < |snippets| && snippets[i].idx == k;
        assert snippets[1..][i - 1].idx == k;
      }
      1 + FirstPosition(snippets[1..], k)
  }

  /** The snippet list after `remove_snippet(k)`: the first entry with identifier `k` is gone. */
  function RemoveByIdx(snippets: seq<CodeSnippet>, k: nat): seq<CodeSnippet>
    requires HasIdx(snippets, k)
  {
    var p := FirstPosition(snippets, k);
    snippets[..p] + snippets[p + 1..]
  }

  lemma IdxsAppend(a: seq<CodeSnippet>, b: seq<CodeSnippet>)
    ensures Idxs(a + b) == Idxs(a) + Idxs(b)
  {
    assert |Idxs(a + b)| == |Idxs(a) + Idxs(b)|;
    forall i | 0 <= i < |a + b|
      ensures Idxs(a + b)[i] == (Idxs(a) + Idxs(b))[i]
    {
    }
  }

  lemma {:induction false} UptoCountsOnce(n: nat, v: nat)
    ensures multiset(Upto(n))[v] == if v < n then 1 else 0
  {
    if n > 0 {
      UptoCountsOnce(n - 1, v);
      var m := Upto(n - 1);
      assert Upto(n) == m + [n - 1];
      assert multiset(Upto(n)) == multiset(m) + multiset{n - 1};
    }
  }

  /** A permutation of `0 .. |s|` repeats nothing and holds exactly `0 .. |s|`. */
  lemma PermutationOfRangeMeans(s: seq<nat>)
    requires PermutationOfRange(s)
    ensures Distinct(s)
    ensures forall v: nat :: v in s <==> v < |s|
  {
    var n := |s|;
    forall i, j | 0 <= i < j < |s|
      ensures s[i] != s[j]
    {
      if s[i] == s[j] {
        var v := s[i];
        assert s == s[..i] + [s[i]] + s[i + 1..j] + [s[j]] + s[j + 1..];
        assert multiset(s)[v] >= 2;
        UptoCountsOnce(n, v);
      }
    }
    forall v: nat
      ensures v in s <==> v < n
    {
      UptoCountsOnce(n, v);
      assert v in s <==> v in multiset(s);
    }
  }

  /**
   * What the identity invariant says: live identifiers are pairwise distinct,
   * none of them is queued, the queue repeats nothing, and together they
   * cover exactly `0 .. |snippets| + |open|`.
   */
  lemma IdentityInvariantMeans(snippets: seq<CodeSnippet>, open: seq<nat>)
    requires IdentityInvariant(snippets, open)
    ensures forall i, j :: 0 <= i < j < |snippets| ==> snippets[i].idx != snippets[j].idx
    ensures forall i, j :: 0 <= i < |snippets| && 0 <= j < |open| ==> snippets[i].idx != open[j]
    ensures forall i, j :: 0 <= i < j < |open| ==> open[i] != open[j]
    ensures forall v: nat :: (HasIdx(snippets, v) || v in open) <==> v < |snippets| + |open|
  {
    var ids := Idxs(snippets) + open;
    PermutationOfRangeMeans(ids);
    forall i, j | 0 <= i < j < |snippets|
      ensures snippets[i].idx != snippets[j].idx
    {
      assert ids[i] != ids[j];
    }
    forall i, j | 0 <= i < |snippets| && 0 <= j < |open|
      ensures snippets[i].idx != open[j]
    {
      assert ids[i] != ids[|snippets| + j];
    }
    forall i, j | 0 <= i < j < |open|
      ensures open[i] != open[j]
    {
      assert ids[|snippets| + i] != ids[|snippets| + j];
    }
    forall v: nat
      ensures (HasIdx(snippets, v) || v in open) <==> v < |snippets| + |open|
    {
      if HasIdx(snippets, v) {
        var i :| 0 <= i < |snippets| && snippets[i].idx == v;
        assert ids[i] == v;
      }
      if v in ids {
        var i :| 0 <= i < |ids| && ids[i] == v;
        if i >= |snippets| {
          assert open[i - |snippets|] == v;
        }
      }
    }
  }

  /**
   * Under the guard of `return_next_idx` (some snippet is live, or nothing is
   * queued) the identifier handed out is not live, is not left in the queue,
   * and recording a snippet with it keeps the identity invariant.
   */
  lemma CreatePreservesIdentity(snippets: seq<CodeSnippet>, open: seq<nat>, s: CodeSnippet)
    requires IdentityInvariant(snippets, open)
    requires |snippets| > 0 || open == []
    requires s.idx == NextIdx(snippets, open)
    ensures !HasIdx(snippets, s.idx) && s.idx !in QueueAfterIssue(snippets, open)
    ensures IdentityInvariant(snippets + [s], QueueAfterIssue(snippets, open))
  {
    var q := QueueAfterIssue(snippets, open);
    IdxsAppend(snippets, [s]);
    assert Idxs([s]) == [s.idx];
    if IssuesFromQueue(snippets, open) {
      assert Idxs(snippets + [s]) + q == Idxs(snippets) + [s.idx] + q;
      assert multiset(Idxs(snippets) + [s.idx] + q) == multiset(Idxs(snippets) + open);
      ReorderedPermutation(Idxs(snippets) + open, Idxs(snippets + [s]) + q);
      FreshFromQueue(snippets, open);
    } else {
      assert Idxs(snippets + [s]) + q == Idxs(snippets) + [|Idxs(snippets)|];
      ExtendedPermutation(Idxs(snippets));
      FreshAtEnd(snippets);
    }
  }

  /** Appending the next number to a permutation of a range gives a permutation of the next range. */
  lemma ExtendedPermutation(a: seq<nat>)
    requires PermutationOfRange(a)
    ensures PermutationOfRange(a + [|a|])
  {
    assert Upto(|a| + 1) == Upto(|a|) + [|a|];
  }

  lemma FreshFromQueue(snippets: seq<CodeSnippet>, open: seq<nat>)
    requires IdentityInvariant(snippets, open) && |open| > 0
    ensures !HasIdx(snippets, open[0]) && open[0] !in open[1..]
  {
    IdentityInvariantMeans(snippets, open);
    forall j | 0 <= j < |open| - 1 ensures open[1..][j] != open[0] {
      assert open[1..][j] == open[j + 1];
    }
  }

  lemma FreshAtEnd(snippets: seq<CodeSnippet>)
    requires IdentityInvariant(snippets, [])
    ensures !HasIdx(snippets, |snippets|)
  {
    IdentityInvariantMeans(snippets, []);
  }

  /**
   * Under the guard the next identifier is not live; without it (every
   * snippet deleted, something queued) the next identifier is still queued.
   */
  lemma NextIdxFreshness(snippets: seq<CodeSnippet>, open: seq<nat>)
    ensures IdentityInvariant(snippets, open) && (|snippets| > 0 || open == []) ==> !HasIdx(snippets, NextIdx(snippets, open))
    ensures IdentityInvariant(snippets, open) && |snippets| == 0 && open != [] ==> NextIdx(snippets, open) in open
  {
    if IdentityInvariant(snippets, open) {
      if |snippets| > 0 || open == [] {
        CreatePreservesIdentity(snippets, open, New(NextIdx(snippets, open)));
      } else {
        IdentityInvariantMeans(snippets, open);
      }
    }
  }

  /** Under the invariant no two snippets share an identifier. */
  lemma LiveIdxsDistinct(snippets: seq<CodeSnippet>, open: seq<nat>)
    requires IdentityInvariant(snippets, open)
    ensures forall i, j :: 0 <= i < j < |snippets| ==> snippets[i].idx != snippets[j].idx
  {
    IdentityInvariantMeans(snippets, open);
  }

  /** Removing identifier `k` takes out one entry, keeps the others in order, and `k` is no longer live. */
  lemma RemoveByIdxSpec(snippets: seq<CodeSnippet>, open: seq<nat>, k: nat)
    requires HasIdx(snippets, k)
    requires IdentityInvariant(snippets, open)
    ensures |RemoveByIdx(snippets, k)| == |snippets| - 1
    ensures !HasIdx(RemoveByIdx(snippets, k), k)
    ensures forall j: nat :: j != k ==> (HasIdx(RemoveByIdx(snippets, k), j) <==> HasIdx(snippets, j))
    ensures exists p :: 0 <= p < |snippets| && snippets[p].idx == k &&
              RemoveByIdx(snippets, k) == snippets[..p] + snippets[p + 1..]
  {
    LiveIdxsDistinct(snippets, open);
    var p := FirstPosition(snippets, k);
    var r := RemoveByIdx(snippets, k);
    assert forall i :: 0 <= i < |r| ==> r[i] == if i < p then snippets[i] else snippets[i + 1];
    forall j: nat
      ensures HasIdx(r, j) <==> HasIdx(snippets, j) && j != k
    {
      if HasIdx(snippets, j) && j != k {
        var i :| 0 <= i < |snippets| && snippets[i].idx == j;
        assert i != p;
        if i < p { assert r[i].idx == j; } else { assert r[i - 1].idx == j; }
      }
      if HasIdx(r, j) {
        var i :| 0 <= i < |r| && r[i].idx == j;
        if i < p {
          assert snippets[i].idx == j && i != p;
        } else {
          assert snippets[i + 1].idx == j && i + 1 != p;
        }
      }
    }
  }

  /** `remove_snippet(k)` followed by queueing `k` keeps the identity invariant. */
  lemma RemovePreservesIdentity(snippets: seq<CodeSnippet>, open: seq<nat>, k: nat)
    requires IdentityInvariant(snippets, open)
    requires HasIdx(snippets, k)
    ensures IdentityInvariant(RemoveByIdx(snippets, k), open + [k])
  {
    var p := FirstPosition(snippets, k);
    IdxsAround(snippets, p);
    var ids := Idxs(snippets);
    MovedToBack(ids[..p], k, ids[p + 1..], open);
  }

  /** The identifiers of the list without position `p` are those around `p`. */
  lemma IdxsAround(snippets: seq<CodeSnippet>, p: nat)
    requires p < |snippets|
    ensures Idxs(snippets) == Idxs(snippets)[..p] + [snippets[p].idx] + Idxs(snippets)[p + 1..]
    ensures Idxs(snippets[..p] + snippets[p + 1..]) == Idxs(snippets)[..p] + Idxs(snippets)[p + 1..]
  {
    IdxsAppend(snippets[..p], snippets[p + 1..]);
    assert Idxs(snippets[..p]) == Idxs(snippets)[..p];
    assert Idxs(snippets[p + 1..]) == Idxs(snippets)[p + 1..];
  }

  /** Moving one element of a permutation of a range to the back keeps it one. */
  lemma MovedToBack(before: seq<nat>, k: nat, after: seq<nat>, open: seq<nat>)
    requires PermutationOfRange(before + [k] + after + open)
    ensures PermutationOfRange(before + after + (open + [k]))
  {
    assert multiset(before + [k] + after + open) == multiset(before + after + (open + [k]));
    ReorderedPermutation(before + [k] + after + open, before + after + (open + [k]));
  }

  /**
   * Identifiers are reused first-freed first, while snippets remain: deleting
   * `a` and then `b` from a store with an empty queue, the next creation gets
   * `a` and the one after it gets `b`.
   */
  lemma DeletionsAreReusedInOrder(snippets: seq<CodeSnippet>, a: nat, b: nat, s: CodeSnippet)
    requires IdentityInvariant(snippets, [])
    requires HasIdx(snippets, a) && HasIdx(snippets, b) && a != b
    requires |snippets| > 2
    ensures HasIdx(RemoveByIdx(snippets, a), b)
    ensures var afterA := RemoveByIdx(snippets, a);
            var afterB := RemoveByIdx(afterA, b);
            NextIdx(afterB, [a, b]) == a &&
            QueueAfterIssue(afterB, [a, b]) == [b] &&
            NextIdx(afterB + [s], [b]) == b
  {
    RemoveByIdxSpec(snippets, [], a);
  }

  /** A single deletion followed by a creation reuses the deleted identifier while snippets remain. */
  lemma DeleteThenCreateReuses(snippets: seq<CodeSnippet>, k: nat)
    requires IdentityInvariant(snippets, [])
    requires HasIdx(snippets, k) && |snippets| > 1
    ensures NextIdx(RemoveByIdx(snippets, k), [k]) == k
    ensures QueueAfterIssue(RemoveByIdx(snippets, k), [k]) == []
  {
    RemoveByIdxSpec(snippets, [], k);
  }

  /**
   * The guard `snippets.len() > 0` of `return_next_idx` breaks the invariant:
   * once every snippet is deleted the queue is non-empty, yet the next
   * identifier is `0`, which is still queued, and recording it leaves `0`
   * both live and queued.
   */
  lemma CreateAfterDeletingAllBreaksIdentity(open: seq<nat>, s: CodeSnippet)
    requires IdentityInvariant([], open) && |open| > 0
    requires s.idx == NextIdx([], open)
    ensures s.idx == 0 && 0 in open
    ensures QueueAfterIssue([], open) == open
    ensures !IdentityInvariant([s], QueueAfterIssue([], open))
  {
    assert Idxs([]) + open == open;
    ZeroQueued(open);
    ReissuedZeroRepeats(open, s);
    RepeatIsNoPermutation(Idxs([s]) + open);
  }

  /** A non-empty permutation of a range holds `0`. */
  lemma ZeroQueued(open: seq<nat>)
    requires PermutationOfRange(open) && |open| > 0
    ensures 0 in open
  {
    PermutationOfRangeMeans(open);
  }

  /** A snippet numbered `0` next to a queue holding `0` repeats an identifier. */
  lemma ReissuedZeroRepeats(open: seq<nat>, s: CodeSnippet)
    requires 0 in open && s.idx == 0
    ensures !Distinct(Idxs([s]) + open)
  {
    var j :| 0 <= j < |open| && open[j] == 0;
    var ids := Idxs([s]) + open;
    assert ids[0] == ids[j + 1];
  }

  lemma RepeatIsNoPermutation(s: seq<nat>)
    requires !Distinct(s)
    ensures !PermutationOfRange(s)
  {
    if PermutationOfRange(s) {
      PermutationOfRangeMeans(s);
    }
  }

  const FirstExampleCode: string := "enum InputMode {\n            Normal,\n            Search,\n            NewSnippet,\n        }"
  const LaterExampleCode: string := "func hello():\n            print(hey bro)"

  /** The first example snippet of `App::default`, numbered `idx`. */
  function FirstExample(idx: nat): CodeSnippet
  {
    New(idx).(name := "Example Snippet #1", code := FirstExampleCode, tags := ["example"])
  }

  /** The second and third example snippets, which differ only in their name. */
  function LaterExample(name: string, idx: nat): CodeSnippet
  {
    New(idx).(name := name, code := LaterExampleCode, tags := ["example", "bro"])
  }

  /** The three example snippets of `App::default`, with the identifiers they get. */
  function ExampleSnippets(): seq<CodeSnippet>
  {
    [FirstExample(0), LaterExample("Example Snippet #2", 1), LaterExample("Example Snippet #3", 2)]
  }

  /** The example snippets are numbered 0, 1, 2 and, with an empty queue, keep the identity invariant. */
  lemma ExampleSnippetsIdentity()
    ensures Idxs(ExampleSnippets()) == [0, 1, 2]
    ensures IdentityInvariant(ExampleSnippets(), [])
  {
    assert Idxs(ExampleSnippets()) + [] == [0, 1, 2];
    assert Upto(3) == [0, 1, 2];
  }

  /**
   * The scenario the guard gets wrong: from the default store, delete 0, 1
   * and 2, then create two snippets. Both get identifier 0.
   */
  lemma DeleteAllThenCreateTwiceReissuesZero()
    ensures HasIdx(ExampleSnippets(), 0)
    ensures HasIdx(RemoveByIdx(ExampleSnippets(), 0), 1)
    ensures HasIdx(RemoveByIdx(RemoveByIdx(ExampleSnippets(), 0), 1), 2)
    ensures RemoveByIdx(RemoveByIdx(RemoveByIdx(ExampleSnippets(), 0), 1), 2) == []
    ensures var first := NextIdx([], [0, 1, 2]);
            var q1 := QueueAfterIssue([], [0, 1, 2]);
            var second := NextIdx([New(first)], q1);
            first == 0 && q1 == [0, 1, 2] && second == 0 &&
            QueueAfterIssue([New(first)], q1) == [1, 2] &&
            [New(first), New(second)] == [New(0), New(0)]
  {
    var s0 := ExampleSnippets();
    assert s0[0].idx == 0;
    var s1 := RemoveByIdx(s0, 0);
    assert s1 == s0[1..];
    assert s1[0].idx == 1;
    var s2 := RemoveByIdx(s1, 1);
    assert s2 == s1[1..];
    assert s2[0].idx == 2;
  }

  /**
   * The evidently intended rule: take the oldest queued identifier whenever
   * the queue is non-empty, whether or not snippets remain.
   */
  function FixedNextIdx(snippets: seq<CodeSnippet>, open: seq<nat>): nat
  {
    if |open| > 0 then open[0] else |snippets|
  }

  function FixedQueueAfterIssue(snippets: seq<CodeSnippet>, open: seq<nat>): seq<nat>
  {
    if |open| > 0 then open[1..] else open
  }

  /** With the intended rule, creating a snippet keeps the identity invariant unconditionally. */
  lemma FixedCreatePreservesIdentity(snippets: seq<CodeSnippet>, open: seq<nat>, s: CodeSnippet)
    requires IdentityInvariant(snippets, open)
    requires s.idx == FixedNextIdx(snippets, open)
    ensures !HasIdx(snippets, s.idx) && s.idx !in FixedQueueAfterIssue(snippets, open)
    ensures IdentityInvariant(snippets + [s], FixedQueueAfterIssue(snippets, open))
  {
    if |snippets| > 0 || open == [] {
      CreatePreservesIdentity(snippets, open, s);
    } else {
      assert Idxs(snippets) == [];
      assert Idxs(snippets + [s]) == [open[0]];
      assert Idxs(snippets + [s]) + open[1..] == Idxs(snippets) + open;
      FreshFromQueue(snippets, open);
    }
  }

  /** App of src/app.rs: the fields the source updates in place. */
  class App {
    var input: string
    var inputMode: InputMode
    var snippets: seq<CodeSnippet>
    var openIdxs: seq<nat>
    var foundSnippets: StatefulList<CodeSnippet>
    var currentSnippet: Option<CodeSnippet>

    /**
     * `App::default`: three example snippets numbered 0, 1, 2 by
     * `return_next_idx`, an empty queue, empty input, mode `Search`.
     */
    constructor Default()
      ensures snippets == ExampleSnippets() && Idxs(snippets) == [0, 1, 2]
      ensures openIdxs == [] && input == [] && inputMode == Search && currentSnippet == None
      ensures fresh(foundSnippets) && foundSnippets.items == [] && foundSnippets.selected == None
      ensures IdentityInvariant(snippets, openIdxs)
    {
      input := [];
      inputMode := Search;
      snippets := [];
      openIdxs := [];
      foundSnippets := new StatefulList<CodeSnippet>.WithItems([]);
      currentSnippet := None;
      new;
      var i0 := ReturnNextIdx();
      assert i0 == 0 && openIdxs == [];
      snippets := [FirstExample(i0)];
      var i1 := ReturnNextIdx();
      assert i1 == 1 && openIdxs == [];
      snippets := snippets + [LaterExample("Example Snippet #2", i1)];
      var i2 := ReturnNextIdx();
      assert i2 == 2 && openIdxs == [];
      snippets := snippets + [LaterExample("Example Snippet #3", i2)];
      ExampleSnippetsIdentity();
    }

    /**
     * `get_next_idx`: the identifier the next new snippet would get. Under
     * the guard it is never live.
     */
    function GetNextIdx(): (r: nat)
      reads this
      ensures IdentityInvariant(snippets, openIdxs) && (|snippets| > 0 || openIdxs == []) ==> !HasIdx(snippets, r)
      ensures IdentityInvariant(snippets, openIdxs) && |snippets| == 0 && openIdxs != [] ==> r in openIdxs
    {
      NextIdxFreshness(snippets, openIdxs);
      NextIdx(snippets, openIdxs)
    }

    /**
     * `return_next_idx`: hands out what `get_next_idx` reports (both are
     * `NextIdx`), popping the queue only when it came from there.
     */
    method ReturnNextIdx() returns (r: nat)
      modifies this`openIdxs
      ensures r == NextIdx(snippets, old(openIdxs))
      ensures openIdxs == QueueAfterIssue(snippets, old(openIdxs))
    {
      if |snippets| > 0 && |openIdxs| > 0 {
        r := openIdxs[0];
        openIdxs := openIdxs[1..];
      } else {
        r := |snippets|;
      }
    }

    /** The scan of `iter().position(|r| r.idx == k).unwrap()`. */
    method Position(k: nat) returns (p: nat)
      requires HasIdx(snippets, k)
      ensures p < |snippets| && snippets[p].idx == k
      ensures forall j :: 0 <= j < p ==> snippets[j].idx != k
    {
      p := 0;
      while snippets[p].idx != k
        invariant exists i :: p <= i < |snippets| && snippets[i].idx == k
        invariant forall j :: 0 <= j < p ==> snippets[j].idx != k
        decreases |snippets| - p
      {
        p := p + 1;
      }
    }

    /** `remove_snippet(k)`: drops the snippet with identifier `k` and queues `k` at the back. */
    method RemoveSnippet(k: nat)
      requires HasIdx(snippets, k)
      modifies this`snippets, this`openIdxs
      ensures snippets == RemoveByIdx(old(snippets), k)
      ensures openIdxs == old(openIdxs) + [k]
    {
      var index := Position(k);
      assert index == FirstPosition(snippets, k);
      snippets := snippets[..index] + snippets[index + 1..];
      openIdxs := openIdxs + [k];
    }

    /** `has_snippet_with_idx(k)`: whether some live snippet carries identifier `k`. */
    method HasSnippetWithIdx(k: nat) returns (b: bool)
      ensures b <==> HasIdx(snippets, k)
    {
      for i := 0 to |snippets|
        invariant forall j :: 0 <= j < i ==> snippets[j].idx != k
      {
        if snippets[i].idx == k {
          return true;
        }
      }
      return false;
    }
  }

  /** `remove_snippet` of 0, 1 and 2 on a store numbered 0, 1, 2 empties it and queues 0, 1, 2 in that order. */
  method RemoveExamples(app: App)
    requires Idxs(app.snippets) == [0, 1, 2] && app.openIdxs == []
    modifies app
    ensures app.snippets == [] && app.openIdxs == [0, 1, 2]
  {
    assert app.snippets[0].idx == 0 && app.snippets[1].idx == 1 && app.snippets[2].idx == 2;
    RemovingFront(app.snippets, 0);
    app.RemoveSnippet(0);
    RemovingFront(app.snippets, 1);
    app.RemoveSnippet(1);
    RemovingFront(app.snippets, 2);
    app.RemoveSnippet(2);
  }

  /** Removing the identifier of the first snippet drops exactly that snippet. */
  lemma RemovingFront(snippets: seq<CodeSnippet>, k: nat)
    requires |snippets| > 0 && snippets[0].idx == k
    ensures HasIdx(snippets, k) && RemoveByIdx(snippets, k) == snippets[1..]
  {
    assert FirstPosition(snippets, k) == 0;
  }

  /**
   * The same scenario run through `App`: from the default store, remove 0, 1
   * and 2, then create two snippets. Both creations get identifier 0; the
   * first leaves 0 queued, the second pops it, and the queue ends as `[1, 2]`.
   */
  method DeleteAllThenCreateTwice() returns (first: nat, second: nat, queue: seq<nat>)
    ensures first == 0 && second == 0 && queue == [1, 2]
  {
    var app := new App.Default();
    RemoveExamples(app);
    first := app.ReturnNextIdx();
    assert app.openIdxs == [0, 1, 2];
    app.snippets := app.snippets + [New(first)];
    second := app.ReturnNextIdx();
    app.snippets := app.snippets + [New(second)];
    queue := app.openIdxs;
  }
}
