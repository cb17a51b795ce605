/**
 * The string operations the key handler of src/main.rs relies on, on strings
 * as sequences of characters: `String::pop`, `str::contains`, splitting the
 * tag buffer on single spaces, and the back-tab rule over the last line that
 * `str::lines` reports.
 */
module MainText {
  import opened Options

  /** `String::pop`: drops the last character, if any. */
  function Pop(s: string): (r: string)
    ensures s == [] ==> r == []
    ensures s != [] ==> r + [s[|s| - 1]] == s
  {
    if s == [] then s else s[..|s| - 1]
  }

  /** `str::contains`: `q` occurs in `s` as a contiguous, case-sensitive substring. */
  predicate Contains(s: string, q: string)
  {
    exists k :: 0 <= k <= |s| && q <= s[k..]
  }

  lemma EverythingContainsEmpty(s: string)
    ensures Contains(s, "")
  {
    assert "" <= s[0..];
  }

  /** A text and its suffixes contain whatever they start with. */
  lemma ContainsPrefix(s: string, q: string)
    requires q <= s
    ensures Contains(s, q)
  {
    assert s[0..] == s;
  }

  // ----- tags: `split(" ")` and its inverse, `join(" ")` -----

  /** `str::split(" ")`: the pieces between single spaces; `""` gives `[""]`. */
  function Split(s: string): (r: seq<string>)
    ensures |r| >= 1
  {
    if s == [] then [""]
    else
      var rest := Split(s[1..]);
      if s[0] == ' ' then [""] + rest else [[s[0]] + rest[0]] + rest[1..]
  }

  /** The pieces glued back together with one space between neighbours. */
  function Join(parts: seq<string>): string
  {
    if |parts| == 0 then ""
    else if |parts| == 1 then parts[0]
    else parts[0] + " " + Join(parts[1..])
  }

  /** Joining the tags with `" "` gives back the typed text. */
  lemma {:induction false} JoinSplit(s: string)
    ensures Join(Split(s)) == s
  {
    if s != [] {
      var rest := Split(s[1..]);
      JoinSplit(s[1..]);
      if s[0] == ' ' {
        assert Split(s) == [""] + rest;
        assert ([""] + rest)[1..] == rest;
      } else {
        var first := [s[0]] + rest[0];
        assert Split(s) == [first] + rest[1..];
        if |rest| == 1 {
          assert Join(rest) == rest[0];
        } else {
          assert ([first] + rest[1..])[1..] == rest[1..];
          assert Join(rest) == rest[0] + " " + Join(rest[1..]);
        }
      }
    }
  }

  /** There is one tag more than there are spaces: `"a  b"` gives three, `""` gives one. */
  lemma {:induction false} SplitCount(s: string)
    ensures |Split(s)| == multiset(s)[' '] + 1
  {
    if s != [] {
      SplitCount(s[1..]);
      assert s == [s[0]] + s[1..];
      assert multiset(s) == multiset([s[0]]) + multiset(s[1..]);
    }
  }

  /** No tag holds a space. */
  lemma {:induction false} SplitPiecesHaveNoSpace(s: string)
    ensures forall i :: 0 <= i < |Split(s)| ==> ' ' !in Split(s)[i]
  {
    if s != [] {
      var rest := Split(s[1..]);
      SplitPiecesHaveNoSpace(s[1..]);
      if s[0] != ' ' {
        assert ' ' !in [s[0]] + rest[0];
      }
    }
  }

  lemma {:induction false} SplitWithoutSpace(a: string)
    requires ' ' !in a
    ensures Split(a) == [a]
  {
    if a != [] {
      SplitWithoutSpace(a[1..]);
      assert [a[0]] + a[1..] == a;
    }
  }

  lemma {:induction false} SplitAtFirstSpace(a: string, b: string)
    requires ' ' !in a
    ensures Split(a + " " + b) == [a] + Split(b)
  {
    if a == [] {
      assert a + " " + b == [' '] + b;
      assert (a + " " + b)[1..] == b;
    } else {
      SplitAtFirstSpace(a[1..], b);
      assert (a + " " + b)[1..] == a[1..] + " " + b;
      assert [a[0]] + a[1..] == a;
    }
  }

  /** Splitting undoes joining, for a non-empty list of tags without spaces. */
  lemma {:induction false} SplitJoin(parts: seq<string>)
    requires |parts| >= 1
    requires forall i :: 0 <= i < |parts| ==> ' ' !in parts[i]
    ensures Split(Join(parts)) == parts
  {
    if |parts| == 1 {
      SplitWithoutSpace(parts[0]);
    } else {
      SplitJoin(parts[1..]);
      SplitAtFirstSpace(parts[0], Join(parts[1..]));
      assert [parts[0]] + parts[1..] == parts;
    }
  }

  // ----- back-tab -----

  /** The characters after the last newline of `t`. */
  function AfterLastNewline(t: string): (r: string)
    ensures |r| <= |t| && r == t[|t| - |r|..]
    ensures '\n' !in r
    ensures |r| < |t| ==> t[|t| - |r| - 1] == '\n'
  {
    if t == [] then []
    else if t[|t| - 1] == '\n' then []
    else AfterLastNewline(t[..|t| - 1]) + [t[|t| - 1]]
  }

  /** The text with one final `'\n'` removed, if it ends in one. */
  function WithoutFinalNewline(s: string): (r: string)
    ensures s != [] && s[|s| - 1] == '\n' ==> r + "\n" == s
    ensures s == [] || s[|s| - 1] != '\n' ==> r == s
  {
    if s != [] && s[|s| - 1] == '\n' then s[..|s| - 1] else s
  }

  /**
   * `s.lines().last()`: nothing for the empty text; otherwise the text after
   * the last line break, where one final `'\n'` ends the last line instead of
   * starting an empty one.
   */
  function LastLine(s: string): (r: Option<string>)
    ensures s == [] <==> r.None?
    ensures r.Some? ==> |r.value| <= |s| && '\n' !in r.value
  {
    if s == [] then None
    else if s[|s| - 1] == '\n' then Some(AfterLastNewline(s[..|s| - 1]))
    else Some(AfterLastNewline(s))
  }

  /**
   * The line reported is the end of the text with one final `'\n'` dropped:
   * a suffix of it, preceded by a `'\n'` unless it is all of it.
   */
  lemma LastLineIsFinalLine(s: string)
    requires s != []
    ensures var body := WithoutFinalNewline(s);
            var line := LastLine(s).value;
            |line| <= |body| && line == body[|body| - |line|..] &&
            (|line| < |body| ==> body[|body| - |line| - 1] == '\n')
  {
    assert LastLine(s).value == AfterLastNewline(WithoutFinalNewline(s));
  }

  predicate StartsWithTab(line: string)
  {
    |line| > 0 && line[0] == '\t'
  }

  predicate EndsWithIndent(line: string)
  {
    |line| >= 4 && line[|line| - 4..] == "    "
  }

  /**
   * Back-tab on a field: one character popped when the last line starts with
   * a tab, else four popped when it ends with four spaces, else nothing.
   */
  function BackTabbed(s: string): string
  {
    match LastLine(s)
    case None => s
    case Some(line) =>
      if StartsWithTab(line) then Pop(s)
      else if EndsWithIndent(line) then s[..|s| - 4]
      else s
  }

  /** Back-tab only ever removes 0, 1 or 4 trailing characters, exactly as the three cases say. */
  lemma BackTabbedSpec(s: string)
    ensures BackTabbed(s) <= s
    ensures LastLine(s).Some? && StartsWithTab(LastLine(s).value) ==> |BackTabbed(s)| == |s| - 1
    ensures LastLine(s).Some? && !StartsWithTab(LastLine(s).value) && EndsWithIndent(LastLine(s).value) ==>
              |BackTabbed(s)| == |s| - 4
    ensures LastLine(s).None? || (!StartsWithTab(LastLine(s).value) && !EndsWithIndent(LastLine(s).value)) ==>
              BackTabbed(s) == s
  {
  }

  /** When the text does not end in a newline, the four characters removed are the last line's four spaces. */
  lemma BackTabRemovesIndent(s: string)
    requires s != [] && s[|s| - 1] != '\n'
    requires !StartsWithTab(LastLine(s).value) && EndsWithIndent(LastLine(s).value)
    ensures BackTabbed(s) + "    " == s
  {
    var line := LastLine(s).value;
    assert line == s[|s| - |line|..];
    assert s[|s| - 4..] == line[|line| - 4..];
    assert s == s[..|s| - 4] + s[|s| - 4..];
  }

  lemma {:induction false} WholeTextIsLastLine(t: string)
    requires '\n' !in t
    ensures AfterLastNewline(t) == t
  {
    if t != [] {
      WholeTextIsLastLine(t[..|t| - 1]);
      assert t[..|t| - 1] + [t[|t| - 1]] == t;
    }
  }

  /**
   * When the text ends in a newline, `lines()` reports the line before it, and
   * back-tab then removes the newline itself: `"\t\n"` becomes `"\t"`.
   */
  lemma BackTabPopsNewline()
    ensures BackTabbed("\t\n") == "\t"
  {
    var s := "\t\n";
    var line := "\t";
    assert s[..|s| - 1] == line;
    WholeTextIsLastLine(line);
    assert LastLine(s) == Some(line);
  }

  /**
   * A last line that starts with a tab makes back-tab pop the last character
   * of the field, whatever it is: `"\tab"` becomes `"\ta"`.
   */
  lemma BackTabPopsLastCharacter()
    ensures BackTabbed("\tab") == "\ta"
  {
    var s := "\tab";
    WholeTextIsLastLine(s);
    assert LastLine(s) == Some(s);
    assert s[..|s| - 1] == "\ta";
  }

  /** Likewise `"ab    \n"` loses its newline and three of its spaces: it becomes `"ab "`. */
  lemma BackTabEatsNewline()
    ensures BackTabbed("ab    \n") == "ab "
  {
    var s := "ab    \n";
    var line := "ab    ";
    assert s[..|s| - 1] == line;
    WholeTextIsLastLine(line);
    assert LastLine(s) == Some(line);
    assert line[|line| - 4..] == "    ";
    assert s[..|s| - 4] == "ab ";
  }
}
