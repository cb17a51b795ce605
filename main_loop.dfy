/**
 * One turn of the event loop of `run_app` in src/main.rs: the key-handling
 * state machine over the input buffer, the mode, the snippet list, the found
 * list and the draft snippet. Reading the event and drawing the screen are
 * outside the model; a turn receives its key as an argument and reports
 * whether the loop ends.
 *
 * `Transition` states what one turn does, on values; `App.Step` is the turn
 * as the source performs it, on the fields of the application, and is proved
 * to agree with `Transition`. The lemmas below state the promises of the
 * source about `Transition`.
 */
module MainLoop {
  import opened Options
  import opened MainText
  import opened MainSearch

  datatype NewSnippetMode = TypeName | TypeTags | TypeCode

  datatype InputMode = Normal | Search | NewSnippet(stage: NewSnippetMode)

  /**
   * A key event, reduced to what the handler distinguishes. `Enter(alt)`
   * carries whether the modifiers are exactly ALT; `Other` stands for every
   * other key and for events that are not key presses.
   */
  datatype KeyEvent = Char(c: char) | Backspace | Enter(alt: bool) | Esc | Tab | BackTab | Other

  /** The part of `App` that a turn reads and writes. */
  datatype State = State(
    input: string,
    mode: InputMode,
    snippets: seq<CodeSnippet>,
    found: seq<CodeSnippet>,
    current: Option<CodeSnippet>)

  /** While a snippet is being created there is a draft to edit. */
  predicate Consistent(st: State)
  {
    st.mode.NewSnippet? ==> st.current.Some?
  }

  datatype Outcome = Quit | Continue(next: State)

  const Indent: string := "    "

  const ExampleCode: string := "enum InputMode {\n            Normal,\n            Search,\n            NewSnippet,\n        }"

  /** `App::default`: one example snippet, mode `Search`, nothing found, no draft. */
  function DefaultState(): State
  {
    var example := NewCodeSnippet().(name := "Example Snippet #1", code := ExampleCode, tags := ["example", "bro"]);
    State("", Search, [example], [], None)
  }

  /** The field typed into at each stage: the draft's name, the tag buffer, the draft's code. */
  function ActiveField(st: State, stage: NewSnippetMode): string
    requires st.current.Some?
  {
    match stage
    case TypeName => st.current.value.name
    case TypeTags => st.input
    case TypeCode => st.current.value.code
  }

  /** `st` with the field of `stage` replaced by `v`. */
  function WithActiveField(st: State, stage: NewSnippetMode, v: string): (r: State)
    requires st.current.Some?
    ensures r.current.Some? && ActiveField(r, stage) == v
  {
    match stage
    case TypeName => st.(current := Some(st.current.value.(name := v)))
    case TypeTags => st.(input := v)
    case TypeCode => st.(current := Some(st.current.value.(code := v)))
  }

  /** `st'` differs from `st` at most in the field typed into at `stage`. */
  predicate OnlyActiveFieldChanged(st: State, st': State, stage: NewSnippetMode)
    requires st.current.Some?
  {
    st'.current.Some? && st' == WithActiveField(st, stage, ActiveField(st', stage))
  }

  /** The found list after searching for `query`: every hit not yet listed is appended. */
  function FoundAfterSearch(st: State, query: string): seq<CodeSnippet>
  {
    MatchingPositionsSpec(st.snippets, query, |st.snippets|);
    AddUnseen(st.found, Select(st.snippets, MatchingPositions(st.snippets, query, |st.snippets|)))
  }

  function NormalTurn(st: State, key: KeyEvent): Outcome
  {
    match key
    case Char(c) =>
      if c == 'n' then Continue(st.(mode := NewSnippet(TypeName), current := Some(NewCodeSnippet()), input := ""))
      else if c == 'f' then Continue(st.(mode := Search, found := []))
      else Continue(st)
    case Esc => Quit
    case _ => Continue(st)
  }

  function SearchTurn(st: State, key: KeyEvent): Outcome
  {
    match key
    case Enter(_) => Continue(st.(mode := Normal, found := FoundAfterSearch(st, st.input)))
    case Char(c) =>
      var query := st.input + [c];
      Continue(st.(input := query, found := FoundAfterSearch(st, query)))
    case Backspace =>
      var query := Pop(st.input);
      Continue(st.(input := query, found := if query == [] then [] else FoundAfterSearch(st, query)))
    case Esc => Quit
    case _ => Continue(st)
  }

  function EditTurn(st: State, stage: NewSnippetMode, key: KeyEvent): State
    requires st.current.Some?
  {
    var field := ActiveField(st, stage);
    match key
    case Esc => st.(mode := Normal)
    case Char(c) => WithActiveField(st, stage, field + [c])
    case Backspace => WithActiveField(st, stage, Pop(field))
    case Enter(alt) =>
      (match stage
       case TypeName => st.(mode := NewSnippet(TypeTags))
       case TypeTags => st.(current := Some(st.current.value.(tags := Split(st.input))), mode := NewSnippet(TypeCode))
       case TypeCode =>
         if alt then st.(mode := Normal, input := "", snippets := st.snippets + [st.current.value], current := None)
         else WithActiveField(st, stage, field + "\n"))
    case Tab => WithActiveField(st, stage, field + Indent)
    case BackTab => WithActiveField(st, stage, BackTabbed(field))
    case Other => st
  }

  /** What one turn of `run_app` does with `key` in state `st`. */
  function Transition(st: State, key: KeyEvent): Outcome
    requires Consistent(st)
  {
    match st.mode
    case Normal => NormalTurn(st, key)
    case Search => SearchTurn(st, key)
    case NewSnippet(stage) => Continue(EditTurn(st, stage, key))
  }

  // ----- what a turn promises -----

  /** Every turn keeps a draft around while a snippet is being created. */
  lemma TransitionKeepsDraft(st: State, key: KeyEvent)
    requires Consistent(st)
    ensures Transition(st, key).Continue? ==> Consistent(Transition(st, key).next)
  {
  }

  /** The loop ends exactly on Esc in `Normal` or `Search`. */
  lemma QuitOnlyOnEsc(st: State, key: KeyEvent)
    requires Consistent(st)
    ensures Transition(st, key).Quit? <==> key == Esc && (st.mode == Normal || st.mode == Search)
  {
  }

  /**
   * Esc while creating a snippet goes back to `Normal` without saving: the
   * snippet list is unchanged, and the draft itself is left in place.
   */
  lemma EscLeavesDraftUnsaved(st: State)
    requires Consistent(st) && st.mode.NewSnippet?
    ensures Transition(st, Esc) == Continue(st.(mode := Normal))
    ensures Transition(st, Esc).next.snippets == st.snippets
  {
  }

  /**
   * ALT-Enter while typing the code saves the draft at the end of the list,
   * leaves the earlier snippets alone, clears the input and the draft, and
   * returns to `Normal`; any other Enter there starts a new line of code.
   */
  lemma SaveAppendsDraft(st: State, alt: bool)
    requires Consistent(st) && st.mode == NewSnippet(TypeCode)
    ensures alt ==> Transition(st, Enter(alt)).next ==
                    st.(mode := Normal, input := "", snippets := st.snippets + [st.current.value], current := None)
    ensures alt ==> Transition(st, Enter(alt)).next.snippets[..|st.snippets|] == st.snippets
    ensures !alt ==> Transition(st, Enter(alt)).next ==
                     st.(current := Some(st.current.value.(code := st.current.value.code + "\n")))
  {
    if alt {
      assert (st.snippets + [st.current.value])[..|st.snippets|] == st.snippets;
    }
  }

  /**
   * Enter on the tag stage, with or without ALT, replaces the draft's tags
   * with the tag buffer split on single spaces and saves nothing: joined with
   * `" "` the tags give the buffer back, and there is one more tag than there
   * are spaces.
   */
  lemma EnterSplitsTags(st: State, alt: bool)
    requires Consistent(st) && st.mode == NewSnippet(TypeTags)
    ensures var next := Transition(st, Enter(alt)).next;
            next.mode == NewSnippet(TypeCode) &&
            next.snippets == st.snippets &&
            next.input == st.input &&
            next.current == Some(st.current.value.(tags := Split(st.input))) &&
            Join(next.current.value.tags) == st.input &&
            |next.current.value.tags| == multiset(st.input)[' '] + 1
  {
    JoinSplit(st.input);
    SplitCount(st.input);
  }

  /** Starting a snippet gives a blank draft named "Unnamed Code Snippet"; typed characters extend that name. */
  lemma TypingExtendsDefaultName(st: State, c: char)
    requires st.mode == Normal
    ensures var draft := Transition(st, Char('n')).next;
            draft.mode == NewSnippet(TypeName) && draft.current == Some(NewCodeSnippet()) && draft.input == [] &&
            Transition(draft, Char(c)).next.current.value.name == "Unnamed Code Snippet" + [c]
  {
  }

  /**
   * Tab and back-tab change only the field of the current stage: tab appends
   * four spaces, back-tab removes what `BackTabbed` removes.
   */
  lemma TabsChangeOnlyActiveField(st: State, stage: NewSnippetMode)
    requires Consistent(st) && st.mode == NewSnippet(stage)
    ensures OnlyActiveFieldChanged(st, Transition(st, Tab).next, stage)
    ensures ActiveField(Transition(st, Tab).next, stage) == ActiveField(st, stage) + "    "
    ensures OnlyActiveFieldChanged(st, Transition(st, BackTab).next, stage)
    ensures ActiveField(Transition(st, BackTab).next, stage) == BackTabbed(ActiveField(st, stage))
  {
  }

  /**
   * The found list only grows by appending snippets not yet in it, so it
   * keeps its old entries as a prefix and never gains a duplicate; it is
   * emptied only by 'f' in `Normal` and by backspacing the query to empty.
   */
  lemma FoundOnlyGrowsOrIsCleared(st: State, key: KeyEvent)
    requires Consistent(st) && Transition(st, key).Continue?
    ensures var next := Transition(st, key).next;
            (st.found <= next.found &&
             (NoDuplicates(st.found) ==> NoDuplicates(next.found)) &&
             forall x :: x in next.found ==> x in st.found || x in st.snippets)
            ||
            (next.found == [] &&
             ((st.mode == Normal && key == Char('f')) ||
              (st.mode == Search && key == Backspace && Pop(st.input) == [])))
  {
    var next := Transition(st, key).next;
    if next.found != st.found {
      var query := if key.Char? then st.input + [key.c] else if key == Backspace then Pop(st.input) else st.input;
      if st.mode == Search && !(key == Backspace && query == []) {
        var hits := Select(st.snippets, MatchingPositions(st.snippets, query, |st.snippets|));
        assert next.found == AddUnseen(st.found, hits);
        AddUnseenSpec(st.found, hits);
        forall x | x in hits ensures x in st.snippets {
          var i :| 0 <= i < |hits| && hits[i] == x;
          MatchingPositionsSpec(st.snippets, query, |st.snippets|);
        }
      }
    }
  }

  /**
   * Enter in `Search` runs the query once more and returns to `Normal`; with
   * an empty query every snippet matches, so every snippet is then listed.
   */
  lemma EnterOnEmptyQueryListsAll(st: State, alt: bool)
    requires st.mode == Search && st.input == []
    ensures Transition(st, Enter(alt)).next.mode == Normal
    ensures forall i :: 0 <= i < |st.snippets| ==> st.snippets[i] in Transition(st, Enter(alt)).next.found
  {
    var positions := MatchingPositions(st.snippets, "", |st.snippets|);
    EmptyQueryMatchesAll(st.snippets);
    var hits := Select(st.snippets, positions);
    AddUnseenSpec(st.found, hits);
    forall i | 0 <= i < |st.snippets|
      ensures st.snippets[i] in hits
    {
      assert i in positions;
      var j :| 0 <= j < |positions| && positions[j] == i;
      assert hits[j] == st.snippets[i];
    }
  }

  /** In `Search`, a typed character extends the query and lists every snippet matching it that was not yet listed. */
  lemma TypingSearches(st: State, c: char)
    requires st.mode == Search
    ensures var next := Transition(st, Char(c)).next;
            next.input == st.input + [c] && next.mode == Search &&
            forall i :: 0 <= i < |st.snippets| && Matches(st.snippets[i], st.input + [c]) ==> st.snippets[i] in next.found
  {
    var query := st.input + [c];
    var positions := MatchingPositions(st.snippets, query, |st.snippets|);
    MatchingPositionsSpec(st.snippets, query, |st.snippets|);
    var hits := Select(st.snippets, positions);
    AddUnseenSpec(st.found, hits);
    forall i | 0 <= i < |st.snippets| && Matches(st.snippets[i], query)
      ensures st.snippets[i] in hits
    {
      var j :| 0 <= j < |positions| && positions[j] == i;
      assert hits[j] == st.snippets[i];
    }
  }

  /** With one snippet and nothing found yet, a query the snippet matches lists exactly that snippet. */
  lemma SingleHit(st: State, query: string)
    requires |st.snippets| == 1 && st.found == [] && Matches(st.snippets[0], query)
    ensures FoundAfterSearch(st, query) == st.snippets
  {
    assert MatchingPositions(st.snippets, query, 1) == [0];
    assert Select(st.snippets, [0]) == st.snippets;
    assert AddUnseen([], st.snippets) == st.snippets;
  }

  /** In the initial state, typing 'b' finds the example snippet through its tag "bro". */
  lemma SearchingDefaultFindsExample()
    ensures Transition(DefaultState(), Char('b')).next.found == DefaultState().snippets
  {
    var st := DefaultState();
    var tags := st.snippets[0].tags;
    assert tags[1] == "bro";
    ContainsPrefix(tags[1], "b");
    assert Matches(st.snippets[0], "b");
    SingleHit(st, "b");
    assert st.input + ['b'] == "b";
  }

  /** App of src/main.rs. */
  class App {
    var input: string
    var inputMode: InputMode
    var snippets: seq<CodeSnippet>
    var foundSnippets: seq<CodeSnippet>
    var currentSnippet: Option<CodeSnippet>

    function View(): State
      reads this
    {
      State(input, inputMode, snippets, foundSnippets, currentSnippet)
    }

    predicate Valid()
      reads this
    {
      Consistent(View())
    }

    constructor Default()
      ensures View() == DefaultState() && Valid()
    {
      var example := NewCodeSnippet();
      example := example.(name := "Example Snippet #1");
      example := example.(code := ExampleCode);
      example := example.(tags := ["example", "bro"]);
      input := "";
      inputMode := Search;
      snippets := [example];
      foundSnippets := [];
      currentSnippet := None;
    }

    /** The `input_field` of the handler: the field the stage selects. */
    function Field(stage: NewSnippetMode): string
      reads this
      requires currentSnippet.Some?
    {
      ActiveField(View(), stage)
    }

    /** Writes through `input_field`. */
    method SetField(stage: NewSnippetMode, v: string)
      requires currentSnippet.Some?
      modifies this
      ensures View() == WithActiveField(old(View()), stage, v)
    {
      match stage {
        case TypeName => currentSnippet := Some(currentSnippet.value.(name := v));
        case TypeTags => input := v;
        case TypeCode => currentSnippet := Some(currentSnippet.value.(code := v));
      }
    }

    /** Tab: four spaces pushed one by one onto the active field. */
    method TabField(stage: NewSnippetMode)
      requires currentSnippet.Some?
      modifies this
      ensures View() == WithActiveField(old(View()), stage, old(Field(stage)) + Indent)
    {
      var field := Field(stage);
      var padded := field;
      for i := 0 to 4
        invariant padded == field + Indent[..i]
      {
        padded := padded + [' '];
      }
      assert Indent[..4] == Indent;
      SetField(stage, padded);
    }

    /**
     * Back-tab: pop one character when the last line starts with a tab, else
     * pop four when it ends with four spaces.
     */
    method BackTabField(stage: NewSnippetMode)
      requires currentSnippet.Some?
      modifies this
      ensures View() == WithActiveField(old(View()), stage, BackTabbed(old(Field(stage))))
    {
      var field := Field(stage);
      var result := field;
      match LastLine(field) {
        case Some(lastline) =>
          if StartsWithTab(lastline) {
            result := Pop(field);
          } else if EndsWithIndent(lastline) {
            for i := 0 to 4
              invariant result == field[..|field| - i]
            {
              result := Pop(result);
            }
          }
        case None =>
      }
      SetField(stage, result);
    }

    /** A key in `Normal`: 'n' starts a draft, 'f' opens a fresh search, Esc quits. */
    method NormalKey(key: KeyEvent) returns (quit: bool)
      requires inputMode == Normal
      modifies this
      ensures quit <==> NormalTurn(old(View()), key).Quit?
      ensures quit ==> View() == old(View())
      ensures !quit ==> View() == NormalTurn(old(View()), key).next
    {
      quit := false;
      match key {
        case Char(c) =>
          if c == 'n' {
            inputMode := NewSnippet(TypeName);
            currentSnippet := Some(NewCodeSnippet());
            input := "";
          } else if c == 'f' {
            inputMode := Search;
            foundSnippets := [];
          }
        case Esc =>
          quit := true;
        case _ =>
      }
    }

    /**
     * A key in `Search`: Enter leaves the search, characters and backspace edit
     * the query, and every change searches again and adds the new hits.
     */
    method SearchKey(key: KeyEvent) returns (quit: bool)
      requires inputMode == Search
      modifies this
      ensures quit <==> SearchTurn(old(View()), key).Quit?
      ensures quit ==> View() == old(View())
      ensures !quit ==> View() == SearchTurn(old(View()), key).next
    {
      quit := false;
      var foundIndices: seq<nat> := [];
      match key {
        case Enter(_) =>
          inputMode := Normal;
          foundIndices := SearchSnippets(snippets, input);
        case Char(c) =>
          input := input + [c];
          foundIndices := SearchSnippets(snippets, input);
        case Backspace =>
          input := Pop(input);
          if input == [] {
            foundSnippets := [];
          } else {
            foundIndices := SearchSnippets(snippets, input);
          }
        case Esc =>
          return true;
        case _ =>
      }
      assert foundIndices == if key.Enter? || key.Char? || (key.Backspace? && input != [])
                             then MatchingPositions(snippets, input, |snippets|) else [];
      foundSnippets := AppendUnseen(foundSnippets, snippets, foundIndices);
    }

    /**
     * A key while creating a snippet: edit the field of the stage, move to the
     * next stage, or (ALT-Enter on the code) save the draft.
     */
    method EditKey(stage: NewSnippetMode, key: KeyEvent)
      requires inputMode == NewSnippet(stage) && currentSnippet.Some?
      modifies this
      ensures View() == EditTurn(old(View()), stage, key)
    {
      var field := Field(stage);
      match key {
        case Esc =>
          inputMode := Normal;
        case Char(c) =>
          SetField(stage, field + [c]);
        case Backspace =>
          SetField(stage, Pop(field));
        case Enter(alt) =>
          match stage {
            case TypeName =>
              inputMode := NewSnippet(TypeTags);
            case TypeTags =>
              currentSnippet := Some(currentSnippet.value.(tags := Split(input)));
              inputMode := NewSnippet(TypeCode);
            case TypeCode =>
              if alt {
                inputMode := Normal;
                input := "";
                snippets := snippets + [currentSnippet.value];
                currentSnippet := None;
              } else {
                SetField(stage, field + "\n");
              }
          }
        case Tab =>
          TabField(stage);
        case BackTab =>
          BackTabField(stage);
        case Other =>
      }
    }

    /** One turn of `run_app` for `key`; `quit` is true when the loop returns. */
    method Step(key: KeyEvent) returns (quit: bool)
      requires Valid()
      modifies this
      ensures Valid()
      ensures quit <==> Transition(old(View()), key).Quit?
      ensures quit ==> View() == old(View())
      ensures !quit ==> View() == Transition(old(View()), key).next
    {
      TransitionKeepsDraft(View(), key);
      match inputMode {
        case Normal =>
          quit := NormalKey(key);
        case Search =>
          quit := SearchKey(key);
        case NewSnippet(stage) =>
          EditKey(stage, key);
          quit := false;
      }
    }
  }
}
