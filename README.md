# Snippy in Dafny

Snippy is a terminal code-snippet manager. This project models its core and
proves properties of that model:

- **the snippet record and identifier pool** (`src/snippet.rs`,
  `src/app.rs`). Each snippet carries an identifier `idx`; deleting a snippet
  queues its identifier in a FIFO queue of free identifiers, and creating one
  takes the next identifier from that queue or from the list length. The
  model proves the identity invariant behind the comment at
  src/app.rs:27-28: live identifiers and queued identifiers together form a
  permutation of `0 .. |snippets| + |queue|`. Deletion preserves it.
  Creation preserves it while some snippet is live or the queue is empty.
  Once every snippet is deleted and identifiers are queued, the source's
  `snippets.len() > 0` guard reissues a queued identifier and breaks it (see
  Findings).
- **the wrap-around cursor list** `StatefulList<T>` (`src/lib.rs`): `next`,
  `previous` and `unselect` over an optional selected position.
- **the modal key handler and substring search** of the `src/main.rs`
  snapshot. That file has its own `CodeSnippet` without an identifier and its
  own `App`, and keeps the found snippets in a plain list. The modelled
  features are:
  - the `Normal`, `Search` and `NewSnippet(stage)` modes;
  - editing whichever field the stage selects;
  - splitting tags on single spaces;
  - tab and back-tab;
  - saving a draft with ALT-Enter;
  - case-sensitive substring search;
  - the found list, which grows across keystrokes.

Files:

- `options.dfy`: an `Option` datatype.
- `snippet.dfy`: module `Snippet`, for `src/snippet.rs`.
- `cursor_list.dfy`: module `CursorList`, for `StatefulList` in `src/lib.rs`.
- `snippet_store.dfy`: module `SnippetStore`, for `src/app.rs`.
  - The identifier rule is stated once on values: `NextIdx`,
    `QueueAfterIssue` and `RemoveByIdx`.
  - The lemmas are about those values.
  - The class `App` updates `snippets` and `openIdxs` in place and is proved
    to follow the rule.
- `main_text.dfy` and `main_search.dfy`: modules `MainText` and `MainSearch`,
  for the string operations and the search of `src/main.rs`.
- `main_loop.dfy`: module `MainLoop`, for one turn of the `run_app` loop.
  - `Transition` states, on values, what a key does to the state
    `{input, mode, snippets, found, current}`.
  - The class `App` performs the turn on its fields, with `Step(key)`
    dispatching to one handler per mode, and is proved equal to `Transition`.
  - The lemmas state the promises of the key handler about `Transition`.

The model follows the code as written, in particular:

- Search is case-sensitive (`str::contains`).
- Tags are split on each single space, so `"a  b"` gives `["a", "", "b"]`.
  They are not split on runs of whitespace.
- `Normal` mode never re-lists the snippets. An empty query lists every
  snippet only through Enter in `Search`, and backspacing the query to empty
  clears the found list instead. The found list is extended only in `Search`
  mode, by the hits of the query after each character, backspace or Enter.
- Esc in `Search` ends the loop.
- ALT-Enter saves the draft only on the code stage. On the name and tag
  stages the modifier is not tested, so ALT-Enter acts as a plain Enter and
  moves on to the next stage without saving.
- `remove_snippet` on an absent identifier panics through `unwrap` rather
  than returning an error, so the model makes the identifier's presence a
  precondition.

Rust's `usize` is modelled as `nat`. No arithmetic here can overflow for
lists that fit in memory.

## Model

| member | source | states |
|---|---|---|
| Snippet.New | src/snippet.rs:11-17 | a new snippet has the given `idx`, no tags, empty code and the 20-character name "Unnamed Code Snippet" |
| Snippet.IdxTakesPartInEquality | src/snippet.rs:3-9 | with the derived structural equality, two snippets that agree on tags, name and code are equal exactly when their `idx` agree |
| Snippet.NewIsInjective | src/snippet.rs:11-17 | `new(i) == new(j)` exactly when `i == j` |
| CursorList.NextSelection | src/lib.rs:49-62 | on an empty list the selection is unchanged; otherwise the result is in range: `i + 1` when `i + 1 < len`, and `0` from no selection or from any `i >= len - 1`, stale cursors included |
| CursorList.PreviousSelection | src/lib.rs:64-78 | on an empty list the selection is unchanged; from no selection `0`; from `0` the last index; otherwise `i - 1`, which stays in range for an in-range cursor |
| CursorList.PreviousUndoesNext | src/lib.rs:49-78 | for an in-range cursor, `previous` undoes `next` and `next` undoes `previous` |
| CursorList.StaleCursor | src/lib.rs:53-54 | a cursor at or past the end wraps to `0` on `next`, but `previous` only decrements it and can leave it out of range |
| CursorList.NextTimesClimbs | src/lib.rs:56-57 | below the last index, `k` steps of `next` advance the cursor by `k` |
| CursorList.NextCycles | src/lib.rs:49-62 | `len` steps of `next` from an in-range cursor return to it |
| CursorList.StatefulList.WithItems | src/lib.rs:42-47 | the given items and no selection |
| CursorList.StatefulList.Default | src/lib.rs:85-92 | no items and no selection |
| CursorList.StatefulList.Next | src/lib.rs:49-62 | only the selection changes, to `NextSelection` of the old one; the items are untouched |
| CursorList.StatefulList.Previous | src/lib.rs:64-78 | only the selection changes, to `PreviousSelection` of the old one; the items are untouched |
| CursorList.StatefulList.Unselect | src/lib.rs:80-82 | the selection is cleared and nothing else changes |
| SnippetStore.QueueAfterIssue | src/app.rs:83-89 | when the guard holds (snippets and queue both non-empty), the issued identifier is the queue's front and the rest of the queue remains; otherwise the queue is unchanged |
| SnippetStore.FirstPosition | src/app.rs:92 | the position `position(...)` finds: a snippet with the identifier, and no earlier one has it |
| SnippetStore.IdentityInvariantMeans | src/app.rs:27-29 | the invariant means: live identifiers are pairwise distinct, disjoint from the queue, the queue repeats nothing, and live plus queued identifiers are exactly `0 .. n` for n the number of snippets plus the queue length |
| SnippetStore.CreatePreservesIdentity | src/app.rs:83-89 | under the guard's good cases (some snippet live, or nothing queued) the issued identifier is neither live nor left in the queue, and recording a snippet with it keeps the invariant |
| SnippetStore.NextIdxFreshness | src/app.rs:74-81 | under the invariant and the guard's good cases the next identifier is not live; with every snippet deleted and the queue non-empty it is still queued |
| SnippetStore.RemoveByIdxSpec | src/app.rs:91-95 | under the identity invariant (so `k` is held by one snippet only), removing identifier `k` drops exactly one entry (at a position holding `k`), keeps the others in order, and `k` is no longer live while every other identifier keeps its liveness |
| SnippetStore.RemovePreservesIdentity | src/app.rs:91-95 | removing `k` and queueing it at the back keeps the invariant |
| SnippetStore.DeletionsAreReusedInOrder | src/app.rs:83-95 | from an empty queue, while snippets remain, deleting `a` then `b` makes the next two creations get `a` and then `b` |
| SnippetStore.DeleteThenCreateReuses | src/app.rs:83-95 | while snippets remain, a deletion followed by a creation reuses the deleted identifier and empties the queue again |
| SnippetStore.CreateAfterDeletingAllBreaksIdentity | src/app.rs:76-88 | with every snippet deleted and the queue non-empty, the next identifier is `0`, which is still queued, the queue is not popped, and recording the snippet breaks the invariant |
| SnippetStore.ExampleSnippetsIdentity | src/app.rs:47-67 | the three example snippets carry identifiers 0, 1, 2 and satisfy the invariant with an empty queue |
| SnippetStore.DeleteAllThenCreateTwiceReissuesZero | src/app.rs:76-95 | from the default store, deleting 0, 1 and 2 leaves no snippets; with the queue `[0, 1, 2]` this leaves, the first creation gets 0 without popping and the second gets 0 again, popping it to `[1, 2]` |
| SnippetStore.DeleteAllThenCreateTwice | src/app.rs:36-95 | the same scenario run through `App`: `Default`, `remove_snippet` of 0, 1 and 2, then two creations through `return_next_idx`; both get identifier 0 and the queue ends as `[1, 2]` |
| SnippetStore.FixedCreatePreservesIdentity | src/app.rs:83-89 | with the corrected rule (take from the queue whenever it is non-empty) the issued identifier is fresh and creation keeps the invariant unconditionally |
| SnippetStore.App.Default | src/app.rs:36-70 | three example snippets numbered 0, 1, 2 in order by `return_next_idx`, an empty queue, empty input, mode `Search`, no draft, an empty found list with no selection, and the invariant holds |
| SnippetStore.App.GetNextIdx | src/app.rs:74-81 | a read-only query; under the invariant and the guard's good cases its result is not live, and with every snippet deleted and a non-empty queue it is still queued |
| SnippetStore.App.ReturnNextIdx | src/app.rs:83-89 | returns the value `get_next_idx` reports and pops the queue exactly when that value came from it; only the queue changes |
| SnippetStore.App.Position | src/app.rs:92 | the first position whose snippet has the identifier |
| SnippetStore.App.RemoveSnippet | src/app.rs:91-95 | the snippet list becomes `RemoveByIdx` of the old one and the identifier is appended to the back of the queue |
| SnippetStore.App.HasSnippetWithIdx | src/app.rs:97-104 | true exactly when some live snippet has the identifier; nothing changes |
| MainText.Pop | src/main.rs:165 | `String::pop`: the empty string stays empty, otherwise the result with the dropped last character appended is the original |
| MainText.EverythingContainsEmpty | src/main.rs:271 | every string contains the empty query |
| MainText.Split | src/main.rs:174 | `split(" ")` yields at least one piece |
| MainText.JoinSplit | src/main.rs:172-179 | joining the tags with single spaces gives back the typed tag text |
| MainText.SplitCount | src/main.rs:172-179 | there is one tag more than there are spaces, so `""` gives one tag and `"a  b"` three |
| MainText.SplitPiecesHaveNoSpace | src/main.rs:174 | no tag contains a space |
| MainText.SplitJoin | src/main.rs:174 | splitting undoes joining for a non-empty list of space-free tags |
| MainText.AfterLastNewline | src/main.rs:202-203 | the text after the last `'\n'`: a suffix with no newline, preceded by a newline when shorter than the text |
| MainText.WithoutFinalNewline | src/main.rs:202 | the text with one final `'\n'` removed, which `lines()` does not count as starting a new line |
| MainText.LastLine | src/main.rs:201-203 | `lines().last()` is absent exactly for the empty text; otherwise it is a newline-free line no longer than the text |
| MainText.LastLineIsFinalLine | src/main.rs:201-203 | the reported line is a suffix of the text with one final `'\n'` dropped, preceded by a `'\n'` unless it is that whole text |
| MainText.BackTabbedSpec | src/main.rs:200-212 | back-tab yields a prefix of the field: one character shorter when the last line starts with a tab, else four shorter when it ends with four spaces, else unchanged |
| MainText.BackTabRemovesIndent | src/main.rs:206-209 | when the field does not end in a newline, the four characters removed are the last line's trailing four spaces |
| MainText.BackTabPopsNewline | src/main.rs:202-205 | a field ending in a newline reports the line before it, so back-tab removes the newline: `"\t\n"` becomes `"\t"` |
| MainText.BackTabPopsLastCharacter | src/main.rs:204-205 | a tab at the start of the last line makes back-tab pop the field's last character, whatever it is: `"\tab"` becomes `"\ta"` |
| MainText.BackTabEatsNewline | src/main.rs:202-209 | `"ab    \n"` loses the newline and three spaces, becoming `"ab "` |
| MainSearch.NewCodeSnippet | src/main.rs:29-36 | a new snippet has no tags, empty code and the name "Unnamed Code Snippet" |
| MainSearch.MatchingPositions | src/main.rs:267-280 | every reported position is below the bound |
| MainSearch.MatchingPositionsSpec | src/main.rs:267-280 | the matching positions are strictly increasing (hence repeat nothing), and a position is reported exactly when its name or one of its tags contains the query |
| MainSearch.EmptyQueryMatchesAll | src/main.rs:270-277 | the empty query reports every position |
| MainSearch.SearchSnippets | src/main.rs:267-280 | the nested loops return exactly the matching positions, strictly increasing, and `i` is reported exactly when snippet `i` matches |
| MainSearch.Select | src/main.rs:245-246 | the snippets at the given positions, in that order |
| MainSearch.AddUnseenSpec | src/main.rs:245-250 | adding hits keeps the old found list as a prefix, keeps it duplicate-free, and the result holds exactly the old entries and the hits |
| MainSearch.AppendUnseen | src/main.rs:245-250 | the loop pushes exactly the hits not yet present, in order, giving `AddUnseen` of the found list and the selected snippets |
| MainLoop.WithActiveField | src/main.rs:144-156 | writing the stage's field (name, tag buffer or code) leaves a draft in place, and the field then holds the written value |
| MainLoop.TransitionKeepsDraft | src/main.rs:128-131 | a turn that does not quit keeps a draft present whenever the mode is `NewSnippet(_)`, so the `unwrap` at line 144 cannot fail |
| MainLoop.QuitOnlyOnEsc | src/main.rs:137-139 | the loop returns exactly on Esc in `Normal` or in `Search` (lines 233-235) |
| MainLoop.EscLeavesDraftUnsaved | src/main.rs:158-160 | Esc while creating a snippet returns to `Normal` and changes nothing else: the snippet list is unchanged and the draft stays in `current_snippet` |
| MainLoop.SaveAppendsDraft | src/main.rs:183-191 | ALT-Enter on the code stage appends the draft at the end of the list with earlier snippets unchanged, clears input and draft, and returns to `Normal` (lines 251-257); any other Enter there appends `'\n'` to the code |
| MainLoop.EnterSplitsTags | src/main.rs:167-182 | Enter on the tag stage, with or without ALT (only the code stage tests the modifier), saves nothing, keeps the buffer and the draft's name and code, sets the draft's tags to the buffer split on single spaces, which joined with `" "` give the buffer back, one more than its spaces, and moves to the code stage |
| MainLoop.TypingExtendsDefaultName | src/main.rs:128-132 | 'n' in `Normal` starts a blank draft with an empty input, and a typed character is appended to the default name "Unnamed Code Snippet" |
| MainLoop.TabsChangeOnlyActiveField | src/main.rs:195-212 | tab appends four spaces and back-tab applies the back-tab rule to the stage's field, and nothing else of the state changes |
| MainLoop.FoundOnlyGrowsOrIsCleared | src/main.rs:240-250 | the found list either keeps its old entries as a prefix, stays duplicate-free and gains only snippets from the store, or is emptied, which happens only for 'f' in `Normal` (lines 133-136) or for backspacing the query to empty (lines 225-229) |
| MainLoop.EnterOnEmptyQueryListsAll | src/main.rs:217-219 | Enter in `Search` returns to `Normal`, and with an empty query every snippet is then in the found list (lines 245-250) |
| MainLoop.TypingSearches | src/main.rs:221-224 | in `Search` a typed character extends the query, and every snippet matching the new query is then in the found list |
| MainLoop.SingleHit | src/main.rs:245-250 | with one snippet that matches and nothing found yet, the found list becomes exactly that snippet |
| MainLoop.SearchingDefaultFindsExample | src/main.rs:65-83 | from the initial state, typing 'b' finds the example snippet through its tag "bro" |
| MainLoop.App.Default | src/main.rs:65-83 | the initial state: one example snippet, empty input, mode `Search`, nothing found, no draft |
| MainLoop.App.SetField | src/main.rs:144-156 | writing through `input_field` replaces exactly the stage's field |
| MainLoop.App.TabField | src/main.rs:195-199 | four spaces are pushed onto the stage's field, and nothing else changes |
| MainLoop.App.BackTabField | src/main.rs:200-212 | the stage's field becomes its back-tabbed form, and nothing else changes |
| MainLoop.App.NormalKey | src/main.rs:126-142 | the handler for `Normal` does what `Transition` says for that mode and quits exactly on Esc |
| MainLoop.App.SearchKey | src/main.rs:216-250 | the handler for `Search` does what `Transition` says, including the search and the found-list update, and quits exactly on Esc |
| MainLoop.App.EditKey | src/main.rs:143-215 | the handler for `NewSnippet(stage)` does what `Transition` says, including saving the draft (lines 251-257) |
| MainLoop.App.Step | src/main.rs:124-257 | one turn of the loop keeps a draft present in `NewSnippet` mode, quits exactly when `Transition` says so and then changes nothing, and otherwise leaves exactly `Transition`'s next state |

## Left out

- Terminal setup and teardown, `event::read`, `terminal.draw`, `ui` and the cursor placement of the text fields are left out. They are I/O and rendering. A turn receives its key as a parameter, and an I/O error from reading or drawing is not modelled.
- `SnippyConfig` and its serde derives are left out. They are configuration data with no logic.
- Of tui's `ListState`, only the selected position is modelled; the scroll offset is left out.
- Key events are reduced to what the handler distinguishes. Modifiers matter only for ALT-Enter, and every other key or non-key event is `Other`.
- Strings are sequences of characters. Display width is not modelled. `str::lines` is modelled for `'\n'` only; its extra stripping of a `'\r'` before the newline is left out.
- SnippetStore.App.RemoveSnippet: takes the identifier's presence as a precondition, as does `SnippetStore.RemoveByIdx`. The source panics through `unwrap` when it is absent, and that panic is not modelled as a value.
- MainLoop.App.EditKey: assigns the draft's tags as `Split` of the buffer. The source builds the same list with a loop that copies each piece.
- MainLoop.App.Step: dispatches to one handler per mode. The source handles all modes in one loop body and then applies flags (`clear_found_snippets`, `push_current_snippet`, `found_indices`) after the match. Each flag is used by one mode only, so each handler applies its own flag.
- SnippetStore.App.ReturnNextIdx: states its result as `NextIdx` of the old state. `GetNextIdx` returns the same function of the state; their equality is not restated as a clause about `GetNextIdx`.
- The `src/app.rs` snapshot has no method that creates a snippet. Creation is modelled as `NextIdx`/`QueueAfterIssue` followed by appending the new snippet, and the class `SnippetStore.App` keeps the issue rule as written.
- The `src/main.rs` snapshot and `src/app.rs`/`src/lib.rs` are separate snapshots. They share no code, so the model keeps their types in separate modules.

## Findings

| source | as written | input that shows it | evidently intended | confidence | as-written member | corrected member |
|---|---|---|---|---|---|---|
| src/app.rs:76 and src/app.rs:84 | `get_next_idx`/`return_next_idx` take a queued identifier only when `snippets.len() > 0`; with every snippet deleted they return `snippets.len() == 0` without popping, although `0` is still queued | the default store: remove 0, 1 and 2, then create two snippets; both get identifier 0; 0 stays queued after the first creation, and the second pops it, leaving two live snippets numbered 0 and the queue [1, 2] | take the front of the queue whenever the queue is non-empty, so identifiers stay unique and the queue never holds a live identifier | not executed | SnippetStore.CreateAfterDeletingAllBreaksIdentity, SnippetStore.DeleteAllThenCreateTwiceReissuesZero, SnippetStore.DeleteAllThenCreateTwice | SnippetStore.FixedCreatePreservesIdentity |
