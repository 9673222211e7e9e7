/**
 * The analysis-settings editor (src/components/AnalysisSettings.tsx): a small
 * state machine over the subreddit list, the text typed in the "Add
 * subreddit" box and the two date bounds. Every edit returns the next state
 * and the settings object it emits through `onSettingsChange`, if any.
 */
module SettingsEditor {
  import opened Wrappers
  import opened Types

  datatype EditorState = EditorState(subreddits: seq<string>, newSubreddit: string, startDate: int, endDate: int)

  /** The state after an edit, and the settings emitted by it (`None`: no call). */
  datatype Edit = Edit(state: EditorState, emitted: Option<Settings>)

  /** Which date bound a calendar edits. */
  datatype Bound = Start | End

  const DefaultSubreddits: seq<string> := ["wallstreetbets", "stocks", "investing"]

  /** Thirty days, in milliseconds. */
  const LookbackMs: int := 30 * 24 * 60 * 60 * 1000

  predicate NoDuplicates(xs: seq<string>) {
    forall i, j :: 0 <= i < j < |xs| ==> xs[i] != xs[j]
  }

  /** What the editor reports for state `s`. */
  function SettingsOf(s: EditorState): Settings {
    Settings(s.startDate, s.endDate, s.subreddits)
  }

  /** The initial state when the editor mounts at instant `now`. */
  function Initial(now: int): (s: EditorState)
    ensures s.subreddits == DefaultSubreddits && NoDuplicates(s.subreddits)
    ensures s.newSubreddit == []
    ensures s.endDate == now && now - s.startDate == LookbackMs
  {
    EditorState(DefaultSubreddits, [], now - LookbackMs, now)
  }

  /** Typing into the "Add subreddit" box (`setNewSubreddit`); emits nothing. */
  function SetNewSubreddit(s: EditorState, text: string): (e: Edit)
    ensures e.emitted.None?
    ensures e.state.newSubreddit == text
    ensures e.state.subreddits == s.subreddits
    ensures e.state.startDate == s.startDate && e.state.endDate == s.endDate
  {
    Edit(s.(newSubreddit := text), None)
  }

  /** `handleAddSubreddit`. */
  function AddSubreddit(s: EditorState): (e: Edit)
    ensures s.newSubreddit == [] || s.newSubreddit in s.subreddits ==> e == Edit(s, None)
    ensures s.newSubreddit != [] && s.newSubreddit !in s.subreddits ==>
      && e.state.subreddits == s.subreddits + [s.newSubreddit]
      && e.state.newSubreddit == []
      && e.state.startDate == s.startDate && e.state.endDate == s.endDate
      && e.emitted == Some(SettingsOf(e.state))
    ensures NoDuplicates(s.subreddits) ==> NoDuplicates(e.state.subreddits)
  {
    if s.newSubreddit != [] && s.newSubreddit !in s.subreddits then
      var updated := s.subreddits + [s.newSubreddit];
      var s' := s.(subreddits := updated, newSubreddit := []);
      Edit(s', Some(Settings(s.startDate, s.endDate, updated)))
    else
      Edit(s, None)
  }

  /** `subreddits.filter(s => s !== name)`. */
  function Without(xs: seq<string>, name: string): seq<string> {
    if |xs| == 0 then []
    else (if xs[0] == name then [] else [xs[0]]) + Without(xs[1..], name)
  }

  /** `handleRemoveSubreddit(name)`: always emits, even when nothing was removed. */
  function RemoveSubreddit(s: EditorState, name: string): (e: Edit)
    ensures e.state.subreddits == Without(s.subreddits, name)
    ensures name !in e.state.subreddits
    ensures forall x :: x in e.state.subreddits <==> x in s.subreddits && x != name
    ensures name !in s.subreddits ==> e.state.subreddits == s.subreddits
    ensures e.state.newSubreddit == s.newSubreddit
    ensures e.state.startDate == s.startDate && e.state.endDate == s.endDate
    ensures e.emitted == Some(SettingsOf(e.state))
    ensures NoDuplicates(s.subreddits) ==> NoDuplicates(e.state.subreddits)
  {
    WithoutMembers(s.subreddits, name);
    WithoutAbsent(s.subreddits, name);
    WithoutNoDuplicates(s.subreddits, name);
    var updated := Without(s.subreddits, name);
    Edit(s.(subreddits := updated), Some(Settings(s.startDate, s.endDate, updated)))
  }

  /** `handleDateChange(bound, date)`: an undefined date changes nothing; start <= end is not enforced. */
  function DateChange(s: EditorState, bound: Bound, date: Option<int>): (e: Edit)
    ensures date.None? ==> e == Edit(s, None)
    ensures date.Some? ==>
      && e.state.subreddits == s.subreddits
      && e.state.newSubreddit == s.newSubreddit
      && e.state.startDate == (if bound.Start? then date.value else s.startDate)
      && e.state.endDate == (if bound.End? then date.value else s.endDate)
      && e.emitted == Some(SettingsOf(e.state))
  {
    match date
    case None => Edit(s, None)
    case Some(d) =>
      if bound.Start? then Edit(s.(startDate := d), Some(Settings(d, s.endDate, s.subreddits)))
      else Edit(s.(endDate := d), Some(Settings(s.startDate, d, s.subreddits)))
  }

  lemma {:induction false} WithoutMembers(xs: seq<string>, name: string)
    ensures forall x :: x in Without(xs, name) <==> x in xs && x != name
  {
    if |xs| > 0 {
      WithoutMembers(xs[1..], name);
      assert xs == [xs[0]] + xs[1..];
    }
  }

  lemma {:induction false} WithoutAbsent(xs: seq<string>, name: string)
    ensures name !in xs ==> Without(xs, name) == xs
  {
    if |xs| > 0 && name !in xs {
      assert name !in xs[1..];
      WithoutAbsent(xs[1..], name);
      assert xs == [xs[0]] + xs[1..];
    }
  }

  lemma {:induction false} WithoutNoDuplicates(xs: seq<string>, name: string)
    ensures NoDuplicates(xs) ==> NoDuplicates(Without(xs, name))
  {
    if |xs| > 0 && NoDuplicates(xs) {
      var rest := Without(xs[1..], name);
      assert NoDuplicates(xs[1..]) by {
        assert forall i :: 0 <= i < |xs[1..]| ==> xs[1..][i] == xs[i + 1];
      }
      WithoutNoDuplicates(xs[1..], name);
      WithoutMembers(xs[1..], name);
      assert xs[0] !in xs[1..] by {
        forall i | 0 <= i < |xs[1..]| ensures xs[1..][i] != xs[0] {
          assert xs[1..][i] == xs[i + 1];
        }
      }
      assert xs[0] !in rest;
    }
  }

  /** Filtering distributes over concatenation, so the survivors keep their order. */
  lemma {:induction false} WithoutAppend(xs: seq<string>, ys: seq<string>, name: string)
    ensures Without(xs + ys, name) == Without(xs, name) + Without(ys, name)
  {
    if |xs| > 0 {
      assert (xs + ys)[1..] == xs[1..] + ys;
      WithoutAppend(xs[1..], ys, name);
    } else {
      assert xs + ys == ys;
    }
  }

  /** Removing a name right after adding it restores the list. */
  lemma AddThenRemove(s: EditorState)
    requires s.newSubreddit != [] && s.newSubreddit !in s.subreddits
    ensures RemoveSubreddit(AddSubreddit(s).state, s.newSubreddit).state.subreddits == s.subreddits
  {
    var n := s.newSubreddit;
    WithoutAppend(s.subreddits, [n], n);
    WithoutAbsent(s.subreddits, n);
    assert Without([n], n) == [] by {
      assert [n][1..] == [];
    }
  }

  /** Adding a name already listed, or with an empty box, is a no-op that emits nothing. */
  lemma AddIdempotent(s: EditorState)
    ensures AddSubreddit(AddSubreddit(s).state).state.subreddits == AddSubreddit(s).state.subreddits
    ensures AddSubreddit(AddSubreddit(s).state).emitted.None?
  {
  }

  /** Removing twice is removing once. */
  lemma RemoveIdempotent(s: EditorState, name: string)
    ensures RemoveSubreddit(RemoveSubreddit(s, name).state, name).state == RemoveSubreddit(s, name).state
  {
  }
}
