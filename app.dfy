/** The root component (src/App.tsx): the persisted `AppState`, the transient
    optimistic overlay, the values derived from them, and the handlers that
    add, delete, reset, complete set-up and toggle the theme.

    The 300 ms settle timer of an add or delete is modelled as a value: the
    handler returns the `Commit` its timer will run, and `Settle` runs it
    whenever the caller chooses, in any order relative to other steps. The
    splash screen and all markup are not part of this model. */
module App {
  import opened Collections
  import opened Types
  import opened LocalStorage
  import ThemeHook
  import ProgressBar
  import SetupScreen

  /** The storage key of the application state. */
  const StateKey := "protein-tracker-state"

  /** `initialState`: no goal (which routes to set-up) and no entries. */
  const InitialState := AppState(0.0, [])

  // ---------------------------------------------------------------------
  // Derived values

  /** The list the page shows and totals: the overlay when it is non-empty,
      otherwise the persisted entries. */
  function EffectiveEntries(overlay: seq<FoodEntry>, entries: seq<FoodEntry>): (r: seq<FoodEntry>)
    ensures |overlay| > 0 ==> r == overlay
    ensures |overlay| == 0 ==> r == entries
    ensures r == [] <==> overlay == [] && entries == []
  {
    if |overlay| > 0 then overlay else entries
  }

  /** `entries.reduce((sum, entry) => sum + entry.protein, 0)`. */
  function TotalProtein(entries: seq<FoodEntry>): (r: real)
    ensures entries == [] ==> r == 0.0
    ensures (forall i :: 0 <= i < |entries| ==> entries[i].protein >= 0.0) ==> r >= 0.0
  {
    if entries == [] then 0.0 else entries[0].protein + TotalProtein(entries[1..])
  }

  /** The total of a concatenation is the sum of the totals. */
  lemma {:induction false} TotalProteinAppend(a: seq<FoodEntry>, b: seq<FoodEntry>)
    ensures TotalProtein(a + b) == TotalProtein(a) + TotalProtein(b)
  {
    if a != [] {
      assert (a + b)[1..] == a[1..] + b;
      TotalProteinAppend(a[1..], b);
    } else {
      assert a + b == b;
    }
  }

  /** `(totalProtein / state.dailyGoal) * 100`; evaluated for display only
      once set-up is complete, so the goal is non-zero. */
  function Progress(total: real, goal: real): (r: real)
    requires goal != 0.0
    ensures goal > 0.0 && total >= 0.0 ==> r >= 0.0
    ensures goal > 0.0 ==> (r >= 100.0 <==> total >= goal)
  {
    assert goal > 0.0 ==> total == (total / goal) * goal;
    assert goal > 0.0 ==> (total >= goal <==> total / goal >= 1.0);
    total / goal * 100.0
  }

  /** `Math.max(state.dailyGoal - totalProtein, 0)`. */
  function Remaining(goal: real, total: real): (r: real)
    ensures r >= 0.0 && r >= goal - total
    ensures r == 0.0 <==> total >= goal
    ensures total <= goal ==> r == goal - total
  {
    if goal - total > 0.0 then goal - total else 0.0
  }

  /** The caption under the bar: "Over Goal By +surplus" or "Remaining Today". */
  datatype Readout = OverBy(surplus: real) | RemainingToday(grams: real)

  function ReadoutFor(goal: real, total: real): (r: Readout)
    ensures r.OverBy? <==> total > goal
    ensures r.OverBy? ==> r.surplus > 0.0 && r.surplus == total - goal
    ensures r.RemainingToday? ==> r.grams == Remaining(goal, total) && r.grams >= 0.0
  {
    if total > goal then OverBy(total - goal) else RemainingToday(Remaining(goal, total))
  }

  /** What the root renders once the splash screen is gone. */
  datatype Screen =
    | Setup
    | Main(shown: seq<FoodEntry>, total: real, progress: real, bar: ProgressBar.Bar, readout: Readout)

  /** Routing: a zero goal shows the set-up screen; otherwise the main screen
      with the effective list and the values derived from it. */
  function View(state: AppState, overlay: seq<FoodEntry>): (v: Screen)
    ensures v.Setup? <==> state.dailyGoal == 0.0
    ensures v.Main? ==> (v.shown == EffectiveEntries(overlay, state.entries)
                         && v.total == TotalProtein(v.shown)
                         && v.progress == v.total / state.dailyGoal * 100.0
                         && (v.bar.isOverGoal <==> v.readout.OverBy?))
  {
    if state.dailyGoal == 0.0 then Setup
    else
      var shown := EffectiveEntries(overlay, state.entries);
      var total := TotalProtein(shown);
      var progress := Progress(total, state.dailyGoal);
      Main(shown, total, progress, ProgressBar.Render(progress, total, state.dailyGoal),
           ReadoutFor(state.dailyGoal, total))
  }

  // ---------------------------------------------------------------------
  // Deletion by id

  /** The test `entry.id !== id`. */
  function IdIsNot(id: string): FoodEntry -> bool
  {
    (e: FoodEntry) => e.id != id
  }

  /** `entries.filter((entry) => entry.id !== id)`. */
  function RemoveId(entries: seq<FoodEntry>, id: string): (r: seq<FoodEntry>)
    ensures |r| <= |entries|
    ensures forall i :: 0 <= i < |r| ==> r[i].id != id
  {
    Filter(entries, IdIsNot(id))
  }

  /** Deletion removes every entry carrying `id` and keeps every other entry,
      as often as it occurred and in its original order. */
  lemma RemoveIdKeepsOthers(entries: seq<FoodEntry>, id: string, e: FoodEntry)
    ensures e in RemoveId(entries, id) <==> e in entries && e.id != id
    ensures e.id != id ==> multiset(RemoveId(entries, id))[e] == multiset(entries)[e]
    ensures IsSubsequence(RemoveId(entries, id), entries)
  {
    FilterMembers(entries, IdIsNot(id), e);
    FilterCounts(entries, IdIsNot(id), e);
    FilterIsSubsequence(entries, IdIsNot(id));
  }

  /** Deleting an id no entry carries changes nothing; deleting twice is
      deleting once. */
  lemma RemoveIdAbsentAndTwice(entries: seq<FoodEntry>, id: string)
    ensures (forall i :: 0 <= i < |entries| ==> entries[i].id != id) ==> RemoveId(entries, id) == entries
    ensures RemoveId(RemoveId(entries, id), id) == RemoveId(entries, id)
  {
    FilterIdentity(entries, IdIsNot(id));
    FilterIdempotent(entries, IdIsNot(id));
  }

  /** The entries a deletion takes away. */
  function WithId(entries: seq<FoodEntry>, id: string): seq<FoodEntry>
  {
    Filter(entries, (e: FoodEntry) => e.id == id)
  }

  /** Deleting lowers the total by exactly the protein of the removed entries. */
  lemma {:induction false} TotalAfterRemoval(entries: seq<FoodEntry>, id: string)
    ensures TotalProtein(RemoveId(entries, id)) == TotalProtein(entries) - TotalProtein(WithId(entries, id))
  {
    if entries != [] {
      TotalAfterRemoval(entries[1..], id);
    }
  }

  // ---------------------------------------------------------------------
  // Optimistic add and delete, and their deferred commits

  /** The overlay `handleAddEntry` writes at once: `[newEntry, ...state.entries]`. */
  function AddOverlay(state: AppState, e: FoodEntry): (r: seq<FoodEntry>)
    ensures |r| == |state.entries| + 1 && r[0] == e && r[1..] == state.entries
  {
    [e] + state.entries
  }

  /** The overlay `handleDeleteEntry` writes at once. */
  function DeleteOverlay(state: AppState, id: string): (r: seq<FoodEntry>)
    ensures IsSubsequence(r, state.entries)
    ensures forall i :: 0 <= i < |r| ==> r[i].id != id
    ensures (forall i :: 0 <= i < |state.entries| ==> state.entries[i].id != id) ==> r == state.entries
  {
    FilterIsSubsequence(state.entries, IdIsNot(id));
    FilterIdentity(state.entries, IdIsNot(id));
    RemoveId(state.entries, id)
  }

  /** The deferred step a handler schedules. `snapshot` is the state held by
      the `setState` instance the handler closed over: the state when the
      handler ran. */
  datatype Commit = AddCommit(snapshot: AppState, entry: FoodEntry) | DeleteCommit(snapshot: AppState, id: string)

  /** The updater the commit passes to `setState`. */
  function Apply(c: Commit, prev: AppState): (r: AppState)
    ensures r.dailyGoal == prev.dailyGoal
    ensures c.AddCommit? ==> |r.entries| == |prev.entries| + 1 && r.entries[0] == c.entry && r.entries[1..] == prev.entries
    ensures c.DeleteCommit? ==> IsSubsequence(r.entries, prev.entries)
                                && forall i :: 0 <= i < |r.entries| ==> r.entries[i].id != c.id
  {
    match c
    case AddCommit(_, e) => prev.(entries := [e] + prev.entries)
    case DeleteCommit(_, id) =>
      FilterIsSubsequence(prev.entries, IdIsNot(id));
      prev.(entries := RemoveId(prev.entries, id))
  }

  function Updater(c: Commit): AppState -> Option<AppState>
  {
    (prev: AppState) => Some(Apply(c, prev))
  }

  /** What a commit sets the state to: its updater applied to the snapshot
      (as the code is written; see `SettleLatest` for the intended form). */
  function Committed(c: Commit): (r: AppState)
    ensures r.dailyGoal == c.snapshot.dailyGoal
    ensures c.AddCommit? ==> r.entries == [c.entry] + c.snapshot.entries
    ensures c.DeleteCommit? ==> IsSubsequence(r.entries, c.snapshot.entries)
                                && forall i :: 0 <= i < |r.entries| ==> r.entries[i].id != c.id
  {
    Apply(c, c.snapshot)
  }

  /** An add commit prepends the entry and keeps the goal and the older
      entries; the optimistic list shown before it is exactly the list after it. */
  lemma AddOverlayMatchesCommit(state: AppState, e: FoodEntry)
    ensures Committed(AddCommit(state, e)).dailyGoal == state.dailyGoal
    ensures Committed(AddCommit(state, e)).entries == [e] + state.entries
    ensures EffectiveEntries(AddOverlay(state, e), state.entries) == Committed(AddCommit(state, e)).entries
  {
  }

  /** Adding shows one more entry at once, and the total grows by its protein. */
  lemma AddRaisesTotal(state: AppState, e: FoodEntry)
    ensures |EffectiveEntries(AddOverlay(state, e), state.entries)| == |state.entries| + 1
    ensures TotalProtein(EffectiveEntries(AddOverlay(state, e), state.entries))
         == TotalProtein(state.entries) + e.protein
  {
    assert ([e] + state.entries)[1..] == state.entries;
  }

  /** The delete commit keeps the goal; the optimistic list agrees with the
      committed one except when the deletion empties a non-empty list: the
      overlay is then `[]`, which means "no overlay", and the stale list stays
      on screen until the commit. */
  lemma DeleteOverlayMatchesCommitUnlessEmptied(state: AppState, id: string)
    ensures Committed(DeleteCommit(state, id)).dailyGoal == state.dailyGoal
    ensures EffectiveEntries(DeleteOverlay(state, id), state.entries) == Committed(DeleteCommit(state, id)).entries
        <==> RemoveId(state.entries, id) != [] || state.entries == []
  {
  }

  /** Deleting the sole entry: the entry is still shown (and counted) until
      the commit lands, and only then disappears. */
  lemma DeletingSoleEntryShowsStaleList(state: AppState, e: FoodEntry)
    requires state.entries == [e]
    ensures EffectiveEntries(DeleteOverlay(state, e.id), state.entries) == [e]
    ensures Committed(DeleteCommit(state, e.id)).entries == []
  {
    assert RemoveId([e], e.id) == [];
  }

  /** Deleting "1" from the list ["1", "2"] shows ["2"] at once and commits ["2"]. */
  lemma DeleteExample(goal: real, e1: FoodEntry, e2: FoodEntry)
    requires e1.id == "1" && e2.id == "2"
    ensures EffectiveEntries(DeleteOverlay(AppState(goal, [e1, e2]), "1"), [e1, e2]) == [e2]
    ensures Committed(DeleteCommit(AppState(goal, [e1, e2]), "1")).entries == [e2]
  {
    assert "2" != "1";
    assert !IdIsNot("1")(e1) && IdIsNot("1")(e2);
    assert [e1, e2][1..] == [e2];
    assert [e2][1..] == [];
    assert Filter([e2], IdIsNot("1")) == [e2];
    assert RemoveId([e1, e2], "1") == [e2];
  }

  /** As written: two adds issued before the first settles both carry the same
      snapshot, so when both commits have gone through the store the second
      replaces the first and the first entry is lost for good, from memory and
      from the write that is pending. */
  lemma RapidAddsLoseFirstEntry(st: StoreState<AppState>, e1: FoodEntry, e2: FoodEntry)
    requires e1 != e2 && e1 !in st.value.entries
    ensures var c1 := AddCommit(st.value, e1);
            var c2 := AddCommit(st.value, e2);
            var after := AfterUpdate(AfterUpdate(st, c1.snapshot, Updater(c1)), c2.snapshot, Updater(c2));
            after.value.entries == [e2] + st.value.entries
            && e1 !in after.value.entries
            && after.pending == Some(after.value)
  {
    var c1 := AddCommit(st.value, e1);
    var c2 := AddCommit(st.value, e2);
    SameSnapshotUpdatesDoNotCompose(st, st.value, Updater(c1), Updater(c2));
  }

  /** As written: Reset pressed while an add or a delete is still pending is
      undone by the late commit, which rebuilds the pre-reset goal and entries
      (with the entry added or the id deleted) and schedules that for storage;
      with a goal set, the main screen returns. */
  lemma ResetUndoneByLateCommit(st: StoreState<AppState>, c: Commit)
    requires c.snapshot == st.value
    ensures var after := AfterUpdate(AfterSet(st, InitialState), c.snapshot, Updater(c));
            after.value.dailyGoal == st.value.dailyGoal
            && (c.AddCommit? ==> after.value.entries == [c.entry] + st.value.entries)
            && (c.DeleteCommit? ==> after.value.entries == RemoveId(st.value.entries, c.id))
            && after.pending == Some(after.value)
            && (st.value.dailyGoal != 0.0 ==> View(after.value, []).Main?)
  {
  }

  /** As written: a delete issued before an add settles carries the same
      snapshot, so its commit drops the added entry again (from memory and
      from the pending write) even though it deletes another id. */
  lemma DeleteBeforeAddSettlesDropsEntry(st: StoreState<AppState>, e: FoodEntry, id: string)
    requires e.id != id && e !in st.value.entries
    ensures var ca := AddCommit(st.value, e);
            var cd := DeleteCommit(st.value, id);
            var after := AfterUpdate(AfterUpdate(st, ca.snapshot, Updater(ca)), cd.snapshot, Updater(cd));
            e !in after.value.entries && after.pending == Some(after.value)
  {
    var ca := AddCommit(st.value, e);
    var cd := DeleteCommit(st.value, id);
    SameSnapshotUpdatesDoNotCompose(st, st.value, Updater(ca), Updater(cd));
    RemoveIdKeepsOthers(st.value.entries, id, e);
  }

  /** Intended: the commit goes through a setter that hands its updater the
      latest value, as a functional `setState` is meant to, instead of the
      snapshot the handler saw. */
  function SettleLatest(st: StoreState<AppState>, c: Commit): (r: StoreState<AppState>)
    ensures r.value == Apply(c, st.value) && r.pending == Some(r.value)
    ensures r.records == st.records
  {
    AfterUpdate(st, st.value, Updater(c))
  }

  /** With commits settled against the latest value, two rapid adds keep both
      entries, newest first, and the goal, in memory and in the pending write. */
  lemma LatestCommitsKeepBothEntries(st: StoreState<AppState>, e1: FoodEntry, e2: FoodEntry)
    ensures var after := SettleLatest(SettleLatest(st, AddCommit(st.value, e1)), AddCommit(st.value, e2));
            after.value.entries == [e2, e1] + st.value.entries
            && after.value.dailyGoal == st.value.dailyGoal
            && after.pending == Some(after.value)
  {
  }

  /** With commits settled against the latest value, an add followed by a
      delete of another id keeps the new entry, in memory and in the pending
      write. */
  lemma LatestCommitsKeepAddAcrossDelete(st: StoreState<AppState>, e: FoodEntry, id: string)
    requires e.id != id
    ensures var after := SettleLatest(SettleLatest(st, AddCommit(st.value, e)), DeleteCommit(st.value, id));
            e in after.value.entries && after.pending == Some(after.value)
  {
    RemoveIdKeepsOthers([e] + st.value.entries, id, e);
  }

  /** As written: a delete overlay of `[]` is indistinguishable from "no
      overlay". Intended: an explicit staged list, where an empty staged list
      is shown as empty. */
  function StagedEntries(staged: Option<seq<FoodEntry>>, entries: seq<FoodEntry>): (r: seq<FoodEntry>)
    ensures staged.None? ==> r == entries
    ensures staged == Some([]) ==> r == []
    ensures staged.Some? && staged.value != [] ==> r == EffectiveEntries(staged.value, entries)
  {
    match staged
    case Some(list) => list
    case None => entries
  }

  /** With commits settled against the latest value, an add or a delete that
      settles after a reset keeps the reset goal, so the set-up screen stays,
      and that zero goal is what is pending for storage. */
  lemma LatestCommitKeepsReset(st: StoreState<AppState>, c: Commit, overlay: seq<FoodEntry>)
    requires c.snapshot == st.value
    ensures var after := SettleLatest(AfterSet(st, InitialState), c);
            after.value.dailyGoal == 0.0
            && (c.AddCommit? ==> after.value.entries == [c.entry])
            && (c.DeleteCommit? ==> after.value.entries == [])
            && after.pending == Some(after.value)
            && View(after.value, overlay) == Setup
  {
  }

  /** With an explicit staged list, what a delete shows at once is always what
      its commit will set, the sole-entry case included. */
  lemma StagedDeleteMatchesCommit(state: AppState, id: string)
    ensures StagedEntries(Some(DeleteOverlay(state, id)), state.entries) == Committed(DeleteCommit(state, id)).entries
    ensures state.entries != [] && RemoveId(state.entries, id) == [] ==>
              StagedEntries(Some(DeleteOverlay(state, id)), state.entries) == []
  {
  }

  // ---------------------------------------------------------------------
  // Routing and theme

  /** Reset routes back to set-up whatever the overlay holds. */
  lemma ResetRoutesToSetup(overlay: seq<FoodEntry>)
    ensures View(InitialState, overlay) == Setup
  {
  }

  /** Completing set-up with an accepted goal keeps the entries and routes to
      the main screen. */
  lemma CompletedSetupRoutesToMain(state: AppState, input: string, overlay: seq<FoodEntry>)
    requires SetupScreen.ParseGoal(input).Some?
    ensures var s := state.(dailyGoal := SetupScreen.ParseGoal(input).value as real);
            s.entries == state.entries && View(s, overlay).Main?
  {
  }

  /** `theme === "light" ? "dark" : "light"`. */
  function Toggled(theme: string): (r: string)
    ensures r == ThemeHook.Dark <==> theme == ThemeHook.Light
    ensures r == ThemeHook.Light || r == ThemeHook.Dark
    ensures r != theme
  {
    if theme == ThemeHook.Light then ThemeHook.Dark else ThemeHook.Light
  }

  /** Toggling twice restores the theme exactly when it was one of the two
      known themes; an unexpected stored theme becomes "dark". */
  lemma ToggleTwice(theme: string)
    ensures Toggled(Toggled(theme)) == theme <==> theme == ThemeHook.Light || theme == ThemeHook.Dark
    ensures Toggled(Toggled(theme)) == ThemeHook.Light || Toggled(Toggled(theme)) == ThemeHook.Dark
  {
  }

  // ---------------------------------------------------------------------
  // The component instance

  class Root {
    const store: Store<AppState>
    const theme: ThemeHook.ThemeState
    var overlay: seq<FoodEntry>

    /** The list on screen (src/App.tsx:224-226). */
    function Shown(): seq<FoodEntry>
      reads this, store
    {
      EffectiveEntries(overlay, store.value.entries)
    }

    /** Mounting: the state is loaded from storage, the theme resolved and
        applied, and the overlay starts empty. */
    constructor (available: bool, records: map<string, Record<AppState>>,
                 window: ThemeHook.Window, classes: set<string>)
      ensures store.key == StateKey && store.initial == InitialState
      ensures fresh(store) && fresh(theme)
      ensures store.State() == Mounted(available, records, StateKey, InitialState)
      ensures store.available == available
      ensures theme.theme == ThemeHook.InitialTheme(Some(window))
      ensures ThemeHook.IsToken(theme.theme) ==>
                theme.Synced() && theme.classes == ThemeHook.MarkedClasses(classes, theme.theme)
                && theme.storage == window.storage[ThemeHook.ThemeKey := theme.theme]
      ensures !ThemeHook.IsToken(theme.theme) ==>
                theme.classes == classes - {ThemeHook.Light, ThemeHook.Dark} && theme.storage == window.storage
      ensures overlay == [] && Shown() == store.value.entries
    {
      store := new Store(StateKey, InitialState, available, records);
      theme := new ThemeHook.ThemeState(window, classes);
      overlay := [];
    }

    /** `handleAddEntry`: the overlay shows the new entry on top at once; the
        returned commit is what the settle timer will run. */
    method HandleAddEntry(id: string, name: string, protein: real, timestamp: int) returns (c: Commit)
      modifies this
      ensures overlay == AddOverlay(store.value, FoodEntry(id, name, protein, timestamp))
      ensures Shown() == [FoodEntry(id, name, protein, timestamp)] + store.value.entries
      ensures c == AddCommit(store.value, FoodEntry(id, name, protein, timestamp))
    {
      var e := FoodEntry(id, name, protein, timestamp);
      overlay := [e] + store.value.entries;
      c := AddCommit(store.value, e);
    }

    /** `handleDeleteEntry`. */
    method HandleDeleteEntry(id: string) returns (c: Commit)
      modifies this
      ensures overlay == DeleteOverlay(store.value, id)
      ensures Shown() == EffectiveEntries(DeleteOverlay(store.value, id), store.value.entries)
      ensures c == DeleteCommit(store.value, id)
    {
      overlay := RemoveId(store.value.entries, id);
      c := DeleteCommit(store.value, id);
    }

    /** A settle timer elapses: the commit's updater goes through the captured
        `setState`, then the overlay is cleared. */
    method Settle(c: Commit)
      modifies this, store
      ensures store.State() == AfterUpdate(old(store.State()), c.snapshot, Updater(c))
      ensures store.value == Committed(c) && store.pending == Some(Committed(c))
      ensures store.records == old(store.records)
      ensures overlay == [] && Shown() == Committed(c).entries
    {
      store.Update(c.snapshot, Updater(c));
      overlay := [];
    }

    /** The Reset button: `setState(initialState)`. The overlay is left as it is. */
    method Reset()
      modifies store
      ensures store.State() == AfterSet(old(store.State()), InitialState)
      ensures View(store.value, overlay) == Setup
      ensures Shown() == overlay
    {
      store.Set(InitialState);
    }

    /** Submitting the set-up form: the browser's checks on the goal input,
        then the handler's guard, then `onComplete`. That screen is only
        rendered while the goal is zero. */
    method CompleteSetup(input: string) returns (goal: Option<int>)
      requires store.value.dailyGoal == 0.0
      modifies store
      ensures goal.Some? <==> SetupScreen.GoalInputValid(input) && SetupScreen.ParseGoal(input).Some?
      ensures goal.Some? ==> goal == SetupScreen.ParseGoal(input) && goal.value > 0
      ensures goal.Some? ==> store.State() == AfterSet(old(store.State()), old(store.value).(dailyGoal := goal.value as real))
      ensures goal.Some? ==> View(store.value, overlay).Main? && store.value.entries == old(store.value.entries)
      ensures goal.None? ==> store.State() == old(store.State())
    {
      if !SetupScreen.GoalInputValid(input) {
        return None;
      }
      goal := SetupScreen.ParseGoal(input);
      if goal.Some? {
        store.Set(store.value.(dailyGoal := goal.value as real));
      }
    }

    /** `toggleTheme`: the theme always changes, so the effect always runs and
        leaves the root marked and the preference stored. */
    method ToggleTheme()
      modifies theme
      ensures theme.theme == Toggled(old(theme.theme))
      ensures theme.classes == ThemeHook.MarkedClasses(old(theme.classes), theme.theme)
      ensures theme.storage == old(theme.storage)[ThemeHook.ThemeKey := theme.theme]
      ensures theme.Synced()
    {
      theme.SetTheme(Toggled(theme.theme));
    }
  }
}
