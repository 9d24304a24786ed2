/**
 * The script as a whole: the selection toggle, the Pin/Unpin menu item, and
 * the events that drive them. The main result is an invariant that every
 * event keeps: storage has no duplicates, every page entry occurs once,
 * every pinned entry is stored, and the section is shown exactly when the
 * stored list is non-empty.
 */
module Session {
  import opened Wrappers
  import opened Seqs
  import opened Guids
  import opened Sidebar
  import opened PinProperties

  // ---- Selection toggle ----

  /** Clicking the same entry twice, starting with it or nothing selected, restores the state. */
  lemma SelectTwiceRestores(s: State, g: string)
    requires s.active.None? || s.active == Some(g)
    ensures SelectEntry(SelectEntry(s, g), g) == s
  {
  }

  /** Clicking an entry twice while another was selected ends with nothing selected. */
  lemma SelectTwiceAfterOther(s: State, g: string)
    requires s.active.Some? && s.active != Some(g)
    ensures SelectEntry(SelectEntry(s, g), g) == s.(active := None)
  {
  }

  /** A click on an entry whose link is `/c/<g>` selects or deselects exactly g. */
  lemma ClickOnLink(s: State, g: string)
    requires IsGuid(g)
    ensures EntryClick(s, LinkOf(g)) == SelectEntry(s, g)
  {
    ExtractGuidRoundTrip(g);
  }

  /** Two clicks on the same entry with nothing selected leave everything as it was. */
  lemma ClickTwiceRestores(s: State, href: string)
    requires s.active.None?
    ensures EntryClick(EntryClick(s, href), href) == s
  {
  }

  // ---- The menu item ----

  /** Clicking "Pin" pins the selected entry: it ends the pinned list and is stored exactly once more at most. */
  lemma PinActionStores(s: State)
    requires CanAct(s) && s.menu.value.item == Some(PinText)
    requires s.section.Some? && Found(s, s.active.value)
    ensures MenuAction(s).Done?
    ensures s.active.value in Load(MenuAction(s).state.stored)
    ensures s.active.value in Load(s.stored) ==> MenuAction(s).state.stored == s.stored
    ensures s.active.value !in Load(s.stored) ==> MenuAction(s).state.stored == Some(Load(s.stored) + [s.active.value])
    ensures PinnedItems(MenuAction(s).state)[|PinnedItems(MenuAction(s).state)| - 1] == s.active.value
  {
    var g := s.active.value;
    var p := Pin(s, g);
    assert MenuAction(s) == Finish(p, PinText);
  }

  /** Clicking "Unpin" unpins the selected entry: it heads the history list and is filtered out of storage. */
  lemma UnpinActionRemoves(s: State)
    requires CanAct(s) && s.menu.value.item == Some(UnpinText)
    requires s.section.Some? && s.main.Some? && Found(s, s.active.value)
    ensures MenuAction(s).Done?
    ensures Load(MenuAction(s).state.stored) == Without(Load(s.stored), s.active.value)
    ensures MainItems(MenuAction(s).state)[0] == s.active.value
  {
    var g := s.active.value;
    var u := Unpin(s, g);
    assert u.Done?;
    assert MenuAction(s) == Finish(u.state, UnpinText);
  }

  /**
   * Whatever the label said before, once an action has found its entry the
   * new label agrees with storage: "Unpin" exactly when the entry is stored.
   */
  lemma LabelAgreesAfterAction(s: State)
    requires CanAct(s) && s.section.Some? && s.main.Some? && Found(s, s.active.value)
    ensures MenuAction(s).Done?
    ensures MenuAction(s).state.menu.value.item == Some(UnpinText)
            <==> s.active.value in Load(MenuAction(s).state.stored)
  {
    match s.menu.value.item.value
    case PinText => PinActionStores(s);
    case UnpinText => UnpinActionRemoves(s);
  }

  /**
   * The label is chosen from storage when the item is created, so the item
   * always offers the opposite of the entry's stored state: after the lookup
   * and a click, the entry is stored exactly when it was not before.
   */
  lemma LookupThenClickFlipsStored(s: State)
    requires s.menu.Some? && s.menu.value.item.None? && HasSelection(s.active)
    requires s.section.Some? && s.main.Some? && Found(s, s.active.value)
    ensures var r := MenuAction(CreateMenuItem(s));
      r.Done? && (s.active.value in Load(r.state.stored) <==> s.active.value !in Load(s.stored))
  {
    var c := CreateMenuItem(s);
    assert c.(menu := s.menu) == s;
    if s.active.value in Load(s.stored) {
      UnpinActionRemoves(c);
    } else {
      PinActionStores(c);
    }
  }

  // ---- Events and the session invariant ----

  /** What can happen to the page. */
  datatype Event =
    | NavFound                     // the polling found the navigation container
    | EntryClicked(href: string)   // a history entry with link href was clicked
    | HostShowsMenu                // the host rendered a fresh context menu
    | HostClosesMenu               // the host removed its context menu
    | MenuLookup                   // the deferred lookup after a click ran addPinMenuItem
    | ItemClicked                  // the injected Pin/Unpin item was clicked
    | HostRendersNav(list: Option<seq<string>>)  // the host replaced its navigation, section included

  /** The host renders each conversation once. */
  ghost predicate RendersOnce(e: Event) {
    e.HostRendersNav? ==> NoDup(e.list.GetOr([]))
  }

  /** One event; only section creation, the item's click and a host re-render touch lists or storage. */
  function Step(s: State, e: Event): (r: State)
    ensures e.EntryClicked? || e.HostShowsMenu? || e.HostClosesMenu? || e.MenuLookup? ==>
      r.main == s.main && r.section == s.section && r.stored == s.stored
    ensures e.NavFound? ==> r.section.Some? && (s.section.Some? ==> r == s)
    ensures e.HostRendersNav? ==> r.section.None? && r.main == e.list && r.stored == s.stored
    ensures !e.ItemClicked? && !e.NavFound? ==> r.stored == s.stored
  {
    match e
    case NavFound => AddPinnedSection(s)
    case EntryClicked(href) => EntryClick(s, href)
    case HostShowsMenu => s.(menu := Some(Menu(None, false)))
    case HostClosesMenu => s.(menu := None)
    case MenuLookup => CreateMenuItem(s)
    case ItemClicked => MenuAction(s).state
    case HostRendersNav(list) => s.(main := list, section := None)
  }

  /** The facts about lists and storage that every event keeps. */
  ghost predicate ListsConsistent(s: State) {
    NoDup(Load(s.stored)) && DomUnique(s) && PinnedAreStored(s)
  }

  /** The section, once created, is shown exactly when the stored list is non-empty. */
  predicate VisibilityAgrees(s: State) {
    s.section.Some? ==> (s.section.value.visible <==> Load(s.stored) != [])
  }

  ghost predicate Invariant(s: State) {
    ListsConsistent(s) && VisibilityAgrees(s)
  }

  /** The page as the script first sees it. */
  function Initial(main: Option<seq<string>>, stored: Option<seq<string>>): (s: State)
    ensures s.section.None? && s.active.None? && s.menu.None?
  {
    State(main, None, stored, None, None)
  }

  lemma InitialInvariant(main: Option<seq<string>>, stored: Option<seq<string>>)
    requires NoDup(main.GetOr([])) && NoDup(Load(stored))
    ensures Invariant(Initial(main, stored))
  {
    assert Entries(Initial(main, stored)) == multiset(main.GetOr([]));
  }

  lemma PinKeepsListsConsistent(s: State, g: string)
    requires ListsConsistent(s)
    ensures ListsConsistent(Pin(s, g))
  {
    PinKeepsStoredNoDup(s, g);
    PinKeepsDomUnique(s, g);
    PinKeepsPinnedStored(s, g);
  }

  lemma UnpinKeepsListsConsistent(s: State, g: string)
    requires ListsConsistent(s)
    ensures ListsConsistent(Unpin(s, g).state)
  {
    UnpinKeepsStoredNoDup(s, g);
    UnpinKeepsDomUnique(s, g);
    UnpinKeepsPinnedStored(s, g);
  }

  lemma {:induction false} PinAllKeepsListsConsistent(s: State, gs: seq<string>)
    requires ListsConsistent(s)
    ensures ListsConsistent(PinAll(s, gs))
    decreases |gs|
  {
    if gs != [] {
      PinKeepsListsConsistent(s, gs[0]);
      PinAllKeepsListsConsistent(Pin(s, gs[0]), gs[1..]);
    }
  }

  /** Toggling visibility and the menu bookkeeping touch neither lists nor storage. */
  lemma ToggleKeepsListsConsistent(s: State)
    requires ListsConsistent(s)
    ensures ListsConsistent(ToggleVisibility(s).state)
  {
    var t := ToggleVisibility(s).state;
    assert PinnedItems(t) == PinnedItems(s) && MainItems(t) == MainItems(s);
    assert Entries(t) == Entries(s);
  }

  /** Events that touch only the selection or the menu leave the lists, and so the invariant, alone. */
  lemma SameListsKeepInvariant(s: State, t: State)
    requires Invariant(s)
    requires t.main == s.main && t.section == s.section && t.stored == s.stored
    ensures Invariant(t)
  {
    assert Entries(t) == Entries(s);
  }

  lemma AddPinnedSectionKeepsInvariant(s: State)
    requires Invariant(s)
    ensures Invariant(AddPinnedSection(s))
  {
    if s.section.None? {
      var created := s.(section := Some(Section([], true)));
      assert Entries(created) == Entries(s);
      PinAllKeepsListsConsistent(created, Load(created.stored));
      ToggleKeepsListsConsistent(Restore(created));
      AddPinnedSectionKeepsStored(s);
    }
  }

  lemma MenuActionKeepsInvariant(s: State)
    requires Invariant(s)
    ensures Invariant(MenuAction(s).state)
  {
    if CanAct(s) {
      var g := s.active.value;
      var m := Menu(Some(Flip(s.menu.value.item.value)), true);
      if s.menu.value.item.value == PinText {
        var p := Pin(s, g);
        PinKeepsListsConsistent(s, g);
        ToggleKeepsListsConsistent(p.(menu := Some(m), active := None));
        assert MenuAction(s) == ToggleVisibility(p.(menu := Some(m), active := None));
      } else {
        var u := Unpin(s, g);
        UnpinKeepsListsConsistent(s, g);
        if u.Done? {
          ToggleKeepsListsConsistent(u.state.(menu := Some(m), active := None));
          assert MenuAction(s) == ToggleVisibility(u.state.(menu := Some(m), active := None));
        } else {
          assert MenuAction(s) == u;
        }
      }
    }
  }

  /** Every event keeps the invariant. */
  lemma StepKeepsInvariant(s: State, e: Event)
    requires Invariant(s) && RendersOnce(e)
    ensures Invariant(Step(s, e))
  {
    match e
    case NavFound => AddPinnedSectionKeepsInvariant(s);
    case EntryClicked(href) => SameListsKeepInvariant(s, Step(s, e));
    case HostShowsMenu => SameListsKeepInvariant(s, Step(s, e));
    case HostClosesMenu => SameListsKeepInvariant(s, Step(s, e));
    case MenuLookup => SameListsKeepInvariant(s, Step(s, e));
    case ItemClicked => MenuActionKeepsInvariant(s);
    case HostRendersNav(list) => assert Entries(Step(s, e)) == multiset(list.GetOr([]));
  }

  function Run(s: State, es: seq<Event>): State
    decreases |es|
  {
    if es == [] then s else Run(Step(s, es[0]), es[1..])
  }

  /** A run of one event is that event's step. */
  lemma RunSingle(s: State, e: Event)
    ensures Run(s, [e]) == Step(s, e)
  {
    assert [e][1..] == [];
  }

  /** Any sequence of events from a consistent first page keeps the invariant. */
  lemma {:induction false} RunKeepsInvariant(s: State, es: seq<Event>)
    requires Invariant(s) && forall i :: 0 <= i < |es| ==> RendersOnce(es[i])
    ensures Invariant(Run(s, es))
    decreases |es|
  {
    if es != [] {
      StepKeepsInvariant(s, es[0]);
      assert forall i :: 0 <= i < |es| - 1 ==> es[1..][i] == es[i + 1];
      RunKeepsInvariant(Step(s, es[0]), es[1..]);
    }
  }
}
