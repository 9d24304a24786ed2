/**
 * The pinned-conversations sidebar as an immutable record, and the script's
 * handlers as pure transitions on it.
 *
 * Document lookups are abstracted: an entry "is found" when its GUID occurs
 * in the pinned list or in the host's history list. The pinned section is
 * prepended to the navigation container that holds the history list, so a
 * lookup by link meets a pinned copy before a history copy.
 */
module Sidebar {
  import opened Wrappers
  import opened Seqs
  import opened Guids

  /** The text shown by the injected menu item. */
  datatype Label = PinText | UnpinText

  /** The host's open context menu: the injected "Pin"/"Unpin" item if any, and whether the wrapper was hidden. */
  datatype Menu = Menu(item: Option<Label>, hidden: bool)

  /** The injected "pinned-section": its "pinned-items-list" (entry GUIDs in DOM order) and its display. */
  datatype Section = Section(items: seq<string>, visible: bool)

  /**
   * main:    the host's history list, None when that list is not in the page;
   * section: the pinned section, None until it has been created;
   * stored:  the "pinnedItems" storage value, None when the key is missing;
   * active:  the selected entry's GUID (the script's activeItemSelected);
   * menu:    the context menu the host is showing, None when there is none.
   */
  datatype State = State(
    main: Option<seq<string>>,
    section: Option<Section>,
    stored: Option<seq<string>>,
    active: Option<string>,
    menu: Option<Menu>)

  /**
   * A handler either runs to completion or a TypeError escapes it; in both
   * cases `state` is what the page holds afterwards.
   */
  datatype Outcome = Done(state: State) | Threw(state: State)

  /** `JSON.parse(localStorage.getItem("pinnedItems")) || []`: a missing key reads as the empty list. */
  function Load(stored: Option<seq<string>>): (r: seq<string>)
    ensures stored.None? ==> r == []
    ensures stored.Some? ==> r == stored.value
  {
    stored.GetOr([])
  }

  function MainItems(s: State): seq<string> {
    s.main.GetOr([])
  }

  function PinnedItems(s: State): seq<string> {
    if s.section.Some? then s.section.value.items else []
  }

  /** The lookup `a[href='/c/<g>']` finds an entry. */
  predicate Found(s: State, g: string) {
    g in PinnedItems(s) || g in MainItems(s)
  }

  /** JavaScript truthiness of activeItemSelected: neither null nor the empty string. */
  predicate HasSelection(a: Option<string>) {
    a.Some? && a.value != ""
  }

  /** The entries on the page, pinned or not, counted with multiplicity. */
  function Entries(s: State): multiset<string> {
    multiset(PinnedItems(s)) + multiset(MainItems(s))
  }

  /** Every entry of the page occurs once across the pinned list and the history list. */
  ghost predicate DomUnique(s: State) {
    forall y :: Entries(s)[y] <= 1
  }

  /** On a page whose entries occur once, a pinned entry is not also in the history list. */
  lemma UniqueApart(s: State, g: string)
    requires DomUnique(s) && g in PinnedItems(s)
    ensures g !in MainItems(s)
  {
    assert Entries(s)[g] == multiset(PinnedItems(s))[g] + multiset(MainItems(s))[g];
  }

  /** Detaches the entry the lookup finds: its first occurrence in document order. */
  function Detach(s: State, g: string): (r: State)
    requires Found(s, g)
    ensures r.stored == s.stored && r.active == s.active && r.menu == s.menu
    ensures r.main.Some? == s.main.Some? && r.section.Some? == s.section.Some?
    ensures s.section.Some? ==> r.section.value.visible == s.section.value.visible
    ensures g in PinnedItems(s) ==> PinnedItems(r) == RemoveFirst(PinnedItems(s), g) && MainItems(r) == MainItems(s)
    ensures g !in PinnedItems(s) ==> PinnedItems(r) == PinnedItems(s) && MainItems(r) == RemoveFirst(MainItems(s), g)
  {
    if g in PinnedItems(s) then
      var sec := s.section.value;
      s.(section := Some(sec.(items := RemoveFirst(sec.items, g))))
    else
      s.(main := Some(RemoveFirst(MainItems(s), g)))
  }

  /** Detaching takes out one copy of g and leaves every other entry where it was. */
  lemma DetachMovesOnlyG(s: State, g: string)
    requires Found(s, g)
    ensures Entries(Detach(s, g)) + multiset{g} == Entries(s)
    ensures Without(PinnedItems(Detach(s, g)), g) == Without(PinnedItems(s), g)
    ensures Without(MainItems(Detach(s, g)), g) == Without(MainItems(s), g)
  {
  }

  /**
   * moveHistoryItemByGuid: when the entry is found and the pinned list exists,
   * move the entry to the end of the pinned list and add g to storage unless
   * it is already there; otherwise nothing changes.
   */
  function Pin(s: State, g: string): (r: State)
    ensures !Found(s, g) || s.section.None? ==> r == s
    ensures Found(s, g) && s.section.Some? ==>
      PinnedItems(r) != [] && PinnedItems(r)[|PinnedItems(r)| - 1] == g
    ensures Found(s, g) && s.section.Some? ==>
      Entries(r) == Entries(s)
    ensures Found(s, g) && s.section.Some? ==>
      Without(PinnedItems(r), g) == Without(PinnedItems(s), g) && Without(MainItems(r), g) == Without(MainItems(s), g)
    ensures Found(s, g) && s.section.Some? && g in Load(s.stored) ==> r.stored == s.stored
    ensures Found(s, g) && s.section.Some? && g !in Load(s.stored) ==> r.stored == Some(Load(s.stored) + [g])
    ensures r.active == s.active && r.menu == s.menu
    ensures r.main.Some? == s.main.Some? && r.section.Some? == s.section.Some?
    ensures r.section.Some? ==> r.section.value.visible == s.section.value.visible
  {
    if !Found(s, g) || s.section.None? then s
    else
      var d := Detach(s, g);
      DetachMovesOnlyG(s, g);
      var saved := Load(s.stored);
      AppendPinned(d, g, if g in saved then s.stored else Some(saved + [g]))
  }

  /** Appends g to the pinned list of d and sets the stored value; nothing else changes. */
  function AppendPinned(d: State, g: string, stored: Option<seq<string>>): (r: State)
    requires d.section.Some?
    ensures PinnedItems(r) == PinnedItems(d) + [g] && MainItems(r) == MainItems(d)
    ensures Entries(r) == Entries(d) + multiset{g}
    ensures Without(PinnedItems(r), g) == Without(PinnedItems(d), g)
    ensures r == d.(section := r.section, stored := stored)
    ensures r.section.Some? && r.section.value.visible == d.section.value.visible
  {
    var sec := d.section.value;
    WithoutAppend(sec.items, [g], g);
    d.(section := Some(sec.(items := sec.items + [g])), stored := stored)
  }

  /**
   * togglePinnedSectionVisibility: show the section exactly when the stored
   * list is non-empty. The script does not check that the section exists;
   * when it does not, the property access throws and nothing changes.
   */
  function ToggleVisibility(s: State): (r: Outcome)
    ensures r.Threw? <==> s.section.None?
    ensures r.Threw? ==> r.state == s
    ensures r.Done? ==> r.state.section.Some? && (r.state.section.value.visible <==> Load(s.stored) != [])
    ensures r.state.section.Some? ==> r.state.section.value.items == s.section.value.items
    ensures r.state.(section := s.section) == s
  {
    if s.section.None? then Threw(s)
    else Done(s.(section := Some(s.section.value.(visible := |Load(s.stored)| > 0))))
  }

  /**
   * unpinHistoryItemByGuid: when the entry is found and the history list
   * exists, move the entry to the front of the history list, filter every
   * copy of g out of storage (always writing the key) and recompute the
   * section's visibility; otherwise nothing changes.
   */
  function Unpin(s: State, g: string): (r: Outcome)
    ensures !Found(s, g) || s.main.None? ==> r == Done(s)
    ensures Found(s, g) && s.main.Some? ==> MainItems(r.state) != [] && MainItems(r.state)[0] == g
    ensures Found(s, g) && s.main.Some? ==>
      Entries(r.state) == Entries(s)
    ensures Found(s, g) && s.main.Some? ==>
      Without(PinnedItems(r.state), g) == Without(PinnedItems(s), g)
      && Without(MainItems(r.state), g) == Without(MainItems(s), g)
    ensures Found(s, g) && s.main.Some? ==> r.state.stored == Some(Without(Load(s.stored), g))
    ensures Found(s, g) && s.main.Some? ==> (r.Threw? <==> s.section.None?)
    ensures r.Done? && r.state.section.Some? && Found(s, g) && s.main.Some? ==>
      (r.state.section.value.visible <==> Load(r.state.stored) != [])
    ensures r.state.active == s.active && r.state.menu == s.menu
    ensures r.state.main.Some? == s.main.Some? && r.state.section.Some? == s.section.Some?
  {
    if !Found(s, g) || s.main.None? then Done(s)
    else
      var d := Detach(s, g);
      DetachMovesOnlyG(s, g);
      var moved := d.(main := Some([g] + MainItems(d)), stored := Some(Without(Load(s.stored), g)));
      WithoutAppend([g], MainItems(d), g);
      assert Entries(moved) == Entries(d) + multiset{g};
      ToggleVisibility(moved)
  }

  /** Pins each GUID of gs in turn. */
  function PinAll(s: State, gs: seq<string>): (r: State)
    ensures r.active == s.active && r.menu == s.menu
    ensures r.main.Some? == s.main.Some? && r.section.Some? == s.section.Some?
    ensures r.section.Some? ==> r.section.value.visible == s.section.value.visible
    ensures Entries(r) == Entries(s)
    decreases |gs|
  {
    if gs == [] then s else PinAll(Pin(s, gs[0]), gs[1..])
  }

  /** loadPinnedItemsFromLocalStorage: pin every GUID of the list read once from storage. */
  function Restore(s: State): (r: State)
    ensures r.active == s.active && r.menu == s.menu
    ensures r.main.Some? == s.main.Some? && r.section.Some? == s.section.Some?
    ensures Entries(r) == Entries(s)
  {
    PinAll(s, Load(s.stored))
  }

  /**
   * addPinnedSection: create the (initially displayed, empty) section once,
   * restore the stored pins into it and recompute its visibility.
   */
  function AddPinnedSection(s: State): (r: State)
    ensures s.section.Some? ==> r == s
    ensures r.section.Some?
    ensures s.section.None? ==> (r.section.value.visible <==> Load(r.stored) != [])
    ensures r.active == s.active && r.menu == s.menu && r.main.Some? == s.main.Some?
  {
    if s.section.Some? then s
    else
      var created := s.(section := Some(Section([], true)));
      ToggleVisibility(Restore(created)).state
  }

  /** The click handler's selection toggle: re-clicking the selected entry clears the selection. */
  function SelectEntry(s: State, g: string): (r: State)
    ensures s.active == Some(g) ==> r.active == None
    ensures s.active != Some(g) ==> r.active == Some(g)
    ensures r.(active := s.active) == s
  {
    if s.active == Some(g) then s.(active := None) else s.(active := Some(g))
  }

  /** A click on a history entry whose link is href: extract the GUID and toggle the selection. */
  function EntryClick(s: State, href: string): (r: State)
    ensures ExtractGuid(href).None? ==> r == s
    ensures r.(active := s.active) == s
    ensures r.active != s.active && r.active.Some? ==> r.active == ExtractGuid(href) && HasSelection(r.active)
    ensures r.active != s.active && r.active.None? ==> s.active == ExtractGuid(href)
    ensures ExtractGuid(href).Some? && s.active == ExtractGuid(href) ==> r.active == None
    ensures ExtractGuid(href).Some? && s.active != ExtractGuid(href) ==> r.active == ExtractGuid(href)
  {
    match ExtractGuid(href)
    case None => s
    case Some(g) => SelectEntry(s, g)
  }

  /**
   * addPinMenuItem, run once the host has shown a menu: with a selection and
   * no item yet, add an item labelled "Unpin" when the selection is stored
   * and "Pin" otherwise.
   */
  function CreateMenuItem(s: State): (r: State)
    ensures s.menu.None? || !HasSelection(s.active) || s.menu.value.item.Some? ==> r == s
    ensures s.menu.Some? && HasSelection(s.active) && s.menu.value.item.None? ==>
      && r.menu.Some? && r.menu.value.item.Some?
      && r.menu.value.hidden == s.menu.value.hidden
      && (r.menu.value.item.value == UnpinText <==> s.active.value in Load(s.stored))
    ensures r.(menu := s.menu) == s
  {
    if s.menu.None? || !HasSelection(s.active) || s.menu.value.item.Some? then s
    else
      var text := if s.active.value in Load(s.stored) then UnpinText else PinText;
      s.(menu := Some(s.menu.value.(item := Some(text))))
  }

  /** The injected item exists and a selection is made, so a click on the item acts. */
  predicate CanAct(s: State) {
    s.menu.Some? && s.menu.value.item.Some? && HasSelection(s.active)
  }

  /** The label after an action: the opposite of the one clicked. */
  function Flip(l: Label): Label {
    if l == PinText then UnpinText else PinText
  }

  /** Flip the label, hide the menu and clear the selection, then recompute visibility. */
  function Finish(s: State, clicked: Label): (r: Outcome)
    ensures r.Threw? <==> s.section.None?
    ensures r.state.active == None && r.state.menu == Some(Menu(Some(Flip(clicked)), true))
    ensures r.state.main == s.main && r.state.stored == s.stored && PinnedItems(r.state) == PinnedItems(s)
    ensures r.Done? ==> r.state.section.Some? && (r.state.section.value.visible <==> Load(r.state.stored) != [])
  {
    ToggleVisibility(s.(menu := Some(Menu(Some(Flip(clicked)), true)), active := None))
  }

  /**
   * The injected item's click handler. Which action runs is decided by the
   * label, not by storage. Without a selection the script only alerts.
   */
  function MenuAction(s: State): (r: Outcome)
    ensures !CanAct(s) ==> r == Done(s)
    ensures CanAct(s) && r.Done? ==>
      && r.state.active == None
      && r.state.menu == Some(Menu(Some(Flip(s.menu.value.item.value)), true))
      && r.state.section.Some?
      && (r.state.section.value.visible <==> Load(r.state.stored) != [])
    ensures CanAct(s) && s.section.None? ==> r.Threw?
    ensures CanAct(s) && s.section.Some? ==> r.Done?
    ensures CanAct(s) && s.menu.value.item.value == PinText ==>
      var p := Pin(s, s.active.value);
      r.state.stored == p.stored && r.state.main == p.main && PinnedItems(r.state) == PinnedItems(p)
    ensures CanAct(s) && s.menu.value.item.value == UnpinText ==>
      var u := Unpin(s, s.active.value).state;
      r.state.stored == u.stored && r.state.main == u.main && PinnedItems(r.state) == PinnedItems(u)
    ensures CanAct(s) && s.menu.value.item.value == UnpinText && Unpin(s, s.active.value).Threw? ==>
      r == Unpin(s, s.active.value)
    ensures CanAct(s) && !(s.menu.value.item.value == UnpinText && Unpin(s, s.active.value).Threw?) ==>
      r.state.active == None && r.state.menu == Some(Menu(Some(Flip(s.menu.value.item.value)), true))
  {
    if !CanAct(s) then Done(s)
    else
      var g := s.active.value;
      var clicked := s.menu.value.item.value;
      match clicked
      case PinText => Finish(Pin(s, g), clicked)
      case UnpinText =>
        var u := Unpin(s, g);
        if u.Threw? then u else Finish(u.state, clicked)
  }
}
