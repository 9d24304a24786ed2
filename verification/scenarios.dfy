/** Concrete event sequences on small pages, stated as lemmas about `Run`. */
module Scenarios {
  import opened Wrappers
  import opened Seqs
  import opened Guids
  import opened Sidebar
  import opened PinProperties
  import opened Session

  /** A stored pin whose entry is in the history list is restored into the section, which is shown. */
  lemma RestoreStoredPin()
    ensures var r := Step(Initial(Some(["abc-123", "def-456"]), Some(["abc-123"])), NavFound);
      && PinnedItems(r) == ["abc-123"]
      && MainItems(r) == ["def-456"]
      && r.stored == Some(["abc-123"])
      && r.section.value.visible
  {
    var s := Initial(Some(["abc-123", "def-456"]), Some(["abc-123"]));
    AddPinnedSectionRestores(s);
    var created := s.(section := Some(Section([], true)));
    PinShape(created, "abc-123");
  }

  /**
   * The host replaces its navigation, dropping the section; when the polling finds the new
   * navigation the section is created again and the stored pin restored.
   */
  lemma RerenderRestoresPin()
    ensures var s := State(Some(["def-456"]), Some(Section(["abc-123"], true)), Some(["abc-123"]), None, None);
      var r := Run(s, [HostRendersNav(Some(["abc-123", "def-456"])), NavFound]);
      && PinnedItems(r) == ["abc-123"]
      && MainItems(r) == ["def-456"]
      && r.stored == Some(["abc-123"])
      && r.section.value.visible
  {
    var s := State(Some(["def-456"]), Some(Section(["abc-123"], true)), Some(["abc-123"]), None, None);
    var es := [HostRendersNav(Some(["abc-123", "def-456"])), NavFound];
    assert es[1..] == [NavFound];
    assert Step(s, es[0]) == Initial(Some(["abc-123", "def-456"]), Some(["abc-123"]));
    RestoreStoredPin();
  }

  /** With the storage key missing, the created section is empty and hidden. */
  lemma MissingKeyHidesSection()
    ensures var r := Step(Initial(Some(["abc-123"]), None), NavFound);
      && PinnedItems(r) == []
      && MainItems(r) == ["abc-123"]
      && r.stored == None
      && !r.section.value.visible
  {
  }

  /** Click an entry, let the menu appear, click "Pin": the entry is pinned and stored, the menu hidden, the selection cleared. */
  lemma ClickThenPin()
    ensures Run(PinStart(), [EntryClicked("/c/abc-789"), HostShowsMenu, MenuLookup, ItemClicked]) == PinEnd()
  {
    var s := PinStart();
    ClickOnLink(s, "abc-789");
    assert LinkOf("abc-789") == "/c/abc-789";
    var es := [EntryClicked("/c/abc-789"), HostShowsMenu, MenuLookup, ItemClicked];
    assert es[1..] == [HostShowsMenu, MenuLookup, ItemClicked];
    ShowLookupPin();
  }

  /** The page before ClickThenPin: one history entry, one pinned entry, nothing selected, no menu. */
  function PinStart(): (s: State)
    ensures PinnedItems(s) == ["abc-123"] && MainItems(s) == ["abc-789"]
  {
    State(Some(["abc-789"]), Some(Section(["abc-123"], true)), Some(["abc-123"]), None, None)
  }

  /** The page after ClickThenPin. */
  function PinEnd(): (s: State)
    ensures PinnedItems(s) == ["abc-123", "abc-789"] && MainItems(s) == []
  {
    State(Some([]), Some(Section(["abc-123", "abc-789"], true)), Some(["abc-123", "abc-789"]),
          None, Some(Menu(Some(UnpinText), true)))
  }

  /** The last three events of ClickThenPin, once the entry is selected. */
  lemma ShowLookupPin()
    ensures Run(PinStart().(active := Some("abc-789")), [HostShowsMenu, MenuLookup, ItemClicked]) == PinEnd()
  {
    var s2 := PinStart().(active := Some("abc-789"), menu := Some(Menu(None, false)));
    var es := [HostShowsMenu, MenuLookup, ItemClicked];
    assert es[1..] == [MenuLookup, ItemClicked];
    LookupPin(s2);
  }

  /** The menu looks up the selected entry, offers "Pin", and the click pins it. */
  lemma LookupPin(s2: State)
    requires s2 == PinStart().(active := Some("abc-789"), menu := Some(Menu(None, false)))
    ensures Run(s2, [MenuLookup, ItemClicked]) == PinEnd()
  {
    var es := [MenuLookup, ItemClicked];
    assert es[1..] == [ItemClicked];
    LookupOffersPin(s2);
    ClickPinItem(s2.(menu := Some(Menu(Some(PinText), false))));
  }

  /** The selected entry is not stored, so the menu offers "Pin". */
  lemma LookupOffersPin(s2: State)
    requires s2 == PinStart().(active := Some("abc-789"), menu := Some(Menu(None, false)))
    ensures Step(s2, MenuLookup) == s2.(menu := Some(Menu(Some(PinText), false)))
  {
    assert "abc-789"[4] != "abc-123"[4];
    assert "abc-789" !in Load(s2.stored);
  }

  /** A click on the offered "Pin" item. */
  lemma ClickPinItem(s3: State)
    requires s3 == PinStart().(active := Some("abc-789"), menu := Some(Menu(Some(PinText), false)))
    ensures Run(s3, [ItemClicked]) == PinEnd()
  {
    PinItemOnFreshMenu();
    RunSingle(s3, ItemClicked);
  }

  /** The last step of ClickThenPin: the "Pin" item acts on the selected entry. */
  lemma PinItemOnFreshMenu()
    ensures MenuAction(State(Some(["abc-789"]), Some(Section(["abc-123"], true)), Some(["abc-123"]),
                             Some("abc-789"), Some(Menu(Some(PinText), false)))).state
      == State(Some([]), Some(Section(["abc-123", "abc-789"], true)), Some(["abc-123", "abc-789"]),
               None, Some(Menu(Some(UnpinText), true)))
  {
    var s := State(Some(["abc-789"]), Some(Section(["abc-123"], true)), Some(["abc-123"]),
                   Some("abc-789"), Some(Menu(Some(PinText), false)));
    assert "abc-789"[4] != "abc-123"[4];
    assert "abc-789" !in PinnedItems(s);
    PinShape(s, "abc-789");
    var p := Pin(s, "abc-789");
    assert PinnedItems(p) == ["abc-123", "abc-789"];
    assert MainItems(p) == [];
    assert p.stored == Some(["abc-123", "abc-789"]);
  }

  /**
   * The character class admits only lower-case hexadecimal digits and '-',
   * so a link such as "/c/xyz-789" yields no GUID and a click on it selects nothing.
   */
  lemma NonHexLinkSelectsNothing(s: State)
    ensures EntryClick(s, "/c/xyz-789") == s
  {
    var href := "/c/xyz-789";
    forall k | 0 <= k < |href|
      ensures !MatchesAt(href, k)
    {
      if k == 0 {
        assert !IsGuidChar(href[3]);
      }
    }
  }

  /**
   * The group stops at the first character outside the class, so a link such
   * as "/c/abc-78z" selects its prefix "abc-78".
   */
  lemma PartialLinkSelectsPrefix(s: State)
    requires s.active == None
    ensures EntryClick(s, "/c/abc-78z").active == Some("abc-78")
  {
    var href := "/c/abc-78z";
    assert MatchesAt(href, 0);
    assert href[3..9] == "abc-78";
    assert GreedyCapture(href, 0, "abc-78");
    var g := ExtractGuid(href).value;
    var k :| FirstMatch(href, 0, k) && GreedyCapture(href, k, g);
    assert k == 0;
    GreedyCaptureUnique(href, 0, g, "abc-78");
  }

  /** Clicking the same entry twice clears the selection and changes neither lists nor storage. */
  lemma ClickSameEntryTwice()
    ensures var s := State(Some(["abc-789"]), Some(Section([], false)), Some([]), None, None);
      Run(s, [EntryClicked("/c/abc-789"), EntryClicked("/c/abc-789")]) == s
  {
    var s := State(Some(["abc-789"]), Some(Section([], false)), Some([]), None, None);
    ClickTwiceRestores(s, "/c/abc-789");
    var es := [EntryClicked("/c/abc-789"), EntryClicked("/c/abc-789")];
    assert Run(s, es) == Run(Step(s, es[0]), es[1..]);
  }
}
