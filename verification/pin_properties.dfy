/**
 * Properties of pinning, unpinning and restoring: what storage holds
 * afterwards, where entries end up, and how the operations compose.
 */
module PinProperties {
  import opened Wrappers
  import opened Seqs
  import opened Sidebar

  /** Every entry in the pinned list is recorded in storage. */
  predicate PinnedAreStored(s: State) {
    forall h :: h in PinnedItems(s) ==> h in Load(s.stored)
  }

  /** Pinning twice stores what pinning once stores. */
  lemma PinStorageIdempotent(s: State, g: string)
    ensures Pin(Pin(s, g), g).stored == Pin(s, g).stored
  {
    var t := Pin(s, g);
    if Found(s, g) && s.section.Some? {
      assert g in PinnedItems(t);
      assert g in Load(t.stored);
    }
  }

  /** On a page where every entry occurs once, pinning twice is the same as pinning once. */
  lemma PinIdempotent(s: State, g: string)
    requires DomUnique(s)
    ensures Pin(Pin(s, g), g) == Pin(s, g)
  {
    var t := Pin(s, g);
    if Found(s, g) && s.section.Some? {
      PinKeepsDomUnique(s, g);
      var p := PinnedItems(t);
      var front := p[..|p| - 1];
      assert p == front + [g];
      LastPinnedIsUnique(t, g, front);
      PinnedLastIsFixed(t, g, front);
    }
  }

  /** On a page without duplicates, the last pinned entry occurs nowhere earlier in the section. */
  lemma LastPinnedIsUnique(t: State, g: string, front: seq<string>)
    requires DomUnique(t) && PinnedItems(t) == front + [g]
    ensures g !in front
  {
    assert multiset(PinnedItems(t)) == multiset(front) + multiset{g};
    assert Entries(t)[g] <= 1;
  }

  /** Pinning the entry that is already last in the pinned list, and stored, changes nothing. */
  lemma PinnedLastIsFixed(t: State, g: string, front: seq<string>)
    requires t.section.Some? && PinnedItems(t) == front + [g] && g !in front
    requires g in Load(t.stored)
    ensures Pin(t, g) == t
  {
    RemoveFirstLast(front, g);
    var d := Detach(t, g);
    assert PinnedItems(d) == front;
    var r := AppendPinned(d, g, t.stored);
    assert r.section.value.items == t.section.value.items;
    assert r.section == t.section;
  }

  /** Removing the first copy of g from a list whose only copy is the last one drops that last element. */
  lemma RemoveFirstLast(front: seq<string>, g: string)
    requires g !in front
    ensures RemoveFirst(front + [g], g) == front
  {
    var r := RemoveFirst(front + [g], g);
    WithoutAppend(front, [g], g);
    assert multiset(front + [g])[g] == 1;
    assert g !in r;
    assert Without(r, g) == r;
  }

  /** Pinning never introduces a duplicate into a duplicate-free stored list. */
  lemma PinKeepsStoredNoDup(s: State, g: string)
    requires NoDup(Load(s.stored))
    ensures NoDup(Load(Pin(s, g).stored))
  {
    if Found(s, g) && s.section.Some? && g !in Load(s.stored) {
      AppendFreshNoDup(Load(s.stored), g);
    }
  }

  /** Pinning moves an entry without cloning it: afterwards it is in the pinned list and not in the history list. */
  lemma PinKeepsDomUnique(s: State, g: string)
    requires DomUnique(s)
    ensures DomUnique(Pin(s, g))
    ensures Found(s, g) && s.section.Some? ==> g !in MainItems(Pin(s, g))
  {
    var t := Pin(s, g);
    if Found(s, g) && s.section.Some? {
      UniqueApart(t, g);
    }
  }

  /** Pinning keeps every pinned entry recorded in storage. */
  lemma PinKeepsPinnedStored(s: State, g: string)
    requires PinnedAreStored(s)
    ensures PinnedAreStored(Pin(s, g))
  {
    var t := Pin(s, g);
    if Found(s, g) && s.section.Some? {
      forall h | h in PinnedItems(t)
        ensures h in Load(t.stored)
      {
        if h != g {
          assert h in Without(PinnedItems(t), g);
        }
      }
    }
  }

  /** Unpinning filters g out of a duplicate-free stored list and keeps it duplicate-free. */
  lemma UnpinKeepsStoredNoDup(s: State, g: string)
    requires NoDup(Load(s.stored))
    ensures NoDup(Load(Unpin(s, g).state.stored))
    ensures Found(s, g) && s.main.Some? ==> g !in Load(Unpin(s, g).state.stored)
  {
  }

  /** Unpinning moves an entry without cloning it: afterwards it heads the history list and is not pinned. */
  lemma UnpinKeepsDomUnique(s: State, g: string)
    requires DomUnique(s)
    ensures DomUnique(Unpin(s, g).state)
    ensures Found(s, g) && s.main.Some? ==> g !in PinnedItems(Unpin(s, g).state)
  {
    var t := Unpin(s, g).state;
    if Found(s, g) && s.main.Some? {
      var p := PinnedItems(t);
      var m := MainItems(t);
      assert g in m;
      if g in p {
        UniqueApart(t, g);
      }
    }
  }

  /** Unpinning keeps every pinned entry recorded in storage. */
  lemma UnpinKeepsPinnedStored(s: State, g: string)
    requires DomUnique(s) && PinnedAreStored(s)
    ensures PinnedAreStored(Unpin(s, g).state)
  {
    var t := Unpin(s, g).state;
    if Found(s, g) && s.main.Some? {
      UnpinKeepsDomUnique(s, g);
      forall h | h in PinnedItems(t)
        ensures h in Load(t.stored)
      {
        assert h != g;
        assert h in Without(PinnedItems(t), g);
      }
    }
  }

  /**
   * Round trip: when g is not stored, pinning it and then unpinning it
   * leaves the stored list as it was (a missing key comes back as []).
   */
  lemma PinUnpinRoundTrip(s: State, g: string)
    requires s.main.Some?
    requires g !in Load(s.stored)
    ensures Load(Unpin(Pin(s, g), g).state.stored) == Load(s.stored)
  {
    var t := Pin(s, g);
    if Found(s, g) && s.section.Some? {
      assert g in PinnedItems(t);
      assert Load(t.stored) == Load(s.stored) + [g];
      WithoutAppend(Load(s.stored), [g], g);
      assert Load(Unpin(t, g).state.stored) == Without(Load(t.stored), g);
    }
  }

  /** Where pinning puts the detached entry. */
  lemma PinShape(s: State, g: string)
    requires Found(s, g) && s.section.Some?
    ensures PinnedItems(Pin(s, g)) == PinnedItems(Detach(s, g)) + [g]
    ensures MainItems(Pin(s, g)) == MainItems(Detach(s, g))
  {
  }

  /** Where unpinning puts the detached entry. */
  lemma UnpinShape(s: State, g: string)
    requires Found(s, g) && s.main.Some?
    ensures PinnedItems(Unpin(s, g).state) == PinnedItems(Detach(s, g))
    ensures MainItems(Unpin(s, g).state) == [g] + MainItems(Detach(s, g))
  {
  }

  /**
   * Round trip on the page: pinning an entry of the history list and then
   * unpinning it leaves the pinned list as it was and puts the entry at the
   * top of the history list; the other history entries keep their order.
   */
  lemma PinUnpinPage(s: State, g: string)
    requires DomUnique(s)
    requires s.section.Some? && s.main.Some? && g in MainItems(s)
    ensures Unpin(Pin(s, g), g).Done?
    ensures PinnedItems(Unpin(Pin(s, g), g).state) == PinnedItems(s)
    ensures MainItems(Unpin(Pin(s, g), g).state) == [g] + RemoveFirst(MainItems(s), g)
  {
    if g in PinnedItems(s) {
      UniqueApart(s, g);
    }
    PinShape(s, g);
    var t := Pin(s, g);
    assert PinnedItems(t) == PinnedItems(s) + [g];
    assert MainItems(t) == RemoveFirst(MainItems(s), g);
    RemoveFirstLast(PinnedItems(s), g);
    UnpinShape(t, g);
  }

  /** Pinning GUIDs that are all stored already leaves storage untouched. */
  lemma {:induction false} PinAllKeepsStored(s: State, gs: seq<string>)
    requires forall g :: g in gs ==> g in Load(s.stored)
    ensures PinAll(s, gs).stored == s.stored
    decreases |gs|
  {
    if gs != [] {
      assert gs[0] in gs;
      assert forall g :: g in gs[1..] ==> g in gs;
      PinAllKeepsStored(Pin(s, gs[0]), gs[1..]);
    }
  }

  /** Restoring pins only GUIDs read from storage, so storage is unchanged. */
  lemma RestoreKeepsStored(s: State)
    ensures Restore(s).stored == s.stored
  {
    PinAllKeepsStored(s, Load(s.stored));
  }

  /**
   * Pinning distinct GUIDs that are not pinned yet appends, in order, those
   * of them that are in the history list.
   */
  lemma {:induction false} PinAllAppendsPresent(s: State, gs: seq<string>)
    requires s.section.Some?
    requires NoDup(gs)
    requires forall g :: g in gs ==> g !in PinnedItems(s)
    ensures PinnedItems(PinAll(s, gs)) == PinnedItems(s) + KeepIn(gs, MainItems(s))
    decreases |gs|
  {
    if gs != [] {
      var g := gs[0];
      var rest := gs[1..];
      var m := MainItems(s);
      NoDupTail(gs);
      assert g in gs;
      assert forall h :: h in rest ==> h in gs;
      assert PinAll(s, gs) == PinAll(Pin(s, g), rest);
      if g in m {
        var t := Pin(s, g);
        PinPresentFresh(s, g, rest);
        PinAllAppendsPresent(t, rest);
        var k := KeepIn(rest, m);
        assert KeepIn(gs, m) == [g] + k;
        var p := PinnedItems(s);
        var q := PinnedItems(PinAll(t, rest));
        assert q == (p + [g]) + k;
        AppendAssoc(p, g, k);
        assert q == p + KeepIn(gs, m);
      } else {
        PinNotFound(s, g);
        PinAllAppendsPresent(s, rest);
        assert KeepIn(gs, m) == KeepIn(rest, m);
      }
    }
  }

  /** Pinning a GUID that is on neither list changes nothing. */
  lemma PinNotFound(s: State, g: string)
    requires g !in MainItems(s) && g !in PinnedItems(s)
    ensures Pin(s, g) == s
  {
    assert !Found(s, g);
  }

  /**
   * Pinning a history entry that is not pinned moves it to the end of the
   * pinned list; GUIDs other than g are found in the history list as before.
   */
  lemma PinPresentFresh(s: State, g: string, rest: seq<string>)
    requires s.section.Some?
    requires g in MainItems(s) && g !in rest && g !in PinnedItems(s)
    ensures Pin(s, g).section.Some?
    ensures PinnedItems(Pin(s, g)) == PinnedItems(s) + [g]
    ensures KeepIn(rest, MainItems(Pin(s, g))) == KeepIn(rest, MainItems(s))
  {
    PinShape(s, g);
    KeepInSamePool(rest, MainItems(Pin(s, g)), MainItems(s), g);
  }

  /**
   * Restoring into an empty pinned list yields the stored GUIDs whose entries
   * are in the history list, in stored order.
   */
  lemma RestoreFromEmpty(s: State)
    requires s.section.Some? && PinnedItems(s) == []
    requires NoDup(Load(s.stored))
    ensures PinnedItems(Restore(s)) == KeepIn(Load(s.stored), MainItems(s))
    ensures Restore(s).stored == s.stored
  {
    PinAllAppendsPresent(s, Load(s.stored));
    RestoreKeepsStored(s);
  }

  /**
   * Creating the section restores the pins: it holds the stored GUIDs found in
   * the history list, in stored order, storage is unchanged, and the section
   * is shown exactly when storage is non-empty.
   */
  lemma AddPinnedSectionRestores(s: State)
    requires s.section.None?
    requires NoDup(Load(s.stored))
    ensures PinnedItems(AddPinnedSection(s)) == KeepIn(Load(s.stored), MainItems(s))
    ensures AddPinnedSection(s).stored == s.stored
    ensures AddPinnedSection(s).section.value.visible <==> Load(s.stored) != []
  {
    var created := s.(section := Some(Section([], true)));
    RestoreFromEmpty(created);
  }

  /** Creating the section never changes storage. */
  lemma AddPinnedSectionKeepsStored(s: State)
    ensures AddPinnedSection(s).stored == s.stored
  {
    if s.section.None? {
      RestoreKeepsStored(s.(section := Some(Section([], true))));
    }
  }
}
