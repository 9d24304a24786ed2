# Pinned conversations: a Dafny model of the sidebar bookkeeping

The content script in `content.js` adds a "Pinned" section to a chat
application's sidebar. A click on a history entry selects it. The host's
context menu then gets a "Pin"/"Unpin" item. Clicking that item moves the
entry between the host's history list and the injected pinned list, and it
keeps the `pinnedItems` storage key in step. On page load the stored pins are
restored into a freshly created section.

This project models that bookkeeping as an immutable record (`Sidebar.State`)
with pure transition functions. It proves what each transition does to the
lists, to storage, to the selection and to the menu. It also proves an
invariant that every event keeps.

## Layout

- `wrappers.dfy` (`Wrappers`): `Option`, standing for JavaScript `null`.
- `seqs.dfy` (`Seqs`): the list operations the script uses. `RemoveFirst` is a
  DOM detach of one node. `Without` is `Array.prototype.filter(x => x !== g)`.
  `NoDup` means duplicate-free.
- `guids.dfy` (`Guids`): GUID extraction with the click handler's pattern
  `/\/c\/([a-f0-9\-]+)/`. The match is the leftmost one and the group is
  greedy. The file also defines the link format `/c/<guid>` used for lookups.
- `sidebar.dfy` (`Sidebar`): the state and the handlers. These are
  `Pin` (moveHistoryItemByGuid), `Unpin` (unpinHistoryItemByGuid),
  `ToggleVisibility`, `PinAll`/`Restore` (loadPinnedItemsFromLocalStorage),
  `AddPinnedSection`, `SelectEntry`/`EntryClick` (the click handler),
  `CreateMenuItem` and `MenuAction` (addPinMenuItem and its item's click
  handler).
- `pin_properties.dfy` (`PinProperties`): idempotence, round trips,
  duplicate-freedom and restore order.
- `session.dfy` (`Session`): the selection toggle and the menu item. It also
  defines the events that drive the script and proves the session invariant.
- `scenarios.dfy` (`Scenarios`): concrete event sequences on small pages, stated as lemmas about `Run`.

## How the page is abstracted

- `main` is the host's history list as a sequence of GUIDs. It is `None` when
  the list the unpin handler inserts into is not in the page.
- `section` is the injected section. It holds the pinned list and the section's
  display. It is `None` until the section has been created.
- `stored` is the storage value. It is `None` when the key is missing. A
  missing key reads as `[]` (`Load`), as `JSON.parse(null) || []` does.
- `active` is `activeItemSelected`. `HasSelection` is its JavaScript
  truthiness, so `null` and `""` both count as no selection.
- `menu` is the host's open context menu, if any. It records the injected
  item's label and whether the wrapper was hidden.
- The lookup `a[href='/c/<g>']` is abstracted as "g occurs in the pinned list
  or the history list" (`Found`). The section is prepended to the container
  that holds the history list. So in document order a pinned copy comes first,
  and `Detach` removes that copy before one in the history list.
- `togglePinnedSectionVisibility` does not check that the section exists.
  When it is missing, reading its `style` throws a TypeError. The model
  reports that as `Outcome.Threw`. In the menu item's handler, an unpin that
  throws skips the rest of the handler: the label is not flipped, the menu is
  not hidden and the selection is not cleared.

## Behaviour of the code worth knowing

- Pinning does not recompute visibility: `moveHistoryItemByGuid` never calls
  the toggle. Visibility is recomputed by unpinning, by the menu item's handler
  and by section creation. The invariant therefore holds after every event,
  but not after a bare `Pin`.
- The class `[a-f0-9\-]` rejects letters after `f`, so a click on
  `/c/xyz-789` selects nothing (`Scenarios.NonHexLinkSelectsNothing`). The
  click-and-pin scenario therefore uses `abc-789`.
- The group stops at the first character outside the class, so a link such
  as `/c/abc-78z` selects the prefix `abc-78`
  (`Scenarios.PartialLinkSelectsPrefix`). Unless an entry is linked exactly
  `/c/abc-78`, the lookups then find nothing, so "Pin" and "Unpin" on that
  selection change no list and no storage.
- Every pinned entry is stored (`PinnedAreStored`), but a stored GUID whose
  entry is not on the page stays stored and unpinned, because restore skips
  it. Storage and the pinned list are therefore not kept equal as sets.
- The pin-then-unpin round trip restores the list that storage reads as. A
  missing key comes back as a stored `[]`, because unpinning always writes the
  key.
- When the host replaces its navigation, the section goes with it. Until the
  polling recreates it, a click on an "Unpin" item moves the entry and filters
  storage, then throws in the visibility toggle.
- Malformed JSON in storage would make `JSON.parse` throw. It would not read
  as empty, so it is left out (see below).

## Model

| member | source | states |
|---|---|---|
| `Guids.RunLength` | content.js:90 | the greedy `+`: every character of the run is in `[a-f0-9-]`, and the run stops at the end of the string or at the first character outside the class |
| `Guids.CaptureAt` | content.js:90 | at a match, the captured group is the longest run of `[a-f0-9-]` characters after "/c/": non-empty, and followed by the end of the link or a character outside the class |
| `Guids.ExtractFrom` | content.js:90 | a result exists exactly when "/c/" followed by a GUID character occurs at or after the start position; the result is the greedy capture of the leftmost such occurrence |
| `Guids.ExtractGuid` | content.js:89-93 | `href.match` yields a group exactly when the pattern occurs somewhere; the group is non-empty, uses only `[a-f0-9-]`, and is the greedy capture of the leftmost occurrence |
| `Guids.ExtractGuidRoundTrip` | content.js:271 | for every non-empty GUID g, extraction from the lookup link `/c/g` gives back g, so the click handler and the lookups name the same entry |
| `Seqs.Without` | content.js:315 | filtering removes every copy of the GUID and keeps the count of every other element |
| `Seqs.WithoutAppend` | content.js:315 | filtering keeps the order of the remaining elements: it distributes over concatenation |
| `Seqs.IndexOf` | content.js:271 | the position found is the first occurrence of g, as the front-to-back document lookup finds it |
| `Seqs.RemoveFirst` | content.js:271-277 | detaching the node the lookup finds removes exactly the first copy of g (the list is the part before that copy followed by the part after it); the multiset loses one g and the filtered list is unchanged |
| `Sidebar.Detach` | content.js:271-277 | the lookup finds the first copy in document order: a pinned copy if there is one (the section precedes the history list), otherwise the first in the history list; that copy is removed and nothing else changes |
| `Sidebar.Pin` | content.js:270-296 | if the entry is found and the pinned list exists, the entry becomes the last pinned entry, no entry is lost or cloned, and all others keep their order; g is appended to storage only if absent; otherwise nothing changes; selection, menu and visibility are untouched |
| `Sidebar.ToggleVisibility` | content.js:63-72 | the section is shown exactly when the stored list (missing key read as `[]`) is non-empty; without a section the call throws and changes nothing; nothing else changes |
| `Sidebar.Unpin` | content.js:299-330 | if the entry is found and the history list exists, the entry heads the history list, nothing is lost or cloned, others keep their order, storage becomes the filtered list, and visibility is recomputed (throwing when the section is missing); otherwise nothing changes |
| `Sidebar.PinAll` | content.js:263-266 | pinning a list of GUIDs in turn never loses or clones an entry and leaves selection, menu and visibility alone |
| `Sidebar.Restore` | content.js:260-267 | restoring pins the stored GUIDs without losing or cloning any entry and leaves selection, menu and the presence of both lists alone |
| `Sidebar.AddPinnedSection` | content.js:39-60 | a second call changes nothing; a first call creates the section and leaves it shown exactly when storage is non-empty |
| `Sidebar.SelectEntry` | content.js:96-102 | a click on the selected GUID clears the selection; a click on any other GUID selects it; nothing else changes |
| `Sidebar.EntryClick` | content.js:87-102 | a link without a match changes nothing; otherwise the extracted GUID is deselected when it was the selection and selected when it was not; only the selection changes |
| `Sidebar.CreateMenuItem` | content.js:125-170 | with no menu, no truthy selection or an existing item nothing changes; otherwise only the menu gets an item, labelled "Unpin" exactly when the selection is stored |
| `Sidebar.MenuAction` | content.js:173-204 | without an item or a truthy selection nothing changes (the alert); a "Pin" label runs the pin and an "Unpin" label runs the unpin on the selection, with the same lists and storage as that call; an unpin that throws leaves exactly its own state, so label, menu and selection stay; otherwise the label is flipped, the menu hidden and the selection cleared even when the final visibility toggle throws; a completed action leaves the section shown exactly when storage is non-empty; it throws exactly when the section is missing |
| `Sidebar.Finish` | content.js:177-197 | the handler's tail flips the label, hides the menu and clears the selection before recomputing visibility, so those hold also when the toggle throws; lists and storage are untouched |
| `PinProperties.PinStorageIdempotent` | content.js:281-286 | pinning a second time stores nothing more |
| `PinProperties.PinIdempotent` | content.js:270-286 | on a page whose entries occur once, pinning twice is the same as pinning once: lists and storage included |
| `PinProperties.PinnedLastIsFixed` | content.js:277-282 | pinning the entry that already ends the pinned list and is stored changes nothing |
| `PinProperties.PinKeepsStoredNoDup` | content.js:281-284 | pinning never introduces a duplicate into a duplicate-free stored list |
| `PinProperties.PinKeepsDomUnique` | content.js:271-277 | pinning relocates rather than copies: entries stay unique, and the pinned entry is no longer in the history list |
| `PinProperties.PinKeepsPinnedStored` | content.js:277-285 | after a pin every pinned entry is still stored |
| `PinProperties.UnpinKeepsStoredNoDup` | content.js:314-316 | the filtered stored list stays duplicate-free and, when the entry was found, no longer contains the GUID |
| `PinProperties.UnpinKeepsDomUnique` | content.js:303-310 | unpinning relocates rather than copies: entries stay unique, and the entry is no longer pinned |
| `PinProperties.UnpinKeepsPinnedStored` | content.js:310-316 | after an unpin every pinned entry is still stored |
| `PinProperties.PinUnpinRoundTrip` | content.js:281-316 | for a GUID not in the stored list S, with the history list present, pin then unpin leaves storage reading as S |
| `PinProperties.PinUnpinPage` | content.js:277-310 | pinning a history entry then unpinning it restores the pinned list and puts the entry at the top of the history list, the others keeping their order |
| `PinProperties.PinAllKeepsStored` | content.js:263-266 | pinning GUIDs that are all stored already leaves storage untouched |
| `PinProperties.RestoreKeepsStored` | content.js:260-267 | restoring never changes storage, since every GUID it pins was read from it |
| `PinProperties.PinAllAppendsPresent` | content.js:263-264 | pinning distinct, not-yet-pinned GUIDs appends to the pinned list exactly those found in the history list, in the given order |
| `PinProperties.RestoreFromEmpty` | content.js:260-267 | restoring into an empty pinned list yields the stored GUIDs present in the history list, in stored order, with storage unchanged |
| `PinProperties.AddPinnedSectionRestores` | content.js:51-59 | a new section holds the stored GUIDs found on the page in stored order, storage is unchanged, and it is shown exactly when storage is non-empty |
| `PinProperties.AddPinnedSectionKeepsStored` | content.js:39-59 | creating the section never changes storage |
| `Session.SelectTwiceRestores` | content.js:96-102 | two selections of the same GUID, starting from none or from it, restore the state |
| `Session.SelectTwiceAfterOther` | content.js:96-102 | two selections of g while another GUID was selected end with nothing selected and nothing else changed |
| `Session.ClickOnLink` | content.js:89-102 | a click on the entry linked `/c/g` toggles exactly g |
| `Session.ClickTwiceRestores` | content.js:87-102 | two clicks on the same entry with nothing selected leave everything as it was |
| `Session.PinActionStores` | content.js:175-179 | clicking "Pin" on a found entry ends the pinned list with it and stores it, appending only if absent |
| `Session.UnpinActionRemoves` | content.js:180-184 | clicking "Unpin" on a found entry puts it at the top of the history list and filters it out of storage |
| `Session.LabelAgreesAfterAction` | content.js:175-185 | after an action on a found entry the label reads "Unpin" exactly when the entry is stored, whatever it read before |
| `Session.LookupThenClickFlipsStored` | content.js:154-197 | with a fresh menu, a selection found on the page and both lists present, the lookup then a click on the item stores the entry exactly when it was not stored before: the item always offers the opposite of the stored state |
| `Session.Step` | content.js:12-36 | clicks, menu show/close and the lookup leave lists and storage alone; section creation yields a section and is a no-op when one exists; a host re-render drops the section and installs the new history list; only section creation and the item's click write storage |
| `Session.InitialInvariant` | content.js:3 | a first page with duplicate-free lists and storage satisfies the invariant |
| `Session.PinKeepsListsConsistent` | content.js:270-296 | a pin keeps storage duplicate-free, entries unique and pinned entries stored |
| `Session.UnpinKeepsListsConsistent` | content.js:299-330 | an unpin keeps storage duplicate-free, entries unique and pinned entries stored |
| `Session.PinAllKeepsListsConsistent` | content.js:263-266 | restoring keeps storage duplicate-free, entries unique and pinned entries stored |
| `Session.ToggleKeepsListsConsistent` | content.js:63-72 | recomputing visibility touches neither lists nor storage |
| `Session.AddPinnedSectionKeepsInvariant` | content.js:39-60 | section creation keeps the invariant |
| `Session.MenuActionKeepsInvariant` | content.js:173-204 | the menu item's handler keeps the invariant, also when it throws |
| `Session.StepKeepsInvariant` | content.js:12-36 | every event, including the host replacing its navigation with a duplicate-free history list, keeps the invariant: storage is duplicate-free, entries are unique, pinned entries are stored, and a created section is shown exactly when storage is non-empty |
| `Session.RunKeepsInvariant` | content.js:11-23 | any sequence of events from a page satisfying the invariant keeps it |
| `Scenarios.RestoreStoredPin` | content.js:55-58 | storage `["abc-123"]` with that entry in the history list: after section creation the entry is pinned, storage is unchanged, and the section is shown |
| `Scenarios.RerenderRestoresPin` | content.js:12-17 | after the host replaces its navigation, the polling recreates the section and the stored pin is restored into it |
| `Scenarios.MissingKeyHidesSection` | content.js:64-68 | with the key missing the created section is empty and hidden |
| `Scenarios.ClickThenPin` | content.js:87-197 | click entry `abc-789`, menu shown, "Pin" clicked: the entry moves to the pinned list, storage gains it at the end, the menu is hidden, the selection is cleared |
| `Scenarios.PinItemOnFreshMenu` | content.js:173-197 | the final step of that run, as an exact resulting state |
| `Scenarios.NonHexLinkSelectsNothing` | content.js:90-116 | a link with no class character right after any "/c/", such as `/c/xyz-789`, selects nothing |
| `Scenarios.PartialLinkSelectsPrefix` | content.js:90-101 | the greedy group stops at the first character outside the class: a click on `/c/abc-78z` with nothing selected selects `abc-78` |
| `Scenarios.ClickSameEntryTwice` | content.js:96-102 | clicking one entry twice leaves lists, storage and selection as they were |

## Left out

- The MutationObservers, the 500 ms polling and the 50 ms timer (content.js:6-36, 105-113, 333-341) are event scheduling. They appear only as the `Session.Event` values their callbacks produce.
- The host's own changes to the page are modelled only as a replacement of the whole navigation (`HostRendersNav`), which drops the section and installs a new, duplicate-free history list. The host adding, removing or re-rendering single entries inside an existing list is not modelled, so the invariant covers the script's events, menu show/close and whole-navigation re-renders only.
- Positional CSS selectors, `closest("li")` and the document-wide lookup are replaced by membership in the two modelled lists. Entries in host lists other than the one unpinning inserts into are not modelled.
- The positional selector for the unpin target list (content.js:306) is not modelled. After the section is prepended it may point to a different child. The model has only "present" or "absent".
- The `dataset.listenerAdded` guard (content.js:83-84) is listener plumbing with no effect on the state.
- SVG icons, CSS classes and markup are left out (content.js:42-54, 139-148, 209-228), as is the item's position in the menu and the icon swap.
- `clearRadixPopperAndFocusGuards` (content.js:232-253) is never called.
- Console logging is left out. `alert` is modelled only as "no state change".
- Malformed JSON in storage would make `JSON.parse` throw. Only a missing key and well-formed arrays of strings are modelled.
- Only stored strings without `'`, `\` or line breaks are modelled. The lookups put the GUID inside single quotes in a CSS selector (content.js:271, 300): a quote or line break makes `querySelector` throw a SyntaxError, which would abort restore and section creation, and a backslash is read as a CSS escape. The model treats the lookup as plain membership. The script itself only stores strings the click handler extracted, which use `[a-f0-9-]` alone.
- Races between tabs writing the same storage key are left out.
- The calls to `addMenuButtonListeners` and `observeForNewHistoryItems` after section creation (content.js:32-33) only attach listeners.
