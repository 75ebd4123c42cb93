# World clocks: the timezone-list editor and the zone catalogue

This project models the core of a desktop panel applet that shows the time in
a user-chosen list of timezones. It covers two parts:

- **The editor** (`src/editor.rs`). It holds an ordered list of entries. Each
  entry is a clock whose zone resolved (`Ok`) or one that did not (`Err`, kept
  with the text as entered and an error message). The editor also holds an
  optional edit cursor, two input buffers and one widget-id pair per entry. It
  handles the messages Reorder, AddAtEnd, Remove, NewConfig, EditItem
  (SetDisplayName, SetTz), StartEditing, CancelEditing and Input. After every
  list or entry change it writes the configuration, but only when every entry
  resolved.
- **Zone resolution and the catalogue** (`src/tz.rs`). `from_names` resolves an
  identifier against the zone database. `list` walks the database directory
  and collects the names of the zones a user can pick.

## Layout

- `wrappers.dfy`: module `Wrappers`, with `Option` and `Result`.
- `config.dfy`: module `Config`. It holds the persisted `Tz` record
  (identifier and display name), `WorldClocksConfig` and the three-clock
  default.
- `tz.dfy`: module `ZoneInfo`.
  - `FromNames` resolves against a `ZoneDb`: the set of identifiers the zone
    library can load.
  - `List` is the catalogue, a function over an abstract directory tree
    (`seq<Entry>`).
  - `Located` is an independent description of "a regular file reachable from
    the root". `CatalogueExactly` proves that the walk yields exactly the
    located files that are 1 to 4 levels deep and whose every path component
    starts with `A`–`Z`.
- `entries.dfy`: module `Entries`, with the pure helpers of the editor:
  `MaybeTz`, `Validate`, `TzFromName` (with `LastSegment` and
  `SpaceUnderscores`), `MaybetzToOption`, and `CollectOk`, the all-or-nothing
  collection that guards each write.
- `editor_spec.dfy`: module `EditorSpec`. It is the editor as a state machine
  over values: `State`, one function per arm of `update`, `Update`, and `Run`
  over a message sequence. Its lemmas prove the properties of each command and
  of whole runs.
- `editor.dfy`: module `Editor`. The class `Editor` has the source's fields. Its
  `Update` changes them in place arm by arm, and is proved to take the editor
  from `Model()` to `EditorSpec.Update(zones, old(Model()), msg)`. Config
  writes are appended to a ghost log, `configWrites`.

Panics in the source become preconditions, collected in `EditorSpec.Defined`:
- `Reorder(Down, _)` on an empty list: `len() - 1` underflows.
- `Reorder(Up, i)` with `0 < i` and `len <= i`: `swap` is out of bounds.
- `Remove(i)` with `len <= i`: `Vec::remove` panics.

`Vec::pop` on an empty id list returns `None`, so `Remove` leaves the id count
at 0 in that case.

Behaviour of the code worth noting:
- A reorder does not move the edit cursor along with the moved entry.
- `Remove` panics on an index past the end. It does not ignore it, and it does
  not clear the cursor.
- A new configuration, from "Reset" or from outside, clears neither the cursor
  nor the input buffers, and does not resize the widget ids.
- A failed load reports "Couldn't load timezone <name>", not a separate
  not-found error kind.

As a result, the widget-id count tracks the list length under every command
except `NewConfig`. `ResetAfterRemovalsDesyncsInputIds` gives a concrete run:
after two removals and a reset there are three entries but one id pair. In the
source, the view then indexes `text_input_ids` with an entry index when that
entry's display name is being edited. The view is not part of this model.

## Model

| member | source | states |
|---|---|---|
| ZoneInfo.FromNames | src/tz.rs:17-24 | succeeds exactly when the zone loads; on success the name and display name are copied verbatim; on failure the message is exactly "Couldn't load timezone " followed by the identifier |
| ZoneInfo.WalkExactly | src/tz.rs:28-48 | the entries at a given depth yield path p iff p reaches a regular file through entries whose every name is UTF-8 and starts with A–Z, within the remaining depth budget |
| ZoneInfo.EntryExactly | src/tz.rs:32-44 | one entry yields p iff p reaches a regular file from it through passing names within the depth budget: failing directories prune their subtree, symlinks and walk errors yield nothing |
| ZoneInfo.CatalogueExactly | src/tz.rs:26-50 | the catalogue paths are exactly the regular files 1 to 4 levels below the root whose every component passes `^[A-Z]`; walk errors are dropped, so the listing never fails |
| ZoneInfo.ListedNamesAreRelative | src/tz.rs:45-46 | every listed name starts with an upper-case letter, so it is relative to the zoneinfo root |
| ZoneInfo.ListExample | src/tz.rs:28-48 | on a sample tree, a lower-case directory is pruned, and a lower-case file, a symlink and a walk error are dropped; the result is ["Europe/London", "UTC"] |
| Entries.Validate | src/editor.rs:344-349 | the record is kept verbatim; the entry is Ok iff the zone resolves, otherwise Err with the load error naming the identifier |
| Entries.LastSegment | src/editor.rs:352 | the result is the longest suffix without '/': a suffix of the input, containing no '/', and preceded by '/' when shorter than the input |
| Entries.SpaceUnderscores | src/editor.rs:352 | same length; each '_' becomes ' ', every other character is unchanged |
| Entries.TzFromName | src/editor.rs:351-357 | the new entry has the chosen identifier and the derived display name, and is Ok iff the zone resolves |
| Entries.LastSegmentAfterSlash | src/editor.rs:352 | for dir + "/" + base with no '/' in base, the last segment is base |
| Entries.LastSegmentWhole | src/editor.rs:352 | an identifier without '/' is its own last segment |
| Entries.SpaceUnderscoresNone | src/editor.rs:352 | text without '_' is unchanged |
| Entries.SpaceUnderscoresSplit | src/editor.rs:352 | replacing distributes over an '_' boundary: a + "_" + b becomes a' + " " + b' |
| Entries.DerivedDisplayNameLondon | src/editor.rs:352 | "Europe/London" derives "London" |
| Entries.DerivedDisplayNameUnderscore | src/editor.rs:352 | dir/first_second derives "first second" |
| Entries.MaybetzToOption | src/editor.rs:333-342 | returns the entry's record, plus an error iff the entry is Err; the entry can be rebuilt from the pair |
| Entries.CollectOk | src/editor.rs:272-277 | yields the records in list order iff every entry is Ok, and nothing otherwise |
| Entries.ValidateAll | src/editor.rs:208 | reading back the records of the validated list gives the configuration exactly; entry k is Ok iff record k's zone resolves |
| Entries.WithDisplayName | src/editor.rs:216-225 | only the display name changes; the identifier, the Ok/Err tag and the error stay |
| EditorSpec.MaybeUpdateConfig | src/editor.rs:271-284 | appends one write holding the records in list order iff every entry is Ok; changes nothing else |
| EditorSpec.InitEstablishesInvariant | src/editor.rs:77-98 | start-up validates the stored (or default) configuration, reading back exactly; there is one id pair per entry, no cursor and no write, and the gate invariant holds |
| EditorSpec.WriteKeepsInvariant | src/editor.rs:271-284 | a write after a change adds only records whose zones resolve |
| EditorSpec.EditListKeepsInvariant | src/editor.rs:166-212 | every list edit that does not panic keeps the gate: only resolved entries are Ok, and every written record names a resolvable zone |
| EditorSpec.EditItemKeepsInvariant | src/editor.rs:215-238 | every entry edit keeps the gate, whether it renames, re-chooses the same zone or picks a new one |
| EditorSpec.UpdateKeepsInvariant | src/editor.rs:164-269 | every message that does not panic keeps: only resolved entries are Ok, and every written record names a resolvable zone |
| EditorSpec.RunKeepsInvariant | src/editor.rs:164-269 | the same holds over any sequence of messages |
| EditorSpec.NoUnresolvableZoneIsEverWritten | src/editor.rs:271-284 | from start-up, over any message sequence (external configurations included), no written configuration names a zone that does not resolve |
| EditorSpec.RunOnlyAppendsWrites | src/editor.rs:271-284 | writes are only appended; earlier writes are never changed |
| EditorSpec.ReorderAtBoundaryIsNoop | src/editor.rs:168-182 | Up at 0 and Down at or past the last index return early: the state, including the cursor and the write log, is unchanged |
| EditorSpec.SwapExchanges | src/editor.rs:183 | the swap exchanges the two positions, keeps the others, keeps the multiset of entries and whether all are Ok |
| EditorSpec.ReorderSwapsNeighbours | src/editor.rs:168-184 | any other reorder exchanges exactly i and i±1, keeps the other entries and the multiset, leaves the cursor, both input buffers and the id count unchanged, and writes iff every entry is Ok |
| EditorSpec.AddAtEndAppendsPlaceholder | src/editor.rs:186-200 | the old entries stay as a prefix, followed by one Err("Middle_Earth/Mordor", "Mordor", "please choose a timezone"); the id count grows by one, the cursor and both input buffers stay, and nothing is written |
| EditorSpec.RemoveDeletesEntry | src/editor.rs:202-205 | the list becomes tzs[..i] + tzs[i+1..]; the id count drops by one (floored at zero); the cursor and both input buffers are left as they were; a write happens iff every remaining entry is Ok |
| EditorSpec.NewConfigRoundTrip | src/editor.rs:207-209 | the records read back equal the configuration exactly, whichever resolved; entry k is Ok iff its zone resolves; the cursor, both input buffers and the id count are unchanged; the configuration is written back iff all its zones resolve |
| EditorSpec.InputIdsTrackEntries | src/editor.rs:194-205 | one id pair per entry is kept by every message except NewConfig |
| EditorSpec.ResetAfterRemovalsDesyncsInputIds | src/editor.rs:202-209 | from the default list, Remove(0), Remove(0) and a reset leave three entries but one id pair |
| EditorSpec.EditItemOutOfRangeIsNoop | src/editor.rs:215-220 | an item edit past the end changes nothing: no cursor clear and no write |
| EditorSpec.SetDisplayNameRewritesOnly | src/editor.rs:221-225 | only entry i's display name changes; its identifier and Ok/Err tag stay, as do the other entries and both input buffers; the cursor is cleared; a write happens iff every entry is Ok |
| EditorSpec.SetTzSameNameKeepsEntry | src/editor.rs:226-238 | choosing the current zone keeps the list, display name included, and both input buffers; the cursor is still cleared and a write still attempted |
| EditorSpec.SetTzNewNameReplacesEntry | src/editor.rs:226-237 | choosing another zone replaces entry i by one with that identifier and the derived display name, Ok iff the zone resolves; the other entries and both input buffers stay, the cursor is cleared, and a write happens iff all are Ok |
| EditorSpec.SetTzIdempotent | src/editor.rs:226-237 | choosing the same zone twice leaves the list as choosing it once, with the cursor cleared and both input buffers as they were before |
| EditorSpec.StartEditingSeedsBuffer | src/editor.rs:241-257 | in range, it seeds the display-name buffer or the zone buffer from the entry and sets the cursor; past the end it is a no-op; the list and the writes never change |
| EditorSpec.CancelAndInputNeverWrite | src/editor.rs:259-267 | cancelling only clears the cursor; typing only replaces the text buffer |
| EditorSpec.StartWithUtc | src/editor.rs:79-80 | a stored single UTC clock that resolves starts as one Ok entry with no write |
| EditorSpec.ChoosePlaceholderZone | src/editor.rs:226-237 | choosing a resolvable zone for the placeholder after one Ok entry makes both Ok and writes both records |
| EditorSpec.AddThenChooseZone | src/editor.rs:186-237 | from [UTC], Add writes nothing and appends the placeholder; choosing Europe/London then makes it Ok("Europe/London", "London") and writes both clocks |
| Editor.Editor.constructor | src/editor.rs:77-98 | the new editor is the start-up state of the machine for the stored (or default) configuration, and satisfies the gate invariant |
| Editor.Editor.Update | src/editor.rs:164-269 | each message changes the fields in place exactly as the machine's Update step does, and keeps the gate invariant |
| Editor.Editor.MaybeUpdateConfig | src/editor.rs:271-284 | appends to the write log exactly the write the machine's MaybeUpdateConfig makes, and changes nothing else |

## Left out

- The UI. This covers `Editor::view`, `tz_list_item`, the widgets, the icons
  and the combo-box state `tz_input_state`. The widget ids are modelled only by
  their count.
- Zone parsing. tzfile is a foreign library: a zone "resolves" when its
  identifier is in the `ZoneDb` set, and the loaded zone handle is not
  modelled. Only the context message of an `anyhow` error is modelled; the
  library's own underlying cause is not.
- The file system. The directory walk runs over an abstract tree, in the
  tree's order. Unreadable entries, unreadable directories and a missing root
  appear as `WalkError` entries. Paths are built relative to the root, which is
  what stripping `/usr/share/zoneinfo` yields. `to_string_lossy` is exact here,
  because every yielded component is valid UTF-8.
- The process-wide lazy caches `TZ_NAMES` and `TITLE_CASE`. These compute once
  what `List` and `TitleCase` compute.
- The configuration store. `Config::new`, `get_entry` and `write_entry` are
  I/O. What the store returned at start-up is a parameter (`None` when it held
  no readable configuration). A write always succeeds and is appended to a
  ghost log, so the panic of `write_entry(...).unwrap()` on a failed write is
  not modelled. Opening the store always succeeds, so the start-up panic of
  `cosmic_config::Config::new(app_id, 1).unwrap()` (src/editor.rs:78) is not
  modelled either.
- The applet shell in src/app.rs and the entry point in src/main.rs. These are
  the popup lifecycle, the minute timer, time formatting, and app.rs's own
  `Tz::from_name`, which the editor does not use.
- Integer widths. Indices are unbounded naturals. A release build, where
  `0usize - 1` wraps instead of panicking, is not modelled: `Reorder(Down, _)`
  on an empty list is excluded by a precondition.
- The `Option<Output>` that `update` returns. It is always `None`, so `Update`
  returns nothing.
