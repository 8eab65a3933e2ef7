# Ichosnomicon core, modelled in Dafny

Ichosnomicon is a desktop music-library manager. A user picks a music root
directory. A scan fills an SQLite `songs` table with one row per audio file:
id, relative path, file name, comma-separated user tags, artist and album.
Rescans keep the user's tags. The library view filters and sorts that table.
Tags are edited one track at a time, with autocomplete, or in bulk with
add/replace/remove/clear. A playback session plays one track at a time on
pygame's mixer, with a seek bar. The app also writes and reads folder, M3U,
PLS and JSON playlists.

This project models that functional core, module by module:

- `Store` (store.dfy): the `songs` table. It is a `Library` class whose `songs` field is a sequence of rows with unique relative paths and unique ids. A ghost invariant ties it to a fresh-id counter and a last-committed copy. Includes the additive schema migration.
- `Metadata` (metadata.dfy): the audio-extension test and the per-format choice of artist/album keys, over an abstract tag map per file.
- `ScanReconciler` (scan.dfy): `scan_directory` as a loop over the listed files. It snapshots tags, truncates, inserts or ignores, and keeps counters and progress marks.
- `LibraryView` (query.dfy): the filter rule, the parent-path column, the click-to-sort with its direction toggle, and the playlist-driven selection.
- `Tags` (tags.dfy): comma-list parsing and joining, the four bulk operations, and `get_existing_tags`.
- `TagEntry` (tagentry.dfy): the current-tag extraction before the cursor, the suggestion panel, and the suggestion splice.
- `BulkTags` (bulktags.dfy): the bulk-tag preview and the apply loop.
- `Records` (records.dfy): the table side of rename, single and bulk delete, the metadata save and the tag-entry save, plus the capped error summaries.
- `Playback` (playback.dfy): the session state machine as a `Session` class over an abstract engine (busy flag, elapsed milliseconds, load-and-play from an offset). Timers are explicit events.
- `Playlists` (playlists.dfy): collecting the selected rows, the folder copy count, the M3U/PLS emitters, the M3U/PLS/JSON readers, and the saved-playlist entry counts.
- `Text`, `Paths`, `Wrappers`: ASCII string helpers, POSIX `pathlib` operations (on normalised stored paths, and the pieces `pathlib` keeps of a typed name), and `Option`.

Every state-changing method is proved against a pure specification function.
Round trips, preserved invariants and all-inputs lemmas are proved about those
functions.

## Model

| member | source | states |
|---|---|---|
| Store.InitSchema | ichosnomicon.py:283-309 | A fresh database gets the full schema. An existing table keeps its columns, in order, and gains at most `artist` and `album`. Both are present afterwards. |
| Store.InitSchemaIdempotent | ichosnomicon.py:300-307 | Migrating an already migrated table adds nothing. |
| Store.Library.constructor | ichosnomicon.py:289-298 | A new table is empty and the AUTOINCREMENT counter starts at 1. |
| Store.Library.Commit | ichosnomicon.py:1418 | The committed copy becomes the current rows. Rows and counter are unchanged. |
| Store.Library.Truncate | ichosnomicon.py:1302 | `DELETE FROM songs` empties the rows. It keeps the id counter and does not commit. |
| Store.Library.InsertOrIgnore | ichosnomicon.py:1405-1408 | A row is inserted exactly when no row has that relative path. It takes the next id. Otherwise nothing changes. Uniqueness is kept. |
| Store.Library.UpdatePath | ichosnomicon.py:1592-1595 | The UPDATE succeeds exactly when no other row holds the new path. It then sets that id's path and filename and leaves every other row as it was. A rejected UPDATE leaves the table unchanged. |
| Store.Library.UpdateTags | ichosnomicon.py:1971-1972 | Only the tags of the rows with that id change. |
| Store.Library.UpdateArtistAlbum | ichosnomicon.py:1818-1821 | Only the artist and album of the rows with that id change. |
| Store.Library.DeleteById | ichosnomicon.py:1932 | The table afterwards is the old one without the rows carrying that id. |
| Store.FindById | ichosnomicon.py:1912-1913 | A found row is in the table with that id. Not found means no row has it. |
| Store.FindByIdUnique | ichosnomicon.py:1912-1913 | With unique ids, looking up a row's id gives back that row. |
| Store.WithPathKeepsUnique | ichosnomicon.py:1592-1595 | A rename without a path conflict keeps paths and ids unique. |
| Store.WithPathKeepsTheRest | ichosnomicon.py:1592-1595 | A rename keeps each row's id, tags, artist and album. It changes the path and filename of the renamed row only. |
| Store.WithoutIdMembers | ichosnomicon.py:231 | After a delete by id, a row is left exactly when it was there and has another id. |
| Store.WithoutIdKeepsUnique | ichosnomicon.py:231 | A delete keeps paths and ids unique. |
| Store.WithoutPresentId | ichosnomicon.py:1932 | With unique ids, deleting a present row's id removes exactly that position. |
| Store.HasPathSnoc | ichosnomicon.py:1405-1408 | After appending a row, a path is present exactly when it was before or is the new row's. |
| Metadata.ReadFields | ichosnomicon.py:1358-1403 | Without mutagen, or when the file does not open, artist and album are both empty. |
| Metadata.ReadFieldsFromKeys | ichosnomicon.py:1367-1398 | When both keys the suffix selects are present and non-empty, artist and album are those entries' texts. |
| Metadata.ReadFieldsMissingKeys | ichosnomicon.py:1367-1398 | A missing artist (or album) key gives an empty artist (or album). |
| Metadata.ReadFieldsEmptyArtistList | ichosnomicon.py:1378-1403 | An empty value list under the artist key raises `IndexError`, and both fields stay empty. |
| Metadata.ScannedLayouts | ichosnomicon.py:1367-1400 | Among the seven scanned suffixes: `.mp3` reads ID3 frames, `.flac`/`.ogg` Vorbis comments, `.m4a` MP4 atoms, and `.wav`/`.aac`/`.wma` EasyID3. `.oga` and `.mp4` never reach the scan. |
| Metadata.UpperCaseSuffixAccepted | ichosnomicon.py:1310 | The extension test is case-insensitive: `x.MP3` is scanned. |
| Metadata.DotFileRejected | ichosnomicon.py:1310 | A dot-file such as `.mp3` has no suffix and is not scanned. |
| Metadata.SuffixOfDotted | ichosnomicon.py:1310 | `Path.suffix` of `stem.ext` is `.ext`. |
| ScanReconciler.AudioTestAgrees | ichosnomicon.py:1310 | The listed file's suffix passes the test exactly when its path's `pathlib` name suffix does. |
| ScanReconciler.Snapshot | ichosnomicon.py:1298-1299 | The snapshot's keys are exactly the stored relative paths. |
| ScanReconciler.SnapshotHoldsTags | ichosnomicon.py:1298-1299 | With unique paths, each path maps to its row's tags. |
| ScanReconciler.TakeSnapshot | ichosnomicon.py:1298-1299 | The method's loop builds exactly `Snapshot`. |
| ScanReconciler.AudioFiles | ichosnomicon.py:1304-1311 | A listed file is kept exactly when its lower-cased suffix is one of the seven audio extensions. |
| ScanReconciler.SelectAudio | ichosnomicon.py:1308-1311 | The method's loop keeps exactly `AudioFiles`. |
| ScanReconciler.PreservedSnoc | ichosnomicon.py:1353-1355 | `preserved_tags` grows by one exactly for a file whose path was in the snapshot with non-empty tags. |
| ScanReconciler.ReconciledShape | ichosnomicon.py:1405-1408 | Insert-or-ignore over the offered rows: ids run consecutively from the counter, and the kept paths are exactly the offered paths. |
| ScanReconciler.ReconciledUnique | ichosnomicon.py:1405-1408 | The rebuilt table has unique paths and ids, all below the new counter. |
| ScanReconciler.ReconciledFirstWins | ichosnomicon.py:1405-1408 | When a path is offered twice, the first offer's row is the one kept. |
| ScanReconciler.ReconciledSnoc | ichosnomicon.py:1405-1408 | Offering one more row either ignores it (path present) or appends it with the next id. |
| ScanReconciler.ScannedPaths | ichosnomicon.py:1348-1408 | After a scan, a path is in the table exactly when some scanned file has it. |
| ScanReconciler.ScannedRow | ichosnomicon.py:1348-1408 | Each row's tags equal the pre-scan tags of exactly that path, or `""` when the path is new. Its filename, artist and album come from the first file with that path. |
| ScanReconciler.ProgressMarksClimb | ichosnomicon.py:1412 | Progress reports are strictly increasing and within range. The first is 1, and the last is the total. |
| ScanReconciler.ProgressMarksGaps | ichosnomicon.py:1412 | Consecutive progress reports are at most 10 files apart. |
| ScanReconciler.ScanFile | ichosnomicon.py:1349-1408 | One loop step inserts or ignores the file's row. The table then equals the reconciliation of one more file. |
| ScanReconciler.ScanCounted | ichosnomicon.py:1348-1412 | One loop step also advances `preserved_tags` and the progress marks as their specifications say. |
| ScanReconciler.InsertScanned | ichosnomicon.py:1344-1416 | Over the truncated table, the loop builds the reconciliation of all files. `count` is the number of audio files, not of rows inserted. |
| ScanReconciler.Scan | ichosnomicon.py:1287-1425 | No root, or a missing root: nothing changes. Zero audio files: the table is left truncated and uncommitted. Otherwise the table is rebuilt, committed, and the outcome carries `count` and `preserved_tags`. |
| LibraryView.Filter | ichosnomicon.py:1434-1465 | A row is listed exactly when it is stored and meets the filter rule. |
| LibraryView.FilterConcat | ichosnomicon.py:1465-1467 | Filtering keeps store order: it distributes over concatenation. |
| LibraryView.FilterSingle | ichosnomicon.py:1465-1467 | A single row is kept exactly when it matches. |
| LibraryView.PathFilterAlone | ichosnomicon.py:1443-1446 | A non-empty path filter lists exactly the rows whose lower-cased relative path starts with it. |
| LibraryView.PathFilterOverrides | ichosnomicon.py:1443-1463 | With a path filter set, the other four filters make no difference. |
| LibraryView.ConjunctiveFilters | ichosnomicon.py:1447-1463 | Without a path filter, a row is kept exactly when every non-empty filter is a case-insensitive substring of its column. A NULL artist or album never matches a non-empty filter. |
| LibraryView.NoFiltersShowAll | ichosnomicon.py:1440-1467 | With every filter empty, the whole table is listed in order. |
| LibraryView.Parent | ichosnomicon.py:1470 | A path without `/` has parent `.`. |
| LibraryView.ParentDisplayJoin | ichosnomicon.py:1470-1473 | A root-level file shows `(root)`. Otherwise the shown parent, a `/` and the file name rebuild the relative path. |
| LibraryView.Display | ichosnomicon.py:1474-1475 | A listed row shows the stored id, filename and tags, with `''` for NULL artist/album and the parent display. |
| LibraryView.View | ichosnomicon.py:1465-1475 | The view holds one displayed row per filtered row, in order. |
| LibraryView.KeyOf | ichosnomicon.py:559-564 | The sort key is numeric exactly for the ID column and lower-cased text otherwise. This is the key the code means to use. For the ID column as written, see Findings. |
| LibraryView.SortRowsSorted | ichosnomicon.py:559-564 | Sorting orders the rows by the key, ascending or descending. |
| LibraryView.SortRows | ichosnomicon.py:559-568 | Sorting is a permutation of the rows. |
| LibraryView.SortRowsStable | ichosnomicon.py:559-564 | Python's sort is stable: rows with equal keys keep their relative order. |
| LibraryView.InsertSorted | ichosnomicon.py:559-564 | Inserting a row into a sorted list keeps it sorted. |
| LibraryView.InsertStable | ichosnomicon.py:559-564 | Insertion puts a row after every row with an equal key. |
| LibraryView.BeforeAsymmetric | ichosnomicon.py:559-564 | The sort order is asymmetric in both directions. |
| LibraryView.NotBeforeTransitive | ichosnomicon.py:559-564 | "Not before" is transitive, so sortedness is well defined. |
| LibraryView.InitialHeadings | ichosnomicon.py:575-580 | Every heading starts with its plain title and an ascending next click. |
| LibraryView.Captions | ichosnomicon.py:571-586 | After a sort, only the sorted column's heading has the arrow. `↑` is for ascending, `↓` for descending. |
| LibraryView.Toggle | ichosnomicon.py:571-589 | A click marks the clicked heading and flips its next direction. Every other column's next direction is kept. |
| LibraryView.ToggleTwice | ichosnomicon.py:589 | Two clicks on the same column restore its next direction. |
| LibraryView.ClickHeader | ichosnomicon.py:553-589 | A header click returns a stable sorted permutation of the shown rows and the toggled headings. This is the corrected click. For the ID column as written, see Findings. |
| LibraryView.ClickHeaderAsWritten | ichosnomicon.py:553-556 | The click as written returns the same rows, as a multiset. |
| LibraryView.ClickIdAsWrittenNeverSorts | ichosnomicon.py:553-589 | As written, an ID-header click over a non-empty list leaves the rows in their order and the headings as they were. Two rows out of id order stay unsorted. `ClickHeader` sorts the same rows and flips the next direction. |
| LibraryView.PlaylistSelection | ichosnomicon.py:1246-1260 | A shown row is selected exactly when its stored relative path is in the playlist. |
| LibraryView.PlaylistSelectsNamed | ichosnomicon.py:1246-1260 | With all rows shown, a stored song is selected exactly when its path is in the playlist. |
| Tags.NonEmptyMembers | ichosnomicon.py:1953 | Dropping empties keeps exactly the non-empty pieces. |
| Tags.ParseTagsClean | ichosnomicon.py:2221 | Every parsed tag is non-empty, stripped and free of commas. |
| Tags.ParseJoin | ichosnomicon.py:2282 | Parsing the `", "`-joined clean list gives the same list back. |
| Tags.ParseRejoinParse | ichosnomicon.py:2268-2282 | Parsing a stored tag string, rejoining and parsing again gives the same tags. |
| Tags.RejoinIdentity | ichosnomicon.py:2268-2282 | A tag string survives parse-then-join exactly when it is the join of some clean list. |
| Tags.ParseAppend | ichosnomicon.py:2221 | Parsing `a,b` is parsing `a` followed by parsing `b`. |
| Tags.ParseStrip | ichosnomicon.py:2221 | Surrounding whitespace does not change the parsed tags. |
| Tags.CleanPiecesAppend | ichosnomicon.py:2221 | The clean-up comprehension distributes over concatenation. |
| Tags.WithoutMembers | ichosnomicon.py:2230-2234 | Filtering by "not in" keeps exactly the members outside the dropped list. |
| Tags.WithoutIsSubsequence | ichosnomicon.py:2234 | Filtering keeps the original order. |
| Tags.WithoutDisjoint | ichosnomicon.py:2234 | Filtering by an unrelated list changes nothing. |
| Tags.AddSpec | ichosnomicon.py:2271 | Add keeps the current tags in front. Its members are the current tags and the new ones. The appended part holds only tags that were not already current, in the order typed, repeats included. |
| Tags.RemoveSpec | ichosnomicon.py:2275 | Remove keeps, in order, exactly the current tags not listed. |
| Tags.ApplyOpClean | ichosnomicon.py:2270-2279 | All four operations keep the tag list clean. |
| Tags.BulkTagStringParses | ichosnomicon.py:2268-2282 | The stored string parses back to the operation applied to the parsed lists. |
| Tags.BulkTagStringUnfold | ichosnomicon.py:2268 | An empty tag cell and the parse of `""` give the same current list. |
| Tags.RemoveRockFromRockLive | ichosnomicon.py:2275 | Removing `rock` from `rock, live` stores `live`. |
| Tags.RemoveAbsentKeepsTags | ichosnomicon.py:2275 | Removing tags that are not there rewrites the tags in normal form only. |
| Tags.PreviewLine | ichosnomicon.py:2240 | A preview line is `name: tags`, or `name: (no tags)`. |
| Tags.InsertSorted | ichosnomicon.py:1954-1955 | Adding one tag to a strictly sorted set keeps it strictly sorted. Its members are the old ones and that tag. |
| Tags.ExistingTags | ichosnomicon.py:1948-1955 | The existing tags are strictly sorted, hence distinct. A tag is listed exactly when it is parsed from some row with non-empty tags. |
| Tags.ExistingTagsClean | ichosnomicon.py:1953-1955 | Every existing tag is non-empty, stripped and free of commas. |
| TagEntry.LastComma | ichosnomicon.py:2001-2002 | The current tag starts after a comma before the cursor, or at the start. |
| TagEntry.LastCommaIsLast | ichosnomicon.py:2002 | No comma lies between that point and the cursor. |
| TagEntry.CurrentTag | ichosnomicon.py:2001-2008 | The current tag is stripped and holds no comma. |
| TagEntry.CurrentTagIsLast | ichosnomicon.py:2001-2008 | Parsing the text before the cursor gives the completed tags followed by the current one, when it is non-empty. |
| TagEntry.BeforeCursor | ichosnomicon.py:2001-2008 | The current tag is the stripped piece after the last comma before the cursor. |
| TagEntry.MatchingMembers | ichosnomicon.py:2016 | A tag is suggested exactly when it exists and contains the current tag, case-insensitively. |
| TagEntry.MatchingSorted | ichosnomicon.py:2016 | Suggestions keep the sorted order of the existing tags. |
| TagEntry.ShowPanel | ichosnomicon.py:2029-2041 | The panel lists the first ten suggestions, is `min(6, n)` rows high, and selects the first. |
| TagEntry.PanelOfMatches | ichosnomicon.py:1993-2021 | The panel shows exactly when the current tag is non-empty and something matches. It then shows those matches. |
| TagEntry.AutocompletePanel | ichosnomicon.py:1989-2042 | The panel shows exactly when some existing tag contains the current tag. It holds at most ten strictly sorted suggestions, each one a match, and all of them when there are at most ten. |
| TagEntry.SplicePrefixShape | ichosnomicon.py:2116-2122 | The text kept before the tag is everything up to the last comma plus `", "`, or nothing. |
| TagEntry.SpliceReplacesCurrentTag | ichosnomicon.py:2107-2125 | When the cursor ends a tag, the entry reads as the completed tags, the chosen tag, then the tags after it. |
| TagEntry.SpliceCursorAfterTag | ichosnomicon.py:2127-2129 | The corrected cursor lands right after the inserted tag. |
| TagEntry.SpliceCursorAsWrittenShort | ichosnomicon.py:2128 | The cursor as written equals the corrected one exactly when the text after the cursor does not end in whitespace. Otherwise it lands earlier. |
| TagEntry.SpliceCursorExample | ichosnomicon.py:2128 | For the entry `ro ` with the cursor after `ro`, choosing `rock` puts the cursor at 3, inside the tag, instead of 4. |
| BulkTags.Writes | ichosnomicon.py:2268-2282 | One stored tag string per selected item. |
| BulkTags.TagAllAccounts | ichosnomicon.py:2264-2288 | Every item is either counted as updated or reported as an error. |
| BulkTags.TagAllCount | ichosnomicon.py:2283-2285 | `updated` is the number of items whose UPDATE did not raise. |
| BulkTags.TagAllRow | ichosnomicon.py:2283-2285 | With distinct ids, a row gets that item's new tags when the UPDATE succeeded. It is untouched when no item for it succeeded. |
| BulkTags.TagStepRow | ichosnomicon.py:2283-2288 | One step changes only the item's row, and only on success. |
| BulkTags.PreviewLines | ichosnomicon.py:2223-2240 | One preview line per selected item. |
| BulkTags.PreviewShowsStored | ichosnomicon.py:2221-2240 | Each preview line shows exactly the tags that applying would store. |
| BulkTags.BulkMessage | ichosnomicon.py:2295-2301 | Without errors the message reports success with the count. Otherwise it starts with the count of updates and of errors. |
| BulkTags.WriteTags | ichosnomicon.py:2264-2288 | The loop leaves the table, `updated` and `errors` as the tally specifies. |
| BulkTags.ApplyBulkTags | ichosnomicon.py:2256-2301 | The table is updated as specified. It is committed exactly when some update succeeded, and the message matches the tally. |
| Records.MoreErrorsLine | ichosnomicon.py:246 | The overflow note is a single line. |
| Records.ErrorListLines | ichosnomicon.py:244-246 | Up to five errors are shown one per line. Beyond that the first five are followed by the overflow note, so never more than six lines. |
| Records.DeleteMessage | ichosnomicon.py:242-246 | The message starts with the deleted count. It is only that sentence exactly when there were no errors. |
| Records.SiblingPath | ichosnomicon.py:1573 | A name in a track's directory is the old parent, `/`, and the name. For a file directly under the root it is the name alone. |
| Records.SiblingPathName | ichosnomicon.py:1573 | The file name of a sibling path is the name, when the name holds no `/`. |
| Records.RenamedPath | ichosnomicon.py:1573-1591 | `relative_to` gives a path exactly when the root's components begin the target's components. A relative name always has one. |
| Records.RenamedPathPlain | ichosnomicon.py:1573-1591 | A plain typed name (non-empty, no `/`, not `.`) keeps the file in its directory. The stored path is the old parent with the new name, and the extension test sees that name. |
| Records.RenameDecision | ichosnomicon.py:1521-1603 | A rename goes through only for a stored row, with a non-empty new name that differs from the current one, and a target under the root. The unchecked rename never refuses a name as invalid. |
| Records.RenameWrites | ichosnomicon.py:1586-1603 | Past the file checks, the target lies under the root. The rename is recorded exactly when no other row holds the new path. |
| Records.Rename | ichosnomicon.py:1510-1603 | The outcome is `do_rename`'s decision as written. Only a completed rename changes the table: it sets that row's path to the normalised target relative to the root, sets the typed filename, and commits. Every other outcome, including a target outside the root, leaves the table and the commit as they were. |
| Records.RenameDecisionChecked | ichosnomicon.py:1562-1603 | The corrected rename refuses exactly the typed names that hold a `/` or are `.` or `..`, once the earlier checks pass. Otherwise it decides as written. |
| Records.RenameCheckedStaysInDirectory | ichosnomicon.py:1573-1593 | With the check, a completed rename stores the old parent with the typed name, and that path's file name is the typed name. |
| Records.RenameOutsideRootLeavesLibrary | ichosnomicon.py:1573-1603 | As written, an absolute name outside the root ends in `LeftLibrary`: the file has moved and the row is unchanged. With the check the name is refused. |
| Records.DeleteFile | ichosnomicon.py:1901-1940 | A missing row, a declined confirmation or a failing unlink leaves the table. A delete removes that id and commits. |
| Records.DeleteRemovesOnlyThatId | ichosnomicon.py:1932 | A delete removes exactly one row, the one with that id, and keeps all others. |
| Records.DeleteAllAccounts | ichosnomicon.py:211-237 | Every selected item is counted as deleted or reported as an error. |
| Records.DeleteAllSurvivors | ichosnomicon.py:214-237 | After a bulk delete, a row survives exactly when no item with its id was deleted without error. |
| Records.DeleteMissingReported | ichosnomicon.py:233-234 | An item whose id is not stored is reported as not found and changes nothing. |
| Records.DeleteItem | ichosnomicon.py:215-237 | One loop step updates the table and the tally as specified. |
| Records.DeleteSelected | ichosnomicon.py:194-248 | No selection, or a declined confirmation: nothing changes. One item: the single-track delete. Several: the loop, then an unconditional commit and the summary message. |
| Records.NoneIfEmpty | ichosnomicon.py:1816-1817 | An empty field is stored as NULL and any other as itself. |
| Records.SaveArtistAlbum | ichosnomicon.py:1813-1822 | A failing save changes nothing. Otherwise the stripped artist and album are stored, NULL when empty, and committed. |
| Records.SavedEmptyShowsEmpty | ichosnomicon.py:1475 | A field saved as NULL shows as empty. |
| Records.SaveTagEntry | ichosnomicon.py:1962-1973 | Writes the entry's text to the track being edited, or else to the selected one, and commits. Without either, it changes nothing. |
| Playback.StopFromAny | ichosnomicon.py:678-692 | From any valid state, stopping gives not playing, no current track, length 0, start 0, not seeking and a halted engine. |
| Playback.StopIdempotent | ichosnomicon.py:678-692 | Stopping twice is the same as stopping once. |
| Playback.PollStopsWhenIdle | ichosnomicon.py:694-702 | The poll stops the session exactly when it is playing and the engine is idle. It re-arms exactly while playing and busy, and keeps the invariant. |
| Playback.ToggleKeepsInv | ichosnomicon.py:591-676 | The play/stop command keeps the session invariant. |
| Playback.ToggleSameStops | ichosnomicon.py:612-618 | Playing the already playing track stops it. |
| Playback.ToggleStopsFirst | ichosnomicon.py:616-618 | Playing another track first stops the old one. |
| Playback.ToggleStarts | ichosnomicon.py:620-672 | A found, loadable track starts at offset 0 with its probed length (0 when unknown), and the finish poll runs at once. The session is seeking exactly when the seek bar was enabled, because `set(0)` runs the seek handler. |
| Playback.ToggleFailStops | ichosnomicon.py:674-676 | A load or play exception ends in the stopped state. |
| Playback.SeekNoop | ichosnomicon.py:706-711 | Without an engine, a length or a current track, seeking changes nothing. |
| Playback.SeekLookupFails | ichosnomicon.py:714-724 | When the current track's row is gone, the seek guard is cleared at once and nothing reloads. |
| Playback.SeekReloads | ichosnomicon.py:714-750 | Otherwise the track reloads from `value/100 × length`, the start offset becomes that target, and the guard is armed. |
| Playback.SeekKeepsPlaying | ichosnomicon.py:704-750 | Seeking keeps what plays and its length. |
| Playback.SeekTargetWithin | ichosnomicon.py:717 | A slider value from 0 to 100 targets a point within the track. |
| Playback.SeekKeepsInv | ichosnomicon.py:704-750 | Seeking and the guard's expiry keep the invariant. |
| Playback.PositionClamped | ichosnomicon.py:764-769 | The position is elapsed seconds plus the start offset, clamped to the length. |
| Playback.PercentBack | ichosnomicon.py:717 | The seek handler reads a shown percentage back as the shown position. |
| Playback.TickAsWrittenReloads | ichosnomicon.py:771-775 | As written, a tick that shows the position reloads the track from that position and arms the seek guard. It sets the seeking flag, so the next ticks show nothing. |
| Playback.SeekBarShows | ichosnomicon.py:752-785 | The bar and time are updated exactly while playing, not seeking, with elapsed ≥ 0 and a known length. The percentage is between 0 and 100 and the caption shows position and length. The tick re-arms exactly while playing. |
| Playback.FormatTimeFloors | ichosnomicon.py:787-791 | Python's `//` and `%` on float seconds agree with integer minutes and seconds of the floor. |
| Playback.FormatTimeRoundTrip | ichosnomicon.py:787-791 | The text `m:ss` reads back as whole minutes and seconds equal to the floor of the input, with seconds below 60. |
| Playback.FormatTimeSeconds | ichosnomicon.py:791 | The seconds are always two digits after the colon. |
| Playback.ClockRoundTrip | ichosnomicon.py:789-791 | A whole number of seconds formats to its minutes and remaining seconds. |
| Playback.Session.constructor | ichosnomicon.py:52-57 | A new session is idle. |
| Playback.Session.Stop | ichosnomicon.py:678-692 | The session fields become the stopped state. |
| Playback.Session.Poll | ichosnomicon.py:694-702 | The fields and the re-arm flag follow the poll's specification. |
| Playback.Session.Toggle | ichosnomicon.py:591-676 | The fields and the outcome follow the play/stop specification, including the seek that `set(0)` runs on the enabled slider. |
| Playback.Session.Seek | ichosnomicon.py:704-750 | The fields, the guard and the poll flag follow the seek specification. |
| Playback.Session.ClearSeeking | ichosnomicon.py:750 | The guard's expiry clears the seeking flag only. |
| Playback.Session.UpdateSeekBar | ichosnomicon.py:752-785 | The tick shown is the seek-bar specification of the current fields. The fields and the guard flag follow the seek that the slider's `set` runs with the shown percentage. |
| Playlists.CollectedAllFound | ichosnomicon.py:901-908 | When every selected id is stored, one entry per selection, in order, with that row's path and filename. |
| Playlists.Collect | ichosnomicon.py:901-908 | The loop collects exactly `Collected`. |
| Playlists.CopiedCount | ichosnomicon.py:947-960 | The copied count never exceeds the number of songs. |
| Playlists.AllCopied | ichosnomicon.py:947-960 | With no failing copy, the count is the number of songs. |
| Playlists.FolderCounts | ichosnomicon.py:947-960 | The folder holds exactly the names of the copied songs. It may hold fewer files than the reported count, since equal filenames overwrite each other. |
| Playlists.FolderSize | ichosnomicon.py:947-960 | The folder holds no more files than the number of successful copies. |
| Playlists.FolderNames | ichosnomicon.py:947-960 | A file name is in the folder exactly when some successful copy had that name. |
| Playlists.CopyAll | ichosnomicon.py:947-960 | The copy loop reports `CopiedCount` and leaves the folder as `FolderAfter` says. |
| Playlists.CreatePlaylist | ichosnomicon.py:889-1001 | A blank name or missing destination writes nothing. A declined overwrite writes nothing. Otherwise the folder, M3U or PLS playlist of the found songs is written with its count. |
| Playlists.M3uSplit | ichosnomicon.py:974-978 | A written M3U file is `#EXTM3U`, then one root-joined path per line. |
| Playlists.PlsSplit | ichosnomicon.py:987-993 | A written PLS file is `[playlist]`, then `File1..FileN=path`, then `NumberOfEntries=N` and `Version=2`. |
| Playlists.PlsLinesExample | ichosnomicon.py:988-993 | The PLS lines for one song are as shown in the Findings example. |
| Playlists.M3uEntryOfJoined | ichosnomicon.py:1206-1213 | A root-joined path read from an M3U line becomes its stored relative path again. |
| Playlists.PlsEntryOfLine | ichosnomicon.py:1224-1231 | A written `FileN=path` line reads back as its stored relative path. |
| Playlists.ReadJsonSongsMembers | ichosnomicon.py:1198-1200 | A path is added exactly when some song's `relative_path` is that path, or the path is `''` and some song has no `relative_path`. |
| Playlists.ReadJsonSongsCount | ichosnomicon.py:1198-1200 | The loop adds at most one path per song. |
| Playlists.ReadJsonSpec | ichosnomicon.py:1165-1168 | For a JSON playlist, the listing counts the `songs` entries, loading selects at most that many paths, and a path is selected exactly as `ReadJsonSongsMembers` says. |
| Playlists.M3uRoundTrip | ichosnomicon.py:970-1218 | Reading back a written M3U playlist gives exactly the set of the songs' relative paths. |
| Playlists.PlsRoundTrip | ichosnomicon.py:983-1235 | Reading back a written PLS playlist gives exactly that set. |
| Playlists.LoadWrittenM3u | ichosnomicon.py:1189-1218 | Loading a written `.m3u` file selects exactly the songs it was written from. |
| Playlists.LoadWrittenPls | ichosnomicon.py:1189-1235 | Loading a written `.pls` file selects exactly the songs it was written from. |
| Playlists.M3uIgnoredLine | ichosnomicon.py:1205-1216 | A blank line, a `#` line or an absolute path outside the root contributes nothing to an M3U read. |
| Playlists.PlsIgnoredLine | ichosnomicon.py:1223-1233 | A line not starting with `File`, or an absolute path outside the root, contributes nothing to a PLS read. |
| Playlists.M3uHeaderSkipped | ichosnomicon.py:1207 | The `#EXTM3U` header and the empty last line name no song. |
| Playlists.M3uListedCount | ichosnomicon.py:1170-1174 | The saved-playlist listing counts one entry per song of a written M3U file. |
| Playlists.PlsListedCount | ichosnomicon.py:1175-1179 | The corrected PLS count gives one entry per song of a written PLS file. |
| Playlists.PlsCountOverCounts | ichosnomicon.py:1179 | The count as written reports 2 for a one-song PLS file whose path contains `File`. |
| Playlists.CountM3uAppend | ichosnomicon.py:1173 | The M3U line count adds up over concatenated lines. |
| Playlists.CountPlsAppend | ichosnomicon.py:1179 | The corrected PLS count adds up over concatenated lines. |
| Text.Strip | ichosnomicon.py:1953 | `str.strip()` leaves no whitespace at either end and never lengthens. |
| Text.StripShape | ichosnomicon.py:1953 | The text is its stripped result with blank margins on either side: `s == a + Strip(s) + b`, where `a` and `b` are all whitespace. |
| Text.StripEmptyIffBlank | ichosnomicon.py:1953 | A piece strips to empty exactly when it is all whitespace. |
| Text.SplitJoin | ichosnomicon.py:2221 | Splitting a join on the separator gives the parts back. |
| Text.SplitAppend | ichosnomicon.py:2221 | Splitting around a separator splits each side. |
| Text.JoinSplit | ichosnomicon.py:1591 | Joining the pieces of a split with the separator gives the text back. |
| Text.LowerIdempotent | ichosnomicon.py:1434-1438 | Lower-casing twice is lower-casing once. |
| Text.ContainsIffOccurs | ichosnomicon.py:2016 | `in` on strings means the substring occurs at some index. |
| Text.LessTransitive | ichosnomicon.py:1955 | String order is transitive. |
| Text.LessTotal | ichosnomicon.py:1955 | Any two distinct strings are ordered one way. |
| Text.ParseNatToString | ichosnomicon.py:991-992 | A decimal number written out reads back as itself. |
| Text.CountAcrossBreak | ichosnomicon.py:1179 | Occurrences of a substring without a line break add up over the lines. |
| Paths.Name | ichosnomicon.py:1350 | `Path.name` is the part after the last `/`. |
| Paths.Suffix | ichosnomicon.py:1310 | `Path.suffix` is empty or a dot followed by at least one non-dot character, and ends the name. |
| Paths.RelativeTo | ichosnomicon.py:1210-1213 | `relative_to` succeeds exactly when the line and the root are both absolute or both relative and the root's components begin the line's. |
| Paths.RelativeToJoin | ichosnomicon.py:1210-1213 | `relative_to` the root undoes joining a stored path to the root. |
| Paths.RelativeToDoubledSlash | ichosnomicon.py:1227-1230 | A playlist line `/music//name` is relative to the root `/music` as `name`. |
| Paths.RelativeToDotPiece | ichosnomicon.py:1227-1230 | A playlist line `/music/./name` is relative to `/music` as `name`. |
| Paths.RelativeToTrailingSlash | ichosnomicon.py:1227-1230 | A playlist line `/music/name/` is relative to `/music` as `name`. |
| Paths.RelativeToOutside | ichosnomicon.py:1210-1214 | A line `/dir/...` under a directory other than `music` is not relative to `/music`, so `ValueError` drops it. |
| Paths.NameOfJoined | ichosnomicon.py:1573 | The name of `dir/name` is `name`. |
| Paths.Kept | ichosnomicon.py:1573 | `pathlib` keeps only the non-empty pieces other than `.`, and keeps all the pieces when there is nothing to drop. |
| Paths.Components | ichosnomicon.py:1573 | Every component is non-empty, is not `.`, and holds no `/`. |

## Left out

- Tkinter: windows, dialogs, theming, menus, progress widgets and key bindings. A dialog's answer (confirm, entered text, chosen type) is an input.
- The file system: `rglob`, `exists`, `unlink`, `rename`, `copy2`, `rmtree`, `mkdir` and file writes. The listing is an input sequence, and each existence check, failure or error message is an input. A written playlist is returned as text.
- `config.json` load, save and backup (ichosnomicon.py:311-333): plumbing outside the core.
- mutagen: parsing a file's tags is an abstract `Probe` per file, and only the key choice over the resulting tag map is modelled. Writing the ID3 frames (ichosnomicon.py:1766-1813) is reduced to a failure flag.
- pygame: the mixer is an abstract engine holding the loaded file, a running flag and the offset. Busy status, elapsed milliseconds, load failures and the probed length are inputs.
- `root.after` timers: the finish poll, the 200 ms seek guard and the seek-bar tick are explicit method calls (`Poll`, `ClearSeeking`, `UpdateSeekBar`). Each reports whether it would re-arm.
- `on_volume_change` (ichosnomicon.py:793-798): it only forwards the slider to the mixer.
- SQLite `LIKE`: `%` and `_` typed into a filter act as wildcards in the real query. The model treats filters as plain prefix and substring tests. `LOWER` and the model's `Lower` are ASCII-only.
- A playing id of 0 would read as "nothing playing" in `on_seek`'s `if not self.currently_playing` (ichosnomicon.py:710). AUTOINCREMENT ids start at 1, so the model treats a current id as present whatever its value.
- BulkTags.Writes, BulkTags.PreviewLines, BulkTags.PreviewShowsStored, BulkTags.ApplyBulkTags: the bulk dialog reads each row's tags back from the Treeview cell (`item(...)['values'][4]`, ichosnomicon.py:2190-2192, 2226-2227, 2267-2268), and ttk returns that cell as an `int` whenever Python's `int()` accepts its text. The model reads the stored string instead, so it is exact only for tag strings that are not integer text. For a numeric tag string such as `1990`, `tags.split(',')` at 2193 raises while the dialog is being built, so nothing is previewed or written; in the apply loop the same read makes that row an error. For `0`, the cell is falsy and reads as "no tags", so Add writes only the typed tags and drops `0`. The model previews and writes from `1990` and `0` as text.
- Store.Library.InsertOrIgnore: an ignored insert leaves the id counter as it was. On an AUTOINCREMENT table SQLite allocates the new rowid, and raises `sqlite_sequence`, before the UNIQUE check discards the row, so an ignored insert uses up an id and the next row's id skips one. The scan (ichosnomicon.py:1302-1409) never meets this case: it inserts right after `DELETE FROM songs`, `rglob` yields each file once, and distinct files have distinct relative-path strings. So the ids of `ScanReconciler.Reconciled` (`startId + k`) differ from SQLite's only for a listing that repeats a path, which the model accepts as input and the real walk never produces.
- NULL tags: a NULL `tags` cell would be snapshotted as NULL. The model stores tags as strings, as the scan and both tag editors only ever write strings.
- JSON parsing: a JSON playlist is an abstract document (`JsonDoc`, or none when it does not parse). Exporting and deleting saved playlists (ichosnomicon.py:1062-1140) are file copies and are left out.
- Line endings: the readers split on `\n` only. Python's universal newlines also end a line at `\r\n` and at a lone `\r`. A `\r\n` file still reads the same, because each line is stripped. A file whose lines end in a lone `\r` reads in the model as a single line.
- Stored paths and the root are taken to be normalised POSIX paths without `.` or empty components, and they hold no line breaks. A name typed into the rename dialog and an absolute path read from a playlist line go through `pathlib`'s normalisation (`Components`). The exception is a path that starts with exactly two slashes, which POSIX `pathlib` keeps as a root of its own.
- Records.Rename: when the move succeeds but the table is not updated (a UNIQUE conflict, or `relative_to` raising), the model states only that the table is unchanged. That the file has moved is a file-system effect and is not modelled.
- Text.Lower, Text.Strip: Python's `str.lower()` and `str.strip()` are Unicode-aware. The model lower-cases ASCII letters only and strips ASCII whitespace only. So the filter terms (ichosnomicon.py:1434-1438), the sort key (564), the autocomplete match (2016), tag parsing (1953, 2221, 2268), the rename and metadata strips, and the `.suffix.lower()` extension tests are exact only on ASCII text. The model does not lower-case `É`, and it does not strip U+00A0.
- Playback.Session.Seek: requires a slider value from 0 to 100, the range of the seek `Scale` widget. Floats are modelled as `real`, so no IEEE rounding is modelled.
- Playback.Session.Toggle: requires a non-negative probed length, as mutagen reports it.
- Playback.Session.Seek, Playback.Session.UpdateSeekBar: a failed reload during a seek is one flag (`loadFails`), and the model then keeps the old, running engine and the old start offset. That matches pygame only when `load` raises (ichosnomicon.py:730). When `load` succeeds and `play(start=position)` raises (734), the old music is already freed and the mixer holds the new file stopped. The real engine then reports not busy, and the next `check_playback_status` (697) stops the session. The model reaches that stop only when the poll's `busy` input is false; it does not tie that input to the failed play.
- The bulk-tag operation has a fifth branch ("unchanged") for unknown operation names (ichosnomicon.py:2237, 2278). The dialog offers only the four radio buttons, so the model has only four operations.
- The M3U entry count in the listing tests `#` on the unstripped line, while the loader strips first. The model keeps each as written (`M3uCounted` against `M3uEntry`).
- Playlists.FolderCounts: the reported `copied` count counts copies, not distinct files. Songs with equal filenames overwrite each other in the folder, and the lemma states this rather than an equality.
- The zero-file scan returns after `DELETE FROM songs` without a commit. `Scan`'s contract states the uncommitted empty table, and what a later commit or close would do is not modelled.

## Findings

The header click and the saved-playlist count that the rest of the model uses are the corrected definitions. `Records.Rename` and the `Session` methods follow the code as written, and the corrected lemmas state the intended behaviour beside them.

| source | as written | input that shows it | evidently intended | confidence | as-written member | corrected member |
|---|---|---|---|---|---|---|
| ichosnomicon.py:2125-2129 | The new cursor is `len(new_text.strip()) - len(text after cursor)`. Stripping also removes trailing whitespace of the text after the cursor. | Entry `ro ` with the cursor after `ro`, choosing `rock`: the entry becomes `rock` and the cursor goes to 3, inside the tag. | The cursor lands right after the inserted tag (4). | not executed | TagEntry.SpliceCursorExample | TagEntry.SpliceCursorAfterTag |
| ichosnomicon.py:1177-1179 | The PLS entry count is `content.count('File')`, which counts every occurrence of `File` in the text. | A one-song PLS playlist for `File.mp3` under `/m` has the line `File1=/m/File.mp3`, and the count is 2. | One per `FileN=` entry line, as the M3U count does per path line. | not executed | Playlists.PlsCountOverCounts | Playlists.PlsListedCount |
| ichosnomicon.py:556 | `sort_column` reads each row's cell with `library_tree.set(item, col)` before sorting. For the ID column `col` is `#0`, and Tk refuses to read the tree column this way ("Display column #0 cannot be set"). So the call raises before the numeric sort at 559-561 is reached. | Click the ID header over a list whose rows have ids 2 and then 1: the rows stay in that order, the headings stay as they were, and the next click goes the same way. | The rows are sorted by numeric id, and the direction toggles as for the other columns. | not executed | LibraryView.ClickIdAsWrittenNeverSorts | LibraryView.ClickHeader |
| ichosnomicon.py:1573-1593 | The typed name is joined to the track's directory with `/`. An absolute name replaces the whole path, the file is moved there, and then `relative_to(music_root)` raises. | Library root `/music`, track `a/b.mp3`, new name `/tmp/b.mp3`. The file moves to `/tmp/b.mp3`, an error is shown, and the row still says `a/b.mp3`. | A name with a path separator (or `.` or `..`) is refused before the file is touched, so a completed rename keeps the file in its directory. | not executed | Records.RenameOutsideRootLeavesLibrary | Records.RenameCheckedStaysInDirectory |
| ichosnomicon.py:774 | The tick moves the slider with `seek_slider.set(percentage)`, and on the enabled `ttk.Scale` (375-376) `set` runs its command, `on_seek`. Every tick that shows the position therefore reloads the track from it and sets `is_seeking`. The same happens at 662, so a started track begins seeking. | A playing track of known length, not seeking: the next 100 ms tick reloads the file at the shown second and sets `is_seeking`. The bar then skips updates until the 200 ms guard fires, and the cycle repeats. | The tick only displays the position and leaves the session as it was. | not executed | Playback.TickAsWrittenReloads | Playback.SeekBarShows |
