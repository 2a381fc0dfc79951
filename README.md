# DraftBoard in Dafny

This project models the core of DraftBoard, a fantasy-football rookie draft board, and proves properties of that model. The board is a ranked list of prospect players that can be edited, dragged into a new order, filtered, sorted and exported as CSV. A live-draft page simulates a linear draft in which teams can trade picks. The model covers these parts:

- **`Storage`** (`storage.dfy`): the server's in-memory store `MemStorage`.
  - It is a class with a `map<int, Player>` field and an id counter, as in the source.
  - Create, get, update, delete and reorder are methods, proved against the specification functions `Merge`, `AfterDelete` and `ApplyReorder`.
  - The density invariant (orders are exactly 1..N) is proved to survive create-at-end, delete, and a reorder that renumbers everyone.
- **`Schema`** (`schema.dfy`): the create and update request schemas, as functions that return the accepted record or the list of issues.
- **`DraftBoardTypes`** (`draft_board_types.dfy`): the shared records and the constants `POSITIONS`, `TIERS`, `TIER_COLORS` and `DEFAULT_PLAYER`.
- **`PlayerTable`** (`player_table.dfy`): the ranking table.
  - Drag-and-drop moves one row and renumbers the rows 1..k.
  - The inline grade editor sends a grade only when it lies in 0..100.
  - The component's refs and state are fields of a class.
- **`UseDraftBoard`** (`draft_board_hook.dfy`): the board's filter and sort pipeline, and the text of the CSV export.
  - A parser for quoted CSV cells (RFC 4180, section 2, rules 5 to 7) serves as the export's partner, so the model can say what a reader recovers from the file.
- **`AddPlayerModal`** (`add_player_modal.dfy`): the add-player dialog's validation and its form state.
- **`LiveDraftPage`** (`live_draft.dfy`): the live draft page.
  - Covers the on-the-clock slot, draft, undo, trades, the draft board grid and each team's owned picks.
  - The page's state is a class. The effect that keeps the selected team on the clock is replayed at the end of every method that changes the pick counter or the teams.
- **`SleeperApi`** (`sleeper_api.dfy`): the pure part of the Sleeper league import.
  - Covers default grades and tiers, the rookie filter and order, and the mapping of rosters, rookies and draft picks.
  - The fetched data are parameters.
- **Supporting modules:**
  - `Wrappers`: `Option` and `Result`.
  - `Text`: lower-casing, `includes`, `trim` (stripping the white space and line terminator code points of ECMA-262), a lexicographic order standing in for `localeCompare`, number to text and back, and `join`.
  - `Seqs`: `filter`, `sort` (a stable insertion sort driven by a total preorder) and `reverse` on sequences. Every sort of the core is modelled as stable, as ECMAScript 2019 requires of `Array.prototype.sort`, so ties keep their input order.

Where the design description and the code disagree, the model follows the code:

- **The board's orders are not always dense.** The design says they are 1..N after every change. The code keeps that only for create-at-end, delete, and a reorder that renumbers every player:
  - an explicit order passed to create is stored as given;
  - a reorder list is applied without any check;
  - a drag on a filtered table renumbers only the visible rows (`PlayerTable.FilteredDragBreaksDense`).
- **Orders may be any number.** The schema accepts any number as an order, not only positive ones.
- **The draft is linear.** The design discusses a snake draft mode, but the code computes only the linear slot.
- **The CSV round trip can fail.** The design expects re-importing to preserve name, position and school, but the code escapes quotes only in the notes cell (see Findings).
- **Imported pick numbers can repeat.** After an import the page sets its counter to the history's length + 1, although the import drops picks and so leaves gaps. `LiveDraftPage.LiveDraft.ApplySleeperData` keeps that rule, as does the page's invariant (counter = history length + 1). The corrected rule is `LiveDraftPage.NextPickAfter` (see Findings).
- **Slots are looked up by roster id.** The board and the on-the-clock badge find the team of slot i by team id, and an imported team keeps its roster id as id. The page model keeps that lookup (`LiveDraftPage.FindTeam`). The lookup by draft position is `LiveDraftPage.DrafterInSlot` (see Findings).
- **Notes may be absent.** The design gives notes a default of "", but that default belongs to the database column. The create schema makes notes optional with no default, and the in-memory store keeps the body as given. A player created without notes therefore has none, and the export then fails (see Findings).

## Model

| member | source | states |
|---|---|---|
| Storage.MemStorage.constructor | server/storage.ts:24-30 | A new store holds eight players with ids 1..8 and orders 1..8, its counter is 9, and its orders are dense |
| Storage.MemStorage.InitializeSampleData | server/storage.ts:32-46 | Creating the eight samples in an empty store gives keys 1..8, each player ranked by its id, and counter 9 |
| Storage.MemStorage.CreateInOrder | server/storage.ts:44-46 | Creating samples one after another stores sample k under id k with its own order, and the counter ends one past the count |
| Storage.MemStorage.GetPlayers | server/storage.ts:49-51 | The result lists every stored player exactly once, nothing else, sorted by ascending order; the sort is stable over the map's insertion order, so players sharing an order are listed by ascending id |
| Storage.MemStorage.StoredValues | server/storage.ts:50 | The values of the map in insertion order: each stored player once, by ascending id (ids are handed out in increasing order and an update keeps an entry's place) |
| Storage.AscendingListingCount | server/storage.ts:50 | A listing of stored players that names every key and is strictly ascending by id has one entry per key and no duplicates |
| Storage.MemStorage.GetPlayer | server/storage.ts:53-55 | Returns the stored player for a known id and None for an unknown one |
| Storage.MemStorage.MaxOrder | server/storage.ts:62-65 | On a non-empty store, returns an order that some player has and that no player exceeds |
| Storage.MemStorage.CreatePlayer | server/storage.ts:57-72 | The new player takes the old counter as id (never used before) and the counter grows by one; a non-zero order is kept, order 0 becomes max order + 1 (1 on an empty store); only the new entry is added |
| Storage.MemStorage.UpdatePlayer | server/storage.ts:74-81 | An unknown id gives None and changes nothing; otherwise only that player changes, to the merge of its fields with the present update fields |
| Storage.Merge | server/storage.ts:78 | Id and order are kept; each present update field replaces the player's field and each absent one leaves it |
| Storage.MergeEmptyIsIdentity | server/storage.ts:78 | An update with no field present leaves the player unchanged |
| Storage.MemStorage.DeletePlayer | server/storage.ts:83-98 | Returns whether the id was stored; an unknown id changes nothing; otherwise the store becomes AfterDelete: the id is gone, higher orders move down by one, lower ones stay |
| Storage.MemStorage.ShiftOrdersDown | server/storage.ts:91-95 | Every player ranked after the deleted order moves up one place; each other player and every id stays as it was |
| Storage.DeleteKeepsDense | server/storage.ts:87-95 | If orders are exactly 1..N before a delete, they are exactly 1..N-1 after |
| Storage.CreateAtEndKeepsDense | server/storage.ts:61-70 | A player added under a fresh id at max order + 1 takes dense orders 1..N to 1..N+1 |
| Storage.DenseOrdersAreOneToN | server/storage.ts:61-66 | Under the density invariant, the set of orders is exactly {1..N} |
| Storage.MemStorage.ReorderPlayers | server/storage.ts:100-108 | Always returns true; the store becomes the reorder items applied in list order |
| Storage.ReorderEffect | server/storage.ts:100-108 | Reordering keeps the keys and every field but order; a listed stored player takes the order of the last item naming it, unlisted players keep theirs, unknown ids change nothing |
| Storage.RenumberingAllKeepsDense | server/storage.ts:100-108 | A reorder naming every stored player once, with orders 1..N by list position, leaves the store dense |
| Schema.ParseNewPlayer | shared/schema.ts:35-44 | A create body is accepted exactly when name and position are non-empty, school is present, grade is in 0..100, tier is in 1..5 and an order of any value is present; notes are optional and passed through as given, so a body without notes gives a record without notes; a refusal lists at least one issue |
| Schema.ParseUpdate | shared/schema.ts:46-53 | An update body is accepted exactly when each present field meets its bound; the result carries only name, position, school, grade, tier and notes |
| Schema.UpdateIgnoresIdAndOrder | shared/schema.ts:46-53 | Id and order keys in an update body do not affect the parsed update |
| Schema.DefaultsWithinBounds | shared/schema.ts:11-13 | The column defaults (grade 75, tier 3, notes "") lie within the schema's bounds, and the form's default player uses exactly these defaults |
| DraftBoardTypes.PositionsDistinct | client/src/lib/draftBoardTypes.ts:48-50 | There are twelve positions, all different |
| DraftBoardTypes.TiersNumbered | client/src/lib/draftBoardTypes.ts:52-58 | There are five tiers; tier k has id k and name "Tier k" |
| DraftBoardTypes.TierColorsCoverTiers | client/src/lib/draftBoardTypes.ts:60-66 | The colour map has a key for each tier id and no others |
| DraftBoardTypes.ByOrderIsTotalPreorder | server/storage.ts:50 | The order comparator is a total preorder, so sorting by it is well defined |
| Seqs.SortStable | client/src/hooks/useDraftBoard.ts:139-152 | Sorting keeps the input order of any group of elements the comparator ranks level among themselves (the stable sort ECMAScript 2019 requires of `Array.prototype.sort`) |
| Seqs.SortKeepsTies | server/storage.ts:50 | Under a total preorder, the elements tied with any given one appear in the sorted sequence in their input order |
| Seqs.SortTiesFollowInput | server/storage.ts:50 | Sorting an input ordered by some relation leaves every pair of tied elements ordered by that relation |
| Seqs.FilterTwice | client/src/hooks/useDraftBoard.ts:121-137 | Two filters in a row are one filter by both tests |
| Seqs.FilterReverse | client/src/hooks/useDraftBoard.ts:155-157 | Filtering a reversed sequence gives the reverse of the filtered sequence |
| DraftBoardTypes.MatchesSearch | client/src/hooks/useDraftBoard.ts:130-137 | An empty search keeps everyone; otherwise a player matches exactly when the lower-cased search occurs in the lower-cased name or school |
| PlayerTable.FindIndexByOrder | client/src/components/PlayerTable.tsx:43-44 | Returns the first index holding the order, or None exactly when no row holds it |
| PlayerTable.FindById | client/src/components/PlayerTable.tsx:99 | Returns the first listed player with that id (no earlier row has it), or None exactly when no row has it |
| PlayerTable.MoveItemPointwise | client/src/components/PlayerTable.tsx:49-58 | The moved row lands at the target index; rows between the two indices shift by one; rows outside that range keep their index |
| PlayerTable.MoveItemPermutes | client/src/components/PlayerTable.tsx:49-58 | The moved array is a permutation of the input |
| PlayerTable.Renumber | client/src/components/PlayerTable.tsx:61-64 | One update per row, in array order, carrying the row's id and order index + 1 |
| PlayerTable.MoveKeepsListing | client/src/components/PlayerTable.tsx:49-58 | Moving a row of a full listing of the store gives a full listing again (same size, stored ids, no id twice) |
| PlayerTable.RenumberListing | client/src/components/PlayerTable.tsx:61-64 | Renumbering a full listing names every stored player once with orders 1..N |
| PlayerTable.DragOnFullListingKeepsDense | client/src/components/PlayerTable.tsx:39-67 | A drag over the full list followed by the store's reorder leaves the orders exactly 1..N |
| PlayerTable.FilteredDragBreaksDense | client/src/components/PlayerTable.tsx:43-64 | On a filtered list, a drag renumbers only the visible rows, and a hidden player ends up sharing an order |
| PlayerTable.GradeAccepted | client/src/components/PlayerTable.tsx:89-91 | A grade text is accepted exactly when it parses to an integer in 0..100 |
| PlayerTable.EditedGradeRoundTrips | client/src/components/PlayerTable.tsx:81-91 | A grade in range, shown in the editor and left unchanged, is accepted and sent back as the same grade |
| PlayerTable.PlayerTable.constructor | client/src/components/PlayerTable.tsx:26-29 | Both drag refs are null, no grade is being edited, and the grade text is empty |
| PlayerTable.PlayerTable.HandleDragStart | client/src/components/PlayerTable.tsx:31-33 | The drag ref records the dragged order |
| PlayerTable.PlayerTable.HandleDragEnter | client/src/components/PlayerTable.tsx:35-37 | The drag-over ref records the order under the pointer |
| PlayerTable.PlayerTable.HandleDragEnd | client/src/components/PlayerTable.tsx:39-79 | Nothing is sent, and the refs are kept, when a ref is null, both refs are equal, or an order is not on screen; otherwise the renumbered moved list is sent and both refs are cleared |
| PlayerTable.PlayerTable.HandleGradeEdit | client/src/components/PlayerTable.tsx:81-84 | The editor opens on the player, showing its grade as text |
| PlayerTable.PlayerTable.SetGradeValue | client/src/components/PlayerTable.tsx:189 | The grade text is what was typed |
| PlayerTable.PlayerTable.HandleGradeBlur | client/src/components/PlayerTable.tsx:86-116 | With no editor open nothing happens; an accepted text sends (id, grade); a refused one sends nothing and reverts the text to the player's grade when the player is listed; the editor closes either way |
| UseDraftBoard.ComparatorIsTotalPreorder | client/src/hooks/useDraftBoard.ts:140-152 | Each sort field's comparator is a total preorder |
| UseDraftBoard.FilteredAndSorted | client/src/hooks/useDraftBoard.ts:116-160 | No data gives []; otherwise the result holds exactly the players passing the position, tier and search filters, as often as in the input; it is sorted by the field's comparator, or for desc on any field but grade, in the reverse order; players the comparator ranks level appear in the order the data lists them, or in exactly the reverse of that order when the list is reversed (so desc is the reverse of the stable ascending sort) |
| UseDraftBoard.ApplyFilters | client/src/hooks/useDraftBoard.ts:121-137 | The filtered list is the input with exactly the players passing all three filters kept, in input order, each as often as in the input |
| UseDraftBoard.ThreeStepsAreOneFilter | client/src/hooks/useDraftBoard.ts:121-137 | The position, tier and search steps applied one after another keep the same list as one filter by all three tests |
| UseDraftBoard.ApplySort | client/src/hooks/useDraftBoard.ts:139-157 | The result is a permutation of the input, ordered by the field's comparator, or reversed for desc on any field but grade; players ranked level keep their input order, or its exact reverse for a reversed sort |
| UseDraftBoard.EscapeQuoteFree | client/src/hooks/useDraftBoard.ts:181 | Doubling quotes leaves text without a double quote unchanged |
| UseDraftBoard.JoinAfterHead | client/src/hooks/useDraftBoard.ts:185-188 | Joining the header and the lines with newlines is the header followed by one newline plus line for each line |
| UseDraftBoard.ExportSingle | client/src/hooks/useDraftBoard.ts:168-188 | The file for one player with notes is the unquoted header, a newline and that player's quoted line |
| UseDraftBoard.DecodePlainCells | client/src/hooks/useDraftBoard.ts:174-182 | A player's seven cell texts decode back to its rank, name, position, school, grade, tier and notes |
| UseDraftBoard.ParseEscapedLine | client/src/hooks/useDraftBoard.ts:187 | A line of escaped, quoted, comma-separated cells parses back to exactly those cells |
| UseDraftBoard.ParseEscapedRows | client/src/hooks/useDraftBoard.ts:185-188 | Newline-separated escaped lines parse back to their rows |
| UseDraftBoard.EscapedCsvRoundTrip | client/src/hooks/useDraftBoard.ts:168-188 | With every cell escaped and absent notes written as an empty cell, every loaded list gives a file; it parses back to one row of cells per player in rank order, and each row decodes to that player's fields (absent notes as "") |
| UseDraftBoard.ExportAgreesWithoutQuotes | client/src/hooks/useDraftBoard.ts:174-187 | When every player has notes and no name, position or school holds a double quote, the export as written equals the fully escaped export |
| UseDraftBoard.CsvRoundTripWithoutQuotes | client/src/hooks/useDraftBoard.ts:168-188 | Under that condition, the file as written parses back to the players' rows in rank order |
| UseDraftBoard.ShiftedCellsCollide | client/src/hooks/useDraftBoard.ts:181-187 | Moving the text `","` from the end of the name to the start of the position leaves the exported line unchanged |
| UseDraftBoard.UnescapedCellsCollide | client/src/hooks/useDraftBoard.ts:181-187 | Two players with different rows export the same file |
| UseDraftBoard.ExportToCsv | client/src/hooks/useDraftBoard.ts:167-188 | No data gives no outcome (nothing happens) and only then; with data, the export as written fails with a TypeError exactly when some loaded player has no notes, and otherwise downloads the file |
| UseDraftBoard.CreatedWithoutNotesBreaksExport | shared/schema.ts:42 | A create body without notes passes the schema, is stored without notes (server/storage.ts:68-69), and then makes the export of any list holding that player fail |
| AddPlayerModal.Validate | client/src/components/AddPlayerModal.tsx:62-86 | MissingName exactly when the name trimmed of ECMAScript white space and line terminators is empty; MissingPosition exactly when the name is not blank and the position is empty; otherwise the form's fields with order 0 |
| AddPlayerModal.AcceptedFormPassesSchema | client/src/components/AddPlayerModal.tsx:84-86 | A form accepted by the dialog, with grade and tier in bounds, is accepted unchanged by the create schema |
| AddPlayerModal.BlankNameOnlyRefusedByForm | client/src/components/AddPlayerModal.tsx:66-73 | A name made only of blanks is refused by the dialog, although the schema would accept it |
| AddPlayerModal.NoBreakSpaceNameRefused | client/src/components/AddPlayerModal.tsx:66 | A name that is a single no-break space (U+00A0) counts as blank, since `trim` strips it |
| AddPlayerModal.TierOptionsParse | client/src/components/AddPlayerModal.tsx:196-197 | Each tier option's text parses back to its tier id |
| AddPlayerModal.AddPlayerForm.constructor | client/src/components/AddPlayerModal.tsx:26 | The form starts as the default player |
| AddPlayerModal.AddPlayerForm.ResetForm | client/src/components/AddPlayerModal.tsx:28-30 | The form becomes exactly the default player |
| AddPlayerModal.AddPlayerForm.HandleClose | client/src/components/AddPlayerModal.tsx:32-35 | Closing resets the form to the default player |
| AddPlayerModal.AddPlayerForm.HandleInputChange | client/src/components/AddPlayerModal.tsx:37-43 | Only the named text field takes the new value |
| AddPlayerModal.AddPlayerForm.HandleNumberChange | client/src/components/AddPlayerModal.tsx:45-53 | An empty input stores grade 0, a number is stored as given; nothing else changes |
| AddPlayerModal.AddPlayerForm.HandleSelectChange | client/src/components/AddPlayerModal.tsx:55-60 | The tier select stores the parsed integer and the position select stores the raw text; nothing else changes |
| AddPlayerModal.AddPlayerForm.HandleSubmit | client/src/components/AddPlayerModal.tsx:62-95 | A refused form sends nothing and stays as it is; an accepted one is sent with order 0, then reset if the add succeeded and kept if it failed |
| LiveDraftPage.Ceil | client/src/pages/LiveDraft.tsx:253 | The result c is the ceiling: (c - 1) * n < p <= c * n |
| LiveDraftPage.OnClockSlot | client/src/pages/LiveDraft.tsx:253 | The slot lies in 1..n and equals ((p - 1) mod n) + 1 |
| LiveDraftPage.SlotOfBoardPick | client/src/pages/LiveDraft.tsx:454-456 | The board's pick for team i of round r is on the clock for slot i |
| LiveDraftPage.FindPickRecord | client/src/pages/LiveDraft.tsx:459 | Finds the first history record with that pick number (no earlier record has it), or None exactly when no pick with that number was made |
| LiveDraftPage.PickMadeSequential | client/src/pages/LiveDraft.tsx:388 | In a sequential history, a pick was made exactly when its number is in 1..k |
| LiveDraftPage.NextPickAfter | client/src/pages/LiveDraft.tsx:166-169 | The corrected counter after an import: above every imported pick number, and one past the highest of them (1 for an empty history) |
| LiveDraftPage.NextPickAfterSequential | client/src/pages/LiveDraft.tsx:166-169 | For a history numbered 1..k with no gap, the corrected counter is k + 1, the counter the page sets |
| LiveDraftPage.NextPickIsNew | client/src/pages/LiveDraft.tsx:258-274 | A pick made at the corrected counter does not repeat any pick number of the history |
| LiveDraftPage.TeamPlayers | client/src/pages/LiveDraft.tsx:308-312 | Exactly the team's records, each as often as in the history, sorted by pick number |
| LiveDraftPage.TeamPlayersKeepTies | client/src/pages/LiveDraft.tsx:308-312 | A team's records sharing a pick number are listed in history order |
| LiveDraftPage.AvailablePlayers | client/src/pages/LiveDraft.tsx:238-249 | No data gives []; otherwise exactly the undrafted players passing the search and the position filter, each as often as listed, sorted by order |
| LiveDraftPage.AvailableKeepTies | client/src/pages/LiveDraft.tsx:238-249 | The three filter steps are one filter by availability, and available players sharing an order are listed in the order the loaded list has them |
| LiveDraftPage.AvailableAreUndrafted | client/src/pages/LiveDraft.tsx:238-249 | Every offered player is in the list and has not been drafted |
| LiveDraftPage.SetAll | client/src/pages/LiveDraft.tsx:353-360 | Every listed key maps to the value; every other key is kept as it was |
| LiveDraftPage.TradeMapEffect | client/src/pages/LiveDraft.tsx:349-363 | After a trade, every to-side pick belongs to the from team, every other from-side pick to the to team, and every other entry is unchanged |
| LiveDraftPage.ToggleMembership | client/src/pages/LiveDraft.tsx:323-337 | Toggling flips whether the pick is listed and leaves every other pick's membership as it was |
| LiveDraftPage.ToggleTwiceAbsent | client/src/pages/LiveDraft.tsx:323-337 | Toggling an unlisted pick twice restores the list exactly |
| LiveDraftPage.ToggleTwicePresent | client/src/pages/LiveDraft.tsx:323-337 | Toggling a listed pick of a duplicate-free list twice keeps the same picks |
| LiveDraftPage.ToggleTwiceReorders | client/src/pages/LiveDraft.tsx:323-337 | Toggling a listed pick twice can change the list's order: [1, 2] becomes [2, 1] |
| LiveDraftPage.FindTeam | client/src/pages/LiveDraft.tsx:457 | Finds the first team with that id (no earlier team has it), or None exactly when no team has it |
| LiveDraftPage.PageTeams | client/src/pages/LiveDraft.tsx:136-138 | The page keeps one team per imported team, with its roster id as id and its name |
| LiveDraftPage.SwappedLeagueTeams | client/src/lib/sleeperApi.ts:283-297 | In a two-roster league where roster 2 drafts first, the import lists roster 2 (Bob, slot 1) before roster 1 (Ann, slot 2) |
| LiveDraftPage.SlotShowsRosterNotDrafter | client/src/pages/LiveDraft.tsx:456-464 | In that league, slot 1, which is on the clock for pick 1, is shown as Ann, the team with roster id 1, although Bob drafts in slot 1 |
| LiveDraftPage.DrafterInSlot | client/src/pages/LiveDraft.tsx:456 | The corrected lookup: the first imported team whose draft position is the slot, or None exactly when no team has that slot |
| LiveDraftPage.SlotShowsDrafter | client/src/pages/LiveDraft.tsx:456 | In that league, the corrected lookup finds Bob for slot 1 |
| LiveDraftPage.BoardIsNumbered | client/src/pages/LiveDraft.tsx:451-456 | Round r of the board has one cell per team, and cell i is pick (r - 1) * n + i |
| LiveDraftPage.BoardEnumeratesPicks | client/src/pages/LiveDraft.tsx:451-486 | Read row after row, the board's cells are the picks 1..R*n, each once, in order |
| LiveDraftPage.BoardCellOwners | client/src/pages/LiveDraft.tsx:462-481 | A cell's original team is the slot on the clock for its pick; it is traded exactly when its displayed owner differs from that team; it is active exactly at the current pick, where it shows the real owner |
| LiveDraftPage.CollectFacts | client/src/pages/LiveDraft.tsx:386-426 | Over cells in pick order, the collected entries are in strictly ascending pick order; each comes from a cell with that round, pick and status, and each cell with a status contributes one |
| LiveDraftPage.OwnedPicksFacts | client/src/pages/LiveDraft.tsx:383-428 | The owned-pick list of a board is already sorted by pick, and it contains exactly the undrafted cells that carry a status |
| LiveDraftPage.DefaultTeams | client/src/pages/LiveDraft.tsx:46-59 | Twelve teams, where team i has id i and name "Team i" |
| LiveDraftPage.LiveDraft.constructor | client/src/pages/LiveDraft.tsx:37-73 | The page starts with the twelve teams, team 1 on the clock, empty history, counter 1, four rounds, no trades, and the dialog closed and empty |
| LiveDraftPage.LiveDraft.DraftPlayer | client/src/pages/LiveDraft.tsx:258-274 | Appends one record with id and pick number equal to the old counter, made by the team on the clock (not the traded owner); earlier records are kept, the counter grows by one, and the counter stays equal to history length + 1 |
| LiveDraftPage.LiveDraft.UndoLastPick | client/src/pages/LiveDraft.tsx:277-287 | With no history nothing changes; otherwise only the last record is removed and the counter drops by one |
| LiveDraftPage.LiveDraft.DraftThenUndo | client/src/pages/LiveDraft.tsx:258-287 | Drafting a player and then undoing restores history, counter and selected team |
| LiveDraftPage.ImportThenDraftRepeatsPick | client/src/pages/LiveDraft.tsx:166-169 | Importing a history whose only record is pick 2 and then drafting leaves two different records both numbered 2 |
| LiveDraftPage.LiveDraft.ApplySleeperData | client/src/pages/LiveDraft.tsx:126-169 | Takes the imported teams if there are any, the round count if it is not 0, and the history, with the counter after it, if it is not empty; the counter invariant and the on-clock team are kept |
| LiveDraftPage.LiveDraft.OpenTradeDialog | client/src/pages/LiveDraft.tsx:315-321 | The dialog opens with that team giving, no receiving team, and no picks chosen |
| LiveDraftPage.LiveDraft.SetFromTeam | client/src/pages/LiveDraft.tsx:816 | The giving team becomes the chosen one |
| LiveDraftPage.LiveDraft.SetToTeam | client/src/pages/LiveDraft.tsx:863 | The receiving team becomes the chosen one |
| LiveDraftPage.LiveDraft.SetTradeDialogOpen | client/src/pages/LiveDraft.tsx:961 | The dialog's open flag becomes the given value |
| LiveDraftPage.LiveDraft.TogglePickSelection | client/src/pages/LiveDraft.tsx:323-337 | Toggles the pick on the giving side if the team is giving, else on the receiving side if it is receiving; otherwise nothing changes |
| LiveDraftPage.LiveDraft.ExecuteTrade | client/src/pages/LiveDraft.tsx:339-380 | Executes exactly when both teams are set and non-zero and both sides are non-empty; otherwise nothing changes; when executed, from-side picks go to the to team and to-side picks to the from team, and the dialog closes and resets |
| LiveDraftPage.LiveDraft.DisplayTradedPicks | client/src/pages/LiveDraft.tsx:435-449 | The map the board shows: the made trades, plus the open dialog's tentative trade when both teams are chosen |
| LiveDraftPage.LiveDraft.RoundRow | client/src/pages/LiveDraft.tsx:452-485 | One cell per team, computed from the history, the counter, the two trade maps and the dialog |
| LiveDraftPage.LiveDraft.BoardCell | client/src/pages/LiveDraft.tsx:454-483 | The cell the loop body pushes, field for field (the body of `RoundRow`'s loop, split off as its own method); what the cell means for owners, trades and the current pick is stated by `LiveDraftPage.BoardCellOwners` |
| LiveDraftPage.LiveDraft.GetDraftBoardData | client/src/pages/LiveDraft.tsx:432-489 | The board has one row per round, and each row is the round's cells |
| LiveDraftPage.LiveDraft.CollectRow | client/src/pages/LiveDraft.tsx:387-425 | Appending one row's entries extends the collection over the cells seen so far |
| LiveDraftPage.LiveDraft.GetTeamOwnedPicks | client/src/pages/LiveDraft.tsx:383-429 | The team's entries are in strictly ascending pick order; each is an undrafted board cell with its owned, traded-away, traded-for or trading-for status, and every such cell is listed |
| SleeperApi.DetermineDefaultGrade | client/src/lib/sleeperApi.ts:340-348 | Every default grade lies within the schema's 0..100 |
| SleeperApi.DefaultGradeOrder | client/src/lib/sleeperApi.ts:340-348 | QB gets 80, RB 78, WR 76, TE 72 and any other position 75, so QB > RB > WR > other > TE |
| SleeperApi.DetermineDefaultTier | client/src/lib/sleeperApi.ts:351-355 | The default tier is 3 for every position |
| SleeperApi.RookieLeIsTotalPreorder | client/src/lib/sleeperApi.ts:239-253 | The rookie comparator (position rank, then lower-cased full name) is a total preorder |
| SleeperApi.FetchRookies | client/src/lib/sleeperApi.ts:228-254 | Exactly the players with zero years of experience at QB, RB, WR or TE, each as often as fetched, sorted by position rank and then by name; rookies level on both keep their fetched order |
| SleeperApi.MapPlayers | client/src/lib/sleeperApi.ts:300-310 | One mapped player per rookie; mapped rookie i has id and order i + 1, the full name, the rookie's position, its college as school or "Unknown" when the college is empty, the position's default grade, tier 3, empty notes and its Sleeper id |
| SleeperApi.MappedRookiesPassSchema | client/src/lib/sleeperApi.ts:300-310 | Every mapped rookie passes the create schema |
| SleeperApi.FindBySleeperId | client/src/lib/sleeperApi.ts:314 | Finds the first mapped player with that Sleeper id (no earlier one has it), or None exactly when there is none |
| SleeperApi.MapPick | client/src/lib/sleeperApi.ts:314-322 | A pick gives a record exactly when its player is a mapped rookie; the record's id and pick number are the pick's number, its round and team are the pick's round and roster, and its player is that rookie |
| SleeperApi.RecordsOf | client/src/lib/sleeperApi.ts:313-324 | One record per pick, record k being the mapping of pick k |
| SleeperApi.MapDraftHistory | client/src/lib/sleeperApi.ts:313-324 | The history is never longer than the fetched picks |
| SleeperApi.DraftHistorySpec | client/src/lib/sleeperApi.ts:313-324 | Each kept record is the mapping of a fetched pick with a matching rookie, with id equal to pick number and a mapped player; every pick with a matching rookie is kept |
| SleeperApi.DraftHistoryInPickOrder | client/src/lib/sleeperApi.ts:313-324 | The history is exactly the mapping of each pick with a matching rookie, each such pick once, in the order the picks were fetched |
| SleeperApi.DroppedPickLeavesGap | client/src/lib/sleeperApi.ts:313-324 | A veteran's pick 1 followed by a rookie's pick 2 gives a history of one record, numbered 2 |
| SleeperApi.FindUser | client/src/lib/sleeperApi.ts:284 | Finds the first user with that id (no earlier user has it), or None exactly when there is none |
| SleeperApi.MapTeam | client/src/lib/sleeperApi.ts:283-294 | The team's id is the roster id and its user id the roster's owner; its name is the owner's display name when the owner is known and has one, otherwise "Team <roster id>", so never empty; its draft position is the owner's slot when the owner is known, non-empty, in the draft order and the slot is not 0, otherwise the roster id |
| SleeperApi.MapTeams | client/src/lib/sleeperApi.ts:283-297 | One team per roster, each roster's team as often as the roster, sorted by draft position, where a missing position counts as 999; teams with the same key keep the roster order |
| SleeperApi.NumberOfRounds | client/src/lib/sleeperApi.ts:331 | The draft's round count, or 4 when there is no draft or it says 0 |
| SleeperApi.MapSleeperData | client/src/lib/sleeperApi.ts:259-337 | The players are the fetched rookies mapped and numbered 1..n in rookie order; the teams are the rosters mapped under the draft's draft order (an empty order without a draft), one per roster, in draft order; before the draft starts (or with no draft) there is no history, and after it the history is the record of every pick with a matching rookie, in pick order; the round count is the draft's, or 4, and never 0 |

## Left out

- Network I/O of the Sleeper import (every fetch and the module-level players cache): the fetched users, rosters, players, draft and picks are parameters of `SleeperApi.MapSleeperData`.
- Object key order: the fetched players object's values are taken in the order of the given sequence.
- The Sleeper rookie loader of the live draft page (`loadSleeperRookies`): it works through confirm dialogs, asynchronous delete and add loops and logging.
- The live draft effect that adds the imported players through the add mutation: it is a server call. `LiveDraftPage.LiveDraft.ApplySleeperData` models the rest of that effect.
- The HTTP routes: they only wrap the store's results in status codes. The request schemas they apply are modelled in `Schema`.
- React Query, mutations, query invalidation, toasts and all rendering.
- The debounced search of the controls and the notes auto-save: both are timers.
- The header, app and board page components: these are wiring.
- The browser download at the end of the CSV export: only the CSV text is modelled.
- Locale-sensitive text:
  - `localeCompare` is modelled as lexicographic order on characters (`Text.LexLe`);
  - `toLowerCase` lower-cases ASCII letters only.
- `parseInt` prefix parsing: `Text.ParseInt` reads an optional minus sign and decimal digits and refuses anything else. Consequences:
  - text such as "12abc" counts as not a number here;
  - the tier filter keeps no one for such text;
  - the grade editor refuses such text.
- The non-numeric choices of the grade input and the tier select:
  - `AddPlayerModal.AddPlayerForm.HandleNumberChange` receives the number already parsed;
  - `AddPlayerModal.AddPlayerForm.HandleSelectChange` requires a tier text that parses, which the tier options always do (`AddPlayerModal.TierOptionsParse`). The NaN a failed parse would store is not modelled.
- Fractional numbers: grades, tiers and orders are integers, although the schema accepts any number.
- Absent orders: the store treats every falsy order alike, and the model writes "no order" as order 0.
- The in-place write of the computed order into the caller's insert record: only the stored player is modelled.
- The player's `injuryStatus` field: it is never set by the core.
- The `userId` and `avatar` fields of a page team: the model keeps a team's id and name. The import keeps the owner id but not the avatar.
- Sorting the cached player list in place during the CSV export: the export sorts a copy.
- Other page state: the selected player of the board hook, the team-name editing and the add-player modal flag of the live draft page.
- The board hook's reorder handler: it only forwards to the mutation.
- Number precision: numbers are unbounded integers in the model, while JavaScript numbers are doubles. No value in this core comes near 2^53.
- The outcome of the add request: `AddPlayerModal.AddPlayerForm.HandleSubmit` takes whether the store accepted the player as a parameter.
- `Storage.MemStorage.InitializeSampleData`: its contract states the ids and orders of the eight sample players but not their names, schools, grades, tiers or notes. Those are the literal records at server/storage.ts:34-41, built in the `Storage.Sample1` to `Storage.Sample8` methods.
- `SleeperApi.MapDraftHistory`: its own contract only bounds the length. What the history contains, and in what order, is stated by `SleeperApi.DraftHistorySpec` and `SleeperApi.DraftHistoryInPickOrder`.

## Findings

| source | as written | input that shows it | evidently intended | confidence | as-written member | corrected member |
|---|---|---|---|---|---|---|
| client/src/hooks/useDraftBoard.ts:181 | Only the notes cell has its double quotes doubled before every cell is wrapped in quotes (line 187). Name, position and school are quoted without escaping, so a quote inside them closes the cell early. | A player named `a","b` at position `c`, and a player named `a` at position `b","c`, all else equal: both export the same line | Every quoted cell has its quotes doubled (RFC 4180, section 2, rule 7), so the file reads back as the players' fields | not executed | UseDraftBoard.UnescapedCellsCollide | UseDraftBoard.EscapedCsvRoundTrip |
| client/src/hooks/useDraftBoard.ts:181 | `player.notes.replace(...)` is called on every player. The create schema leaves notes optional with no default (shared/schema.ts:42) and the store keeps the body as given (server/storage.ts:68-69), so a player created without notes has `notes` undefined and the call throws a TypeError: no file is produced. | A create request whose body has name, position, school, grade, tier and order but no notes, followed by an export | An absent note exports as an empty cell, as the notes editor already reads it (`player.notes \|\| ''`) | not executed | UseDraftBoard.CreatedWithoutNotesBreaksExport | UseDraftBoard.EscapedCsvRoundTrip |
| client/src/pages/LiveDraft.tsx:168 | After importing the league's draft history, the counter is set to history length + 1. The import drops every pick whose player is not in the rookie list (client/src/lib/sleeperApi.ts:313-324), so the kept pick numbers can exceed the length, and the next pick made on the page repeats a pick number already in the history. The board then shows the first record with that number (line 459) and hides the other. | A draft whose pick 1 took a veteran and pick 2 a rookie: the history is one record numbered 2, the counter becomes 2, and the next pick is numbered 2 again | The counter continues one past the highest imported pick number, so every pick number stays unique | not executed | LiveDraftPage.ImportThenDraftRepeatsPick | LiveDraftPage.NextPickIsNew |
| client/src/pages/LiveDraft.tsx:456 | The board finds the team of slot i with `teams.find(t => t.id === i)`, and the on-the-clock badge does the same at line 537. An imported team's id is its roster id (client/src/lib/sleeperApi.ts:288), and the import orders the teams by draft position (line 297) without renumbering them. When a league's draft order differs from its roster numbering, slot i shows the team with roster id i, not the team drafting in slot i. | Two rosters: roster 1 (Ann) with draft slot 2 and roster 2 (Bob) with draft slot 1. Bob is listed first, but slot 1 and pick 1 show Ann | Slot i shows the team whose draft position is i | not executed | LiveDraftPage.SlotShowsRosterNotDrafter | LiveDraftPage.DrafterInSlot |
