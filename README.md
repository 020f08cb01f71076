# Minesweeper engine (minesweeper-react-typescript) in Dafny

This project models the game logic of a React/TypeScript Minesweeper and
proves properties of it. The repository holds three revisions of the same
engine, and each one is modelled:

- **The latest engine, `src/hooks/useGame.ts`.** The board is a map from cell
  coordinates to fields and is changed in place. The model covers:
  - building the grid;
  - deferred mine placement that spares the first click and its neighbours;
  - the adjacency counts;
  - the worklist flood fill;
  - opening one field and revealing the mines;
  - the `openField` dispatcher.

  Modules `Board`, `Keys`, `MapBoard`, `MapFlood` and `Engine`, plus class
  `Engine.Game`.
- **The array revision with flags, `src/hooks/useMinesGame.ts`.** It is a fixed
  8 x 8 board with ten mines. The model covers the flag budget, the session
  reset and the win rule. Modules `ArrayBoard`, `ArrayFlood` and `MinesGame`,
  plus class `MinesGame.MinesGame`.
- **The oldest revision, the class component `src/components/Game/index.tsx`.**
  Mines are dealt when the board is built, with no safe zone. The bounds check
  joins its comparisons with `||`. The flood does not seed the clicked field.
  Play and pause are driven by buttons. Module `Legacy`, class
  `Legacy.LegacyGame`.
- **The session state machine, `src/hooks/useGameController.ts`.** Class
  `Controller.GameController`, which owns a settings store and an engine.
- **The difficulty presets, `src/hooks/useSettings.ts`.** Module `Presets`.
- **The per-cell decision rules, `src/components/Field/index.tsx`.** Module
  `FieldView`: when input is disabled, what a cell shows, which danger class it
  gets, and which callback a click reaches.
- **The random source, `src/utils/helpers.ts` `randomNumber`.** Module
  `Randomness`.

How the model represents the source:

- **Randomness.** `Math.random()` is replaced by a sequence of injected integer
  draws. `Randomness` models a single draw as an exact fraction k / d.
- **The map engine.** It keys its map by `Coords`. `Keys` shows that the
  source's text key `"[x,y]"` is injective, so this loses nothing.
- **Map iteration order.** It is row-major order (`Board.RowMajor`), because
  every map is filled by `generateEmptyFields`.
- **State.** Code that changes state step by step is written as methods:
  - the map is rebuilt field by field;
  - the counting loop of the array revisions works on an `array`;
  - the worklists are `while` loops;
  - the hooks and the component are classes whose fields the methods reassign.
- **Pure code.** `setState` updaters, `fields.map(...)`, the labels and the
  cell rules are functions.

Where the code differs from a plain description of the game, the model
follows the code:

- the flood opens flagged fields as well, since no revision checks the flag;
- a cell shows its count whenever `bombsAround` is non-zero;
- `generateEmptyFields` of the array revisions divides the index by
  `FieldsConstraintsY` and takes the remainder by `FieldsConstraintsX`, which
  is right only because the grid is square.

## Model

| member | source | states |
|---|---|---|
| Board.Candidates | src/hooks/useGame.ts:28-37 | the eight candidate cells are distinct and are exactly the cells touching c |
| Board.KeepInBounds | src/hooks/useGame.ts:41-44 | the filter keeps exactly the in-bounds candidates, no more than given, without duplicates |
| Board.CoordsAround | src/hooks/useGame.ts:26-47 | `findCoordsAround` gives at most 8 distinct cells: exactly the in-bounds cells at distance 1 on both axes, never c itself |
| Board.AroundSymmetric | src/hooks/useGame.ts:26-47 | for in-grid cells, b is around a exactly when a is around b |
| Board.CountInAdd | src/hooks/useGame.ts:96-105 | one more mine raises the count over a duplicate-free neighbourhood by one exactly when the mine is in it |
| Board.CountInCard | src/hooks/useGame.ts:96-105 | the count over a duplicate-free neighbourhood is the number of its cells that are mined |
| Board.RowMajor | src/hooks/useGame.ts:52-65 | the order of `generateEmptyFields`: w*h distinct cells, exactly the in-bounds ones |
| Keys.CoordsToKey | src/hooks/useGame.ts:7-9 | reading the key `"[x,y]"` back gives the coordinates |
| Keys.IntRoundTrip | src/hooks/useGame.ts:7-9 | the decimal text of any integer, sign included, parses back to it |
| Keys.CoordsToKeyInjective | src/hooks/useGame.ts:7-9 | distinct coordinates never share a key |
| Randomness.RandomNumber | src/utils/helpers.ts:4-6 | `randomNumber(min, max)` as written lies in [min, max - 1] when min < max |
| Randomness.RandomNumberMissesLastId | src/utils/helpers.ts:4-6 | `randomNumber(1, N)` never returns N |
| Randomness.RandomFieldId | src/utils/helpers.ts:4-6 | the corrected draw lies in [1, N] |
| Randomness.RandomFieldIdReachesEveryId | src/utils/helpers.ts:4-6 | the corrected draw returns every id 1..N for some value of the source, the last one included |
| Presets.FindByLevelOr | src/hooks/useSettings.ts:29 | `find(...) \|\| fallback`: the first entry of that level when one exists, else the fallback |
| Presets.GetSettingsByLevel | src/hooks/useSettings.ts:4-30 | the preset of the requested level: Beginner 16x8/40, Intermediate 16x16/40, Expert 22x22/99; each has bombsCount + 9 < fields |
| Presets.SettingsStore.constructor | src/hooks/useSettings.ts:32-33 | the initial settings are the preset of the initial level |
| Presets.SettingsStore.SetSettingsByLevel | src/hooks/useSettings.ts:35-37 | the settings become `getSettingsByLevel(level)` |
| MapBoard.IdOfInjective | src/hooks/useGame.ts:57 | distinct in-grid cells get distinct ids x + w*(y-1) |
| MapBoard.CellOfId | src/hooks/useGame.ts:57 | every id 1..w*h is the id of one in-grid cell |
| MapBoard.GenerateEmptyFields | src/hooks/useGame.ts:49-68 | one entry per in-grid cell, under its own coordinates, with its id; closed, unflagged, no mine, count 0 |
| MapBoard.EmptyBoardIds | src/hooks/useGame.ts:49-68 | the empty board has w*h entries, its ids are exactly 1..w*h, and no two entries share an id |
| MapBoard.LayoutSize | src/hooks/useGame.ts:49-68 | a board map holds w*h fields |
| MapBoard.DrawBombIds | src/hooks/useGame.ts:83-90 | the ids are the distinct non-reserved draws consumed; the loop stops at the first prefix holding bombsCount ids, or when the draws run out; it collects exactly bombsCount ids whenever the draws hold that many |
| MapBoard.DrawStopUnique | src/hooks/useGame.ts:83-90 | the draws decide where the draw loop stops |
| MapBoard.ReservedIdsCard | src/hooks/useGame.ts:75-80 | at most nine ids are reserved |
| MapBoard.LookupIdsOf | src/hooks/useGame.ts:76-79 | looking up in-grid neighbours on a board gives exactly their grid ids |
| MapBoard.IncrementAround | src/hooks/useGame.ts:97-105 | every in-grid neighbour of c counts one more mine; nothing else changes |
| MapBoard.CountStep | src/hooks/useGame.ts:96-105 | mining a new cell raises the count of exactly its neighbours, by one |
| MapBoard.VisitCell | src/hooks/useGame.ts:92-107 | one loop turn turns the staged board over the visited mines into the staged board with c added when its id is drawn |
| MapBoard.PlaceBombs | src/hooks/useGame.ts:92-107 | the loop yields the empty board with the cells of the drawn ids mined and every count taken over them |
| MapBoard.StageFinal | src/hooks/useGame.ts:92-107 | that board is a layout whose mines are the drawn cells and whose counts are all correct |
| MapBoard.MinedCellsCard | src/hooks/useGame.ts:92-94 | there are as many mined cells as drawn ids that lie in 1..w*h |
| MapBoard.BombCount | src/hooks/useGame.ts:83-94 | there are never more mines than ids, and exactly as many when every id is in range |
| MapBoard.PlacedBoard | src/hooks/useGame.ts:70-112 | the placed board: a layout with correct counts, all closed and unflagged, mined exactly at drawn ids, with the safe zone free |
| MapBoard.GenerateFieldsWithBombs | src/hooks/useGame.ts:70-112 | yields a fresh board: layout, correct counts, no mine on the first click or its neighbours, the draws consumed up to where the loop stops, at most bombsCount mines and exactly bombsCount given enough valid draws |
| MapBoard.FreshBoardDetermined | src/hooks/useGame.ts:70-112 | the same draws around the same click give the same board, so the generator's result is determined |
| MapBoard.EnoughCandidates | src/hooks/useGame.ts:83-90 | with bombsCount + 9 < w*h, draws that hit every value `randomNumber` can return leave bombsCount non-reserved candidates |
| MapBoard.OpenFieldWithBombsAround | src/hooks/useGame.ts:167-181 | the loop opens the field with the clicked id and changes nothing else |
| MapBoard.RevealCell | src/hooks/useGame.ts:185-190 | one turn opens the cell if it is mined and counts it |
| MapBoard.OpenAllBombs | src/hooks/useGame.ts:183-197 | the walk in map order visits at least the first field, opens the mines of the prefix it covers, and stops at the first prefix holding bombsCount mines |
| MapBoard.OpenAllBombsOpensEveryMine | src/hooks/useGame.ts:183-197 | with at most bombsCount mines, every mine is opened, only mines switch, and only `isOpened` changes |
| MapFlood.VisitSibling | src/hooks/useGame.ts:133-148 | one neighbour visit opens a closed sibling, pushes it only when its count is 0 and it is neither stacked nor verified, and keeps the flood invariant |
| MapFlood.OpenSibling | src/hooks/useGame.ts:137-148 | the branch of a closed sibling keeps the invariant and the queue record |
| MapFlood.VisitAt | src/hooks/useGame.ts:133-149 | after the j-th visit, the first j + 1 neighbours are open, and closed fields plus the stack length do not grow |
| MapFlood.ExpandField | src/hooks/useGame.ts:130-152 | expanding the top field opens all its in-grid neighbours and keeps the invariant; closed fields plus stack length do not grow (termination) |
| MapFlood.OpenEmptyFields | src/hooks/useGame.ts:114-165 | the clicked field is pushed first and every later push is a neighbour of an earlier one, none twice; only closed fields open; the clicked field opens; every neighbour of an expanded field is open; every opened field is the clicked one or a neighbour of an expanded one; opened zero-count fields are expanded; `opened` counts the fields switched |
| MapFlood.ChainReaches | src/hooks/useGame.ts:141-160 | every pushed cell is reached from the clicked one along neighbouring pushed cells |
| MapFlood.FloodConnected | src/hooks/useGame.ts:114-165 | the flood opens only the region connected to the click: each opened cell ends a path of neighbours from the click whose earlier cells were expanded, so they are the click or zero-count cells |
| MapFlood.FloodOpensNoMine | src/hooks/useGame.ts:114-165 | on a correctly counted board, a flood from a field with no mine on or around it opens no mine |
| Engine.GrowsValid | src/hooks/useGame.ts:121-159 | changing only `isOpened` keeps the layout, the counts and the mines |
| Engine.GrowsOpenCells | src/hooks/useGame.ts:121-162 | the open fields afterwards are those open before plus those switched |
| Engine.EmptyBoardValid | src/hooks/useGame.ts:49-68 | the empty board is a layout with correct counts and no open field |
| Engine.FreshBoardClosed | src/hooks/useGame.ts:70-112 | a fresh board has no open field |
| Engine.OpenByIdGrows | src/hooks/useGame.ts:167-181 | opening by id on a layout switches exactly the clicked cell |
| Engine.FirstClickOpensNoMine | src/hooks/useGame.ts:215-219 | the first click has no mine on or around it, so its flood opens no mine |
| Engine.SafeZoneClear | src/hooks/useGame.ts:75-107 | a clicked field whose safe zone holds no mine has count 0 and no mine |
| Engine.WinMeansAllSafeOpen | src/hooks/useGameController.ts:76-81 | with exactly bombsCount mines and no mine open, `opened + bombsCount == x*y` holds exactly when every safe field is open |
| Engine.Game.constructor | src/hooks/useGame.ts:11-15 | the hook starts with an empty map and nothing opened |
| Engine.Game.UseSettings | src/hooks/useGame.ts:11 | new settings leave the board and the counter as they were |
| Engine.Game.InitFields | src/hooks/useGame.ts:200-203 | `initFields` installs the empty board and sets `fieldsOpened` to 0 |
| Engine.Game.RevealMines | src/hooks/useGame.ts:212-214 | the mine branch reveals the mines as `openAllBombs` does, and `fieldsOpened` stays |
| Engine.Game.OpenFirst | src/hooks/useGame.ts:215-219 | the first-click branch floods a fresh board built around the click; `fieldsOpened` is the number of fields opened |
| Engine.Game.OpenEmpty | src/hooks/useGame.ts:220-222 | the zero-count branch floods the current board; `fieldsOpened` grows by `opened` |
| Engine.Game.OpenNumbered | src/hooks/useGame.ts:223-225 | the numbered branch opens only the clicked field, and `fieldsOpened` grows by 1 |
| Engine.Game.OpenField | src/hooks/useGame.ts:206-228 | through `OpenFieldEffect`: an open field changes nothing; a mine reveals mines with the counter unchanged; the first click regenerates and floods; a zero-count field floods; otherwise one field opens and the counter grows by 1; layout, counts and the counter's meaning are kept |
| Controller.GameController.constructor | src/hooks/useGameController.ts:10-63 | on mount (initial state, then the mount effect): Beginner settings, an engine for them with an empty board whose counter matches its open fields, timer 0, Idle |
| Controller.GameController.PrepareGame | src/hooks/useGameController.ts:21-25 | `prepareGame`: the empty board, `fieldsOpened` 0, timer 0, Idle |
| Controller.GameController.ContinuePlaying | src/hooks/useGameController.ts:27-29 | the state becomes Playing from any state |
| Controller.GameController.Pause | src/hooks/useGameController.ts:31-33 | the state becomes Pause from any state |
| Controller.GameController.CheckWin | src/hooks/useGameController.ts:75-81 | GameOver exactly when `fieldsOpened + bombsCount == x*y`, otherwise unchanged |
| Controller.GameController.OnFieldOpen | src/hooks/useGameController.ts:35-50 | a mine sets GameOver; else the first open sets Playing; else the state stays; `openField` always runs, with the board and counter effect `Engine.Game.OpenField` states (`OpenFieldEffect`); the win effect follows a change of `fieldsOpened` |
| Controller.GameController.SetSettingsByLevel | src/hooks/useGameController.ts:65-81 | new settings re-run `prepareGame` (empty board, timer 0), and the win effect of the same commit leaves GameOver when the counter from before the reset fills the new board, else Idle; the same preset changes nothing |
| Controller.LevelChangeCanEndGame | src/hooks/useGameController.ts:65-81 | 88 fields opened on Intermediate fit its board and fill Beginner's once its mines are added, so a level change can end the game |
| Controller.ResetNeverWins | src/hooks/useGameController.ts:76-81 | with the counter read after the reset, no preset's win rule holds |
| ArrayBoard.CoordsAtIndex | src/hooks/useMinesGame.ts:115-132 | index 0..63 maps onto the 8x8 grid, `IndexOf` inverts it, and id = index + 1 equals the map engine's id for that cell |
| ArrayBoard.IndexOfOnGrid | src/hooks/useMinesGame.ts:115-132 | every grid cell is the cell of exactly one index; the map is a bijection |
| ArrayBoard.LayoutCoversGrid | src/hooks/useMinesGame.ts:115-132 | the fields of a board and the grid cells correspond one to one |
| ArrayBoard.GenerateEmptyFields | src/hooks/useMinesGame.ts:115-132 | 64 fields, id index+1, coordinates from the index, all closed, unflagged, no mine, count 0 |
| ArrayBoard.FindIndex | src/hooks/useMinesGame.ts:22-24 | `find` gives the first field at the cell, or none when no field is there |
| ArrayBoard.FindFieldByCoords | src/hooks/useMinesGame.ts:22-24 | the field found lies at (x, y), and undefined means no field lies there |
| ArrayBoard.FindOnLayout | src/components/Game/index.tsx:81-83 | on a board the lookup finds the field at the cell's index for grid cells and nothing off the grid |
| ArrayBoard.AreCoordsInBoundaries | src/hooks/useMinesGame.ts:27-29 | true exactly on the 8x8 grid |
| ArrayBoard.AreCoordsInBoundariesOr | src/components/Game/index.tsx:88-90 | the `\|\|` check is true for every pair |
| ArrayBoard.OrBoundsAcceptOffGrid | src/components/Game/index.tsx:88-90 | (0, 0) passes the `\|\|` check but is off the grid |
| ArrayBoard.KeepOr | src/components/Game/index.tsx:144-148 | the component keeps exactly the candidates the `\|\|` check passes |
| ArrayBoard.Neighbours | src/hooks/useMinesGame.ts:31-47 | each revision's lookup cells, restricted to the grid, are exactly the in-grid neighbours |
| ArrayBoard.NeighboursFound | src/components/Game/index.tsx:144-150 | for both revisions, a looked-up cell finds a field exactly when it is an in-grid neighbour, so the `\|\|` check is harmless |
| ArrayBoard.OpenAllBombs | src/hooks/useMinesGame.ts:49-54 | isOpened' = isOpened \|\| hasBomb; nothing else changes |
| ArrayBoard.OpenAllBombsIdempotent | src/hooks/useMinesGame.ts:49-54 | applying it twice equals applying it once |
| ArrayBoard.OpenIds | src/hooks/useMinesGame.ts:96-99 | isOpened' = isOpened \|\| id in ids; nothing else changes |
| ArrayBoard.SetFlag | src/hooks/useMinesGame.ts:236-241 | hasFlag' = hasFlag \|\| id == clicked id; nothing else changes |
| ArrayBoard.DeleteFlag | src/hooks/useMinesGame.ts:250-255 | hasFlag' = hasFlag && id != clicked id; nothing else changes |
| ArrayBoard.LayoutIds | src/hooks/useMinesGame.ts:115-132 | the ids of a board are exactly 1..64 |
| ArrayBoard.OpenIdsCount | src/hooks/useMinesGame.ts:94-99 | opening closed ids adds exactly those ids to the open ones, so `opened` is the growth |
| ArrayBoard.SetFlagCount | src/hooks/useMinesGame.ts:236-243 | flagging an unflagged field adds one flagged id |
| ArrayBoard.DeleteFlagCount | src/hooks/useMinesGame.ts:250-257 | unflagging a flagged field removes one flagged id |
| ArrayBoard.FlagRoundTrip | src/hooks/useMinesGame.ts:230-260 | deleting a flag just set restores the board, and so does setting a flag just deleted |
| ArrayBoard.StagedBoard | src/hooks/useMinesGame.ts:163-172 | the staged board is a board mined exactly at the given cells, with correct counts, closed and unflagged |
| ArrayBoard.MinedCellsOf | src/hooks/useMinesGame.ts:164 | a cell is mined exactly when the id of its field is drawn |
| ArrayBoard.IncrementFound | src/hooks/useMinesGame.ts:168-170 | every field found at one of the cells counts one more mine |
| ArrayBoard.IncrementOne | src/hooks/useMinesGame.ts:170 | one `bombsAround++` on the field found at c, if any |
| ArrayBoard.CountAt | src/hooks/useMinesGame.ts:163-172 | one pass marks field i (hook) and counts its mine at its neighbours, keeping the loop invariant |
| ArrayBoard.CountBombsAround | src/hooks/useMinesGame.ts:163-172 | the loop of either revision leaves the board mined at the drawn ids with every count correct |
| ArrayBoard.CountedDone | src/components/Game/index.tsx:138-152 | at the end of the loop every field equals the staged field |
| ArrayFlood.Sibling | src/hooks/useMinesGame.ts:69-71 | the sibling found lies at n; the hook takes only closed ones; the component misses only when no field lies at n |
| ArrayFlood.VisitSibling | src/hooks/useMinesGame.ts:68-82 | one visit adds exactly the taken sibling's id to `fieldIdsToOpen` (nothing when no sibling is taken) and pushes it on the stack exactly when its count is 0 and it is neither stacked nor verified |
| ArrayFlood.ExpandField | src/hooks/useMinesGame.ts:64-83 | after the loop, every cell around the top field has been visited, and `fieldIdsToOpen` has grown by exactly the ids of the siblings taken at those cells (`TakenIds`) |
| ArrayFlood.VerifyEmptiesAround | src/hooks/useMinesGame.ts:58-92 | the flood: clicked first; each later expansion is a zero-count sibling of an earlier one and each is expanded once; every sibling of an expanded field is collected; every collected id is justified; the hook seeds the clicked id |
| ArrayFlood.AroundIsAdjacent | src/components/Game/index.tsx:92-103 | in both revisions every looked-up cell on the grid touches the field |
| ArrayFlood.ExpandedOnBoard | src/hooks/useMinesGame.ts:74-79 | every expanded field is a field of the board with count 0 |
| ArrayFlood.SiblingSafe | src/hooks/useMinesGame.ts:68-72 | a sibling of a zero-count field has no mine |
| ArrayFlood.FloodOpensNoMine | src/hooks/useMinesGame.ts:56-100 | on a correctly counted board, a flood from a field with no mine on or around it collects only mine-free ids |
| ArrayFlood.HookFloodOpensClosed | src/hooks/useMinesGame.ts:71-72 | the hook's flood from a closed field collects only closed fields |
| ArrayFlood.ComponentFloodSkipsClicked | src/components/Game/index.tsx:181-224 | on the ten-mine board with mines at (3,1), (1,3) and all of row 7, the component's flood from (1,1) does not collect the clicked id |
| MinesGame.OnBoard | src/hooks/useMinesGame.ts:115-132 | a field of a board sits at index id - 1 |
| MinesGame.SameMinesValid | src/hooks/useMinesGame.ts:49-54 | changing only open and flag marks keeps the board, the counts and the mines |
| MinesGame.SafeOpenedGrows | src/hooks/useMinesGame.ts:94-99 | opening closed mine-free ids adds exactly them to the counted fields |
| MinesGame.SafeOpenedBombs | src/hooks/useMinesGame.ts:202-205 | revealing mines leaves the counted fields unchanged |
| MinesGame.SafeOpenedFlags | src/hooks/useMinesGame.ts:230-260 | flag operations leave the counted fields unchanged |
| MinesGame.OpenKeepsFlags | src/hooks/useMinesGame.ts:49-54 | opening fields leaves the flags unchanged |
| MinesGame.FoundIdsOf | src/hooks/useMinesGame.ts:140-142 | the reserved neighbour ids are the grid ids of the in-grid neighbours |
| MinesGame.GenerateFieldsWithBombs | src/hooks/useMinesGame.ts:134-177 | a fresh board: mined at the drawn non-reserved ids, the safe zone free, counts correct, closed and unflagged, at most 10 mines and exactly 10 given enough valid draws |
| MinesGame.StagedFresh | src/hooks/useMinesGame.ts:161-174 | the staged board of the drawn ids meets everything the generator promises |
| MinesGame.MarkedSafe | src/hooks/useMinesGame.ts:143-164 | mines only on non-reserved ids keep the first click and its neighbours free |
| MinesGame.MarkedCount | src/hooks/useMinesGame.ts:146-161 | at most 10 mines, and exactly 10 when the draws hold ten non-reserved ids on the board |
| MinesGame.FreshBoardDetermined | src/hooks/useMinesGame.ts:134-177 | the same draws around the same click give the same board |
| MinesGame.FreshBoardHasTenMines | src/hooks/useMinesGame.ts:146-161 | draws that hit every id below 64 give exactly ten mines |
| MinesGame.FreshBoardSparesLastField | src/hooks/useMinesGame.ts:151 | with draws from `randomNumber(1, 64)`, the field with id 64 never gets a mine |
| MinesGame.OpenEmptyFields | src/hooks/useMinesGame.ts:56-103 | the returned fields are `OpenIds` of the collected set, and `opened` is its size |
| MinesGame.FloodCounts | src/hooks/useMinesGame.ts:56-100 | from a closed mine-free zero-count field, the clicked id is collected and the counted fields grow by exactly the collected ids |
| MinesGame.PristineOnFresh | src/hooks/useMinesGame.ts:206-212 | an untouched first click names its own field on the fresh board |
| MinesGame.SafeIdsCard | src/hooks/useMinesGame.ts:282 | a board with ten mines has 54 fields without a mine |
| MinesGame.WinMeansAllSafeOpen | src/hooks/useMinesGame.ts:281-286 | with ten mines and `fieldsOpened` counting open mine-free fields, the win rule holds exactly when every mine-free field is open |
| MinesGame.EmptyBoardValid | src/hooks/useMinesGame.ts:115-132 | the empty board has correct counts and no mine, no open field and no flag |
| MinesGame.FloodKeeps | src/hooks/useMinesGame.ts:216-220 | the flood keeps the board, the counts and the flags, and counts exactly the ids it opens |
| MinesGame.NumberKeeps | src/hooks/useMinesGame.ts:221-224 | opening a numbered field keeps the board and counts one more field |
| MinesGame.FirstOpenKeeps | src/hooks/useMinesGame.ts:206-215 | the first open yields a correct unflagged board whose counter equals the collected ids |
| MinesGame.FlagKeeps | src/hooks/useMinesGame.ts:230-260 | flag changes keep the board and the counted fields, and move the flagged count by one |
| MinesGame.MinesGame.constructor | src/hooks/useMinesGame.ts:263-265 | on mount (the `prepareGame` effect), the state is the empty board, nothing opened, timer 0, Idle, 10 free flags |
| MinesGame.MinesGame.PrepareGame | src/hooks/useMinesGame.ts:180-186 | `prepareGame`: the empty board, `fieldsOpened` 0, timer 0, Idle, `freeFlagsCount` = BombsCount |
| MinesGame.MinesGame.ContinuePlaying | src/hooks/useMinesGame.ts:188-190 | Playing from any state, nothing else changes |
| MinesGame.MinesGame.Pause | src/hooks/useMinesGame.ts:192-194 | Pause from any state, nothing else changes |
| MinesGame.MinesGame.OpenField | src/hooks/useMinesGame.ts:196-228 | an open field is a no-op; a mine gives GameOver and reveals mines; the first open gives Playing, a fresh board, the flood and `fieldsOpened := opened`; a zero-count field gives `+= opened`; otherwise one field opens and the counter grows by 1; when the counter changed, the win effect then gives GameOver once `fieldsOpened + 10 == 64`; the board, the counter and the flag balance are kept |
| MinesGame.MinesGame.SetFlag | src/hooks/useMinesGame.ts:230-246 | no-op at 0 free flags; otherwise flags the field and spends one flag; the budget stays balanced |
| MinesGame.MinesGame.DeleteFlag | src/hooks/useMinesGame.ts:248-260 | clears only the clicked field's flag and returns a flag unconditionally |
| MinesGame.MinesGame.CheckWin | src/hooks/useMinesGame.ts:281-286 | GameOver exactly when `fieldsOpened + 10 == 64`, otherwise unchanged |
| Legacy.GenerateFields | src/components/Game/index.tsx:105-155 | 64 fields, mined at the distinct drawn ids (ten when the draws hold ten), with no safe zone and correct counts; the draws consumed stop at the first prefix holding ten ids |
| Legacy.DealtBoardDetermined | src/components/Game/index.tsx:105-155 | the draws decide both the number of draws consumed and the dealt board |
| Legacy.CornerDrawsDrawable | src/utils/helpers.ts:4-6 | each of the draws 3, 17 and 49 to 56 is the value `randomNumber(1, 64)` returns for `Math.random()` = (id - 1) / 63 |
| Legacy.CornerDealt | src/components/Game/index.tsx:105-155 | the board dealt from those draws consumes all ten, mines ten fields, mines (3,1) and (1,3), and leaves the corner (1,1) closed, mine-free and with count 0 |
| Legacy.DealtFloodSkipsClicked | src/components/Game/index.tsx:181-224 | on the board `generateFields` deals from those draws, the component's flood from (1,1) does not collect the clicked id |
| Legacy.DealtStaged | src/components/Game/index.tsx:120-152 | the staged board of the drawn ids is the dealt board |
| Legacy.OpenSafeIds | src/components/Game/index.tsx:219-224 | opening mine-free ids leaves every mine closed |
| Legacy.ClickOpensNoMine | src/components/Game/index.tsx:180-232 | a click on a mine-free field opens no mine |
| Legacy.OpenEmpties | src/components/Game/index.tsx:180-224 | the zero-count branch opens exactly the collected ids |
| Legacy.ClickedFields | src/components/Game/index.tsx:170-233 | a mine reveals mines; a zero-count field floods; otherwise only the clicked field opens; counts and flags are kept |
| Legacy.LegacyGame.constructor | src/components/Game/index.tsx:18-23 | the initial state is a dealt board, timer 0, Idle, 10 free flags |
| Legacy.LegacyGame.PlayButtonLabel | src/components/Game/index.tsx:27-34 | "Play" exactly when Idle, "Play again" otherwise |
| Legacy.LegacyGame.PauseButtonLabel | src/components/Game/index.tsx:36-43 | "Continue" exactly when paused, "Pause" otherwise |
| Legacy.LegacyGame.Play | src/components/Game/index.tsx:45-56 | a new board when asked, timer 0, Playing, `freeFlagsCount` = BombsCount |
| Legacy.LegacyGame.Continue | src/components/Game/index.tsx:58-63 | Playing, nothing else changes |
| Legacy.LegacyGame.Pause | src/components/Game/index.tsx:65-70 | Pause, nothing else changes |
| Legacy.LegacyGame.HandlePlayButtonClick | src/components/Game/index.tsx:157-160 | a new board exactly when GameOver or Pause; then Playing, timer 0, 10 flags |
| Legacy.LegacyGame.HandlePauseButtonClick | src/components/Game/index.tsx:162-168 | Pause becomes Playing, anything else becomes Pause |
| Legacy.LegacyGame.HandleFieldClick | src/components/Game/index.tsx:170-233 | a mine gives GameOver and reveals mines; a zero-count field floods without seeding itself; otherwise one field opens; no mine opens on a safe click |
| Legacy.LegacyGame.HandleSetFlag | src/components/Game/index.tsx:235-247 | no-op at 0 free flags; otherwise flags the field and spends one flag |
| Legacy.LegacyGame.HandleDeleteFlag | src/components/Game/index.tsx:249-257 | clears the field's flag and returns a flag |
| Legacy.LegacyGame.ClickCell | src/components/Game/index.tsx:259-270 | through the cell's rules, a flagged field is never opened, nothing changes when no action is chosen, and the flag budget stays balanced |
| Legacy.UnflaggedBoard | src/components/Game/index.tsx:126-134 | a dealt board has no flag |
| FieldView.IsDisabled | src/components/Field/index.tsx:16 | disabled exactly when Pause or GameOver |
| FieldView.LabelOf | src/components/Field/index.tsx:17-27 | the mine glyph exactly for an open mine; the number exactly for an open mine-free field with a non-zero count; the flag exactly for a closed flagged field; otherwise blank |
| FieldView.ClosedLabelHidesContents | src/components/Field/index.tsx:17-27 | a closed cell's label depends only on its flag |
| FieldView.OneDangerClass | src/components/Field/index.tsx:29-39 | an open field with count k >= 1 gets exactly class min(k, 6); any other field gets none |
| FieldView.HandleClick | src/components/Field/index.tsx:42-46 | a left click opens exactly an unflagged field |
| FieldView.HandleContextMenuClick | src/components/Field/index.tsx:48-59 | only while Playing: a flagged field loses its flag, an unflagged one gets one |
| FieldView.Dispatch | src/components/Field/index.tsx:61-65 | a flagged field is never opened; nothing happens while disabled; flags change only while Playing, in the right direction |

## Left out

- Timers: `useInterval`, `setInterval`/`clearInterval` and `tick`. Each `timer` is a field that the operations reset or keep, and it never advances. The reason is that this is time and effect cleanup, not board logic.
- `formatSeconds`, `formattedTimer` and the `alert` on a win. They are UI and foreign calls.
- The debug `cycles` counter and `console.log` in src/hooks/useGame.ts. They are instrumentation only.
- `Math.random`, which is floating point. It is replaced by injected integer draws. A placement loop that would keep drawing stops when the draws run out. That bound stands in for the fairness the source relies on to terminate. The exact mine count is therefore stated under "the draws hold enough non-reserved ids".
- React rendering and plumbing:
  - `render`, `renderFields`, the CSS classes as strings, `classnames`;
  - the Settings, Statistics, Panel and App components, and src/index.tsx;
  - `useState` batching, effect scheduling and stale closures.

  Each operation runs at once on the current state. The effects that follow an operation are part of the method that triggers them: `OnFieldOpen` runs the win check after `openField`; the `useMinesGame` hook's `OpenField` runs its own win check (`CheckWin`) when `fieldsOpened` changed; and `SetSettingsByLevel` runs `prepareGame` and then the win check with the counter of the render before the reset.
- `setFields(new Map(fields))` in src/hooks/useGame.ts. The copy and the aliasing between the old and the new map are not modelled, because the model replaces map values.
- Engine.Game.OpenField: `fieldsOpened` is shown to count the open fields only when the clicked record is the board's own field. A stale copy handed in by a caller can make the source count a field twice.
- Controller.GameController.OnFieldOpen: the same condition on the clicked record applies to the counter.
- MinesGame.MinesGame.OpenField: the flag balance is kept only when no flag was set before the first open. The first open regenerates a board without flags, while the flags already spent stay spent.
- The tail calls of `verifyEmptiesAround` and `generateRandomBombs` are written as `while` loops. They are calls in tail position, so the order of steps is the same.

## Findings

| source | as written | input that shows it | evidently intended | confidence | as-written member | corrected member |
|---|---|---|---|---|---|---|
| src/utils/helpers.ts:4-6 | `Math.floor(Math.random() * (max - min)) + min` with every caller passing max = number of fields | any value of `Math.random()` in [0, 1): `randomNumber(1, 64)` is at most 63, so field 64 (the last cell) never gets a mine | a draw in [1, max] that reaches every field id | not executed | Randomness.RandomNumberMissesLastId | Randomness.RandomFieldIdReachesEveryId |
| src/components/Game/index.tsx:88-90 | `x >= 1 \|\| x <= 8 \|\| y >= 1 \|\| y <= 8` | (0, 0) passes | both coordinates inside 1..8, joined with `&&` | not executed; harmless as the lookup then finds no field | ArrayBoard.OrBoundsAcceptOffGrid | ArrayBoard.NeighboursFound |
| src/hooks/useGameController.ts:65-81 | the win effect depends on `[fieldsOpened, settings]`, so it also runs in the commit of a settings change, where `fieldsOpened` is still the value from before `prepareGame` | 88 fields opened on Intermediate, then a switch to Beginner (16 x 8, 40 mines): 88 + 40 == 128, so the game alerts a win and ends GameOver instead of Idle | the win check only on the reset counter, which no preset's win rule accepts | not executed | Controller.LevelChangeCanEndGame | Controller.ResetNeverWins |
| src/components/Game/index.tsx:181-224 | `fieldIdsToOpen` starts empty, so the clicked field opens only when a zero-count neighbour adds it back | draws 3, 17, 49, ..., 56, each a value of `randomNumber(1, 64)`, deal ten mines, at (3,1), (1,3) and the eight fields of row 7; click on (1,1): its count is 0 but every neighbour counts a mine, so nothing collects id 1 and the clicked field stays closed | the clicked id seeded, as in the later revision | not executed | Legacy.DealtFloodSkipsClicked | MinesGame.FloodCounts |
