/** The hook of src/hooks/useMinesGame.ts: the fixed 8 x 8 game with ten mines,
    its board generator that keeps the first click and its neighbours free of
    mines, and the state the hook keeps in `useState` (fields, fieldsOpened,
    timer, gameState, freeFlagsCount) with the operations it returns. */
module MinesGame {
  import opened Board
  import opened ArrayBoard
  import opened ArrayFlood
  import MapBoard

  // Fields and ids

  /** The ids of the mined fields. */
  function MineIds(fs: seq<Field>): set<int> {
    set i | 0 <= i < |fs| && fs[i].hasBomb :: fs[i].id
  }

  /** The ids of the fields without a mine. */
  function SafeIds(fs: seq<Field>): set<int> {
    set i | 0 <= i < |fs| && !fs[i].hasBomb :: fs[i].id
  }

  /** The ids of the open fields without a mine, the fields `fieldsOpened` counts. */
  function SafeOpenedIds(fs: seq<Field>): set<int> {
    set i | 0 <= i < |fs| && fs[i].isOpened && !fs[i].hasBomb :: fs[i].id
  }

  /** A field of a board sits at the index its id gives. */
  lemma OnBoard(fs: seq<Field>, f: Field)
    requires ArrayLayout(fs) && f in fs
    ensures 1 <= f.id <= FieldsCount && fs[f.id - 1] == f
  {
    var i :| 0 <= i < |fs| && fs[i] == f;
  }

  /** r keeps the mines, counts, ids and cells of fs; only open and flag marks
      may differ. */
  ghost predicate SameMines(fs: seq<Field>, r: seq<Field>) {
    |r| == |fs| &&
    forall i :: 0 <= i < |r| ==> r[i].(isOpened := fs[i].isOpened, hasFlag := fs[i].hasFlag) == fs[i]
  }

  /** Changing open and flag marks keeps a board a board with right counts. */
  lemma SameMinesValid(fs: seq<Field>, r: seq<Field>)
    requires SameMines(fs, r) && ArrayLayout(fs) && CountsCorrect(fs)
    ensures ArrayLayout(r) && CountsCorrect(r) && MineIds(r) == MineIds(fs)
  {
    assert forall i :: 0 <= i < |r| ==>
      (r[i].id == fs[i].id && r[i].coords == fs[i].coords && r[i].hasBomb == fs[i].hasBomb && r[i].bombsAround == fs[i].bombsAround);
    assert MineCoords(r) == MineCoords(fs);
    forall i | 0 <= i < |r|
      ensures CountedRight(r, i)
    {
      assert CountedRight(fs, i);
    }
  }

  /** Opening ids that belong to closed fields without a mine adds exactly those
      ids to the ones `fieldsOpened` counts. */
  lemma SafeOpenedGrows(fs: seq<Field>, ids: set<int>)
    requires ArrayLayout(fs)
    requires forall v :: v in ids ==> 1 <= v <= FieldsCount && !fs[v - 1].isOpened && !fs[v - 1].hasBomb
    ensures SafeOpenedIds(OpenIds(fs, ids)) == SafeOpenedIds(fs) + ids
    ensures |SafeOpenedIds(OpenIds(fs, ids))| == |SafeOpenedIds(fs)| + |ids|
  {
    var r := OpenIds(fs, ids);
    forall v | v in ids
      ensures v in SafeOpenedIds(r)
    {
      assert r[v - 1].id == v && r[v - 1].isOpened && !r[v - 1].hasBomb;
    }
    forall i | 0 <= i < |fs| && fs[i].isOpened
      ensures fs[i].id !in ids
    {
      assert fs[i].id - 1 == i;
    }
    assert SafeOpenedIds(fs) * ids == {};
  }

  /** Opening every mine leaves the ids `fieldsOpened` counts as they were. */
  lemma SafeOpenedBombs(fs: seq<Field>)
    ensures SafeOpenedIds(OpenAllBombs(fs)) == SafeOpenedIds(fs)
  {
    var r := OpenAllBombs(fs);
    assert forall i :: 0 <= i < |fs| ==> r[i].hasBomb == fs[i].hasBomb && r[i].id == fs[i].id;
  }

  /** Setting or deleting a flag leaves the open fields as they were. */
  lemma SafeOpenedFlags(fs: seq<Field>, id: int)
    ensures SafeOpenedIds(SetFlag(fs, id)) == SafeOpenedIds(fs)
    ensures SafeOpenedIds(DeleteFlag(fs, id)) == SafeOpenedIds(fs)
  {
    var r := SetFlag(fs, id);
    assert forall i :: 0 <= i < |fs| ==> r[i].hasBomb == fs[i].hasBomb && r[i].id == fs[i].id && r[i].isOpened == fs[i].isOpened;
    var d := DeleteFlag(fs, id);
    assert forall i :: 0 <= i < |fs| ==> d[i].hasBomb == fs[i].hasBomb && d[i].id == fs[i].id && d[i].isOpened == fs[i].isOpened;
  }

  /** Opening fields leaves the flags as they were. */
  lemma OpenKeepsFlags(fs: seq<Field>, ids: set<int>)
    ensures FlaggedIds(OpenIds(fs, ids)) == FlaggedIds(fs)
    ensures FlaggedIds(OpenAllBombs(fs)) == FlaggedIds(fs)
  {
    var r := OpenIds(fs, ids);
    assert forall i :: 0 <= i < |fs| ==> r[i].hasFlag == fs[i].hasFlag && r[i].id == fs[i].id;
    var b := OpenAllBombs(fs);
    assert forall i :: 0 <= i < |fs| ==> b[i].hasFlag == fs[i].hasFlag && b[i].id == fs[i].id;
  }

  // The board generator

  /** `findCoordsAround(x, y).map(([x, y]) => findFieldByCoords(fields, x, y)?.id)`,
      as the set of the ids found. */
  function FoundIds(fs: seq<Field>, cs: seq<Coords>): set<int> {
    if cs == [] then {}
    else
      var last := cs[|cs| - 1];
      FoundIds(fs, cs[..|cs| - 1]) +
        (match FindFieldByCoords(fs, last.x, last.y) case Some(f) => {f.id} case None => {})
  }

  /** On a board, the ids found for in-grid cells are the ids of those cells. */
  lemma {:induction false} FoundIdsOf(fs: seq<Field>, cs: seq<Coords>)
    requires ArrayLayout(fs) && forall n :: n in cs ==> OnGrid(n)
    ensures FoundIds(fs, cs) == MapBoard.IdsOf(FieldsConstraintsX, cs)
  {
    if cs != [] {
      var last := cs[|cs| - 1];
      assert forall n :: n in cs[..|cs| - 1] ==> n in cs;
      FoundIdsOf(fs, cs[..|cs| - 1]);
      FindOnLayout(fs, last);
      IndexOfOnGrid(last);
    }
  }

  /** The reserved ids of `generateFieldsWithBombs`: the first clicked id and the
      ids of the cells around it. */
  function Reserved(first: Field): set<int> {
    MapBoard.ReservedIds(FieldsConstraintsX, FieldsConstraintsY, first)
  }

  /** No mine on the first clicked field or on a cell around it. */
  ghost predicate SafeZone(first: Field, fs: seq<Field>) {
    forall i :: 0 <= i < |fs| && fs[i].hasBomb ==>
      fs[i].id != first.id && fs[i].coords !in CoordsAround(FieldsConstraintsX, FieldsConstraintsY, first.coords)
  }

  /** The board `generateFieldsWithBombs(first)` builds from the first `used`
      draws: every field closed and unflagged; the mined fields are those whose
      id was drawn and is not reserved; none lies in the safe zone; every count
      is right; the draws consumed are those up to where the loop stops; at
      most ten mines, and exactly ten when the draws are ids of the board and
      hold ten non-reserved ones. */
  ghost predicate FreshBoard(first: Field, draws: seq<int>, used: nat, fs: seq<Field>) {
    ArrayLayout(fs) && CountsCorrect(fs) &&
    (forall i :: 0 <= i < |fs| ==> !fs[i].isOpened && !fs[i].hasFlag) &&
    MapBoard.DrawStop(draws, used, Reserved(first), BombsCount) &&
    (forall i :: 0 <= i < |fs| ==> (fs[i].hasBomb <==> fs[i].id in MapBoard.NonReserved(draws[..used], Reserved(first)))) &&
    SafeZone(first, fs) &&
    |MineIds(fs)| <= BombsCount &&
    (((forall d :: d in draws ==> 1 <= d <= FieldsCount) &&
      |MapBoard.NonReserved(draws, Reserved(first))| >= BombsCount) ==> |MineIds(fs)| == BombsCount)
  }

  /** The draws decide the fresh board: two boards built from the same draws
      around the same click are the same board. */
  lemma FreshBoardDetermined(first: Field, draws: seq<int>, u1: nat, fs1: seq<Field>, u2: nat, fs2: seq<Field>)
    requires FreshBoard(first, draws, u1, fs1) && FreshBoard(first, draws, u2, fs2)
    ensures u1 == u2 && fs1 == fs2
  {
    MapBoard.DrawStopUnique(draws, u1, u2, Reserved(first), BombsCount);
    SameMinesSameBoard(fs1, fs2, MapBoard.NonReserved(draws[..u1], Reserved(first)));
  }

  /** Two closed, unflagged, correctly counted boards that mine the same ids
      are equal. */
  lemma SameMinesSameBoard(fs1: seq<Field>, fs2: seq<Field>, ids: set<int>)
    requires ArrayLayout(fs1) && CountsCorrect(fs1) && ArrayLayout(fs2) && CountsCorrect(fs2)
    requires forall i :: 0 <= i < |fs1| ==> !fs1[i].isOpened && !fs1[i].hasFlag && (fs1[i].hasBomb <==> fs1[i].id in ids)
    requires forall i :: 0 <= i < |fs2| ==> !fs2[i].isOpened && !fs2[i].hasFlag && (fs2[i].hasBomb <==> fs2[i].id in ids)
    ensures fs1 == fs2
  {
    assert MineCoords(fs1) == MineCoords(fs2) by {
      forall c | c in MineCoords(fs1)
        ensures c in MineCoords(fs2)
      {
        var i :| 0 <= i < |fs1| && fs1[i].hasBomb && fs1[i].coords == c;
        assert fs2[i].hasBomb && fs2[i].coords == c;
      }
      forall c | c in MineCoords(fs2)
        ensures c in MineCoords(fs1)
      {
        var i :| 0 <= i < |fs2| && fs2[i].hasBomb && fs2[i].coords == c;
        assert fs1[i].hasBomb && fs1[i].coords == c;
      }
    }
    forall i | 0 <= i < |fs1|
      ensures fs1[i] == fs2[i]
    {
      assert CountedRight(fs1, i) && CountedRight(fs2, i);
    }
  }

  /** `generateFieldsWithBombs(firstClicked)`: an empty board, the reserved ids
      of the first click, the recursive draws (`Math.random` replaced by the
      draws, `used` of them consumed) and the loop that marks and counts the
      mines. */
  method GenerateFieldsWithBombs(first: Field, draws: seq<int>) returns (fs: seq<Field>, ghost used: nat)
    ensures FreshBoard(first, draws, used, fs)
  {
    var empty := GenerateEmptyFields();
    var around := CoordsAround(FieldsConstraintsX, FieldsConstraintsY, first.coords);
    var reservedIds := {first.id} + FoundIds(empty, around);
    FoundIdsOf(empty, around);
    var bombIds, u := MapBoard.DrawBombIds(reservedIds, BombsCount, draws);
    used := u;
    var a := new Field[FieldsCount](i requires 0 <= i < FieldsCount => empty[i]);
    assert forall j :: 0 <= j < FieldsCount ==> a[j] == EmptyFieldAt(j).(hasBomb := false);
    CountBombsAround(MinesHook, a, bombIds);
    fs := a[..];
    StagedFresh(first, draws, used, bombIds);
  }

  /** The staged board of the drawn ids is the board the generator promises. */
  lemma StagedFresh(first: Field, draws: seq<int>, used: nat, bombIds: set<int>)
    requires MapBoard.DrawStop(draws, used, Reserved(first), BombsCount)
    requires bombIds == MapBoard.NonReserved(draws[..used], Reserved(first))
    ensures FreshBoard(first, draws, used, Staged(MinedCells(bombIds)))
  {
    var fs := Staged(MinedCells(bombIds));
    StagedBoard(MinedCells(bombIds));
    StagedMarks(bombIds, fs);
    MarkedSafe(first, bombIds, fs);
    MarkedCount(Reserved(first), draws, used, bombIds, fs);
  }

  /** On the staged board of some ids, the mined fields are those with one of the ids. */
  lemma StagedMarks(bombIds: set<int>, fs: seq<Field>)
    requires fs == Staged(MinedCells(bombIds))
    ensures |fs| == FieldsCount
    ensures forall i :: 0 <= i < |fs| ==> fs[i].id == i + 1 && fs[i].coords == CoordsAt(i)
    ensures forall i :: 0 <= i < |fs| ==> (fs[i].hasBomb <==> fs[i].id in bombIds)
  {
    forall i | 0 <= i < |fs|
      ensures fs[i].id == i + 1 && fs[i].coords == CoordsAt(i)
      ensures fs[i].hasBomb <==> fs[i].id in bombIds
    {
      StagedAt(bombIds, i);
    }
  }

  lemma StagedAt(bombIds: set<int>, i: int)
    requires 0 <= i < FieldsCount
    ensures Staged(MinedCells(bombIds))[i].id == i + 1
    ensures Staged(MinedCells(bombIds))[i].coords == CoordsAt(i)
    ensures Staged(MinedCells(bombIds))[i].hasBomb <==> i + 1 in bombIds
  {
    MinedCellAt(bombIds, i);
  }

  /** Mines only on ids outside the reserved ones keep the safe zone free. */
  lemma MarkedSafe(first: Field, bombIds: set<int>, fs: seq<Field>)
    requires bombIds * Reserved(first) == {}
    requires forall i :: 0 <= i < |fs| ==> fs[i].id == i + 1 && fs[i].coords == CoordsAt(i)
    requires forall i :: 0 <= i < |fs| ==> (fs[i].hasBomb <==> fs[i].id in bombIds)
    requires |fs| == FieldsCount
    ensures SafeZone(first, fs)
  {
    forall i | 0 <= i < |fs| && fs[i].hasBomb
      ensures fs[i].id != first.id && fs[i].coords !in CoordsAround(FieldsConstraintsX, FieldsConstraintsY, first.coords)
    {
      MarkedSafeAt(first, bombIds, i);
    }
  }

  lemma MarkedSafeAt(first: Field, bombIds: set<int>, i: int)
    requires bombIds * Reserved(first) == {} && 0 <= i < FieldsCount && i + 1 in bombIds
    ensures i + 1 != first.id && CoordsAt(i) !in CoordsAround(FieldsConstraintsX, FieldsConstraintsY, first.coords)
  {
    CoordsAtIndex(i);
    assert i + 1 !in Reserved(first);
  }

  /** At most ten mines, and exactly ten when the draws are ids of the board and
      hold ten ids outside the reserved ones. */
  lemma MarkedCount(reserved: set<int>, draws: seq<int>, used: nat, bombIds: set<int>, fs: seq<Field>)
    requires used <= |draws| && bombIds == MapBoard.NonReserved(draws[..used], reserved)
    requires |bombIds| <= BombsCount && (|bombIds| < BombsCount ==> used == |draws|)
    requires |fs| == FieldsCount
    requires forall i :: 0 <= i < |fs| ==> fs[i].id == i + 1
    requires forall i :: 0 <= i < |fs| ==> (fs[i].hasBomb <==> fs[i].id in bombIds)
    ensures |MineIds(fs)| <= BombsCount
    ensures ((forall d :: d in draws ==> 1 <= d <= FieldsCount) &&
             |MapBoard.NonReserved(draws, reserved)| >= BombsCount) ==> |MineIds(fs)| == BombsCount
  {
    assert MineIds(fs) <= bombIds;
    MapBoard.SubsetCard(MineIds(fs), bombIds);
    if (forall d :: d in draws ==> 1 <= d <= FieldsCount) &&
       |MapBoard.NonReserved(draws, reserved)| >= BombsCount {
      forall v | v in bombIds
        ensures v in MineIds(fs)
      {
        assert v in draws[..used];
        var k :| 0 <= k < used && draws[..used][k] == v;
        assert draws[k] in draws;
        assert fs[v - 1].id == v;
      }
      assert MineIds(fs) == bombIds;
      if used == |draws| {
        assert draws[..used] == draws;
      }
    }
  }

  /** Draws that hit every id below 64 and stay on the board give the fresh
      board exactly ten mines. */
  lemma FreshBoardHasTenMines(first: Field, draws: seq<int>, used: nat, fs: seq<Field>)
    requires FreshBoard(first, draws, used, fs)
    requires forall d :: d in draws ==> 1 <= d <= FieldsCount
    requires forall k :: 1 <= k < FieldsCount ==> k in draws
    ensures |MineIds(fs)| == BombsCount
  {
    MapBoard.EnoughCandidates(FieldsConstraintsX, FieldsConstraintsY, BombsCount, first, draws);
  }

  /** With the draws `randomNumber(1, FieldsCount)` can give, all below 64, the
      last field never receives a mine. */
  lemma FreshBoardSparesLastField(first: Field, draws: seq<int>, used: nat, fs: seq<Field>)
    requires FreshBoard(first, draws, used, fs)
    requires forall d :: d in draws ==> d < FieldsCount
    ensures !fs[FieldsCount - 1].hasBomb
  {
    assert fs[FieldsCount - 1].id == FieldsCount;
    forall d | d in draws[..used]
      ensures d < FieldsCount
    {
      var k :| 0 <= k < used && draws[..used][k] == d;
      assert draws[k] in draws;
    }
  }

  // Opening fields

  /** `openEmptyFields(clickedField, fields)`: the flood collects the ids to
      open; `opened` (here openedCount) is their number and the fields come back with those opened. */
  method OpenEmptyFields(clicked: Field, fs: seq<Field>)
    returns (openedCount: int, r: seq<Field>, ghost toOpen: set<int>, ghost pushes: seq<Field>)
    ensures Flooded(MinesHook, Around(MinesHook), fs, clicked, toOpen, pushes)
    ensures openedCount == |toOpen| && r == OpenIds(fs, toOpen)
  {
    var fieldIdsToOpen;
    fieldIdsToOpen, pushes := VerifyEmptiesAround(MinesHook, Around(MinesHook), fs, clicked);
    toOpen := fieldIdsToOpen;
    openedCount := |fieldIdsToOpen|;
    r := OpenIds(fs, fieldIdsToOpen);
  }

  /** Flooding from a closed field of the board with no mine around opens only
      closed fields without a mine: the counted ids grow by exactly the ids
      collected, the clicked one among them. */
  lemma FloodCounts(fs: seq<Field>, clicked: Field, toOpen: set<int>, pushes: seq<Field>)
    requires ArrayLayout(fs) && CountsCorrect(fs)
    requires clicked in fs && !clicked.isOpened && !clicked.hasBomb && clicked.bombsAround == 0
    requires Flooded(MinesHook, Around(MinesHook), fs, clicked, toOpen, pushes)
    ensures clicked.id in toOpen
    ensures SafeOpenedIds(OpenIds(fs, toOpen)) == SafeOpenedIds(fs) + toOpen
    ensures |SafeOpenedIds(OpenIds(fs, toOpen))| == |SafeOpenedIds(fs)| + |toOpen|
  {
    AroundIsAdjacent(MinesHook);
    FloodOpensNoMine(MinesHook, Around(MinesHook), fs, clicked, toOpen, pushes);
    HookFloodOpensClosed(Around(MinesHook), fs, clicked, toOpen, pushes);
    SafeOpenedGrows(fs, toOpen);
  }

  /** A field no click has touched yet: closed, unflagged, no mine, count 0, at
      the index its id gives. */
  predicate Pristine(f: Field) {
    1 <= f.id <= FieldsCount && f == EmptyFieldAt(f.id - 1)
  }

  /** An untouched first click finds its own field on the fresh board: the safe
      zone leaves it with no mine and nothing to count. */
  lemma PristineOnFresh(first: Field, draws: seq<int>, used: nat, fs: seq<Field>)
    requires FreshBoard(first, draws, used, fs) && Pristine(first)
    ensures first in fs && fs[first.id - 1] == first
  {
    var i := first.id - 1;
    var around := CoordsAround(FieldsConstraintsX, FieldsConstraintsY, first.coords);
    CountInNone(around, MineCoords(fs));
    assert CountedRight(fs, i);
  }

  /** On a board with ten mines, 54 fields have no mine. */
  lemma SafeIdsCard(fs: seq<Field>)
    requires ArrayLayout(fs) && |MineIds(fs)| == BombsCount
    ensures |SafeIds(fs)| == FieldsCount - BombsCount
  {
    SafeIdsCardOf(fs);
  }

  /** Over fields numbered 1 to n, the safe and the mined ids split the n ids. */
  lemma SafeIdsCardOf(fs: seq<Field>)
    requires forall i :: 0 <= i < |fs| ==> fs[i].id == i + 1
    ensures |SafeIds(fs)| + |MineIds(fs)| == |fs|
  {
    var all := MapBoard.UpTo(|fs|);
    forall v | v in all
      ensures v in SafeIds(fs) + MineIds(fs)
    {
      assert fs[v - 1].id == v;
    }
    forall i, j | 0 <= i < |fs| && 0 <= j < |fs| && !fs[i].hasBomb && fs[j].hasBomb
      ensures fs[i].id != fs[j].id
    {
    }
    assert SafeIds(fs) * MineIds(fs) == {};
    assert SafeIds(fs) + MineIds(fs) == all;
  }

  /** The win rule `fieldsOpened + BombsCount === FieldsCount` holds exactly when
      every field without a mine is open, on a board with ten mines whose open
      mine-free fields `fieldsOpened` counts. */
  lemma WinMeansAllSafeOpen(fs: seq<Field>, fieldsOpened: int)
    requires ArrayLayout(fs) && |MineIds(fs)| == BombsCount && fieldsOpened == |SafeOpenedIds(fs)|
    ensures fieldsOpened + BombsCount == FieldsCount <==>
      forall i :: 0 <= i < |fs| && !fs[i].hasBomb ==> fs[i].isOpened
  {
    SafeIdsCard(fs);
    assert SafeOpenedIds(fs) <= SafeIds(fs);
    if forall i :: 0 <= i < |fs| && !fs[i].hasBomb ==> fs[i].isOpened {
      forall i | 0 <= i < |fs| && !fs[i].hasBomb
        ensures fs[i].id in SafeOpenedIds(fs)
      {
      }
      assert SafeIds(fs) == SafeOpenedIds(fs);
    } else {
      var i :| 0 <= i < |fs| && !fs[i].hasBomb && !fs[i].isOpened;
      assert fs[i].id !in SafeOpenedIds(fs);
      assert fs[i].id in SafeIds(fs);
      assert SafeOpenedIds(fs) <= SafeIds(fs) - {fs[i].id};
      MapBoard.SubsetCard(SafeOpenedIds(fs), SafeIds(fs) - {fs[i].id});
    }
  }

  /** The empty board is a board with no mine, no open field and no flag. */
  lemma EmptyBoardValid()
    ensures ArrayLayout(GenerateEmptyFields()) && CountsCorrect(GenerateEmptyFields())
    ensures SafeOpenedIds(GenerateEmptyFields()) == {} && FlaggedIds(GenerateEmptyFields()) == {}
    ensures MineIds(GenerateEmptyFields()) == {}
  {
    var fs := GenerateEmptyFields();
    assert MineCoords(fs) == {};
    forall i | 0 <= i < |fs|
      ensures CountedRight(fs, i)
    {
      CountInNone(CoordsAround(FieldsConstraintsX, FieldsConstraintsY, fs[i].coords), {});
    }
  }

  /** The state of the hook. */
  class MinesGame {
    var fields: seq<Field>
    var fieldsOpened: int
    var timer: int
    var gameState: GameState
    var freeFlagsCount: int

    /** The fields form a board whose counts are right. */
    ghost predicate Valid()
      reads this
    {
      ArrayLayout(fields) && CountsCorrect(fields)
    }

    /** `fieldsOpened` is the number of open fields without a mine. */
    ghost predicate Counted()
      reads this
    {
      fieldsOpened == |SafeOpenedIds(fields)|
    }

    /** Every spent flag lies on a field. */
    ghost predicate FlagsBalanced()
      reads this
    {
      freeFlagsCount + |FlaggedIds(fields)| == BombsCount
    }

    /** The win rule of the win effect. */
    function Won(): bool
      reads this
    {
      fieldsOpened + BombsCount == FieldsCount
    }

    /** Mounting: the `useState` initial values, then the mount effect
        `prepareGame()`. */
    constructor()
      ensures fields == GenerateEmptyFields() && fieldsOpened == 0 && timer == 0
      ensures gameState == Idle && freeFlagsCount == BombsCount
      ensures Valid() && Counted() && FlagsBalanced()
    {
      fields := [];
      fieldsOpened := 0;
      timer := 0;
      gameState := Idle;
      freeFlagsCount := BombsCount;
      new;
      PrepareGame();
    }

    /** `prepareGame`: an empty board, nothing opened, timer 0, Idle, ten free
        flags. */
    method PrepareGame()
      modifies this
      ensures fields == GenerateEmptyFields() && fieldsOpened == 0 && timer == 0
      ensures gameState == Idle && freeFlagsCount == BombsCount
      ensures Valid() && Counted() && FlagsBalanced()
    {
      fields := GenerateEmptyFields();
      fieldsOpened := 0;
      timer := 0;
      gameState := Idle;
      freeFlagsCount := BombsCount;
      EmptyBoardValid();
    }

    /** `continuePlaying`: Playing, whatever the state was. */
    method ContinuePlaying()
      modifies this
      ensures gameState == Playing
      ensures fields == old(fields) && fieldsOpened == old(fieldsOpened) && timer == old(timer)
      ensures freeFlagsCount == old(freeFlagsCount)
    {
      gameState := Playing;
    }

    /** `pause`: Pause, whatever the state was. */
    method Pause()
      modifies this
      ensures gameState == GameState.Pause
      ensures fields == old(fields) && fieldsOpened == old(fieldsOpened) && timer == old(timer)
      ensures freeFlagsCount == old(freeFlagsCount)
    {
      gameState := GameState.Pause;
    }

    /** `openField(clickedField)`: an open field changes nothing; a mine ends
        the game and shows every mine; the first open starts the game on a
        fresh board generated around the clicked field and floods from it; a
        field with no mine around floods; any other field opens alone. A
        change of `fieldsOpened` then runs the win effect (`CheckWin`). The
        board, draws, ids and queued fields of the flood come back as ghosts. */
    method OpenField(clicked: Field, draws: seq<int>)
      returns (ghost board: seq<Field>, ghost used: nat, ghost toOpen: set<int>, ghost pushes: seq<Field>)
      modifies this
      ensures timer == old(timer) && freeFlagsCount == old(freeFlagsCount)
      ensures clicked.isOpened ==>
        fields == old(fields) && fieldsOpened == old(fieldsOpened) && gameState == old(gameState)
      ensures !clicked.isOpened && clicked.hasBomb ==>
        gameState == GameOver && fields == OpenAllBombs(old(fields)) && fieldsOpened == old(fieldsOpened)
      ensures !clicked.isOpened && !clicked.hasBomb && old(fieldsOpened) == 0 ==>
        gameState == (if fieldsOpened != old(fieldsOpened) && Won() then GameOver else Playing) &&
        FreshBoard(clicked, draws, used, board) &&
        Flooded(MinesHook, Around(MinesHook), board, clicked, toOpen, pushes) &&
        fields == OpenIds(board, toOpen) && fieldsOpened == |toOpen|
      ensures !clicked.isOpened && !clicked.hasBomb && old(fieldsOpened) != 0 && clicked.bombsAround == 0 ==>
        gameState == (if fieldsOpened != old(fieldsOpened) && Won() then GameOver else old(gameState)) &&
        Flooded(MinesHook, Around(MinesHook), old(fields), clicked, toOpen, pushes) &&
        fields == OpenIds(old(fields), toOpen) && fieldsOpened == old(fieldsOpened) + |toOpen|
      ensures !clicked.isOpened && !clicked.hasBomb && old(fieldsOpened) != 0 && clicked.bombsAround != 0 ==>
        gameState == (if fieldsOpened != old(fieldsOpened) && Won() then GameOver else old(gameState)) &&
        fields == OpenIds(old(fields), {clicked.id}) && fieldsOpened == old(fieldsOpened) + 1
      ensures old(Valid()) ==> Valid()
      ensures old(Valid()) && old(Counted()) && clicked in old(fields) && (old(fieldsOpened) == 0 ==> Pristine(clicked)) ==>
        Counted() && (!clicked.hasBomb ==> fields[clicked.id - 1].isOpened)
      ensures old(FlagsBalanced()) && (old(fieldsOpened) == 0 ==> old(FlaggedIds(fields)) == {}) ==> FlagsBalanced()
    {
      board, used, toOpen, pushes := fields, 0, {}, [];
      if clicked.isOpened {
        return;
      }
      var before := fieldsOpened;
      if clicked.hasBomb {
        gameState := GameOver;
        BombsKeep(fields);
        fields := OpenAllBombs(fields);
      } else if fieldsOpened == 0 {
        gameState := Playing;
        var generated;
        generated, used := GenerateFieldsWithBombs(clicked, draws);
        board := generated;
        var count, r;
        count, r, toOpen, pushes := OpenEmptyFields(clicked, generated);
        FirstOpenKeeps(clicked, draws, used, generated, toOpen, pushes);
        fields := r;
        fieldsOpened := count;
      } else if clicked.bombsAround == 0 {
        var count, r;
        count, r, toOpen, pushes := OpenEmptyFields(clicked, fields);
        FloodKeeps(fields, clicked, toOpen, pushes);
        fields := r;
        fieldsOpened := fieldsOpened + count;
      } else {
        NumberKeeps(fields, clicked);
        fields := OpenIds(fields, {clicked.id});
        fieldsOpened := fieldsOpened + 1;
      }
      if fieldsOpened != before {
        CheckWin();
      }
    }

    /** `setFlag(clickedField)`: with no free flag nothing changes; otherwise the
        field is flagged and one flag is spent. */
    method SetFlag(clicked: Field)
      modifies this
      ensures old(freeFlagsCount) == 0 ==> fields == old(fields) && freeFlagsCount == 0
      ensures old(freeFlagsCount) != 0 ==>
        fields == ArrayBoard.SetFlag(old(fields), clicked.id) && freeFlagsCount == old(freeFlagsCount) - 1
      ensures fieldsOpened == old(fieldsOpened) && timer == old(timer) && gameState == old(gameState)
      ensures old(freeFlagsCount) >= 0 ==> freeFlagsCount >= 0
      ensures old(Valid()) ==> Valid()
      ensures old(Counted()) ==> Counted()
      ensures old(Valid()) && old(FlagsBalanced()) && clicked in old(fields) && !clicked.hasFlag ==> FlagsBalanced()
    {
      if freeFlagsCount == 0 {
        return;
      }
      FlagKeeps(fields, clicked);
      fields := ArrayBoard.SetFlag(fields, clicked.id);
      freeFlagsCount := freeFlagsCount - 1;
    }

    /** `deleteFlag(clickedField)`: the field's flag is removed and one flag
        comes back, whether the field had one or not. */
    method DeleteFlag(clicked: Field)
      modifies this
      ensures fields == ArrayBoard.DeleteFlag(old(fields), clicked.id) && freeFlagsCount == old(freeFlagsCount) + 1
      ensures fieldsOpened == old(fieldsOpened) && timer == old(timer) && gameState == old(gameState)
      ensures old(Valid()) ==> Valid()
      ensures old(Counted()) ==> Counted()
      ensures old(Valid()) && old(FlagsBalanced()) && clicked in old(fields) && clicked.hasFlag ==> FlagsBalanced()
    {
      FlagKeeps(fields, clicked);
      fields := ArrayBoard.DeleteFlag(fields, clicked.id);
      freeFlagsCount := freeFlagsCount + 1;
    }

    /** The win effect, run when `fieldsOpened` changes: GameOver once the open
        fields and the mines fill the board. */
    method CheckWin()
      modifies this
      ensures gameState == if Won() then GameOver else old(gameState)
      ensures fields == old(fields) && fieldsOpened == old(fieldsOpened) && timer == old(timer)
      ensures freeFlagsCount == old(freeFlagsCount)
    {
      if fieldsOpened + BombsCount == FieldsCount {
        gameState := GameOver;
      }
    }
  }

  // What each branch of `openField` keeps

  lemma BombsKeep(fs: seq<Field>)
    ensures ArrayLayout(fs) && CountsCorrect(fs) ==> ArrayLayout(OpenAllBombs(fs)) && CountsCorrect(OpenAllBombs(fs))
    ensures SafeOpenedIds(OpenAllBombs(fs)) == SafeOpenedIds(fs)
    ensures FlaggedIds(OpenAllBombs(fs)) == FlaggedIds(fs)
  {
    var r := OpenAllBombs(fs);
    assert SameMines(fs, r) by {
      assert forall i :: 0 <= i < |r| ==> r[i].(isOpened := fs[i].isOpened, hasFlag := fs[i].hasFlag) == r[i].(isOpened := fs[i].isOpened);
    }
    if ArrayLayout(fs) && CountsCorrect(fs) {
      SameMinesValid(fs, r);
    }
    SafeOpenedBombs(fs);
    OpenKeepsFlags(fs, {});
  }

  lemma OpenKeeps(fs: seq<Field>, ids: set<int>)
    requires ArrayLayout(fs) && CountsCorrect(fs)
    ensures ArrayLayout(OpenIds(fs, ids)) && CountsCorrect(OpenIds(fs, ids))
    ensures FlaggedIds(OpenIds(fs, ids)) == FlaggedIds(fs)
  {
    var r := OpenIds(fs, ids);
    assert SameMines(fs, r) by {
      assert forall i :: 0 <= i < |r| ==> r[i].(isOpened := fs[i].isOpened, hasFlag := fs[i].hasFlag) == r[i].(isOpened := fs[i].isOpened);
    }
    SameMinesValid(fs, r);
    OpenKeepsFlags(fs, ids);
  }

  lemma FloodKeeps(fs: seq<Field>, clicked: Field, toOpen: set<int>, pushes: seq<Field>)
    requires Flooded(MinesHook, Around(MinesHook), fs, clicked, toOpen, pushes) && clicked.bombsAround == 0 && !clicked.hasBomb
    ensures ArrayLayout(fs) && CountsCorrect(fs) ==> ArrayLayout(OpenIds(fs, toOpen)) && CountsCorrect(OpenIds(fs, toOpen))
    ensures ArrayLayout(fs) && CountsCorrect(fs) && clicked in fs && !clicked.isOpened ==>
      SafeOpenedIds(OpenIds(fs, toOpen)) == SafeOpenedIds(fs) + toOpen &&
      |SafeOpenedIds(OpenIds(fs, toOpen))| == |SafeOpenedIds(fs)| + |toOpen| &&
      OpenIds(fs, toOpen)[clicked.id - 1].isOpened
    ensures FlaggedIds(OpenIds(fs, toOpen)) == FlaggedIds(fs)
  {
    OpenKeepsFlags(fs, toOpen);
    if ArrayLayout(fs) && CountsCorrect(fs) {
      OpenKeeps(fs, toOpen);
      if clicked in fs && !clicked.isOpened {
        FloodCounts(fs, clicked, toOpen, pushes);
        OnBoard(fs, clicked);
      }
    }
  }

  lemma NumberKeeps(fs: seq<Field>, clicked: Field)
    requires !clicked.hasBomb && !clicked.isOpened
    ensures ArrayLayout(fs) && CountsCorrect(fs) ==>
      ArrayLayout(OpenIds(fs, {clicked.id})) && CountsCorrect(OpenIds(fs, {clicked.id}))
    ensures ArrayLayout(fs) && clicked in fs ==>
      |SafeOpenedIds(OpenIds(fs, {clicked.id}))| == |SafeOpenedIds(fs)| + 1 &&
      OpenIds(fs, {clicked.id})[clicked.id - 1].isOpened
    ensures FlaggedIds(OpenIds(fs, {clicked.id})) == FlaggedIds(fs)
  {
    OpenKeepsFlags(fs, {clicked.id});
    if ArrayLayout(fs) && CountsCorrect(fs) {
      OpenKeeps(fs, {clicked.id});
    }
    if ArrayLayout(fs) && clicked in fs {
      OnBoard(fs, clicked);
      SafeOpenedGrows(fs, {clicked.id});
    }
  }

  lemma FirstOpenKeeps(clicked: Field, draws: seq<int>, used: nat, fs: seq<Field>, toOpen: set<int>, pushes: seq<Field>)
    requires FreshBoard(clicked, draws, used, fs) && !clicked.hasBomb
    requires Flooded(MinesHook, Around(MinesHook), fs, clicked, toOpen, pushes)
    ensures ArrayLayout(OpenIds(fs, toOpen)) && CountsCorrect(OpenIds(fs, toOpen))
    ensures FlaggedIds(OpenIds(fs, toOpen)) == {}
    ensures Pristine(clicked) ==>
      |toOpen| == |SafeOpenedIds(OpenIds(fs, toOpen))| && OpenIds(fs, toOpen)[clicked.id - 1].isOpened
  {
    OpenKeeps(fs, toOpen);
    assert FlaggedIds(fs) == {};
    if Pristine(clicked) {
      PristineOnFresh(clicked, draws, used, fs);
      FloodKeeps(fs, clicked, toOpen, pushes);
      assert SafeOpenedIds(fs) == {};
    }
  }

  lemma FlagKeeps(fs: seq<Field>, clicked: Field)
    ensures ArrayLayout(fs) && CountsCorrect(fs) ==>
      ArrayLayout(ArrayBoard.SetFlag(fs, clicked.id)) && CountsCorrect(ArrayBoard.SetFlag(fs, clicked.id)) &&
      ArrayLayout(ArrayBoard.DeleteFlag(fs, clicked.id)) && CountsCorrect(ArrayBoard.DeleteFlag(fs, clicked.id))
    ensures SafeOpenedIds(ArrayBoard.SetFlag(fs, clicked.id)) == SafeOpenedIds(fs)
    ensures SafeOpenedIds(ArrayBoard.DeleteFlag(fs, clicked.id)) == SafeOpenedIds(fs)
    ensures ArrayLayout(fs) && clicked in fs && !clicked.hasFlag ==>
      |FlaggedIds(ArrayBoard.SetFlag(fs, clicked.id))| == |FlaggedIds(fs)| + 1
    ensures ArrayLayout(fs) && clicked in fs && clicked.hasFlag ==>
      |FlaggedIds(ArrayBoard.DeleteFlag(fs, clicked.id))| + 1 == |FlaggedIds(fs)|
  {
    var s := ArrayBoard.SetFlag(fs, clicked.id);
    var d := ArrayBoard.DeleteFlag(fs, clicked.id);
    SafeOpenedFlags(fs, clicked.id);
    if ArrayLayout(fs) && CountsCorrect(fs) {
      assert SameMines(fs, s) by {
        assert forall i :: 0 <= i < |s| ==> s[i].(isOpened := fs[i].isOpened, hasFlag := fs[i].hasFlag) == s[i].(hasFlag := fs[i].hasFlag);
      }
      SameMinesValid(fs, s);
      assert SameMines(fs, d) by {
        assert forall i :: 0 <= i < |d| ==> d[i].(isOpened := fs[i].isOpened, hasFlag := fs[i].hasFlag) == d[i].(hasFlag := fs[i].hasFlag);
      }
      SameMinesValid(fs, d);
    }
    if ArrayLayout(fs) && clicked in fs {
      OnBoard(fs, clicked);
      if !clicked.hasFlag {
        SetFlagCount(fs, clicked.id);
      } else {
        DeleteFlagCount(fs, clicked.id);
      }
    }
  }
}
