/** The oldest revision, the class component of src/components/Game/index.tsx:
    an 8 x 8 board with ten mines dealt when the board is built (no safe zone),
    the `||` bounds check, a flood that does not seed the clicked id, the flag
    budget and the play and pause buttons. */
module Legacy {
  import opened Board
  import opened ArrayBoard
  import opened ArrayFlood
  import MinesGame
  import FieldView
  import MapBoard
  import Randomness

  /** The board `generateFields()` builds from the first `used` draws: every
      field closed and unflagged; the mined fields are those whose id was drawn;
      every count is right; the draws consumed are those up to where the loop
      stops; at most ten mines, and exactly ten when the draws are ids of the
      board and hold ten different ones. */
  ghost predicate DealtBoard(draws: seq<int>, used: nat, fs: seq<Field>) {
    ArrayLayout(fs) && CountsCorrect(fs) &&
    (forall i :: 0 <= i < |fs| ==> !fs[i].isOpened && !fs[i].hasFlag) &&
    MapBoard.DrawStop(draws, used, {}, BombsCount) &&
    (forall i :: 0 <= i < |fs| ==> (fs[i].hasBomb <==> fs[i].id in draws[..used])) &&
    |MinesGame.MineIds(fs)| <= BombsCount &&
    (((forall d :: d in draws ==> 1 <= d <= FieldsCount) &&
      |MapBoard.NonReserved(draws, {})| >= BombsCount) ==> |MinesGame.MineIds(fs)| == BombsCount)
  }

  /** `generateFields()`: the recursive draws (`Math.random` replaced by the
      draws, `used` of them consumed) until ten different ids are collected, the
      64 fields marked with them, and the loop that counts the mines around
      every field through the `||` bounds check. */
  method GenerateFields(draws: seq<int>) returns (fs: seq<Field>, ghost used: nat)
    ensures DealtBoard(draws, used, fs)
  {
    var bombIds, u := MapBoard.DrawBombIds({}, BombsCount, draws);
    used := u;
    var a := new Field[FieldsCount](i requires 0 <= i < FieldsCount => EmptyFieldAt(i).(hasBomb := i + 1 in bombIds));
    CountBombsAround(GameComponent, a, bombIds);
    fs := a[..];
    DealtStaged(draws, used, bombIds);
  }

  /** The draws decide the dealt board: two boards built from the same draws
      are the same board. */
  lemma DealtBoardDetermined(draws: seq<int>, u1: nat, fs1: seq<Field>, u2: nat, fs2: seq<Field>)
    requires DealtBoard(draws, u1, fs1) && DealtBoard(draws, u2, fs2)
    ensures u1 == u2 && fs1 == fs2
  {
    MapBoard.DrawStopUnique(draws, u1, u2, {}, BombsCount);
    MinesGame.SameMinesSameBoard(fs1, fs2, MapBoard.NonReserved(draws[..u1], {}));
  }

  /** The staged board of the drawn ids is the board `generateFields` promises. */
  lemma DealtStaged(draws: seq<int>, used: nat, bombIds: set<int>)
    requires MapBoard.DrawStop(draws, used, {}, BombsCount)
    requires bombIds == MapBoard.NonReserved(draws[..used], {})
    ensures DealtBoard(draws, used, Staged(MinedCells(bombIds)))
  {
    var fs := Staged(MinedCells(bombIds));
    StagedBoard(MinedCells(bombIds));
    MinesGame.StagedMarks(bombIds, fs);
    MinesGame.MarkedCount({}, draws, used, bombIds, fs);
  }

  /** Ten draws `randomNumber(1, 64)` can return: ids 3 and 17, two fields from
      the corner, and ids 49 to 56, the fields of row 7. */
  function CornerDraws(): seq<int> {
    [3, 17, 49, 50, 51, 52, 53, 54, 55, 56]
  }

  /** Each of the corner draws is the value of `randomNumber(1, 64)` for
      `Math.random()` = (id - 1) / 63. */
  lemma CornerDrawsDrawable()
    ensures forall j :: 0 <= j < |CornerDraws()| ==>
      Randomness.RandomNumber(1, FieldsCount, CornerDraws()[j] - 1, FieldsCount - 1) == CornerDraws()[j]
  {
    forall j | 0 <= j < |CornerDraws()|
      ensures Randomness.RandomNumber(1, FieldsCount, CornerDraws()[j] - 1, FieldsCount - 1) == CornerDraws()[j]
    {
      Randomness.MulDivCancel(CornerDraws()[j] - 1, FieldsCount - 1);
    }
  }

  /** A field whose id is a corner draw is neither the corner nor one of its
      neighbours. */
  lemma CornerDrawFar(i: int)
    requires 0 <= i < FieldsCount && i + 1 in CornerDraws()
    ensures CoordsAt(i) != Coords(1, 1) && !Adjacent(Coords(1, 1), CoordsAt(i))
  {
  }

  /** The board `generateFields` deals from the corner draws uses all ten of
      them and mines ten fields; its corner (1, 1) has no mine around, while
      (3, 1) and (1, 3) are mined. */
  lemma CornerDealt(used: nat, fs: seq<Field>)
    requires DealtBoard(CornerDraws(), used, fs)
    ensures used == |CornerDraws()| && |MinesGame.MineIds(fs)| == BombsCount
    ensures CornerFacts(fs) && fs[0].coords == Coords(1, 1) && fs[0].id == 1
    ensures !fs[0].hasBomb && !fs[0].isOpened && fs[0].bombsAround == 0
  {
    CornerDealtUsesAll(used, fs);
    CornerDealtMarks(fs);
    CornerDealtCount(fs);
  }

  /** The ten corner draws are different, so the draw loop consumes all of them. */
  lemma CornerDealtUsesAll(used: nat, fs: seq<Field>)
    requires DealtBoard(CornerDraws(), used, fs)
    ensures used == |CornerDraws()| && |MinesGame.MineIds(fs)| == BombsCount
    ensures forall i :: 0 <= i < |fs| ==> (fs[i].hasBomb <==> fs[i].id in CornerDraws())
  {
    var draws := CornerDraws();
    DistinctCard(draws[..used]);
    assert MapBoard.NonReserved(draws[..used], {}) == set t | t in draws[..used];
    DistinctCard(draws);
    assert MapBoard.NonReserved(draws, {}) == set t | t in draws;
    assert draws[..used] == draws;
  }

  lemma CornerDealtMarks(fs: seq<Field>)
    requires ArrayLayout(fs)
    requires forall i :: 0 <= i < |fs| ==> (fs[i].hasBomb <==> fs[i].id in CornerDraws())
    ensures Coords(3, 1) in MineCoords(fs) && Coords(1, 3) in MineCoords(fs)
    ensures fs[0].coords == Coords(1, 1) && fs[0].id == 1 && !fs[0].hasBomb
    ensures forall c :: c in MineCoords(fs) ==> !Adjacent(Coords(1, 1), c)
  {
    assert fs[2].hasBomb && fs[2].coords == Coords(3, 1);
    assert fs[16].hasBomb && fs[16].coords == Coords(1, 3);
    forall c | c in MineCoords(fs)
      ensures !Adjacent(Coords(1, 1), c)
    {
      var i :| 0 <= i < |fs| && fs[i].hasBomb && fs[i].coords == c;
      CornerDrawFar(i);
    }
  }

  lemma CornerDealtCount(fs: seq<Field>)
    requires ArrayLayout(fs) && CountsCorrect(fs)
    requires fs[0].coords == Coords(1, 1)
    requires forall c :: c in MineCoords(fs) ==> !Adjacent(Coords(1, 1), c)
    ensures fs[0].bombsAround == 0
  {
    assert CountedRight(fs, 0);
    CountInNone(CoordsAround(FieldsConstraintsX, FieldsConstraintsY, fs[0].coords), MineCoords(fs));
  }

  /** The component's flood from the corner of the board dealt from the
      corner draws never collects the clicked id: the ten-mine board the
      component deals for these draws shows the unseeded flood. */
  lemma DealtFloodSkipsClicked(used: nat, fs: seq<Field>, toOpen: set<int>, pushes: seq<Field>)
    requires DealtBoard(CornerDraws(), used, fs)
    requires Flooded(GameComponent, Around(GameComponent), fs, fs[0], toOpen, pushes)
    ensures |MinesGame.MineIds(fs)| == BombsCount
    ensures !fs[0].hasBomb && !fs[0].isOpened && fs[0].bombsAround == 0
    ensures fs[0].id !in toOpen
  {
    CornerDealt(used, fs);
    AroundIsAdjacent(GameComponent);
    CornerKeepsClicked(fs, Around(GameComponent), toOpen, pushes);
  }

  /** Neither open nor flag marks of a mined field change from fs to r. */
  ghost predicate OpensNoMine(fs: seq<Field>, r: seq<Field>) {
    |r| == |fs| && forall i :: 0 <= i < |r| && r[i].hasBomb ==> r[i].isOpened == fs[i].isOpened
  }

  /** Opening ids of fields without a mine opens no mine. */
  lemma OpenSafeIds(fs: seq<Field>, ids: set<int>)
    requires ArrayLayout(fs)
    requires forall v :: v in ids ==> 1 <= v <= FieldsCount && !fs[v - 1].hasBomb
    ensures OpensNoMine(fs, OpenIds(fs, ids))
  {
    var r := OpenIds(fs, ids);
    forall i | 0 <= i < |r| && r[i].hasBomb
      ensures r[i].isOpened == fs[i].isOpened
    {
      assert fs[i].id == i + 1 && fs[i].hasBomb;
    }
  }

  /** A click on a field without a mine, routed as `handleFieldClick` routes it,
      opens no mine: the flood collects only fields without a mine, and a
      numbered field opens alone. */
  lemma ClickOpensNoMine(fs: seq<Field>, clicked: Field, toOpen: set<int>, pushes: seq<Field>)
    requires ArrayLayout(fs) && CountsCorrect(fs) && clicked in fs && !clicked.hasBomb
    requires clicked.bombsAround == 0 ==> Flooded(GameComponent, Around(GameComponent), fs, clicked, toOpen, pushes)
    ensures OpensNoMine(fs, OpenIds(fs, if clicked.bombsAround == 0 then toOpen else {clicked.id}))
  {
    MinesGame.OnBoard(fs, clicked);
    if clicked.bombsAround == 0 {
      AroundIsAdjacent(GameComponent);
      FloodOpensNoMine(GameComponent, Around(GameComponent), fs, clicked, toOpen, pushes);
      OpenSafeIds(fs, toOpen);
    } else {
      OpenSafeIds(fs, {clicked.id});
    }
  }

  /** The zero-count branch of `handleFieldClick`: the flood collects the ids
      to open and the fields come back with those opened. */
  method OpenEmpties(clicked: Field, fs: seq<Field>) returns (r: seq<Field>, ghost toOpen: set<int>, ghost pushes: seq<Field>)
    ensures Flooded(GameComponent, Around(GameComponent), fs, clicked, toOpen, pushes)
    ensures r == OpenIds(fs, toOpen)
  {
    var fieldIdsToOpen;
    fieldIdsToOpen, pushes := VerifyEmptiesAround(GameComponent, Around(GameComponent), fs, clicked);
    toOpen := fieldIdsToOpen;
    r := OpenIds(fs, fieldIdsToOpen);
  }

  /** The fields `handleFieldClick(clicked)` leaves behind. */
  method ClickedFields(fs: seq<Field>, clicked: Field) returns (r: seq<Field>, ghost toOpen: set<int>, ghost pushes: seq<Field>)
    ensures clicked.hasBomb ==> r == OpenAllBombs(fs)
    ensures !clicked.hasBomb && clicked.bombsAround == 0 ==>
      Flooded(GameComponent, Around(GameComponent), fs, clicked, toOpen, pushes) && r == OpenIds(fs, toOpen)
    ensures !clicked.hasBomb && clicked.bombsAround != 0 ==> r == OpenIds(fs, {clicked.id})
    ensures Kept(fs, clicked, r)
  {
    toOpen, pushes := {}, [];
    if clicked.hasBomb {
      r := OpenAllBombs(fs);
      BombKept(fs, clicked);
    } else if clicked.bombsAround == 0 {
      r, toOpen, pushes := OpenEmpties(clicked, fs);
      OpenKept(fs, clicked, toOpen, pushes);
    } else {
      r := OpenIds(fs, {clicked.id});
      OpenKept(fs, clicked, {clicked.id}, pushes);
    }
  }

  /** The state of the component. */
  class LegacyGame {
    var fields: seq<Field>
    var timer: int
    var gameState: GameState
    var freeFlagsCount: int

    /** The fields form a board whose counts are right. */
    ghost predicate Valid()
      reads this
    {
      ArrayLayout(fields) && CountsCorrect(fields)
    }

    /** Every spent flag lies on a field. */
    ghost predicate FlagsBalanced()
      reads this
    {
      freeFlagsCount + |FlaggedIds(fields)| == BombsCount
    }

    /** The initial `state`: a dealt board, timer 0, Idle, ten free flags. */
    constructor(draws: seq<int>)
      ensures exists used :: DealtBoard(draws, used, fields)
      ensures timer == 0 && gameState == Idle && freeFlagsCount == BombsCount
      ensures Valid() && FlagsBalanced()
    {
      var fs, used := GenerateFields(draws);
      fields := fs;
      timer := 0;
      gameState := Idle;
      freeFlagsCount := BombsCount;
      new;
      UnflaggedBoard(fs);
      assert DealtBoard(draws, used, fields);
    }

    /** `playButtonLabel`. */
    function PlayButtonLabel(): (r: string)
      reads this
      ensures r == "Play" <==> gameState == Idle
      ensures r == "Play again" <==> gameState != Idle
    {
      match gameState
      case Idle => "Play"
      case _ => "Play again"
    }

    /** `pauseButtonLabel`. */
    function PauseButtonLabel(): (r: string)
      reads this
      ensures r == "Continue" <==> gameState == GameState.Pause
      ensures r == "Pause" <==> gameState != GameState.Pause
    {
      match gameState
      case Pause => "Continue"
      case _ => "Pause"
    }

    /** `play(regenerate)`: a new dealt board when asked for, timer 0, Playing,
        ten free flags. */
    method Play(regenerate: bool, draws: seq<int>) returns (ghost used: nat)
      modifies this
      ensures regenerate ==> DealtBoard(draws, used, fields)
      ensures !regenerate ==> fields == old(fields)
      ensures timer == 0 && gameState == Playing && freeFlagsCount == BombsCount
      ensures regenerate || old(Valid()) ==> Valid()
      ensures regenerate || old(FlaggedIds(fields)) == {} ==> FlagsBalanced()
    {
      used := 0;
      if regenerate {
        var fs;
        fs, used := GenerateFields(draws);
        UnflaggedBoard(fs);
        fields := fs;
      }
      timer := 0;
      gameState := Playing;
      freeFlagsCount := BombsCount;
    }

    /** `continue()`: Playing. */
    method Continue()
      modifies this
      ensures gameState == Playing
      ensures fields == old(fields) && timer == old(timer) && freeFlagsCount == old(freeFlagsCount)
    {
      gameState := Playing;
    }

    /** `pause()`: Pause. */
    method Pause()
      modifies this
      ensures gameState == GameState.Pause
      ensures fields == old(fields) && timer == old(timer) && freeFlagsCount == old(freeFlagsCount)
    {
      gameState := GameState.Pause;
    }

    /** `handlePlayButtonClick`: play, with a new board exactly when the game
        is over or paused. */
    method HandlePlayButtonClick(draws: seq<int>) returns (ghost used: nat)
      modifies this
      ensures old(gameState) == GameOver || old(gameState) == GameState.Pause ==> DealtBoard(draws, used, fields)
      ensures old(gameState) != GameOver && old(gameState) != GameState.Pause ==> fields == old(fields)
      ensures timer == 0 && gameState == Playing && freeFlagsCount == BombsCount
    {
      used := Play(gameState == GameOver || gameState == GameState.Pause, draws);
    }

    /** `handlePauseButtonClick`: Pause turns into Playing, anything else into
        Pause. */
    method HandlePauseButtonClick()
      modifies this
      ensures old(gameState) == GameState.Pause ==> gameState == Playing
      ensures old(gameState) != GameState.Pause ==> gameState == GameState.Pause
      ensures fields == old(fields) && timer == old(timer) && freeFlagsCount == old(freeFlagsCount)
    {
      if gameState == GameState.Pause {
        Continue();
      } else {
        Pause();
      }
    }

    /** `handleFieldClick(clickedField)`: a mine ends the game and shows every
        mine; a field with no mine around floods without seeding its own id; any
        other field opens alone. The ids and queued fields of the flood come back
        as ghosts. */
    method HandleFieldClick(clicked: Field) returns (ghost toOpen: set<int>, ghost pushes: seq<Field>)
      modifies this
      ensures timer == old(timer) && freeFlagsCount == old(freeFlagsCount)
      ensures clicked.hasBomb ==> gameState == GameOver && fields == OpenAllBombs(old(fields))
      ensures !clicked.hasBomb && clicked.bombsAround == 0 ==>
        gameState == old(gameState) &&
        Flooded(GameComponent, Around(GameComponent), old(fields), clicked, toOpen, pushes) &&
        fields == OpenIds(old(fields), toOpen)
      ensures !clicked.hasBomb && clicked.bombsAround != 0 ==>
        gameState == old(gameState) && fields == OpenIds(old(fields), {clicked.id})
      ensures old(Valid()) ==> Valid()
      ensures old(FlagsBalanced()) ==> FlagsBalanced()
      ensures old(Valid()) && clicked in old(fields) && !clicked.hasBomb ==> OpensNoMine(old(fields), fields)
    {
      var r;
      r, toOpen, pushes := ClickedFields(fields, clicked);
      if clicked.hasBomb {
        gameState := GameOver;
      }
      fields := r;
    }

    /** `handleSetFlag(clickedField)`: with no free flag nothing changes;
        otherwise the field is flagged and one flag is spent. */
    method HandleSetFlag(clicked: Field)
      modifies this
      ensures old(freeFlagsCount) == 0 ==> fields == old(fields) && freeFlagsCount == 0
      ensures old(freeFlagsCount) != 0 ==>
        fields == SetFlag(old(fields), clicked.id) && freeFlagsCount == old(freeFlagsCount) - 1
      ensures timer == old(timer) && gameState == old(gameState)
      ensures old(freeFlagsCount) >= 0 ==> freeFlagsCount >= 0
      ensures old(Valid()) ==> Valid()
      ensures old(Valid()) && old(FlagsBalanced()) && clicked in old(fields) && !clicked.hasFlag ==> FlagsBalanced()
    {
      if freeFlagsCount == 0 {
        return;
      }
      MinesGame.FlagKeeps(fields, clicked);
      fields := SetFlag(fields, clicked.id);
      freeFlagsCount := freeFlagsCount - 1;
    }

    /** `handleDeleteFlag(clickedField)`: the field's flag is removed and one
        flag comes back, whether the field had one or not. */
    method HandleDeleteFlag(clicked: Field)
      modifies this
      ensures fields == DeleteFlag(old(fields), clicked.id) && freeFlagsCount == old(freeFlagsCount) + 1
      ensures timer == old(timer) && gameState == old(gameState)
      ensures old(Valid()) ==> Valid()
      ensures old(Valid()) && old(FlagsBalanced()) && clicked in old(fields) && clicked.hasFlag ==> FlagsBalanced()
    {
      MinesGame.FlagKeeps(fields, clicked);
      fields := DeleteFlag(fields, clicked.id);
      freeFlagsCount := freeFlagsCount + 1;
    }

    /** A click on the cell of clicked, wired as `renderFields` wires the
        cell's callbacks: the cell decides which handler, if any, runs. Through
        the cells the flag budget always balances. */
    method ClickCell(clicked: Field, rightClick: bool) returns (ghost toOpen: set<int>, ghost pushes: seq<Field>)
      modifies this
      ensures FieldView.Dispatch(clicked, old(gameState), rightClick) == FieldView.NoAction ==>
        fields == old(fields) && gameState == old(gameState) && freeFlagsCount == old(freeFlagsCount)
      ensures FieldView.Dispatch(clicked, old(gameState), rightClick) == FieldView.Open ==>
        !clicked.hasFlag && freeFlagsCount == old(freeFlagsCount)
      ensures timer == old(timer)
      ensures old(freeFlagsCount) >= 0 ==> freeFlagsCount >= 0
      ensures old(Valid()) ==> Valid()
      ensures old(Valid()) && old(FlagsBalanced()) && clicked in old(fields) ==> FlagsBalanced()
    {
      toOpen, pushes := {}, [];
      match FieldView.Dispatch(clicked, gameState, rightClick)
      case Open =>
        toOpen, pushes := HandleFieldClick(clicked);
      case SetFlag =>
        HandleSetFlag(clicked);
      case DeleteFlag =>
        HandleDeleteFlag(clicked);
      case NoAction =>
    }
  }

  /** A dealt board carries no flag. */
  lemma UnflaggedBoard(fs: seq<Field>)
    requires forall i :: 0 <= i < |fs| ==> !fs[i].hasFlag
    ensures FlaggedIds(fs) == {}
  {
  }

  /** What every branch of `handleFieldClick` keeps from fs to r: a board with
      right counts, the flags, and, for a click on a field of the board without
      a mine, the mines closed. */
  ghost predicate Kept(fs: seq<Field>, clicked: Field, r: seq<Field>) {
    (ArrayLayout(fs) && CountsCorrect(fs) ==> ArrayLayout(r) && CountsCorrect(r)) &&
    FlaggedIds(r) == FlaggedIds(fs) &&
    (ArrayLayout(fs) && CountsCorrect(fs) && clicked in fs && !clicked.hasBomb ==> OpensNoMine(fs, r))
  }

  /** What the mine branch of `handleFieldClick` keeps. */
  lemma BombKept(fs: seq<Field>, clicked: Field)
    requires clicked.hasBomb
    ensures Kept(fs, clicked, OpenAllBombs(fs))
  {
    MinesGame.BombsKeep(fs);
  }

  /** What the two opening branches of `handleFieldClick` keep. */
  lemma OpenKept(fs: seq<Field>, clicked: Field, ids: set<int>, pushes: seq<Field>)
    requires !clicked.hasBomb
    requires clicked.bombsAround == 0 ==> Flooded(GameComponent, Around(GameComponent), fs, clicked, ids, pushes)
    requires clicked.bombsAround != 0 ==> ids == {clicked.id}
    ensures Kept(fs, clicked, OpenIds(fs, ids))
  {
    MinesGame.OpenKeepsFlags(fs, ids);
    if ArrayLayout(fs) && CountsCorrect(fs) {
      MinesGame.OpenKeeps(fs, ids);
      if clicked in fs {
        ClickOpensNoMine(fs, clicked, ids, pushes);
      }
    }
  }
}
