/** The cell of src/components/Field/index.tsx as decisions on a field and the
    game state: whether the cell takes input, what it shows, which danger class
    it gets, and which callback a left or right click reaches. */
module FieldView {
  import opened Board

  /** `isDisabled`: the cell takes no input while paused or after the game. */
  function IsDisabled(gameState: GameState): (r: bool)
    ensures r ==> gameState != Idle && gameState != Playing
    ensures !r ==> gameState == Idle || gameState == Playing
  {
    gameState == GameState.Pause || gameState == GameOver
  }

  /** What a cell shows: nothing, the mine glyph, the flag glyph or a number. */
  datatype Label = Blank | Bomb | Flag | Number(n: int)

  /** `label`: an open mine shows the mine, an open field with a count that is
      not 0 shows the count, a closed flagged field shows the flag, anything
      else shows nothing. */
  function LabelOf(f: Field): (r: Label)
    ensures r == Bomb <==> f.isOpened && f.hasBomb
    ensures r.Number? <==> f.isOpened && !f.hasBomb && f.bombsAround != 0
    ensures r.Number? ==> r.n == f.bombsAround
    ensures r == Flag <==> !f.isOpened && f.hasFlag
  {
    if f.isOpened then
      if f.hasBomb then Bomb
      else if f.bombsAround != 0 then Number(f.bombsAround)
      else Blank
    else if f.hasFlag then Flag
    else Blank
  }

  /** A closed cell shows only whether it is flagged: its mine and its count
      stay hidden. */
  lemma ClosedLabelHidesContents(f: Field, g: Field)
    requires !f.isOpened && !g.isOpened && f.hasFlag == g.hasFlag
    ensures LabelOf(f) == LabelOf(g)
  {
  }

  /** Whether the class `dangerLevel<k>` applies: k = 1 to 5 for that count, 6
      for a count of six or more, each only on an open field. */
  predicate DangerClass(f: Field, k: int) {
    f.isOpened && (if k < 6 then f.bombsAround == k else f.bombsAround >= 6)
  }

  /** The danger classes a cell gets. */
  function DangerClasses(f: Field): set<int> {
    set k | 1 <= k <= 6 && DangerClass(f, k)
  }

  /** At most one danger class applies: the count capped at six, on an open
      field with a count of at least one, and none otherwise. */
  lemma OneDangerClass(f: Field)
    ensures DangerClasses(f) == if f.isOpened && f.bombsAround >= 1 then {Min(f.bombsAround, 6)} else {}
  {
    if f.isOpened && f.bombsAround >= 1 {
      assert DangerClass(f, Min(f.bombsAround, 6));
    }
  }

  function Min(a: int, b: int): int {
    if a < b then a else b
  }

  /** The callback a click reaches. */
  datatype Action = NoAction | Open | SetFlag | DeleteFlag

  /** `handleClick`: a flagged field ignores the left click, any other field
      is opened. */
  function HandleClick(f: Field): (r: Action)
    ensures r == Open <==> !f.hasFlag
    ensures r != Open ==> r == NoAction
  {
    if !f.hasFlag then Open else NoAction
  }

  /** `handleContextMenuClick`: only while playing, a flagged field loses its
      flag and any other field gets one. */
  function HandleContextMenuClick(f: Field, gameState: GameState): (r: Action)
    ensures r == DeleteFlag <==> gameState == Playing && f.hasFlag
    ensures r == SetFlag <==> gameState == Playing && !f.hasFlag
    ensures gameState != Playing ==> r == NoAction
  {
    if gameState == Playing then
      if f.hasFlag then DeleteFlag else SetFlag
    else NoAction
  }

  /** The button: while disabled it delivers no click; otherwise a left click
      goes to `handleClick` and a right click to `handleContextMenuClick`. So a
      flagged field is never opened, nothing is opened while paused or after
      the game, flags change only while playing, a flag is set only on an
      unflagged field and deleted only from a flagged one. */
  function Dispatch(f: Field, gameState: GameState, rightClick: bool): (r: Action)
    ensures r == Open ==> !f.hasFlag && !rightClick && (gameState == Idle || gameState == Playing)
    ensures r == SetFlag ==> gameState == Playing && rightClick && !f.hasFlag
    ensures r == DeleteFlag ==> gameState == Playing && rightClick && f.hasFlag
    ensures r == NoAction <==> IsDisabled(gameState) || (rightClick && gameState != Playing) || (!rightClick && f.hasFlag)
  {
    if IsDisabled(gameState) then NoAction
    else if rightClick then HandleContextMenuClick(f, gameState)
    else HandleClick(f)
  }
}
