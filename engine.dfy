/** The `useGame(settings)` hook of src/hooks/useGame.ts as an object: the board
    map, the number of opened fields, and the `openField` dispatcher. */
module Engine {
  import opened Board
  import opened Presets
  import opened MapBoard
  import opened MapFlood

  /** A change that only opens fields keeps the layout and the counts. */
  lemma GrowsValid(w: nat, h: nat, m0: FieldsMap, m: FieldsMap)
    requires IsLayout(w, h, m0) && CountsCorrect(w, h, m0) && Grows(m0, m)
    ensures IsLayout(w, h, m) && CountsCorrect(w, h, m)
    ensures BombCoords(m) == BombCoords(m0)
  {
    assert BombCoords(m) == BombCoords(m0);
  }

  /** The cells open after such a change are those open before and those it opened. */
  lemma GrowsOpenCells(m0: FieldsMap, m: FieldsMap)
    requires Grows(m0, m)
    ensures |OpenCells(m)| == |OpenCells(m0)| + |Switched(m0, m)|
  {
    assert OpenCells(m) == OpenCells(m0) + Switched(m0, m);
    assert OpenCells(m0) * Switched(m0, m) == {};
  }

  lemma EmptyBoardValid(w: nat, h: nat, m: FieldsMap)
    requires IsEmptyBoard(w, h, m)
    ensures IsLayout(w, h, m) && CountsCorrect(w, h, m) && OpenCells(m) == {}
  {
    assert BombCoords(m) == {};
    forall c | c in m
      ensures m[c].bombsAround == CountIn(CoordsAround(w, h, c), BombCoords(m))
    {
      CountInNone(CoordsAround(w, h, c), BombCoords(m));
    }
  }

  lemma FreshBoardClosed(w: nat, h: nat, bombsCount: nat, first: Field, draws: seq<int>, used: nat, m: FieldsMap)
    requires FreshBoard(w, h, bombsCount, first, draws, used, m)
    ensures OpenCells(m) == {} && OpenedBefore(m, first) == 0
  {
  }

  lemma RevealedGrows(w: nat, h: nat, m0: FieldsMap, bombsCount: nat, stop: nat, m: FieldsMap)
    requires Revealed(w, h, m0, bombsCount, stop, m)
    ensures Grows(m0, m)
  {
  }

  /** The fields of the board carry the ids of the grid, so the one field with
      the clicked id is the clicked one. */
  lemma OpenByIdGrows(w: nat, h: nat, m0: FieldsMap, clicked: Field, m: FieldsMap)
    requires IsLayout(w, h, m0)
    requires forall c :: c in m <==> c in m0
    requires forall c :: c in m ==> m[c] == m0[c].(isOpened := m0[c].isOpened || m0[c].id == clicked.id)
    ensures Grows(m0, m)
    ensures clicked.coords in m0 && m0[clicked.coords] == clicked && !clicked.isOpened ==>
      Switched(m0, m) == {clicked.coords}
  {
    if clicked.coords in m0 && m0[clicked.coords] == clicked && !clicked.isOpened {
      forall c | c in Switched(m0, m)
        ensures c == clicked.coords
      {
        IdOfInjective(w, h, c, clicked.coords);
      }
    }
  }

  class Game {
    var settings: Settings
    var fields: FieldsMap
    var fieldsOpened: int

    function W(): nat
      reads this
    {
      settings.xFieldsCount
    }

    function H(): nat
      reads this
    {
      settings.yFieldsCount
    }

    /** Every board the hook holds after `initFields` is a layout of the grid
        with correct counts. */
    ghost predicate Valid()
      reads this
    {
      IsLayout(W(), H(), fields) && CountsCorrect(W(), H(), fields)
    }

    /** `fieldsOpened` is the number of open fields. */
    ghost predicate Counted()
      reads this
    {
      fieldsOpened == |OpenCells(fields)|
    }

    /** The hook's initial state: an empty `Map` and no opened field. */
    constructor(s: Settings)
      ensures settings == s && fields == map[] && fieldsOpened == 0
    {
      settings := s;
      fields := map[];
      fieldsOpened := 0;
    }

    /** A new `settings` argument of the hook; the board stays until `initFields`. */
    method UseSettings(s: Settings)
      modifies this
      ensures settings == s && fields == old(fields) && fieldsOpened == old(fieldsOpened)
    {
      settings := s;
    }

    /** `initFields`: a fresh closed board without mines and no opened field. */
    method InitFields()
      modifies this
      ensures settings == old(settings)
      ensures IsEmptyBoard(W(), H(), fields) && fieldsOpened == 0
      ensures Valid() && Counted()
    {
      fields := GenerateEmptyFields(settings.xFieldsCount, settings.yFieldsCount);
      fieldsOpened := 0;
      EmptyBoardValid(W(), H(), fields);
    }

    /** The mine branch: `openAllBombs()`; `fieldsOpened` stays. */
    method RevealMines() returns (ghost stop: nat)
      requires Valid()
      modifies this
      ensures settings == old(settings) && Valid()
      ensures Revealed(W(), H(), old(fields), settings.bombsCount, stop, fields)
      ensures fieldsOpened == old(fieldsOpened)
    {
      ghost var m0 := fields;
      fields, stop := OpenAllBombs(W(), H(), fields, settings.bombsCount);
      RevealedGrows(W(), H(), m0, settings.bombsCount, stop, fields);
      GrowsValid(W(), H(), m0, fields);
    }

    /** The first-click branch: `openEmptyFields(clickedField,
        generateFieldsWithBombs(clickedField))`. */
    method OpenFirst(clicked: Field, draws: seq<int>)
      returns (ghost used: nat, ghost board: FieldsMap, ghost expanded: set<Coords>, ghost pushes: seq<Coords>)
      requires fieldsOpened == 0
      modifies this
      ensures settings == old(settings) && Valid()
      ensures FreshBoard(W(), H(), settings.bombsCount, clicked, draws, used, board)
      ensures Flooded(W(), H(), board, clicked, fields, expanded, pushes)
      ensures fieldsOpened == |Switched(board, fields)| && Counted()
    {
      var generated;
      generated, used := GenerateFieldsWithBombs(W(), H(), settings.bombsCount, clicked, draws);
      board := generated;
      var added;
      fields, added, expanded, pushes := OpenEmptyFields(W(), H(), clicked, generated);
      fieldsOpened := fieldsOpened + added;
      FreshBoardClosed(W(), H(), settings.bombsCount, clicked, draws, used, generated);
      GrowsValid(W(), H(), generated, fields);
      GrowsOpenCells(generated, fields);
    }

    /** The branch of a field with no mine around: `openEmptyFields(clickedField, fields)`. */
    method OpenEmpty(clicked: Field) returns (ghost expanded: set<Coords>, ghost pushes: seq<Coords>)
      requires Valid()
      modifies this
      ensures settings == old(settings) && Valid()
      ensures Flooded(W(), H(), old(fields), clicked, fields, expanded, pushes)
      ensures fieldsOpened == old(fieldsOpened) + |Switched(old(fields), fields)| + OpenedBefore(old(fields), clicked)
      ensures old(Counted()) && OpenedBefore(old(fields), clicked) == 0 ==> Counted()
    {
      ghost var m0 := fields;
      var added;
      fields, added, expanded, pushes := OpenEmptyFields(W(), H(), clicked, fields);
      fieldsOpened := fieldsOpened + added;
      GrowsValid(W(), H(), m0, fields);
      GrowsOpenCells(m0, fields);
    }

    /** The branch of a numbered field: `openFieldWithBombsAround(clickedField)`. */
    method OpenNumbered(clicked: Field)
      requires Valid()
      modifies this
      ensures settings == old(settings) && Valid()
      ensures forall c :: c in fields <==> c in old(fields)
      ensures forall c :: c in fields ==>
        fields[c] == old(fields)[c].(isOpened := old(fields)[c].isOpened || old(fields)[c].id == clicked.id)
      ensures fieldsOpened == old(fieldsOpened) + 1
      ensures (old(Counted()) && clicked.coords in old(fields) && old(fields)[clicked.coords] == clicked &&
               !clicked.isOpened) ==> Counted()
    {
      ghost var m0 := fields;
      fields := OpenFieldWithBombsAround(W(), H(), fields, clicked);
      fieldsOpened := fieldsOpened + 1;
      OpenByIdGrows(W(), H(), m0, clicked, fields);
      GrowsValid(W(), H(), m0, fields);
      GrowsOpenCells(m0, fields);
    }

    /** What `openField(clickedField)` does to the board and the counter: an
        opened field changes nothing; a mine reveals the mines; the first click
        builds the mines around it and floods; a field with no mine around
        floods the current board; any other opens just that field. */
    twostate predicate OpenFieldEffect(clicked: Field, draws: seq<int>, stop: nat, used: nat, board: FieldsMap,
                                       expanded: set<Coords>, pushes: seq<Coords>)
      reads this
    {
      settings == old(settings) &&
      (clicked.isOpened ==> fields == old(fields) && fieldsOpened == old(fieldsOpened)) &&
      (!clicked.isOpened && clicked.hasBomb ==>
        Revealed(W(), H(), old(fields), settings.bombsCount, stop, fields) && fieldsOpened == old(fieldsOpened)) &&
      (!clicked.isOpened && !clicked.hasBomb && old(fieldsOpened) == 0 ==>
        FreshBoard(W(), H(), settings.bombsCount, clicked, draws, used, board) &&
        Flooded(W(), H(), board, clicked, fields, expanded, pushes) &&
        fieldsOpened == |Switched(board, fields)|) &&
      (!clicked.isOpened && !clicked.hasBomb && old(fieldsOpened) != 0 && clicked.bombsAround == 0 ==>
        Flooded(W(), H(), old(fields), clicked, fields, expanded, pushes) &&
        fieldsOpened == old(fieldsOpened) + |Switched(old(fields), fields)| + OpenedBefore(old(fields), clicked)) &&
      (!clicked.isOpened && !clicked.hasBomb && old(fieldsOpened) != 0 && clicked.bombsAround != 0 ==>
        (forall c :: c in fields <==> c in old(fields)) &&
        (forall c :: c in fields ==>
          fields[c] == old(fields)[c].(isOpened := old(fields)[c].isOpened || old(fields)[c].id == clicked.id)) &&
        fieldsOpened == old(fieldsOpened) + 1)
    }

    /** `openField(clickedField)`, branch by branch as `OpenFieldEffect` states.
        The draws replace `Math.random` on the first click. */
    method OpenField(clicked: Field, draws: seq<int>)
      returns (ghost stop: nat, ghost used: nat, ghost board: FieldsMap, ghost expanded: set<Coords>,
               ghost pushes: seq<Coords>)
      requires Valid()
      modifies this
      ensures Valid() && OpenFieldEffect(clicked, draws, stop, used, board, expanded, pushes)
      ensures (!clicked.hasBomb && clicked.coords in old(fields) && old(fields)[clicked.coords] == clicked &&
               old(Counted())) ==> Counted()
    {
      stop, used, board, expanded, pushes := 0, 0, fields, {}, [];
      if clicked.isOpened {
        return;
      }
      if clicked.hasBomb {
        stop := RevealMines();
      } else if fieldsOpened == 0 {
        used, board, expanded, pushes := OpenFirst(clicked, draws);
      } else if clicked.bombsAround == 0 {
        expanded, pushes := OpenEmpty(clicked);
      } else {
        OpenNumbered(clicked);
      }
    }
  }

  /** The first click is never a mine and never next to one, so the flood it
      starts opens no mine. */
  lemma FirstClickOpensNoMine(w: nat, h: nat, bombsCount: nat, first: Field, draws: seq<int>, used: nat,
                              board: FieldsMap, m: FieldsMap, expanded: set<Coords>, pushes: seq<Coords>)
    requires FreshBoard(w, h, bombsCount, first, draws, used, board)
    requires Flooded(w, h, board, first, m, expanded, pushes)
    requires InBounds(w, h, first.coords) && first.id == IdOf(w, first.coords)
    ensures !board[first.coords].hasBomb && board[first.coords].bombsAround == 0
    ensures forall c :: c in Switched(board, m) ==> !board[c].hasBomb
  {
    SafeZoneClear(w, h, first, board);
    FloodOpensNoMine(w, h, board, first, m, expanded, pushes);
  }

  /** A clicked field whose safe zone is free has no mine on it or around it. */
  lemma SafeZoneClear(w: nat, h: nat, first: Field, board: FieldsMap)
    requires IsLayout(w, h, board) && CountsCorrect(w, h, board) && SafeZone(w, h, first, board)
    requires InBounds(w, h, first.coords) && first.id == IdOf(w, first.coords)
    ensures !board[first.coords].hasBomb && board[first.coords].bombsAround == 0
  {
    var around := CoordsAround(w, h, first.coords);
    forall n | n in around
      ensures n !in BombCoords(board)
    {
    }
    CountInNone(around, BombCoords(board));
  }
  /** The safe cells of a board. */
  function SafeCells(m: FieldsMap): set<Coords> {
    set c | c in m && !m[c].hasBomb
  }

  /** With exactly bombsCount mines and no mine open, the win rule
      `fieldsOpened + bombsCount == xFieldsCount * yFieldsCount` of a counted
      board holds exactly when every safe cell is open. */
  lemma WinMeansAllSafeOpen(w: nat, h: nat, m: FieldsMap, bombsCount: nat)
    requires IsLayout(w, h, m) && |BombCoords(m)| == bombsCount
    requires forall c :: c in OpenCells(m) ==> !m[c].hasBomb
    ensures |OpenCells(m)| + bombsCount == w * h <==> SafeCells(m) <= OpenCells(m)
  {
    LayoutSize(w, h, m);
    var safe, open, bombs := SafeCells(m), OpenCells(m), BombCoords(m);
    assert m.Keys == safe + bombs && safe * bombs == {};
    assert |m.Keys| == |safe| + |bombs|;
    assert open <= safe;
    SubsetCard(open, safe);
    assert |safe - open| == |safe| - |open|;
    if |open| == |safe| {
      assert safe - open == {};
    }
  }
}
