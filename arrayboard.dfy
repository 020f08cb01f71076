/** The 8 x 8 board of the two array-based revisions, src/hooks/useMinesGame.ts
    and src/components/Game/index.tsx: an array of 64 fields in row-major
    order with the `Settings` constants of src/components/types.ts, the lookup
    by coordinates, both bounds checks, the whole-board maps that open fields
    and set or delete flags, and the loop that counts the mines around every
    field. */
module ArrayBoard {
  import opened Board
  import MapBoard

  /** `Settings` of src/components/types.ts. */
  const FieldsCount: nat := 64
  const FieldsConstraintsX: nat := 8
  const FieldsConstraintsY: nat := 8
  const BombsCount: nat := 10

  /** Which of the two array-based revisions a shared operation follows. */
  datatype Revision = GameComponent | MinesHook

  predicate OnGrid(c: Coords) {
    InBounds(FieldsConstraintsX, FieldsConstraintsY, c)
  }

  /** The coordinates `generateEmptyFields` gives the field at index:
      x = index % FieldsConstraintsX + 1, y = floor(index / FieldsConstraintsY) + 1. */
  function CoordsAt(index: int): Coords {
    Coords(index % 8 + 1, index / 8 + 1)
  }

  /** The index of the field at c in row-major order. */
  function IndexOf(c: Coords): int {
    (c.y - 1) * 8 + (c.x - 1)
  }

  /** The field `generateEmptyFields` builds at index, with id index + 1. */
  function EmptyFieldAt(index: int): Field {
    Field(index + 1, CoordsAt(index), false, false, false, 0)
  }

  /** Index and coordinates correspond one to one, and the id of the field at
      index is the id the map engine gives the same cell. */
  lemma CoordsAtIndex(i: int)
    requires 0 <= i < FieldsCount
    ensures OnGrid(CoordsAt(i)) && IndexOf(CoordsAt(i)) == i
    ensures MapBoard.IdOf(FieldsConstraintsX, CoordsAt(i)) == i + 1
  {
  }

  lemma IndexOfOnGrid(c: Coords)
    requires OnGrid(c)
    ensures 0 <= IndexOf(c) < FieldsCount && CoordsAt(IndexOf(c)) == c
    ensures MapBoard.IdOf(FieldsConstraintsX, c) == IndexOf(c) + 1
  {
  }

  /** The shape every board of both revisions keeps: 64 fields, the field at
      index i with id i + 1 and the coordinates of cell i. */
  ghost predicate ArrayLayout(fs: seq<Field>) {
    |fs| == FieldsCount &&
    forall i :: 0 <= i < |fs| ==> fs[i].id == i + 1 && fs[i].coords == CoordsAt(i)
  }

  /** On a board, every field lies on the grid and every grid cell holds the
      field at its own index: the fields and the cells are in one-to-one
      correspondence. */
  lemma LayoutCoversGrid(fs: seq<Field>)
    requires ArrayLayout(fs)
    ensures forall i :: 0 <= i < |fs| ==> OnGrid(fs[i].coords) && IndexOf(fs[i].coords) == i
    ensures forall c :: OnGrid(c) ==> 0 <= IndexOf(c) < |fs| && fs[IndexOf(c)].coords == c
    ensures forall i, j :: 0 <= i < |fs| && 0 <= j < |fs| && fs[i].coords == fs[j].coords ==> i == j
  {
    forall i | 0 <= i < |fs|
      ensures OnGrid(fs[i].coords) && IndexOf(fs[i].coords) == i
    {
      CoordsAtIndex(i);
    }
    forall c | OnGrid(c)
      ensures 0 <= IndexOf(c) < |fs| && fs[IndexOf(c)].coords == c
    {
      IndexOfOnGrid(c);
    }
  }

  /** `generateEmptyFields()`: the 64 fields of the grid in row-major order,
      all closed, unflagged, without a mine and with a zero count. */
  function GenerateEmptyFields(): (r: seq<Field>)
    ensures ArrayLayout(r)
    ensures forall i :: 0 <= i < |r| ==> !r[i].isOpened && !r[i].hasBomb && !r[i].hasFlag && r[i].bombsAround == 0
  {
    seq(FieldsCount, i => EmptyFieldAt(i))
  }

  /** The index of the first field at c, as `fields.find` searches. */
  function FindIndex(fs: seq<Field>, c: Coords): (r: Option<nat>)
    ensures r.Some? ==> r.value < |fs| && fs[r.value].coords == c &&
                        forall j :: 0 <= j < r.value ==> fs[j].coords != c
    ensures r.None? ==> forall j :: 0 <= j < |fs| ==> fs[j].coords != c
  {
    if fs == [] then None
    else if fs[0].coords == c then Some(0)
    else match FindIndex(fs[1..], c)
      case None => None
      case Some(k) => Some(k + 1)
  }

  /** `findFieldByCoords(fields, x, y)`: the first field at (x, y), if any. */
  function FindFieldByCoords(fs: seq<Field>, x: int, y: int): (r: Option<Field>)
    ensures r.Some? ==> r.value in fs && r.value.coords == Coords(x, y)
    ensures r.None? ==> forall f :: f in fs ==> f.coords != Coords(x, y)
  {
    match FindIndex(fs, Coords(x, y))
    case None => None
    case Some(i) => Some(fs[i])
  }

  /** On a board the lookup finds the field at the cell's index for every grid
      cell and nothing off the grid. */
  lemma FindOnLayout(fs: seq<Field>, c: Coords)
    requires ArrayLayout(fs)
    ensures FindIndex(fs, c) == if OnGrid(c) then Some(IndexOf(c)) else None
  {
    LayoutCoversGrid(fs);
  }

  /** `areCoordsInBoundaries` of useMinesGame: both coordinates inside the grid. */
  function AreCoordsInBoundaries(x: int, y: int): (r: bool)
    ensures r <==> OnGrid(Coords(x, y))
  {
    x >= 1 && x <= FieldsConstraintsX && y >= 1 && y <= FieldsConstraintsY
  }

  /** `areCoordsInBoundaries` of the Game component as written, joining the four
      comparisons with `||`: every pair of integers passes. */
  function AreCoordsInBoundariesOr(x: int, y: int): (r: bool)
    ensures r
  {
    x >= 1 || x <= FieldsConstraintsX || y >= 1 || y <= FieldsConstraintsY
  }

  /** The Game component's check passes a cell off the grid. */
  lemma OrBoundsAcceptOffGrid()
    ensures AreCoordsInBoundariesOr(0, 0) && !AreCoordsInBoundaries(0, 0)
  {
  }

  /** `coords.filter(areCoordsInBoundariesOr)`. */
  function KeepOr(cs: seq<Coords>): (r: seq<Coords>)
    ensures forall n :: n in r <==> n in cs && AreCoordsInBoundariesOr(n.x, n.y)
    ensures Distinct(cs) ==> Distinct(r)
  {
    if cs == [] then []
    else (if AreCoordsInBoundariesOr(cs[0].x, cs[0].y) then [cs[0]] else []) + KeepOr(cs[1..])
  }

  /** The cells a revision looks up around c: the hook filters the eight
      candidates with the correct check (`findCoordsAround`); the component
      filters them with the `||` check, which keeps all eight. */
  function Neighbours(rev: Revision, c: Coords): (r: seq<Coords>)
    ensures Distinct(r)
    ensures forall n :: n in r && OnGrid(n) <==> n in CoordsAround(FieldsConstraintsX, FieldsConstraintsY, c)
  {
    if rev == MinesHook then CoordsAround(FieldsConstraintsX, FieldsConstraintsY, c) else KeepOr(Candidates(c))
  }

  lemma NeighbourOnGrid(rev: Revision, c: Coords, n: Coords)
    requires OnGrid(n)
    ensures n in Neighbours(rev, c) <==> n in CoordsAround(FieldsConstraintsX, FieldsConstraintsY, c)
  {
  }

  /** The `||` check is harmless: on a board the cells each revision looks up
      around c find exactly the fields of c's in-grid neighbours. */
  lemma NeighboursFound(rev: Revision, fs: seq<Field>, c: Coords, n: Coords)
    requires ArrayLayout(fs)
    ensures (n in Neighbours(rev, c) && FindIndex(fs, n).Some?) <==>
            n in CoordsAround(FieldsConstraintsX, FieldsConstraintsY, c)
  {
    FindOnLayout(fs, n);
  }

  // Whole-board maps

  /** `openAllBombs(fields)`: every mine opens, nothing else changes. */
  function OpenAllBombs(fs: seq<Field>): (r: seq<Field>)
    ensures |r| == |fs|
    ensures forall i :: 0 <= i < |r| && fs[i].hasBomb ==> r[i].isOpened
    ensures forall i :: 0 <= i < |r| && !fs[i].hasBomb ==> r[i].isOpened == fs[i].isOpened
    ensures forall i :: 0 <= i < |r| ==> r[i].(isOpened := fs[i].isOpened) == fs[i]
  {
    seq(|fs|, i requires 0 <= i < |fs| => fs[i].(isOpened := fs[i].isOpened || fs[i].hasBomb))
  }

  /** Opening the mines a second time changes nothing. */
  lemma OpenAllBombsIdempotent(fs: seq<Field>)
    ensures OpenAllBombs(OpenAllBombs(fs)) == OpenAllBombs(fs)
  {
    var once := OpenAllBombs(fs);
    assert forall i :: 0 <= i < |once| ==> OpenAllBombs(once)[i] == once[i];
  }

  /** `fields.map(field => ({...field, isOpened: field.isOpened || ids.has(field.id)}))`:
      the fields whose id is among ids open, nothing else changes. */
  function OpenIds(fs: seq<Field>, ids: set<int>): (r: seq<Field>)
    ensures |r| == |fs|
    ensures forall i :: 0 <= i < |r| ==> (r[i].isOpened <==> fs[i].isOpened || fs[i].id in ids)
    ensures forall i :: 0 <= i < |r| ==> r[i].(isOpened := fs[i].isOpened) == fs[i]
  {
    seq(|fs|, i requires 0 <= i < |fs| => fs[i].(isOpened := fs[i].isOpened || fs[i].id in ids))
  }

  /** `setFlag` / `handleSetFlag` on the fields: the field with the id gets a
      flag, nothing else changes. */
  function SetFlag(fs: seq<Field>, id: int): (r: seq<Field>)
    ensures |r| == |fs|
    ensures forall i :: 0 <= i < |r| ==> (r[i].hasFlag <==> fs[i].hasFlag || fs[i].id == id)
    ensures forall i :: 0 <= i < |r| ==> r[i].(hasFlag := fs[i].hasFlag) == fs[i]
  {
    seq(|fs|, i requires 0 <= i < |fs| => fs[i].(hasFlag := id == fs[i].id || fs[i].hasFlag))
  }

  /** `deleteFlag` / `handleDeleteFlag` on the fields: the field with the id
      loses its flag, nothing else changes. */
  function DeleteFlag(fs: seq<Field>, id: int): (r: seq<Field>)
    ensures |r| == |fs|
    ensures forall i :: 0 <= i < |r| ==> (r[i].hasFlag <==> fs[i].hasFlag && fs[i].id != id)
    ensures forall i :: 0 <= i < |r| ==> r[i].(hasFlag := fs[i].hasFlag) == fs[i]
  {
    seq(|fs|, i requires 0 <= i < |fs| => fs[i].(hasFlag := if fs[i].hasFlag && id == fs[i].id then false else fs[i].hasFlag))
  }

  /** The ids of the open fields. */
  function OpenedIds(fs: seq<Field>): set<int> {
    set i | 0 <= i < |fs| && fs[i].isOpened :: fs[i].id
  }

  /** The ids of the flagged fields. */
  function FlaggedIds(fs: seq<Field>): set<int> {
    set i | 0 <= i < |fs| && fs[i].hasFlag :: fs[i].id
  }

  /** The ids of a board are 1 to 64. */
  lemma LayoutIds(fs: seq<Field>, v: int)
    requires ArrayLayout(fs)
    ensures (exists i :: 0 <= i < |fs| && fs[i].id == v) <==> 1 <= v <= FieldsCount
  {
    if 1 <= v <= FieldsCount {
      assert fs[v - 1].id == v;
    }
  }

  /** Opening ids of closed fields adds exactly those ids to the open ones, so
      the number of open fields grows by the number of ids. */
  lemma OpenIdsCount(fs: seq<Field>, ids: set<int>)
    requires ArrayLayout(fs)
    requires forall v :: v in ids ==> 1 <= v <= FieldsCount && !fs[v - 1].isOpened
    ensures OpenedIds(OpenIds(fs, ids)) == OpenedIds(fs) + ids
    ensures OpenedIds(fs) * ids == {}
    ensures |OpenedIds(OpenIds(fs, ids))| == |OpenedIds(fs)| + |ids|
  {
    var r := OpenIds(fs, ids);
    forall v | v in ids
      ensures v in OpenedIds(r)
    {
      assert r[v - 1].id == v && r[v - 1].isOpened;
    }
    forall i | 0 <= i < |fs| && fs[i].isOpened
      ensures fs[i].id !in ids
    {
      assert fs[i].id - 1 == i;
    }
  }

  /** Flagging an unflagged field of the board adds its id to the flagged ones. */
  lemma SetFlagCount(fs: seq<Field>, id: int)
    requires ArrayLayout(fs) && 1 <= id <= FieldsCount && !fs[id - 1].hasFlag
    ensures FlaggedIds(SetFlag(fs, id)) == FlaggedIds(fs) + {id}
    ensures |FlaggedIds(SetFlag(fs, id))| == |FlaggedIds(fs)| + 1
  {
    var r := SetFlag(fs, id);
    assert r[id - 1].id == id && r[id - 1].hasFlag;
    forall i | 0 <= i < |fs| && fs[i].hasFlag
      ensures fs[i].id != id
    {
      assert fs[i].id - 1 == i;
    }
  }

  /** Deleting the flag of a flagged field of the board removes its id from
      the flagged ones. */
  lemma DeleteFlagCount(fs: seq<Field>, id: int)
    requires ArrayLayout(fs) && 1 <= id <= FieldsCount && fs[id - 1].hasFlag
    ensures FlaggedIds(DeleteFlag(fs, id)) == FlaggedIds(fs) - {id}
    ensures |FlaggedIds(DeleteFlag(fs, id))| + 1 == |FlaggedIds(fs)|
  {
    assert fs[id - 1].id == id;
    assert id in FlaggedIds(fs);
  }

  /** Deleting a flag just set restores the board, and setting a flag just
      deleted restores it too. */
  lemma FlagRoundTrip(fs: seq<Field>, id: int)
    requires ArrayLayout(fs) && 1 <= id <= FieldsCount
    ensures !fs[id - 1].hasFlag ==> DeleteFlag(SetFlag(fs, id), id) == fs
    ensures fs[id - 1].hasFlag ==> SetFlag(DeleteFlag(fs, id), id) == fs
  {
    if !fs[id - 1].hasFlag {
      var r := DeleteFlag(SetFlag(fs, id), id);
      assert forall i :: 0 <= i < |fs| ==> r[i] == fs[i];
    } else {
      var r := SetFlag(DeleteFlag(fs, id), id);
      assert forall i :: 0 <= i < |fs| ==> r[i] == fs[i];
    }
  }

  // Counting the mines around every field

  /** The cells of the mined fields. */
  function MineCoords(fs: seq<Field>): set<Coords> {
    set i | 0 <= i < |fs| && fs[i].hasBomb :: fs[i].coords
  }

  /** Every field counts the mines among its in-grid neighbours. */
  ghost predicate CountsCorrect(fs: seq<Field>) {
    forall i :: 0 <= i < |fs| ==> CountedRight(fs, i)
  }

  /** The field at index i counts the mines among its in-grid neighbours. */
  ghost predicate CountedRight(fs: seq<Field>, i: int)
    requires 0 <= i < |fs|
  {
    fs[i].bombsAround == CountIn(CoordsAround(FieldsConstraintsX, FieldsConstraintsY, fs[i].coords), MineCoords(fs))
  }

  /** The empty board with exactly the cells of mined mined and every count
      taken over them. */
  function Staged(mined: set<Coords>): seq<Field> {
    seq(FieldsCount, i requires 0 <= i < FieldsCount =>
      EmptyFieldAt(i).(hasBomb := CoordsAt(i) in mined,
                       bombsAround := CountIn(CoordsAround(FieldsConstraintsX, FieldsConstraintsY, CoordsAt(i)), mined)))
  }

  /** A staged board is a board whose mines are the cells of mined and whose
      counts are right; its fields are closed and unflagged. */
  lemma StagedBoard(mined: set<Coords>)
    requires forall c :: c in mined ==> OnGrid(c)
    ensures ArrayLayout(Staged(mined))
    ensures MineCoords(Staged(mined)) == mined
    ensures CountsCorrect(Staged(mined))
    ensures forall i :: 0 <= i < FieldsCount ==> !Staged(mined)[i].isOpened && !Staged(mined)[i].hasFlag
  {
    var fs := Staged(mined);
    forall c | c in mined
      ensures c in MineCoords(fs)
    {
      IndexOfOnGrid(c);
      assert fs[IndexOf(c)].coords == c && fs[IndexOf(c)].hasBomb;
    }
    assert MineCoords(fs) == mined;
    forall i | 0 <= i < |fs|
      ensures CountedRight(fs, i)
    {
    }
  }

  /** The cells of the fields before index i whose id is among ids. */
  function MinedBelow(ids: set<int>, i: int): set<Coords> {
    set j | 0 <= j < i && j + 1 in ids :: CoordsAt(j)
  }

  /** The cells of the fields whose id is among ids. */
  function MinedCells(ids: set<int>): (r: set<Coords>)
    ensures forall c :: c in r ==> OnGrid(c)
  {
    MinedBelowGrid(ids, FieldsCount);
    MinedBelow(ids, FieldsCount)
  }

  lemma MinedBelowGrid(ids: set<int>, i: int)
    requires i <= FieldsCount
    ensures forall c :: c in MinedBelow(ids, i) ==> OnGrid(c) && IndexOf(c) < i && IndexOf(c) + 1 in ids
  {
    forall j | 0 <= j < i && j + 1 in ids
      ensures OnGrid(CoordsAt(j)) && IndexOf(CoordsAt(j)) == j
    {
      CoordsAtIndex(j);
    }
  }

  /** A grid cell is mined exactly when the id of its field is among ids. */
  lemma MinedCellsOf(ids: set<int>, c: Coords)
    requires OnGrid(c)
    ensures c in MinedCells(ids) <==> IndexOf(c) + 1 in ids
  {
    IndexOfOnGrid(c);
    MinedBelowGrid(ids, FieldsCount);
  }

  lemma MinedBelowStep(ids: set<int>, i: int)
    requires 0 <= i < FieldsCount
    ensures CoordsAt(i) !in MinedBelow(ids, i)
    ensures OnGrid(CoordsAt(i))
    ensures MinedBelow(ids, i + 1) == MinedBelow(ids, i) + (if i + 1 in ids then {CoordsAt(i)} else {})
  {
    CoordsAtIndex(i);
    MinedBelowGrid(ids, i);
    var below, next := MinedBelow(ids, i), MinedBelow(ids, i + 1);
    forall c | c in next
      ensures c in below + (if i + 1 in ids then {CoordsAt(i)} else {})
    {
      var j :| 0 <= j < i + 1 && j + 1 in ids && c == CoordsAt(j);
      if j < i {
        assert c in below;
      }
    }
    forall c | c in below
      ensures c in next
    {
      var j :| 0 <= j < i && j + 1 in ids && c == CoordsAt(j);
      assert 0 <= j < i + 1;
    }
    if i + 1 in ids {
      assert CoordsAt(i) in next;
    }
  }

  /** fs with one more mine counted at every field whose cell is among cs. */
  function Bumped(fs: seq<Field>, cs: seq<Coords>): seq<Field> {
    seq(|fs|, j requires 0 <= j < |fs| => fs[j].(bombsAround := fs[j].bombsAround + (if CoordsAt(j) in cs then 1 else 0)))
  }

  /** `findCoordsAround(x, y).map(find).forEach((field) => field && field.bombsAround++)`:
      one more mine counted at every field found at one of the cells cs. */
  method IncrementFound(a: array<Field>, cs: seq<Coords>)
    requires ArrayLayout(a[..]) && Distinct(cs)
    modifies a
    ensures a[..] == Bumped(old(a[..]), cs)
  {
    var k := 0;
    while k < |cs|
      invariant 0 <= k <= |cs|
      invariant a[..] == Bumped(old(a[..]), cs[..k])
    {
      assert cs[k] !in cs[..k];
      IncrementOne(a, cs[k], old(a[..]), cs[..k]);
      assert cs[..k + 1] == cs[..k] + [cs[k]];
      k := k + 1;
    }
    assert cs[..k] == cs;
  }

  /** One turn of that loop: the field found at c, if any, counts one more. */
  method IncrementOne(a: array<Field>, c: Coords, ghost fs0: seq<Field>, ghost done: seq<Coords>)
    requires ArrayLayout(fs0) && a[..] == Bumped(fs0, done) && c !in done
    modifies a
    ensures a[..] == Bumped(fs0, done + [c])
  {
    ghost var before := a[..];
    var found := FindIndex(a[..], c);
    if found.Some? {
      var j := found.value;
      a[j] := a[j].(bombsAround := a[j].bombsAround + 1);
    }
    FoundBumped(fs0, done, c, before, a[..], found);
  }

  /** What that turn does to the board as a value. */
  lemma FoundBumped(fs0: seq<Field>, done: seq<Coords>, c: Coords, before: seq<Field>, after: seq<Field>,
                    found: Option<nat>)
    requires ArrayLayout(fs0) && before == Bumped(fs0, done) && c !in done
    requires found == FindIndex(before, c)
    requires found.Some? ==> (found.value < |before| &&
      after == before[found.value := before[found.value].(bombsAround := before[found.value].bombsAround + 1)])
    requires found.None? ==> after == before
    ensures after == Bumped(fs0, done + [c])
  {
    FoundAt(fs0, done, c, found);
    BumpedStep(fs0, done, c, before, after);
  }

  /** The lookup on a board finds the field at c's index exactly for grid cells. */
  lemma FoundAt(fs0: seq<Field>, done: seq<Coords>, c: Coords, found: Option<nat>)
    requires ArrayLayout(fs0) && found == FindIndex(Bumped(fs0, done), c)
    ensures found.Some? <==> OnGrid(c)
    ensures found.Some? ==> found.value == IndexOf(c) && 0 <= IndexOf(c) < FieldsCount
  {
    BumpedLayout(fs0, done);
    FindOnLayout(Bumped(fs0, done), c);
    if OnGrid(c) {
      IndexOfOnGrid(c);
    }
  }

  lemma BumpedLayout(fs: seq<Field>, cs: seq<Coords>)
    requires ArrayLayout(fs)
    ensures ArrayLayout(Bumped(fs, cs))
  {
  }

  lemma BumpedStep(fs0: seq<Field>, cs: seq<Coords>, n: Coords, before: seq<Field>, after: seq<Field>)
    requires |fs0| == FieldsCount && before == Bumped(fs0, cs)
    requires OnGrid(n) ==> (0 <= IndexOf(n) < FieldsCount &&
      after == before[IndexOf(n) := before[IndexOf(n)].(bombsAround := before[IndexOf(n)].bombsAround + 1)])
    requires !OnGrid(n) ==> after == before
    requires n !in cs
    ensures after == Bumped(fs0, cs + [n])
  {
    var r := Bumped(fs0, cs + [n]);
    forall j | 0 <= j < FieldsCount
      ensures after[j] == r[j]
    {
      CoordsAtIndex(j);
      if OnGrid(n) {
        IndexOfOnGrid(n);
        assert CoordsAt(j) == n <==> j == IndexOf(n);
      }
    }
  }

  /** The state of the counting loop before field i: the mines of the fields
      before i are marked (all of them, in the component, which marks them when
      it builds the fields) and counted. */
  ghost predicate CountedBelow(rev: Revision, fs: seq<Field>, ids: set<int>, i: int) {
    |fs| == FieldsCount &&
    forall j :: 0 <= j < FieldsCount ==> CountedField(rev, ids, i, j, fs[j])
  }

  /** The field at index j in that state. */
  ghost predicate CountedField(rev: Revision, ids: set<int>, i: int, j: int, f: Field) {
    f == EmptyFieldAt(j).(hasBomb := (j < i || rev == GameComponent) && j + 1 in ids,
                          bombsAround := CountIn(CoordsAround(FieldsConstraintsX, FieldsConstraintsY, CoordsAt(j)),
                                                 MinedBelow(ids, i)))
  }

  /** `field.hasBomb = fieldsWithBombsIds.has(field.id)` in the hook; the
      component's fields are marked already. */
  function MarkedAt(rev: Revision, fs: seq<Field>, ids: set<int>, i: int): seq<Field>
    requires 0 <= i < |fs|
  {
    if rev == MinesHook then fs[i := fs[i].(hasBomb := fs[i].id in ids)] else fs
  }

  lemma MarkedShape(rev: Revision, fs: seq<Field>, ids: set<int>, i: int)
    requires 0 <= i < FieldsCount && CountedBelow(rev, fs, ids, i)
    ensures ArrayLayout(MarkedAt(rev, fs, ids, i))
    ensures MarkedAt(rev, fs, ids, i)[i].hasBomb == (i + 1 in ids)
    ensures MarkedAt(rev, fs, ids, i)[i].coords == CoordsAt(i)
  {
    assert CountedField(rev, ids, i, i, fs[i]);
    forall j | 0 <= j < FieldsCount
      ensures fs[j].id == j + 1 && fs[j].coords == CoordsAt(j)
    {
      assert CountedField(rev, ids, i, j, fs[j]);
    }
  }

  lemma CountedFieldMined(rev: Revision, ids: set<int>, i: int, j: int, f: Field, g: Field, bump: bool)
    requires 0 <= i < FieldsCount && 0 <= j < FieldsCount && i + 1 in ids
    requires CountedField(rev, ids, i, j, f)
    requires bump == (CoordsAt(j) in CoordsAround(FieldsConstraintsX, FieldsConstraintsY, CoordsAt(i)))
    requires g == f.(hasBomb := if j == i then true else f.hasBomb, bombsAround := f.bombsAround + (if bump then 1 else 0))
    ensures CountedField(rev, ids, i + 1, j, g)
  {
    CountMinedStep(ids, i, j);
    assert (if j == i then true else f.hasBomb) == ((j < i + 1 || rev == GameComponent) && j + 1 in ids);
  }

  /** Marking the mine of field i adds one to the count of each neighbour j. */
  lemma CountMinedStep(ids: set<int>, i: int, j: int)
    requires 0 <= i < FieldsCount && 0 <= j < FieldsCount && i + 1 in ids
    ensures CountIn(CoordsAround(FieldsConstraintsX, FieldsConstraintsY, CoordsAt(j)), MinedBelow(ids, i + 1)) ==
            CountIn(CoordsAround(FieldsConstraintsX, FieldsConstraintsY, CoordsAt(j)), MinedBelow(ids, i)) +
            (if CoordsAt(j) in CoordsAround(FieldsConstraintsX, FieldsConstraintsY, CoordsAt(i)) then 1 else 0)
  {
    MinedBelowStep(ids, i);
    CoordsAtIndex(j);
    MapBoard.CountStep(FieldsConstraintsX, FieldsConstraintsY, MinedBelow(ids, i), CoordsAt(i), CoordsAt(j));
  }

  lemma CountedFieldClear(rev: Revision, ids: set<int>, i: int, j: int, f: Field)
    requires 0 <= i < FieldsCount && 0 <= j < FieldsCount && i + 1 !in ids
    requires CountedField(rev, ids, i, j, f)
    ensures CountedField(rev, ids, i + 1, j, f)
  {
    MinedBelowStep(ids, i);
    assert MinedBelow(ids, i + 1) == MinedBelow(ids, i);
    assert ((j < i || rev == GameComponent) && j + 1 in ids) == ((j < i + 1 || rev == GameComponent) && j + 1 in ids);
  }

  /** The cells of cs that lie on the grid are the in-grid neighbours of c. */
  ghost predicate AroundOnGrid(cs: seq<Coords>, c: Coords) {
    forall n :: OnGrid(n) ==> (n in cs <==> n in CoordsAround(FieldsConstraintsX, FieldsConstraintsY, c))
  }

  /** Passing a mined field: it is marked and its neighbours count one more. */
  lemma CountedMined(rev: Revision, fs: seq<Field>, ids: set<int>, i: int, cs: seq<Coords>)
    requires 0 <= i < FieldsCount && CountedBelow(rev, fs, ids, i) && i + 1 in ids
    requires AroundOnGrid(cs, CoordsAt(i))
    ensures CountedBelow(rev, Bumped(MarkedAt(rev, fs, ids, i), cs), ids, i + 1)
  {
    MarkedShape(rev, fs, ids, i);
    assert CountedField(rev, ids, i, i, fs[i]);
    forall j | 0 <= j < FieldsCount
      ensures CountedField(rev, ids, i + 1, j, Bumped(MarkedAt(rev, fs, ids, i), cs)[j])
    {
      assert CountedField(rev, ids, i, j, fs[j]);
      CountedMinedAt(rev, fs, ids, i, j, cs);
    }
  }

  lemma CountedMinedAt(rev: Revision, fs: seq<Field>, ids: set<int>, i: int, j: int, cs: seq<Coords>)
    requires 0 <= i < FieldsCount && 0 <= j < FieldsCount && |fs| == FieldsCount && i + 1 in ids
    requires CountedField(rev, ids, i, j, fs[j]) && fs[i].id == i + 1
    requires AroundOnGrid(cs, CoordsAt(i))
    ensures CountedField(rev, ids, i + 1, j, Bumped(MarkedAt(rev, fs, ids, i), cs)[j])
  {
    var m := MarkedAt(rev, fs, ids, i);
    var r := Bumped(m, cs);
    CoordsAtIndex(j);
    ghost var bump := CoordsAt(j) in cs;
    assert bump == (CoordsAt(j) in CoordsAround(FieldsConstraintsX, FieldsConstraintsY, CoordsAt(i)));
    assert m[j] == fs[j].(hasBomb := if j == i then true else fs[j].hasBomb);
    assert r[j] == m[j].(bombsAround := m[j].bombsAround + (if bump then 1 else 0));
    CountedFieldMined(rev, ids, i, j, fs[j], r[j], bump);
  }

  /** Passing a field without a mine changes nothing but the loop index. */
  lemma CountedClear(rev: Revision, fs: seq<Field>, ids: set<int>, i: int)
    requires 0 <= i < FieldsCount && CountedBelow(rev, fs, ids, i) && i + 1 !in ids
    ensures CountedBelow(rev, MarkedAt(rev, fs, ids, i), ids, i + 1)
  {
    var m := MarkedAt(rev, fs, ids, i);
    MarkedShape(rev, fs, ids, i);
    forall j | 0 <= j < FieldsCount
      ensures CountedField(rev, ids, i + 1, j, m[j])
    {
      assert CountedField(rev, ids, i, j, fs[j]);
      CountedFieldClear(rev, ids, i, j, fs[j]);
    }
  }

  /** One pass of `for (const field of fields)`: the hook marks the field's
      mine; a mined field raises the count of the fields around it. */
  method CountAt(rev: Revision, a: array<Field>, ids: set<int>, i: int)
    requires 0 <= i < FieldsCount && a.Length == FieldsCount
    requires CountedBelow(rev, a[..], ids, i)
    modifies a
    ensures CountedBelow(rev, a[..], ids, i + 1)
  {
    ghost var before := a[..];
    MarkedShape(rev, before, ids, i);
    if rev == MinesHook {
      a[i] := a[i].(hasBomb := a[i].id in ids);
    }
    assert a[..] == MarkedAt(rev, before, ids, i);
    if a[i].hasBomb {
      var cs := Neighbours(rev, a[i].coords);
      IncrementFound(a, cs);
      CountedMined(rev, before, ids, i, cs);
    } else {
      CountedClear(rev, before, ids, i);
    }
  }

  /** The `for (const field of fields)` loop of either revision: afterwards the
      fields whose id is among ids are mined and every count is right. The
      component's fields arrive already marked; the hook marks them in the loop. */
  method CountBombsAround(rev: Revision, a: array<Field>, ids: set<int>)
    requires a.Length == FieldsCount
    requires forall j :: 0 <= j < FieldsCount ==> a[j] == EmptyFieldAt(j).(hasBomb := rev == GameComponent && j + 1 in ids)
    modifies a
    ensures a[..] == Staged(MinedCells(ids))
  {
    CountedStart(rev, a[..], ids);
    var i := 0;
    while i < FieldsCount
      invariant 0 <= i <= FieldsCount
      invariant CountedBelow(rev, a[..], ids, i)
    {
      CountAt(rev, a, ids, i);
      i := i + 1;
    }
    CountedDone(rev, a[..], ids);
  }

  lemma CountedStart(rev: Revision, fs: seq<Field>, ids: set<int>)
    requires |fs| == FieldsCount
    requires forall j :: 0 <= j < FieldsCount ==> fs[j] == EmptyFieldAt(j).(hasBomb := rev == GameComponent && j + 1 in ids)
    ensures CountedBelow(rev, fs, ids, 0)
  {
    assert MinedBelow(ids, 0) == {};
    forall j | 0 <= j < FieldsCount
      ensures CountedField(rev, ids, 0, j, fs[j])
    {
      CountInNone(CoordsAround(FieldsConstraintsX, FieldsConstraintsY, CoordsAt(j)), {});
    }
  }

  lemma CountedDone(rev: Revision, fs: seq<Field>, ids: set<int>)
    requires CountedBelow(rev, fs, ids, FieldsCount)
    ensures fs == Staged(MinedCells(ids))
  {
    forall j | 0 <= j < FieldsCount
      ensures fs[j] == Staged(MinedCells(ids))[j]
    {
      assert CountedField(rev, ids, FieldsCount, j, fs[j]);
      CountedDoneAt(rev, ids, j, fs[j]);
    }
  }

  lemma CountedDoneAt(rev: Revision, ids: set<int>, j: int, f: Field)
    requires 0 <= j < FieldsCount && CountedField(rev, ids, FieldsCount, j, f)
    ensures f == Staged(MinedCells(ids))[j]
  {
    MinedCellAt(ids, j);
    assert MinedCells(ids) == MinedBelow(ids, FieldsCount);
  }

  lemma MinedCellAt(ids: set<int>, j: int)
    requires 0 <= j < FieldsCount
    ensures CoordsAt(j) in MinedCells(ids) <==> j + 1 in ids
  {
    CoordsAtIndex(j);
    MinedCellsOf(ids, CoordsAt(j));
  }
}
