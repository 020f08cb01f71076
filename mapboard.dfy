/** The board of the latest engine (src/hooks/useGame.ts): a map from the
    coordinates of each cell to its field, for a grid w fields wide and h high.
    The source keys the map by the text "[x,y]"; module Keys shows that key is
    injective, so keying by `Coords` loses nothing. The source iterates the map
    in insertion order, which is row-major order (`RowMajor`) because every map
    is built by `GenerateEmptyFields`. */
module MapBoard {
  import opened Board

  type FieldsMap = map<Coords, Field>

  /** The id `generateEmptyFields` gives the cell at c: x + w * (y - 1). */
  function IdOf(w: int, c: Coords): int {
    c.x + w * (c.y - 1)
  }

  /** The cell with id k, 1-based, in row-major order. */
  function CellOf(w: int, k: int): Coords
    requires w >= 1
  {
    Coords((k - 1) % w + 1, (k - 1) / w + 1)
  }

  function EmptyField(w: int, c: Coords): Field {
    Field(IdOf(w, c), c, false, false, false, 0)
  }

  /** One entry per in-grid cell, stored under its own coordinates, with the
      id the grid assigns to it. Every board map of the engine has this shape. */
  ghost predicate IsLayout(w: nat, h: nat, m: FieldsMap) {
    (forall c :: c in m <==> InBounds(w, h, c)) &&
    (forall c :: c in m ==> m[c].coords == c && m[c].id == IdOf(w, c))
  }

  /** The board `generateEmptyFields` builds: every cell closed, unflagged,
      without a mine and with a zero count. */
  ghost predicate IsEmptyBoard(w: nat, h: nat, m: FieldsMap) {
    (forall c :: c in m <==> InBounds(w, h, c)) &&
    (forall c :: c in m ==> m[c] == EmptyField(w, c))
  }

  /** The integers 1 to n. */
  function UpTo(n: nat): (r: set<int>)
    ensures forall k :: k in r <==> 1 <= k <= n
    ensures |r| == n
  {
    if n == 0 then {} else UpTo(n - 1) + {n}
  }

  /** The ids of a w x h board, 1 to w * h. */
  function IdRange(w: nat, h: nat): set<int> {
    UpTo(w * h)
  }

  lemma IdInRange(w: nat, h: nat, c: Coords)
    requires InBounds(w, h, c)
    ensures IdOf(w, c) in IdRange(w, h)
  {
    MulSign(w, c.y - 1);
    MulSign(w, h - c.y);
    assert w * (h - c.y) == w * h - w * (c.y - 1) - w;
  }

  /** Distinct in-grid cells have distinct ids. */
  lemma IdOfInjective(w: nat, h: nat, a: Coords, b: Coords)
    requires InBounds(w, h, a) && InBounds(w, h, b)
    requires IdOf(w, a) == IdOf(w, b)
    ensures a == b
  {
    assert w * (a.y - b.y) == w * (a.y - 1) - w * (b.y - 1);
    MulSign(w, a.y - b.y);
  }

  /** The row index of a position below w * h is below h. */
  lemma QuotientBelow(n: int, w: int, h: int)
    requires w >= 1 && 0 <= n < w * h
    ensures 0 <= n / w < h
  {
    var q := n / w;
    assert n == w * q + n % w;
    MulSign(w, q);
    MulSign(w, q - h + 1);
    assert w * (q - h + 1) == w * q - w * h + w;
  }

  /** Every id of the range belongs to exactly one cell, `CellOf`. */
  lemma CellOfId(w: nat, h: nat, k: int)
    requires w >= 1 && k in IdRange(w, h)
    ensures InBounds(w, h, CellOf(w, k)) && IdOf(w, CellOf(w, k)) == k
  {
    var q, r := (k - 1) / w, (k - 1) % w;
    assert k - 1 == w * q + r;
    QuotientBelow(k - 1, w, h);
    var c := CellOf(w, k);
    assert c.x == r + 1 && c.y - 1 == q;
  }

  lemma CellOfIdOf(w: nat, h: nat, c: Coords)
    requires InBounds(w, h, c)
    ensures CellOf(w, IdOf(w, c)) == c
  {
    IdInRange(w, h, c);
    CellOfId(w, h, IdOf(w, c));
    IdOfInjective(w, h, c, CellOf(w, IdOf(w, c)));
  }

  /** A board map holds w * h fields. */
  lemma LayoutSize(w: nat, h: nat, m: FieldsMap)
    requires IsLayout(w, h, m)
    ensures |m| == w * h
  {
    var order := RowMajor(w, h);
    assert m.Keys == set c | c in order;
    DistinctCard(order);
  }

  /** `generateEmptyFields`: fills the map row by row, left to right. */
  method GenerateEmptyFields(w: nat, h: nat) returns (m: FieldsMap)
    ensures IsEmptyBoard(w, h, m)
  {
    m := map[];
    var y := 0;
    while y < h
      invariant 0 <= y <= h
      invariant forall c :: c in m <==> InBounds(w, y, c)
      invariant forall c :: c in m ==> m[c] == EmptyField(w, c)
    {
      var x := 0;
      while x < w
        invariant 0 <= x <= w
        invariant forall c :: c in m <==> InBounds(w, y, c) || (c.y == y + 1 && 1 <= c.x <= x)
        invariant forall c :: c in m ==> m[c] == EmptyField(w, c)
      {
        var coords := Coords(x + 1, y + 1);
        m := m[coords := Field(x + 1 + w * y, coords, false, false, false, 0)];
        x := x + 1;
      }
      y := y + 1;
    }
  }

  /** The ids of an empty board are exactly 1 .. w * h, one per field. */
  lemma EmptyBoardIds(w: nat, h: nat, m: FieldsMap)
    requires IsEmptyBoard(w, h, m)
    ensures IsLayout(w, h, m) && |m| == w * h
    ensures (set c | c in m :: m[c].id) == IdRange(w, h)
    ensures forall a, b :: a in m && b in m && m[a].id == m[b].id ==> a == b
  {
    LayoutSize(w, h, m);
    forall a, b | a in m && b in m && m[a].id == m[b].id
      ensures a == b
    {
      IdOfInjective(w, h, a, b);
    }
    forall k | k in IdRange(w, h)
      ensures k in (set c | c in m :: m[c].id)
    {
      CellOfId(w, h, k);
      assert m[CellOf(w, k)].id == k;
    }
    forall c | c in m
      ensures m[c].id in IdRange(w, h)
    {
      IdInRange(w, h, c);
    }
  }

  /** The distinct draws that are not reserved. */
  function NonReserved(draws: seq<int>, reserved: set<int>): set<int> {
    set d | d in draws && d !in reserved
  }

  /** used is where the draw loop stops: at the first prefix of the draws that
      holds bombsCount non-reserved ids, or after all of them when none does. */
  ghost predicate DrawStop(draws: seq<int>, used: nat, reserved: set<int>, bombsCount: nat) {
    used <= |draws| &&
    |NonReserved(draws[..used], reserved)| <= bombsCount &&
    (|NonReserved(draws[..used], reserved)| < bombsCount ==> used == |draws|) &&
    (forall u :: 0 <= u < used ==> |NonReserved(draws[..u], reserved)| < bombsCount)
  }

  /** The draws decide where the loop stops. */
  lemma DrawStopUnique(draws: seq<int>, u1: nat, u2: nat, reserved: set<int>, bombsCount: nat)
    requires DrawStop(draws, u1, reserved, bombsCount) && DrawStop(draws, u2, reserved, bombsCount)
    ensures u1 == u2
  {
  }

  /** The `while` loop of `generateFieldsWithBombs` that collects mine ids:
      each draw is kept unless reserved, until bombsCount ids are collected.
      `Math.random` is replaced by the draws; the loop also stops when they
      run out, and `used` is how many it consumed. */
  method DrawBombIds(reserved: set<int>, bombsCount: nat, draws: seq<int>)
    returns (bombIds: set<int>, used: nat)
    ensures DrawStop(draws, used, reserved, bombsCount)
    ensures bombIds == NonReserved(draws[..used], reserved)
    ensures |NonReserved(draws, reserved)| >= bombsCount ==> |bombIds| == bombsCount
  {
    bombIds := {};
    used := 0;
    while |bombIds| < bombsCount && used < |draws|
      invariant used <= |draws|
      invariant bombIds == NonReserved(draws[..used], reserved)
      invariant |bombIds| <= bombsCount
      invariant forall u :: 0 <= u < used ==> |NonReserved(draws[..u], reserved)| < bombsCount
      decreases |draws| - used
    {
      var randomBombId := draws[used];
      assert draws[..used + 1] == draws[..used] + [randomBombId];
      if randomBombId !in reserved {
        bombIds := bombIds + {randomBombId};
      }
      used := used + 1;
    }
    assert used == |draws| ==> draws[..used] == draws;
  }

  /** The in-grid cells. */
  function Cells(w: nat, h: nat): (r: set<Coords>)
    ensures forall c :: c in r <==> InBounds(w, h, c)
  {
    set c | c in RowMajor(w, h)
  }

  /** The cells whose id is among ids. */
  function MinedCells(w: nat, h: nat, ids: set<int>): set<Coords> {
    set c | c in Cells(w, h) && IdOf(w, c) in ids
  }

  /** The mined cells of a board. */
  function BombCoords(m: FieldsMap): set<Coords> {
    set c | c in m && m[c].hasBomb
  }

  /** Every field counts the mines among its in-grid neighbours. */
  ghost predicate CountsCorrect(w: nat, h: nat, m: FieldsMap) {
    forall c :: c in m ==> m[c].bombsAround == CountIn(CoordsAround(w, h, c), BombCoords(m))
  }

  /** The mined cells whose id is at most n. */
  function MinedUpTo(w: nat, h: nat, ids: set<int>, n: int): set<Coords> {
    set c | c in MinedCells(w, h, ids) && IdOf(w, c) <= n
  }

  lemma MinedUpToStep(w: nat, h: nat, ids: set<int>, n: int)
    requires w >= 1 && 1 <= n <= w * h
    ensures MinedUpTo(w, h, ids, n) ==
      MinedUpTo(w, h, ids, n - 1) + (if n in ids then {CellOf(w, n)} else {})
    ensures CellOf(w, n) !in MinedUpTo(w, h, ids, n - 1)
  {
    CellOfId(w, h, n);
    var c := CellOf(w, n);
    var below, upTo := MinedUpTo(w, h, ids, n - 1), MinedUpTo(w, h, ids, n);
    var extra := if n in ids then {c} else {};
    forall d | d in upTo
      ensures d in below + extra
    {
      if IdOf(w, d) == n {
        IdOfInjective(w, h, d, c);
      } else {
        assert d in below;
      }
    }
    forall d | d in below + extra
      ensures d in upTo
    {
      if d in extra {
        assert d in MinedCells(w, h, ids);
      }
    }
    assert upTo == below + extra;
  }

  /** The ids among ids that are at most n. */
  function IdsUpTo(ids: set<int>, n: int): set<int> {
    set k | k in ids && 1 <= k <= n
  }

  lemma {:induction false} MinedUpToCard(w: nat, h: nat, ids: set<int>, n: nat)
    requires w >= 1 && n <= w * h
    ensures |MinedUpTo(w, h, ids, n)| == |IdsUpTo(ids, n)|
  {
    if n == 0 {
      MinedUpToZero(w, h, ids);
    } else {
      MinedUpToCard(w, h, ids, n - 1);
      MinedUpToCardStep(w, h, ids, n);
    }
  }

  lemma MinedUpToCardStep(w: nat, h: nat, ids: set<int>, n: nat)
    requires w >= 1 && 1 <= n <= w * h
    requires |MinedUpTo(w, h, ids, n - 1)| == |IdsUpTo(ids, n - 1)|
    ensures |MinedUpTo(w, h, ids, n)| == |IdsUpTo(ids, n)|
  {
    MinedUpToStep(w, h, ids, n);
    IdsUpToStep(ids, n);
    AddOneCard(MinedUpTo(w, h, ids, n - 1), MinedUpTo(w, h, ids, n), CellOf(w, n),
               IdsUpTo(ids, n - 1), IdsUpTo(ids, n), n, n in ids);
  }

  lemma MinedUpToZero(w: nat, h: nat, ids: set<int>)
    requires w >= 1
    ensures |MinedUpTo(w, h, ids, 0)| == |IdsUpTo(ids, 0)|
  {
    forall c | c in MinedCells(w, h, ids)
      ensures IdOf(w, c) > 0
    {
      IdInRange(w, h, c);
    }
    assert MinedUpTo(w, h, ids, 0) == {};
    assert IdsUpTo(ids, 0) == {};
  }

  lemma IdsUpToStep(ids: set<int>, n: int)
    ensures IdsUpTo(ids, n) == IdsUpTo(ids, n - 1) + (if n in ids && 1 <= n then {n} else {})
    ensures n !in IdsUpTo(ids, n - 1)
  {
  }

  /** Adding one new element to each of two sets of equal size, or none. */
  lemma AddOneCard<T, U>(a: set<T>, a2: set<T>, x: T, b: set<U>, b2: set<U>, y: U, present: bool)
    requires a2 == a + (if present then {x} else {}) && b2 == b + (if present then {y} else {})
    requires x !in a && y !in b && |a| == |b|
    ensures |a2| == |b2|
  {
    if present {
      assert |a2| == |a| + 1 && |b2| == |b| + 1;
    } else {
      assert a2 == a && b2 == b;
    }
  }

  /** Ids name cells one to one, so as many cells are mined as there are
      in-range ids. */
  lemma MinedCellsCard(w: nat, h: nat, ids: set<int>)
    requires w >= 1
    ensures |MinedCells(w, h, ids)| == |ids * IdRange(w, h)|
  {
    MinedUpToCard(w, h, ids, w * h);
    forall c | c in MinedCells(w, h, ids)
      ensures IdOf(w, c) <= w * h
    {
      IdInRange(w, h, c);
    }
    assert MinedUpTo(w, h, ids, w * h) == MinedCells(w, h, ids);
    assert IdsUpTo(ids, w * h) == ids * IdRange(w, h);
  }

  /** The board with one more mine counted next to every in-grid neighbour of c. */
  function Bumped(w: nat, h: nat, m: FieldsMap, c: Coords): FieldsMap {
    map d | d in m :: m[d].(bombsAround := m[d].bombsAround + (if d in CoordsAround(w, h, c) then 1 else 0))
  }

  /** `findCoordsAround(c).map(lookup).forEach(f => f && f.bombsAround++)`. */
  method IncrementAround(w: nat, h: nat, m0: FieldsMap, c: Coords) returns (m: FieldsMap)
    ensures m == Bumped(w, h, m0, c)
  {
    var around := CoordsAround(w, h, c);
    m := m0;
    var j := 0;
    while j < |around|
      invariant 0 <= j <= |around|
      invariant forall d :: d in m <==> d in m0
      invariant forall d :: d in m ==>
        m[d] == m0[d].(bombsAround := m0[d].bombsAround + (if d in around[..j] then 1 else 0))
    {
      var n := around[j];
      assert around[..j + 1] == around[..j] + [n];
      if n in m {
        m := m[n := m[n].(bombsAround := m[n].bombsAround + 1)];
      }
      j := j + 1;
    }
    assert around[..j] == around;
  }

  /** Mining one more in-grid cell c raises the count of exactly c's neighbours. */
  lemma CountStep(w: nat, h: nat, done: set<Coords>, c: Coords, d: Coords)
    requires InBounds(w, h, c) && InBounds(w, h, d) && c !in done
    ensures CountIn(CoordsAround(w, h, d), done + {c}) ==
            CountIn(CoordsAround(w, h, d), done) + (if d in CoordsAround(w, h, c) then 1 else 0)
  {
    CountInAdd(CoordsAround(w, h, d), done, c);
    AroundSymmetric(w, h, c, d);
  }

  /** The cells of cs whose stored id is among ids. */
  function MinedAmong(m0: FieldsMap, cs: seq<Coords>, ids: set<int>): set<Coords> {
    set c | c in cs && c in m0 && m0[c].id in ids
  }

  lemma MinedAmongSnoc(m0: FieldsMap, cs: seq<Coords>, c: Coords, ids: set<int>)
    ensures MinedAmong(m0, cs + [c], ids) ==
      MinedAmong(m0, cs, ids) + (if c in m0 && m0[c].id in ids then {c} else {})
  {
  }

  /** The board m0 with exactly the cells of mined mined and every count taken
      over them. */
  function Stage(w: nat, h: nat, m0: FieldsMap, mined: set<Coords>): FieldsMap {
    map d | d in m0 :: m0[d].(hasBomb := d in mined, bombsAround := CountIn(CoordsAround(w, h, d), mined))
  }

  lemma StageCountMined(w: nat, h: nat, m0: FieldsMap, mined: set<Coords>, c: Coords, d: Coords)
    requires d in m0 && InBounds(w, h, c) && InBounds(w, h, d) && c !in mined
    ensures Stage(w, h, m0, mined + {c})[d].bombsAround ==
      CountIn(CoordsAround(w, h, d), mined) + (if d in CoordsAround(w, h, c) then 1 else 0)
  {
    CountStep(w, h, mined, c, d);
  }

  lemma MarkedBumpedAt(w: nat, h: nat, m0: FieldsMap, mined: set<Coords>, c: Coords, d: Coords)
    requires c in m0 && d in m0
    ensures var m := Stage(w, h, m0, mined);
      var b := Bumped(w, h, m[c := m[c].(hasBomb := true)], c)[d];
      b.bombsAround == CountIn(CoordsAround(w, h, d), mined) + (if d in CoordsAround(w, h, c) then 1 else 0) &&
      b.hasBomb == (d in mined + {c}) &&
      b.(hasBomb := m0[d].hasBomb, bombsAround := m0[d].bombsAround) == m0[d]
  {
  }

  lemma StageAtMined(w: nat, h: nat, m0: FieldsMap, mined: set<Coords>, c: Coords, d: Coords)
    requires c in m0 && d in m0 && InBounds(w, h, c) && InBounds(w, h, d) && c !in mined
    ensures var m := Stage(w, h, m0, mined);
      Stage(w, h, m0, mined + {c})[d] == Bumped(w, h, m[c := m[c].(hasBomb := true)], c)[d]
  {
    var m := Stage(w, h, m0, mined);
    var a, b := Stage(w, h, m0, mined + {c})[d], Bumped(w, h, m[c := m[c].(hasBomb := true)], c)[d];
    StageCountMined(w, h, m0, mined, c, d);
    MarkedBumpedAt(w, h, m0, mined, c, d);
    assert a.id == b.id && a.coords == b.coords && a.isOpened == b.isOpened && a.hasFlag == b.hasFlag;
  }

  lemma MapsEqual(a: FieldsMap, b: FieldsMap)
    requires a.Keys == b.Keys && forall k :: k in a ==> a[k] == b[k]
    ensures a == b
  {
  }

  lemma StageKeysMined(w: nat, h: nat, m0: FieldsMap, mined: set<Coords>, c: Coords)
    requires c in m0
    ensures var m := Stage(w, h, m0, mined);
      Stage(w, h, m0, mined + {c}).Keys == Bumped(w, h, m[c := m[c].(hasBomb := true)], c).Keys
  {
  }

  /** Mining one more cell c: mark it, then count it next to its neighbours. */
  lemma StageStepMined(w: nat, h: nat, m0: FieldsMap, mined: set<Coords>, c: Coords)
    requires forall d :: d in m0 <==> InBounds(w, h, d)
    requires c in m0 && c !in mined
    ensures var m := Stage(w, h, m0, mined);
      Stage(w, h, m0, mined + {c}) == Bumped(w, h, m[c := m[c].(hasBomb := true)], c)
  {
    var m := Stage(w, h, m0, mined);
    var lhs, rhs := Stage(w, h, m0, mined + {c}), Bumped(w, h, m[c := m[c].(hasBomb := true)], c);
    StageKeysMined(w, h, m0, mined, c);
    forall d | d in lhs
      ensures lhs[d] == rhs[d]
    {
      StageAtMined(w, h, m0, mined, c, d);
    }
    MapsEqual(lhs, rhs);
  }

  /** Visiting a cell that is not mined changes nothing. */
  lemma StageStepClear(w: nat, h: nat, m0: FieldsMap, mined: set<Coords>, c: Coords)
    requires c in m0 && c !in mined
    ensures var m := Stage(w, h, m0, mined);
      m[c := m[c].(hasBomb := false)] == m
  {
    var m := Stage(w, h, m0, mined);
    var f := m[c];
    assert f.(hasBomb := false) == f;
    MapsEqual(m[c := f.(hasBomb := false)], m);
  }

  /** Before the loop no cell is mined and every count is zero. */
  lemma StageEmpty(w: nat, h: nat, m0: FieldsMap)
    requires IsEmptyBoard(w, h, m0)
    ensures Stage(w, h, m0, {}) == m0
  {
    var st := Stage(w, h, m0, {});
    forall d | d in st
      ensures st[d] == m0[d]
    {
      CountInNone(CoordsAround(w, h, d), {});
    }
    MapsEqual(st, m0);
  }

  lemma MinedAmongAll(w: nat, h: nat, m0: FieldsMap, ids: set<int>)
    requires IsEmptyBoard(w, h, m0)
    ensures MinedAmong(m0, RowMajor(w, h), ids) == MinedCells(w, h, ids)
  {
  }

  /** One turn of the mine-placing loop, at cell c:
      `field.hasBomb = ids.has(field.id)`, then the neighbours' counts. */
  method VisitCell(w: nat, h: nat, m0: FieldsMap, bombIds: set<int>, m: FieldsMap,
                   ghost mined: set<Coords>, c: Coords) returns (r: FieldsMap)
    requires forall d :: d in m0 <==> InBounds(w, h, d)
    requires m == Stage(w, h, m0, mined) && c in m0 && c !in mined
    ensures r == Stage(w, h, m0, mined + (if m0[c].id in bombIds then {c} else {}))
  {
    if m[c].id in bombIds {
      r := MarkMined(w, h, m0, bombIds, m, mined, c);
    } else {
      r := MarkClear(w, h, m0, bombIds, m, mined, c);
    }
  }

  /** The mined branch of that turn: mark c and count it next to its neighbours. */
  method MarkMined(w: nat, h: nat, m0: FieldsMap, bombIds: set<int>, m: FieldsMap, ghost mined: set<Coords>,
                   c: Coords) returns (r: FieldsMap)
    requires forall d :: d in m0 <==> InBounds(w, h, d)
    requires m == Stage(w, h, m0, mined) && c in m0 && c !in mined && m[c].id in bombIds
    ensures r == Stage(w, h, m0, mined + (if m0[c].id in bombIds then {c} else {}))
  {
    assert mined + (if m0[c].id in bombIds then {c} else {}) == mined + {c};
    StageStepMined(w, h, m0, mined, c);
    r := IncrementAround(w, h, m[c := m[c].(hasBomb := true)], c);
  }

  /** The other branch: `hasBomb` stays false and no count changes. */
  method MarkClear(w: nat, h: nat, m0: FieldsMap, bombIds: set<int>, m: FieldsMap, ghost mined: set<Coords>,
                   c: Coords) returns (r: FieldsMap)
    requires m == Stage(w, h, m0, mined) && c in m0 && c !in mined && m[c].id !in bombIds
    ensures r == Stage(w, h, m0, mined + (if m0[c].id in bombIds then {c} else {}))
  {
    assert mined + (if m0[c].id in bombIds then {c} else {}) == mined;
    r := m[c := m[c].(hasBomb := false)];
    StageStepClear(w, h, m0, mined, c);
  }

  /** Once every cell has been visited, the mines are the cells of the id set
      and every count is right. */
  lemma StageFinal(w: nat, h: nat, m0: FieldsMap, bombIds: set<int>)
    requires IsEmptyBoard(w, h, m0)
    ensures var m := Stage(w, h, m0, MinedCells(w, h, bombIds));
      IsLayout(w, h, m) &&
      BombCoords(m) == MinedCells(w, h, bombIds) &&
      CountsCorrect(w, h, m)
  {
    var mined := MinedCells(w, h, bombIds);
    var m := Stage(w, h, m0, mined);
    StagedMines(w, h, m0, mined);
    forall c | c in m
      ensures m[c].bombsAround == CountIn(CoordsAround(w, h, c), BombCoords(m))
    {
      assert m[c].bombsAround == CountIn(CoordsAround(w, h, c), mined);
    }
    forall c | c in m
      ensures m[c].coords == c && m[c].id == IdOf(w, c)
    {
      assert m[c] == m0[c].(hasBomb := c in mined, bombsAround := CountIn(CoordsAround(w, h, c), mined));
    }
  }

  /** The mines of a staged board are the staged cells of the grid. */
  lemma StagedMines(w: nat, h: nat, m0: FieldsMap, mined: set<Coords>)
    requires forall c :: c in m0 <==> InBounds(w, h, c)
    requires forall c :: c in mined ==> InBounds(w, h, c)
    ensures BombCoords(Stage(w, h, m0, mined)) == mined
  {
    var m := Stage(w, h, m0, mined);
    forall c | c in mined
      ensures c in BombCoords(m)
    {
      assert c in m && m[c].hasBomb;
    }
  }

  /** The mine-placing `for` loop of `generateFieldsWithBombs`: in map order,
      each field gets `hasBomb` from the id set, and each mined field adds one
      to the count of every neighbour. */
  method PlaceBombs(w: nat, h: nat, m0: FieldsMap, bombIds: set<int>) returns (m: FieldsMap)
    requires IsEmptyBoard(w, h, m0)
    ensures m == Stage(w, h, m0, MinedCells(w, h, bombIds))
  {
    var order := RowMajor(w, h);
    m := m0;
    var i := 0;
    assert MinedAmong(m0, order[..0], bombIds) == {};
    StageEmpty(w, h, m0);
    while i < |order|
      invariant 0 <= i <= |order|
      invariant m == Stage(w, h, m0, MinedAmong(m0, order[..i], bombIds))
    {
      var c := order[i];
      assert order[..i + 1] == order[..i] + [c];
      MinedAmongSnoc(m0, order[..i], c, bombIds);
      m := VisitCell(w, h, m0, bombIds, m, MinedAmong(m0, order[..i], bombIds), c);
      i := i + 1;
    }
    assert order[..i] == order;
    MinedAmongAll(w, h, m0, bombIds);
  }

  /** The ids no mine may take: the first-clicked field's own id and the ids of
      the in-grid cells around it. */
  function ReservedIds(w: nat, h: nat, first: Field): set<int> {
    {first.id} + IdsOf(w, CoordsAround(w, h, first.coords))
  }

  function IdsOf(w: nat, cs: seq<Coords>): (r: set<int>)
    ensures forall n :: n in cs ==> IdOf(w, n) in r
    ensures |r| <= |cs|
  {
    if cs == [] then {} else IdsOf(w, cs[..|cs| - 1]) + {IdOf(w, cs[|cs| - 1])}
  }

  /** At most nine ids are reserved. */
  lemma ReservedIdsCard(w: nat, h: nat, first: Field)
    ensures |ReservedIds(w, h, first)| <= 9
  {
    var around := IdsOf(w, CoordsAround(w, h, first.coords));
    assert |{first.id} + around| <= 1 + |around|;
  }

  /** The mines lie outside the safe zone of the first click. */
  ghost predicate SafeZone(w: nat, h: nat, first: Field, m: FieldsMap) {
    forall c :: c in m && m[c].hasBomb ==> m[c].id != first.id && c !in CoordsAround(w, h, first.coords)
  }

  /** The board `generateFieldsWithBombs(first)` builds from the first `used`
      draws: every field closed and unflagged; the mines are the fields whose id
      is a drawn, non-reserved id; none lies in the safe zone; every count is
      right; the draws consumed are those up to where the loop stops; at most
      bombsCount mines, and exactly bombsCount when the draws are ids of the
      board and hold enough non-reserved ones. */
  ghost predicate FreshBoard(w: nat, h: nat, bombsCount: nat, first: Field, draws: seq<int>, used: nat, m: FieldsMap) {
    IsLayout(w, h, m) && CountsCorrect(w, h, m) &&
    (forall c :: c in m ==> !m[c].isOpened && !m[c].hasFlag) &&
    DrawStop(draws, used, ReservedIds(w, h, first), bombsCount) &&
    (forall c :: c in m ==> (m[c].hasBomb <==> m[c].id in NonReserved(draws[..used], ReservedIds(w, h, first)))) &&
    SafeZone(w, h, first, m) &&
    |BombCoords(m)| <= bombsCount &&
    (((forall d :: d in draws ==> d in IdRange(w, h)) &&
      |NonReserved(draws, ReservedIds(w, h, first))| >= bombsCount) ==> |BombCoords(m)| == bombsCount)
  }

  /** The draws decide the fresh board: two boards built from the same draws
      around the same click are the same board. */
  lemma FreshBoardDetermined(w: nat, h: nat, bombsCount: nat, first: Field, draws: seq<int>,
                             u1: nat, m1: FieldsMap, u2: nat, m2: FieldsMap)
    requires FreshBoard(w, h, bombsCount, first, draws, u1, m1)
    requires FreshBoard(w, h, bombsCount, first, draws, u2, m2)
    ensures u1 == u2 && m1 == m2
  {
    DrawStopUnique(draws, u1, u2, ReservedIds(w, h, first), bombsCount);
    SameMinesSameBoard(w, h, m1, m2, NonReserved(draws[..u1], ReservedIds(w, h, first)));
  }

  /** Two closed, unflagged, correctly counted layouts that mine the same ids
      are equal. */
  lemma SameMinesSameBoard(w: nat, h: nat, m1: FieldsMap, m2: FieldsMap, ids: set<int>)
    requires IsLayout(w, h, m1) && CountsCorrect(w, h, m1) && IsLayout(w, h, m2) && CountsCorrect(w, h, m2)
    requires forall c :: c in m1 ==> !m1[c].isOpened && !m1[c].hasFlag && (m1[c].hasBomb <==> m1[c].id in ids)
    requires forall c :: c in m2 ==> !m2[c].isOpened && !m2[c].hasFlag && (m2[c].hasBomb <==> m2[c].id in ids)
    ensures m1 == m2
  {
    assert m1.Keys == m2.Keys;
    SameBombs(m1, m2);
    forall c | c in m1
      ensures m1[c] == m2[c]
    {
      SameField(m1[c], m2[c], c, IdOf(w, c), CountIn(CoordsAround(w, h, c), BombCoords(m1)));
    }
    MapsEqual(m1, m2);
  }

  lemma SameBombs(m1: FieldsMap, m2: FieldsMap)
    requires m1.Keys == m2.Keys && forall c :: c in m1 ==> m1[c].hasBomb == m2[c].hasBomb
    ensures BombCoords(m1) == BombCoords(m2)
  {
  }

  lemma SameField(f1: Field, f2: Field, c: Coords, id: int, count: int)
    requires f1.coords == c && f2.coords == c && f1.id == id && f2.id == id
    requires f1.bombsAround == count && f2.bombsAround == count
    requires !f1.isOpened && !f2.isOpened && !f1.hasFlag && !f2.hasFlag && f1.hasBomb == f2.hasBomb
    ensures f1 == f2
  {
  }

  /** `generateFieldsWithBombs(firstClicked)`: a fresh board whose mines are the
      first bombsCount distinct non-reserved draws, counted next to every cell. */
  method GenerateFieldsWithBombs(w: nat, h: nat, bombsCount: nat, first: Field, draws: seq<int>)
    returns (m: FieldsMap, used: nat)
    ensures FreshBoard(w, h, bombsCount, first, draws, used, m)
  {
    var m0 := GenerateEmptyFields(w, h);
    var around := CoordsAround(w, h, first.coords);
    var reservedIds := {first.id} + LookupIds(m0, around);
    LookupIdsOf(w, h, m0, around);
    var bombIds;
    bombIds, used := DrawBombIds(reservedIds, bombsCount, draws);
    m := PlaceBombs(w, h, m0, bombIds);
    PlacedBoard(w, h, m0, bombIds, reservedIds, first);
    BombCount(w, h, bombIds);
    DrawnInRange(w, h, draws, used, reservedIds);
  }

  /** `cs.map((coords) => fields.get(coordsToKey(coords))?.id)`, as a set. */
  function LookupIds(m: FieldsMap, cs: seq<Coords>): set<int> {
    if cs == [] then {}
    else
      var last := cs[|cs| - 1];
      LookupIds(m, cs[..|cs| - 1]) + (if last in m then {m[last].id} else {})
  }

  /** On a board map, looking the ids up gives the ids of the grid. */
  lemma {:induction false} LookupIdsOf(w: nat, h: nat, m: FieldsMap, cs: seq<Coords>)
    requires IsLayout(w, h, m) && forall n :: n in cs ==> InBounds(w, h, n)
    ensures LookupIds(m, cs) == IdsOf(w, cs)
  {
    if cs != [] {
      assert forall n :: n in cs[..|cs| - 1] ==> n in cs;
      LookupIdsOf(w, h, m, cs[..|cs| - 1]);
    }
  }

  lemma DrawnInRange(w: nat, h: nat, draws: seq<int>, used: nat, reserved: set<int>)
    requires used <= |draws|
    ensures (forall d :: d in draws ==> d in IdRange(w, h)) ==> NonReserved(draws[..used], reserved) <= IdRange(w, h)
  {
    assert forall d :: d in draws[..used] ==> d in draws;
  }

  /** What placing the drawn ids on the empty board yields. */
  lemma PlacedBoard(w: nat, h: nat, m0: FieldsMap, bombIds: set<int>, reserved: set<int>, first: Field)
    requires IsEmptyBoard(w, h, m0)
    requires reserved == ReservedIds(w, h, first) && bombIds * reserved == {}
    ensures var m := Stage(w, h, m0, MinedCells(w, h, bombIds));
      IsLayout(w, h, m) && CountsCorrect(w, h, m) &&
      (forall c :: c in m ==> !m[c].isOpened && !m[c].hasFlag) &&
      (forall c :: c in m ==> (m[c].hasBomb <==> m[c].id in bombIds)) &&
      SafeZone(w, h, first, m) &&
      BombCoords(m) == MinedCells(w, h, bombIds)
  {
    StageFinal(w, h, m0, bombIds);
    var m := Stage(w, h, m0, MinedCells(w, h, bombIds));
    forall c | c in m && m[c].hasBomb
      ensures m[c].id != first.id && c !in CoordsAround(w, h, first.coords)
    {
      assert IdOf(w, c) in bombIds;
      assert c in CoordsAround(w, h, first.coords) ==> IdOf(w, c) in reserved;
    }
  }

  /** As many mines as in-range ids: never more than the ids, and exactly as
      many when all of them are in range. */
  lemma BombCount(w: nat, h: nat, bombIds: set<int>)
    ensures |MinedCells(w, h, bombIds)| <= |bombIds|
    ensures bombIds <= IdRange(w, h) ==> |MinedCells(w, h, bombIds)| == |bombIds|
  {
    if w >= 1 {
      MinedCellsCard(w, h, bombIds);
      assert |bombIds * IdRange(w, h)| == |bombIds| - |bombIds - IdRange(w, h)|;
      assert bombIds <= IdRange(w, h) ==> bombIds * IdRange(w, h) == bombIds;
    } else {
      assert MinedCells(w, h, bombIds) == {};
    }
  }

  lemma SubsetCard<T>(a: set<T>, b: set<T>)
    requires a <= b
    ensures |a| <= |b|
  {
    assert b == a + (b - a);
    assert a * (b - a) == {};
  }

  /** A subset at least as large as its superset is all of it. */
  lemma SubsetFull<T>(a: set<T>, b: set<T>)
    requires a <= b && |a| >= |b|
    ensures a == b
  {
    if x :| x in b && x !in a {
      SubsetCard(a, b - {x});
    }
  }

  /** With more than nine ids to spare, draws that hit every value
      `randomNumber(1, w * h)` can return (every id but the last) leave enough
      non-reserved candidates for bombsCount mines. */
  lemma EnoughCandidates(w: nat, h: nat, bombsCount: nat, first: Field, draws: seq<int>)
    requires bombsCount + 9 < w * h
    requires forall k :: 1 <= k < w * h ==> k in draws
    ensures |NonReserved(draws, ReservedIds(w, h, first))| >= bombsCount
  {
    var reserved := ReservedIds(w, h, first);
    ReservedIdsCard(w, h, first);
    var all := UpTo(w * h - 1);
    assert |all - reserved| >= |all| - |reserved| by {
      assert |all - reserved| == |all| - |all * reserved|;
      assert all * reserved <= reserved;
      SubsetCard(all * reserved, reserved);
    }
    assert all - reserved <= NonReserved(draws, reserved);
    SubsetCard(all - reserved, NonReserved(draws, reserved));
  }

  /** `openFieldWithBombsAround`: walks the map in order and opens the first
      field with the clicked id. Ids are unique, so exactly that field opens. */
  method OpenFieldWithBombsAround(w: nat, h: nat, m0: FieldsMap, clicked: Field) returns (m: FieldsMap)
    requires IsLayout(w, h, m0)
    ensures forall c :: c in m <==> c in m0
    ensures forall c :: c in m ==> m[c] == m0[c].(isOpened := m0[c].isOpened || m0[c].id == clicked.id)
  {
    var order := RowMajor(w, h);
    m := m0;
    var i := 0;
    while i < |order|
      invariant 0 <= i <= |order|
      invariant forall j :: 0 <= j < i ==> m0[order[j]].id != clicked.id
    {
      var c := order[i];
      if m[c].id == clicked.id {
        m := m[c := m[c].(isOpened := true)];
        forall d | d in m0 && m0[d].id == clicked.id
          ensures d == c
        {
          IdOfInjective(w, h, d, c);
        }
        return;
      }
      i := i + 1;
    }
  }

  /** The cells a board changes from closed to open. */
  function Switched(m0: FieldsMap, m: FieldsMap): set<Coords> {
    set c | c in m0 && c in m && !m0[c].isOpened && m[c].isOpened
  }

  /** The open cells of a board. */
  function OpenCells(m: FieldsMap): set<Coords> {
    set c | c in m && m[c].isOpened
  }

  /** The board with every mined cell of prefix opened. */
  function BombsOpened(m0: FieldsMap, prefix: seq<Coords>): FieldsMap {
    map c | c in m0 :: m0[c].(isOpened := m0[c].isOpened || (m0[c].hasBomb && c in prefix))
  }

  lemma BombsOpenedStep(m0: FieldsMap, prefix: seq<Coords>, c: Coords)
    requires c in m0
    ensures var m := BombsOpened(m0, prefix);
      BombsOpened(m0, prefix + [c]) == if m0[c].hasBomb then m[c := m[c].(isOpened := true)] else m
  {
    var m := BombsOpened(m0, prefix);
    var lhs, rhs := BombsOpened(m0, prefix + [c]), if m0[c].hasBomb then m[c := m[c].(isOpened := true)] else m;
    forall d | d in lhs
      ensures lhs[d] == rhs[d]
    {
      assert d in prefix + [c] <==> d in prefix || d == c;
    }
    MapsEqual(lhs, rhs);
  }

  lemma BombsOpenedNone(m0: FieldsMap)
    ensures BombsOpened(m0, []) == m0
  {
    MapsEqual(BombsOpened(m0, []), m0);
  }

  lemma BelowStep(order: seq<Coords>, i: nat, s: set<Coords>, bound: nat)
    requires i < |order|
    requires forall j :: 0 < j <= i ==> CountIn(order[..j], s) < bound
    requires CountIn(order[..i + 1], s) < bound
    ensures forall j :: 0 < j <= i + 1 ==> CountIn(order[..j], s) < bound
  {
  }

  /** m is m0 with the mines among the first stop cells of the walk opened,
      where the walk visits at least the first cell and stops at the first
      prefix holding bombsCount mines. */
  ghost predicate Revealed(w: nat, h: nat, m0: FieldsMap, bombsCount: nat, stop: nat, m: FieldsMap) {
    stop <= |RowMajor(w, h)| && (|RowMajor(w, h)| > 0 ==> stop >= 1) &&
    m == BombsOpened(m0, RowMajor(w, h)[..stop]) &&
    (forall j :: 0 < j < stop ==> CountIn(RowMajor(w, h)[..j], BombCoords(m0)) < bombsCount) &&
    (stop < |RowMajor(w, h)| ==> CountIn(RowMajor(w, h)[..stop], BombCoords(m0)) >= bombsCount)
  }

  /** One turn of the walk of `openAllBombs`, at the i-th cell: a mined field
      opens and is counted. */
  method RevealCell(m0: FieldsMap, order: seq<Coords>, i: nat, m: FieldsMap, openedCount: nat)
    returns (r: FieldsMap, count: nat)
    requires i < |order| && order[i] in m0
    requires m == BombsOpened(m0, order[..i]) && openedCount == CountIn(order[..i], BombCoords(m0))
    ensures r == BombsOpened(m0, order[..i + 1]) && count == CountIn(order[..i + 1], BombCoords(m0))
  {
    var c := order[i];
    assert order[..i + 1] == order[..i] + [c];
    assert order[..i + 1][..i] == order[..i];
    BombsOpenedStep(m0, order[..i], c);
    assert m[c].hasBomb == (c in BombCoords(m0));
    r, count := m, openedCount;
    if m[c].hasBomb {
      r := m[c := m[c].(isOpened := true)];
      count := openedCount + 1;
    }
  }

  /** `openAllBombs`: walks the map in order opening mined fields, counting every
      mined field it passes, and stops once the count reaches bombsCount. The
      walk covers the first `stop` cells. */
  method OpenAllBombs(w: nat, h: nat, m0: FieldsMap, bombsCount: nat) returns (m: FieldsMap, ghost stop: nat)
    requires IsLayout(w, h, m0)
    ensures Revealed(w, h, m0, bombsCount, stop, m)
  {
    var order := RowMajor(w, h);
    m := m0;
    var openedCount := 0;
    var i := 0;
    BombsOpenedNone(m0);
    while i < |order|
      invariant 0 <= i <= |order|
      invariant openedCount == CountIn(order[..i], BombCoords(m0))
      invariant forall j :: 0 < j <= i ==> CountIn(order[..j], BombCoords(m0)) < bombsCount
      invariant m == BombsOpened(m0, order[..i])
    {
      assert order[i] in m0 by {
        LayoutWalk(w, h, m0, i);
      }
      m, openedCount := RevealCell(m0, order, i, m, openedCount);
      i := i + 1;
      if openedCount >= bombsCount {
        break;
      }
      BelowStep(order, i - 1, BombCoords(m0), bombsCount);
    }
    assert |order| > 0 ==> i >= 1;
    stop := i;
  }

  lemma LayoutWalk(w: nat, h: nat, m0: FieldsMap, i: nat)
    requires IsLayout(w, h, m0) && i < |RowMajor(w, h)|
    ensures RowMajor(w, h)[i] in m0
  {
    assert RowMajor(w, h)[i] in RowMajor(w, h);
  }

  /** When the board holds no more mines than bombsCount, the walk opens them
      all, and it opens nothing else. */
  lemma OpenAllBombsOpensEveryMine(w: nat, h: nat, m0: FieldsMap, bombsCount: nat, stop: nat, m: FieldsMap)
    requires IsLayout(w, h, m0) && |BombCoords(m0)| <= bombsCount
    requires Revealed(w, h, m0, bombsCount, stop, m)
    ensures forall c :: c in m <==> c in m0
    ensures forall c :: c in m ==> m[c] == m0[c].(isOpened := m[c].isOpened)
    ensures forall c :: c in m && m0[c].hasBomb ==> m[c].isOpened
    ensures Switched(m0, m) <= BombCoords(m0)
  {
    var order := RowMajor(w, h);
    var prefix := order[..stop];
    var bombs := BombCoords(m0);
    if stop < |order| {
      assert Distinct(prefix);
      CountInCard(prefix, bombs);
      SubsetFull(Among(prefix, bombs), bombs);
      assert forall c :: c in bombs ==> c in prefix;
    } else {
      assert prefix == order;
    }
  }
}
