/** Shared vocabulary of every revision of the engine: coordinates, the field
    record, the game states, the 8-neighbourhood of a cell and counting over it. */
module Board {

  /** 1-based grid coordinates (`FieldCoords` / `ICoords`). */
  datatype Coords = Coords(x: int, y: int)

  /** One cell of the board (`IField`). */
  datatype Field = Field(
    id: int,
    coords: Coords,
    isOpened: bool,
    hasBomb: bool,
    hasFlag: bool,
    bombsAround: int)

  datatype GameState = Idle | Playing | Pause | GameOver

  datatype Option<T> = None | Some(value: T)

  predicate Distinct<T(==)>(s: seq<T>) {
    forall i, j :: 0 <= i < j < |s| ==> s[i] != s[j]
  }

  /** The boundary test of the engine: both coordinates inside [1, w] x [1, h]. */
  predicate InBounds(w: int, h: int, c: Coords) {
    1 <= c.x <= w && 1 <= c.y <= h
  }

  /** b is one of the eight cells touching a (a cell does not touch itself). */
  predicate Adjacent(a: Coords, b: Coords) {
    a != b && -1 <= a.x - b.x <= 1 && -1 <= a.y - b.y <= 1
  }

  /** The eight candidate neighbours of c, in the order the source lists them. */
  function Candidates(c: Coords): (r: seq<Coords>)
    ensures |r| == 8 && Distinct(r)
    ensures forall n :: n in r <==> Adjacent(c, n)
  {
    var x, y := c.x, c.y;
    [Coords(x - 1, y - 1), Coords(x, y - 1), Coords(x + 1, y - 1),
     Coords(x - 1, y), Coords(x + 1, y),
     Coords(x - 1, y + 1), Coords(x, y + 1), Coords(x + 1, y + 1)]
  }

  /** `coords.filter(areCoordsInBoundaries)`: keeps the in-grid candidates, in order. */
  function KeepInBounds(w: int, h: int, cs: seq<Coords>): (r: seq<Coords>)
    ensures |r| <= |cs|
    ensures forall n :: n in r <==> n in cs && InBounds(w, h, n)
    ensures Distinct(cs) ==> Distinct(r)
  {
    if cs == [] then []
    else if InBounds(w, h, cs[0]) then [cs[0]] + KeepInBounds(w, h, cs[1..])
    else KeepInBounds(w, h, cs[1..])
  }

  /** `findCoordsAround`: at most eight distinct in-grid cells, exactly those touching c. */
  function CoordsAround(w: int, h: int, c: Coords): (r: seq<Coords>)
    ensures |r| <= 8 && Distinct(r)
    ensures forall n :: n in r <==> InBounds(w, h, n) && Adjacent(c, n)
  {
    KeepInBounds(w, h, Candidates(c))
  }

  /** Adjacency between in-grid cells is symmetric. */
  lemma AroundSymmetric(w: int, h: int, a: Coords, b: Coords)
    requires InBounds(w, h, a) && InBounds(w, h, b)
    ensures b in CoordsAround(w, h, a) <==> a in CoordsAround(w, h, b)
  {
  }

  /** Number of elements of cs that lie in s; over the neighbourhood of a cell and
      the set of mined cells this is the adjacency count. */
  function CountIn(cs: seq<Coords>, s: set<Coords>): (n: nat)
    ensures n <= |cs|
  {
    if cs == [] then 0
    else CountIn(cs[..|cs| - 1], s) + (if cs[|cs| - 1] in s then 1 else 0)
  }

  lemma {:induction false} CountInNone(cs: seq<Coords>, s: set<Coords>)
    requires forall n :: n in cs ==> n !in s
    ensures CountIn(cs, s) == 0
  {
    if cs != [] {
      assert forall n :: n in cs[..|cs| - 1] ==> n in cs;
      CountInNone(cs[..|cs| - 1], s);
    }
  }

  lemma {:induction false} CountInZero(cs: seq<Coords>, s: set<Coords>)
    requires CountIn(cs, s) == 0
    ensures forall n :: n in cs ==> n !in s
  {
    if cs != [] {
      var init := cs[..|cs| - 1];
      CountInZero(init, s);
      assert cs == init + [cs[|cs| - 1]];
    }
  }

  /** Adding one cell to the counted set adds one to the count exactly when the
      (duplicate-free) sequence contains it. */
  lemma {:induction false} CountInAdd(cs: seq<Coords>, s: set<Coords>, c: Coords)
    requires Distinct(cs) && c !in s
    ensures CountIn(cs, s + {c}) == CountIn(cs, s) + (if c in cs then 1 else 0)
  {
    if cs != [] {
      var init := cs[..|cs| - 1];
      assert Distinct(init);
      CountInAdd(init, s, c);
      assert cs == init + [cs[|cs| - 1]];
      assert cs[|cs| - 1] !in init;
    }
  }

  /** Only the members of cs matter to the count. */
  lemma {:induction false} CountInSame(cs: seq<Coords>, s: set<Coords>, t: set<Coords>)
    requires forall n :: n in cs ==> (n in s <==> n in t)
    ensures CountIn(cs, s) == CountIn(cs, t)
  {
    if cs != [] {
      assert forall n :: n in cs[..|cs| - 1] ==> n in cs;
      CountInSame(cs[..|cs| - 1], s, t);
    }
  }

  /** The cells of cs that lie in s. */
  function Among(cs: seq<Coords>, s: set<Coords>): set<Coords> {
    set n | n in cs && n in s
  }

  /** Over a duplicate-free sequence, the count is the size of the intersection. */
  lemma {:induction false} CountInCard(cs: seq<Coords>, s: set<Coords>)
    requires Distinct(cs)
    ensures CountIn(cs, s) == |Among(cs, s)|
  {
    if cs == [] {
      assert Among(cs, s) == {};
    } else {
      var init := cs[..|cs| - 1];
      assert Distinct(init);
      CountInCard(init, s);
      AmongSnoc(cs, s);
    }
  }

  lemma AmongSnoc(cs: seq<Coords>, s: set<Coords>)
    requires cs != [] && Distinct(cs)
    ensures |Among(cs, s)| == |Among(cs[..|cs| - 1], s)| + (if cs[|cs| - 1] in s then 1 else 0)
  {
    var init, last := cs[..|cs| - 1], cs[|cs| - 1];
    assert cs == init + [last];
    var a := Among(init, s);
    assert last !in a;
    if last in s {
      assert Among(cs, s) == a + {last};
    } else {
      assert Among(cs, s) == a;
    }
  }

  /** Row y of a grid w wide, left to right. */
  function Row(w: nat, y: int): (r: seq<Coords>)
    ensures |r| == w && Distinct(r)
    ensures forall c :: c in r <==> c.y == y && 1 <= c.x <= w
  {
    if w == 0 then [] else Row(w - 1, y) + [Coords(w, y)]
  }

  lemma DistinctConcat<T>(a: seq<T>, b: seq<T>)
    requires Distinct(a) && Distinct(b)
    requires forall t :: t in a ==> t !in b
    ensures Distinct(a + b)
  {
    forall i, j | 0 <= i < j < |a + b|
      ensures (a + b)[i] != (a + b)[j]
    {
      if j >= |a| && i < |a| {
        assert (a + b)[i] in a && (a + b)[j] in b;
      }
    }
  }

  /** The cells of a w x h grid row by row: the order in which the board is
      first filled, and so the iteration order of every board map. */
  function RowMajor(w: nat, h: nat): (r: seq<Coords>)
    ensures |r| == w * h && Distinct(r)
    ensures forall c :: c in r <==> InBounds(w, h, c)
  {
    if h == 0 then []
    else
      var prev := RowMajor(w, h - 1);
      var row := Row(w, h);
      DistinctConcat(prev, row);
      assert w * h == w * (h - 1) + w;
      prev + row
  }

  /** Sign of a product with a positive factor, the one non-linear fact the
      grid arithmetic needs. */
  lemma MulSign(n: int, t: int)
    requires n > 0
    ensures t >= 1 ==> n * t >= n
    ensures t <= -1 ==> n * t <= -n
  {
    if t >= 1 {
      assert n * t == n + n * (t - 1);
    } else if t <= -1 {
      assert n * t == -n + n * (t + 1);
      assert n * (-(t + 1)) >= 0;
    }
  }

  /** A duplicate-free sequence has as many members as elements. */
  lemma {:induction false} DistinctCard<T>(s: seq<T>)
    requires Distinct(s)
    ensures |set t | t in s| == |s|
  {
    if s != [] {
      var init := s[..|s| - 1];
      assert Distinct(init);
      DistinctCard(init);
      assert s == init + [s[|s| - 1]];
      assert (set t | t in s) == (set t | t in init) + {s[|s| - 1]};
    }
  }
}
