/** The flood of the two array-based revisions: `verifyEmptiesAround` of
    `openEmptyFields` in src/hooks/useMinesGame.ts and of the zero-count branch
    of `handleFieldClick` in src/components/Game/index.tsx. Both walk a stack
    of fields over one fixed board and collect the ids to open in
    `fieldIdsToOpen`; the board itself is only read. They differ in three
    points: the hook seeds `fieldIdsToOpen` with the clicked id, the hook skips
    open siblings, and the component looks its siblings up through the `||`
    bounds check. */
module ArrayFlood {
  import opened Board
  import opened ArrayBoard
  import MapFlood

  /** `findFieldByCoords(fields, x, y)` as the flood uses it: the hook takes the
      sibling only when it is closed (`sibling && !sibling.isOpened`), the
      component whenever one is found (`if (sibling)`). */
  function Sibling(rev: Revision, fs: seq<Field>, n: Coords): (r: Option<Field>)
    ensures r.Some? ==> r.value in fs && r.value.coords == n
    ensures r.Some? && rev == MinesHook ==> !r.value.isOpened
    ensures r.None? && rev == GameComponent ==> forall f :: f in fs ==> f.coords != n
  {
    match FindFieldByCoords(fs, n.x, n.y)
    case None => None
    case Some(s) => if rev == MinesHook && s.isOpened then None else Some(s)
  }

  /** The ids of the siblings the flood takes at the cells, in order. */
  function TakenIds(rev: Revision, fs: seq<Field>, cells: seq<Coords>): set<int> {
    if cells == [] then {}
    else
      var last := Sibling(rev, fs, cells[|cells| - 1]);
      TakenIds(rev, fs, cells[..|cells| - 1]) + (if last.Some? then {last.value.id} else {})
  }

  /** Visiting one more cell adds the id of its taken sibling, if any. */
  lemma TakenStep(rev: Revision, fs: seq<Field>, cells: seq<Coords>, n: Coords)
    ensures TakenIds(rev, fs, cells + [n]) ==
      TakenIds(rev, fs, cells) + (if Sibling(rev, fs, n).Some? then {Sibling(rev, fs, n).value.id} else {})
  {
    assert (cells + [n])[..|cells|] == cells;
  }

  /** r holds the ids in toOpen and those of the siblings taken at the cells. */
  ghost predicate Gathered(rev: Revision, fs: seq<Field>, toOpen: set<int>, cells: seq<Coords>, r: set<int>) {
    r == toOpen + TakenIds(rev, fs, cells)
  }

  /** The collected ids after one more visit, given the ids before it. */
  lemma TakenAfter(rev: Revision, fs: seq<Field>, cells: seq<Coords>, n: Coords, toOpen: set<int>, before: set<int>, after: set<int>)
    requires Gathered(rev, fs, toOpen, cells, before)
    requires Sibling(rev, fs, n).None? ==> after == before
    requires Sibling(rev, fs, n).Some? ==> after == before + {Sibling(rev, fs, n).value.id}
    ensures Gathered(rev, fs, toOpen, cells + [n], after)
  {
    TakenStep(rev, fs, cells, n);
  }

  /** The ids of a sequence of fields. */
  function IdSet(s: seq<Field>): set<int> {
    set f | f in s :: f.id
  }

  lemma HasIdSet(s: seq<Field>, id: int)
    ensures MapFlood.HasId(s, id) <==> id in IdSet(s)
  {
    if id in IdSet(s) {
      var f :| f in s && f.id == id;
      var i :| 0 <= i < |s| && s[i] == f;
    }
  }

  /** No id is queued twice. */
  ghost predicate Unique(s: seq<Field>) {
    forall i, j :: 0 <= i < j < |s| ==> s[i].id != s[j].id
  }

  /** Every queued field after the clicked one has no mine around and is the
      sibling of a field queued before it. */
  ghost predicate Chained(rev: Revision, around: Coords -> seq<Coords>, fs: seq<Field>, pushes: seq<Field>) {
    forall i :: 1 <= i < |pushes| ==> pushes[i].bombsAround == 0 && ChainedAt(rev, around, fs, pushes, i)
  }

  ghost predicate ChainedAt(rev: Revision, around: Coords -> seq<Coords>, fs: seq<Field>, pushes: seq<Field>, i: int)
    requires 0 <= i < |pushes|
  {
    exists k, n :: 0 <= k < i && n in around(pushes[k].coords) && Sibling(rev, fs, n) == Some(pushes[i])
  }

  /** From the cells visited, every sibling taken has its id in toOpen, and one
      with no mine around has been queued. */
  ghost predicate VisitedAll(rev: Revision, around: Coords -> seq<Coords>, fs: seq<Field>, cells: seq<Coords>, toOpen: set<int>, pushes: seq<Field>) {
    forall n :: n in cells && Sibling(rev, fs, n).Some? ==>
      Sibling(rev, fs, n).value.id in toOpen &&
      (Sibling(rev, fs, n).value.bombsAround == 0 ==> Sibling(rev, fs, n).value.id in IdSet(pushes))
  }

  /** Every field of parents has had all its neighbour cells visited. */
  ghost predicate Visited(rev: Revision, around: Coords -> seq<Coords>, fs: seq<Field>, parents: seq<Field>, toOpen: set<int>, pushes: seq<Field>) {
    forall k :: 0 <= k < |parents| ==> VisitedAll(rev, around, fs, around(parents[k].coords), toOpen, pushes)
  }

  /** v is the id of a sibling taken from one of the parents. */
  ghost predicate Justified(rev: Revision, around: Coords -> seq<Coords>, fs: seq<Field>, parents: seq<Field>, v: int) {
    exists k, n :: 0 <= k < |parents| && n in around(parents[k].coords) &&
      Sibling(rev, fs, n).Some? && Sibling(rev, fs, n).value.id == v
  }

  /** Every id to open is the hook's seed or a sibling taken from a parent. */
  ghost predicate Sound(rev: Revision, around: Coords -> seq<Coords>, fs: seq<Field>, clicked: Field, parents: seq<Field>, toOpen: set<int>) {
    forall v :: v in toOpen ==> (rev == MinesHook && v == clicked.id) || Justified(rev, around, fs, parents, v)
  }

  /** What the flood promises about the ids it collects and the fields it
      expanded (pushes, in the order they were queued): the clicked field is
      expanded first; each later one has no mine around and is a sibling of an
      earlier one; every sibling of an expanded field has its id collected;
      every sibling with no mine around is expanded too; every collected id is
      the hook's seed or a sibling of an expanded field; the hook's seed is the
      clicked id. */
  ghost predicate Flooded(rev: Revision, around: Coords -> seq<Coords>, fs: seq<Field>, clicked: Field, toOpen: set<int>, pushes: seq<Field>) {
    |pushes| >= 1 && pushes[0] == clicked && Unique(pushes) && Chained(rev, around, fs, pushes) &&
    Visited(rev, around, fs, pushes, toOpen, pushes) &&
    Sound(rev, around, fs, clicked, pushes, toOpen) &&
    (rev == MinesHook ==> clicked.id in toOpen)
  }

  /** The state between two expansions: the stack is the part of pushes not yet
      expanded, and the verified ids are the ids of the expanded part. */
  ghost predicate Outer(rev: Revision, around: Coords -> seq<Coords>, fs: seq<Field>, clicked: Field, stack: seq<Field>, verified: set<int>,
                        toOpen: set<int>, pushes: seq<Field>) {
    |pushes| >= 1 && pushes[0] == clicked && |stack| <= |pushes| &&
    stack == pushes[|pushes| - |stack|..] &&
    verified == IdSet(pushes[..|pushes| - |stack|]) &&
    Unique(pushes) && Chained(rev, around, fs, pushes) &&
    Visited(rev, around, fs, pushes[..|pushes| - |stack|], toOpen, pushes) &&
    Sound(rev, around, fs, clicked, pushes[..|pushes| - |stack|], toOpen) &&
    (rev == MinesHook ==> clicked.id in toOpen)
  }

  /** The state while the field pushes[e] is expanded. */
  ghost predicate Inner(rev: Revision, around: Coords -> seq<Coords>, fs: seq<Field>, clicked: Field, field: Field, e: nat, stack: seq<Field>,
                        verified: set<int>, toOpen: set<int>, pushes: seq<Field>) {
    Shape(clicked, field, e, stack, verified, pushes) && Logic(rev, around, fs, clicked, e, toOpen, pushes)
  }

  /** The bookkeeping part of Inner: the stack, the verified ids and pushes agree. */
  ghost predicate Shape(clicked: Field, field: Field, e: nat, stack: seq<Field>, verified: set<int>, pushes: seq<Field>) {
    e < |pushes| && pushes[e] == field && pushes[0] == clicked &&
    e + |stack| == |pushes| && stack == pushes[e..] &&
    verified == IdSet(pushes[..e]) && Unique(pushes)
  }

  /** The flood part of Inner: what has been collected so far is closed and sound. */
  ghost predicate Logic(rev: Revision, around: Coords -> seq<Coords>, fs: seq<Field>, clicked: Field, e: nat,
                        toOpen: set<int>, pushes: seq<Field>) {
    e < |pushes| && Chained(rev, around, fs, pushes) &&
    Visited(rev, around, fs, pushes[..e], toOpen, pushes) &&
    Sound(rev, around, fs, clicked, pushes[..e + 1], toOpen) &&
    (rev == MinesHook ==> clicked.id in toOpen)
  }

  lemma SplitIds(pushes: seq<Field>, e: nat)
    requires e <= |pushes|
    ensures IdSet(pushes) == IdSet(pushes[..e]) + IdSet(pushes[e..])
  {
    assert pushes == pushes[..e] + pushes[e..];
    forall f | f in pushes
      ensures f in pushes[..e] || f in pushes[e..]
    {
      var i :| 0 <= i < |pushes| && pushes[i] == f;
      if i < e {
        assert pushes[..e][i] == f;
      } else {
        assert pushes[e..][i - e] == f;
      }
    }
  }

  lemma VisitedAllWider(rev: Revision, around: Coords -> seq<Coords>, fs: seq<Field>, cells: seq<Coords>, toOpen: set<int>, pushes: seq<Field>,
                        toOpen2: set<int>, pushes2: seq<Field>)
    requires VisitedAll(rev, around, fs, cells, toOpen, pushes)
    requires toOpen <= toOpen2 && IdSet(pushes) <= IdSet(pushes2)
    ensures VisitedAll(rev, around, fs, cells, toOpen2, pushes2)
  {
  }

  lemma VisitedWider(rev: Revision, around: Coords -> seq<Coords>, fs: seq<Field>, parents: seq<Field>, toOpen: set<int>, pushes: seq<Field>,
                     toOpen2: set<int>, pushes2: seq<Field>)
    requires Visited(rev, around, fs, parents, toOpen, pushes)
    requires toOpen <= toOpen2 && IdSet(pushes) <= IdSet(pushes2)
    ensures Visited(rev, around, fs, parents, toOpen2, pushes2)
  {
    forall k | 0 <= k < |parents|
      ensures VisitedAll(rev, around, fs, around(parents[k].coords), toOpen2, pushes2)
    {
      VisitedAllWider(rev, around, fs, around(parents[k].coords), toOpen, pushes, toOpen2, pushes2);
    }
  }

  lemma SoundWider(rev: Revision, around: Coords -> seq<Coords>, fs: seq<Field>, clicked: Field, parents: seq<Field>, more: seq<Field>, toOpen: set<int>)
    requires Sound(rev, around, fs, clicked, parents, toOpen)
    requires |parents| <= |more| && more[..|parents|] == parents
    ensures Sound(rev, around, fs, clicked, more, toOpen)
  {
    forall v | v in toOpen && !(rev == MinesHook && v == clicked.id)
      ensures Justified(rev, around, fs, more, v)
    {
      var k, n :| 0 <= k < |parents| && n in around(parents[k].coords) &&
        Sibling(rev, fs, n).Some? && Sibling(rev, fs, n).value.id == v;
      assert more[k] == parents[k];
    }
  }

  /** `fieldIdsToOpen.add(sibling.id)` for a sibling of the last parent keeps
      every id justified. */
  lemma SoundAdd(rev: Revision, around: Coords -> seq<Coords>, fs: seq<Field>, clicked: Field, parents: seq<Field>, toOpen: set<int>, n: Coords)
    requires Sound(rev, around, fs, clicked, parents, toOpen) && |parents| > 0
    requires n in around(parents[|parents| - 1].coords) && Sibling(rev, fs, n).Some?
    ensures Sound(rev, around, fs, clicked, parents, toOpen + {Sibling(rev, fs, n).value.id})
  {
    assert Justified(rev, around, fs, parents, Sibling(rev, fs, n).value.id);
  }

  lemma ChainedPush(rev: Revision, around: Coords -> seq<Coords>, fs: seq<Field>, pushes: seq<Field>, e: nat, n: Coords)
    requires Chained(rev, around, fs, pushes) && e < |pushes|
    requires n in around(pushes[e].coords) && Sibling(rev, fs, n).Some?
    requires Sibling(rev, fs, n).value.bombsAround == 0
    ensures Chained(rev, around, fs, pushes + [Sibling(rev, fs, n).value])
  {
    var r := pushes + [Sibling(rev, fs, n).value];
    forall i | 1 <= i < |r|
      ensures r[i].bombsAround == 0 && ChainedAt(rev, around, fs, r, i)
    {
      if i < |pushes| {
        assert ChainedAt(rev, around, fs, pushes, i);
        var k, m :| 0 <= k < i && m in around(pushes[k].coords) && Sibling(rev, fs, m) == Some(pushes[i]);
        assert r[k] == pushes[k] && r[i] == pushes[i];
      } else {
        assert r[e] == pushes[e];
      }
    }
  }

  lemma UniquePush(pushes: seq<Field>, s: Field)
    requires Unique(pushes) && s.id !in IdSet(pushes)
    ensures Unique(pushes + [s])
  {
    var r := pushes + [s];
    forall i, j | 0 <= i < j < |r|
      ensures r[i].id != r[j].id
    {
      if j == |pushes| {
        assert r[i] in pushes;
      }
    }
  }

  /** The sibling at n is not taken: nothing changes. */
  lemma VisitNone(rev: Revision, around: Coords -> seq<Coords>, fs: seq<Field>, cells: seq<Coords>,
                  toOpen: set<int>, pushes: seq<Field>, n: Coords)
    requires VisitedAll(rev, around, fs, cells, toOpen, pushes)
    requires Sibling(rev, fs, n).None?
    ensures VisitedAll(rev, around, fs, cells + [n], toOpen, pushes)
  {
  }

  /** The sibling at n is taken but not pushed. */
  lemma VisitAdd(rev: Revision, around: Coords -> seq<Coords>, fs: seq<Field>, clicked: Field, field: Field, e: nat,
                 stack: seq<Field>, verified: set<int>, toOpen: set<int>, pushes: seq<Field>, cells: seq<Coords>, n: Coords)
    requires Inner(rev, around, fs, clicked, field, e, stack, verified, toOpen, pushes)
    requires VisitedAll(rev, around, fs, cells, toOpen, pushes)
    requires n in around(field.coords) && Sibling(rev, fs, n).Some?
    requires var s := Sibling(rev, fs, n).value;
      !(s.bombsAround == 0 && !MapFlood.HasId(stack, s.id) && s.id !in verified)
    ensures Inner(rev, around, fs, clicked, field, e, stack, verified, toOpen + {Sibling(rev, fs, n).value.id}, pushes)
    ensures VisitedAll(rev, around, fs, cells + [n], toOpen + {Sibling(rev, fs, n).value.id}, pushes)
  {
    var s := Sibling(rev, fs, n).value;
    assert pushes[..e + 1][e] == field;
    SoundAdd(rev, around, fs, clicked, pushes[..e + 1], toOpen, n);
    HasIdSet(stack, s.id);
    SplitIds(pushes, e);
    VisitedWider(rev, around, fs, pushes[..e], toOpen, pushes, toOpen + {s.id}, pushes);
    VisitedAllWider(rev, around, fs, cells, toOpen, pushes, toOpen + {s.id}, pushes);
  }

  lemma PushedIds(pushes: seq<Field>, s: Field)
    ensures IdSet(pushes + [s]) == IdSet(pushes) + {s.id}
  {
    var r := pushes + [s];
    forall f | f in r
      ensures f in pushes || f == s
    {
      var i :| 0 <= i < |r| && r[i] == f;
      if i < |pushes| {
        assert pushes[i] == f;
      }
    }
  }

  lemma AppendSlices(pushes: seq<Field>, s: Field, e: nat)
    requires e < |pushes|
    ensures (pushes + [s])[..e] == pushes[..e] && (pushes + [s])[..e + 1] == pushes[..e + 1]
    ensures (pushes + [s])[e..] == pushes[e..] + [s]
  {
  }

  /** The sibling at n is taken and pushed on the stack. */
  lemma PushShape(clicked: Field, field: Field, e: nat, stack: seq<Field>, verified: set<int>, pushes: seq<Field>, s: Field)
    requires Shape(clicked, field, e, stack, verified, pushes)
    requires !MapFlood.HasId(stack, s.id) && s.id !in verified
    ensures Shape(clicked, field, e, stack + [s], verified, pushes + [s])
  {
    HasIdSet(stack, s.id);
    SplitIds(pushes, e);
    UniquePush(pushes, s);
    AppendSlices(pushes, s, e);
  }

  lemma PushLogic(rev: Revision, around: Coords -> seq<Coords>, fs: seq<Field>, clicked: Field, e: nat,
                  toOpen: set<int>, pushes: seq<Field>, cells: seq<Coords>, n: Coords)
    requires Logic(rev, around, fs, clicked, e, toOpen, pushes)
    requires VisitedAll(rev, around, fs, cells, toOpen, pushes)
    requires n in around(pushes[e].coords) && Sibling(rev, fs, n).Some?
    requires Sibling(rev, fs, n).value.bombsAround == 0
    ensures var s := Sibling(rev, fs, n).value;
      Logic(rev, around, fs, clicked, e, toOpen + {s.id}, pushes + [s]) &&
      VisitedAll(rev, around, fs, cells + [n], toOpen + {s.id}, pushes + [s])
  {
    var s := Sibling(rev, fs, n).value;
    var r := pushes + [s];
    assert pushes[..e + 1][e] == pushes[e];
    SoundAdd(rev, around, fs, clicked, pushes[..e + 1], toOpen, n);
    ChainedPush(rev, around, fs, pushes, e, n);
    PushedIds(pushes, s);
    AppendSlices(pushes, s, e);
    VisitedWider(rev, around, fs, pushes[..e], toOpen, pushes, toOpen + {s.id}, r);
    VisitedAllWider(rev, around, fs, cells, toOpen, pushes, toOpen + {s.id}, r);
  }

  /** The sibling at n is taken and pushed on the stack. */
  lemma VisitPush(rev: Revision, around: Coords -> seq<Coords>, fs: seq<Field>, clicked: Field, field: Field, e: nat,
                  stack: seq<Field>, verified: set<int>, toOpen: set<int>, pushes: seq<Field>, cells: seq<Coords>, n: Coords)
    requires Inner(rev, around, fs, clicked, field, e, stack, verified, toOpen, pushes)
    requires VisitedAll(rev, around, fs, cells, toOpen, pushes)
    requires n in around(field.coords) && Sibling(rev, fs, n).Some?
    requires var s := Sibling(rev, fs, n).value;
      s.bombsAround == 0 && !MapFlood.HasId(stack, s.id) && s.id !in verified
    ensures var s := Sibling(rev, fs, n).value;
      Inner(rev, around, fs, clicked, field, e, stack + [s], verified, toOpen + {s.id}, pushes + [s])
    ensures var s := Sibling(rev, fs, n).value;
      VisitedAll(rev, around, fs, cells + [n], toOpen + {s.id}, pushes + [s])
  {
    var s := Sibling(rev, fs, n).value;
    PushShape(clicked, field, e, stack, verified, pushes, s);
    PushLogic(rev, around, fs, clicked, e, toOpen, pushes, cells, n);
  }

  /** One pass of `for (const [x, y] of coordsAround)`: the sibling at n, when
      taken, has its id added to `fieldIdsToOpen`, and is pushed on the stack
      when it has no mine around and its id is neither on the stack nor
      verified. */
  method VisitSibling(rev: Revision, around: Coords -> seq<Coords>, fs: seq<Field>, clicked: Field, field: Field, ghost e: nat,
                      stack: seq<Field>, verified: set<int>, toOpen: set<int>, ghost pushes: seq<Field>,
                      ghost cells: seq<Coords>, n: Coords)
    returns (rstack: seq<Field>, rtoOpen: set<int>, ghost rpushes: seq<Field>)
    requires Inner(rev, around, fs, clicked, field, e, stack, verified, toOpen, pushes)
    requires VisitedAll(rev, around, fs, cells, toOpen, pushes)
    requires n in around(field.coords)
    ensures Inner(rev, around, fs, clicked, field, e, rstack, verified, rtoOpen, rpushes)
    ensures VisitedAll(rev, around, fs, cells + [n], rtoOpen, rpushes)
    ensures rpushes == pushes || (|rpushes| == |pushes| + 1 && rpushes[..|pushes|] == pushes)
    ensures Sibling(rev, fs, n).None? ==> rtoOpen == toOpen && rstack == stack
    ensures Sibling(rev, fs, n).Some? ==> rtoOpen == toOpen + {Sibling(rev, fs, n).value.id}
    ensures var s := Sibling(rev, fs, n);
      s.Some? && s.value.bombsAround == 0 && !MapFlood.HasId(stack, s.value.id) && s.value.id !in verified ==>
        rstack == stack + [s.value]
    ensures var s := Sibling(rev, fs, n);
      !(s.Some? && s.value.bombsAround == 0 && !MapFlood.HasId(stack, s.value.id) && s.value.id !in verified) ==>
        rstack == stack
  {
    rstack, rtoOpen, rpushes := stack, toOpen, pushes;
    var sibling := Sibling(rev, fs, n);
    if sibling.Some? {
      var s := sibling.value;
      rtoOpen := toOpen + {s.id};
      if s.bombsAround == 0 && !MapFlood.HasId(stack, s.id) && s.id !in verified {
        VisitPush(rev, around, fs, clicked, field, e, stack, verified, toOpen, pushes, cells, n);
        rstack := stack + [s];
        rpushes := pushes + [s];
        assert rpushes[..|pushes|] == pushes;
      } else {
        VisitAdd(rev, around, fs, clicked, field, e, stack, verified, toOpen, pushes, cells, n);
      }
    } else {
      VisitNone(rev, around, fs, cells, toOpen, pushes, n);
    }
  }

  /** The `for` loop of `verifyEmptiesAround(field)`: visits every cell around
      the field on top of the stack. */
  method ExpandField(rev: Revision, around: Coords -> seq<Coords>, fs: seq<Field>, clicked: Field, ghost e: nat,
                     stack: seq<Field>, verified: set<int>, toOpen: set<int>, ghost pushes: seq<Field>)
    returns (rstack: seq<Field>, rtoOpen: set<int>, ghost rpushes: seq<Field>)
    requires |stack| > 0 && Inner(rev, around, fs, clicked, stack[0], e, stack, verified, toOpen, pushes)
    ensures Inner(rev, around, fs, clicked, stack[0], e, rstack, verified, rtoOpen, rpushes)
    ensures VisitedAll(rev, around, fs, around(stack[0].coords), rtoOpen, rpushes)
    ensures rtoOpen == toOpen + TakenIds(rev, fs, around(stack[0].coords))
  {
    var field := stack[0];
    var coordsAround := around(field.coords);
    rstack, rtoOpen, rpushes := stack, toOpen, pushes;
    var j := 0;
    assert coordsAround[..0] == [];
    while j < |coordsAround|
      invariant 0 <= j <= |coordsAround|
      invariant Inner(rev, around, fs, clicked, field, e, rstack, verified, rtoOpen, rpushes)
      invariant VisitedAll(rev, around, fs, coordsAround[..j], rtoOpen, rpushes)
      invariant Gathered(rev, fs, toOpen, coordsAround[..j], rtoOpen)
    {
      assert coordsAround[..j + 1] == coordsAround[..j] + [coordsAround[j]];
      ghost var before := rtoOpen;
      rstack, rtoOpen, rpushes := VisitSibling(rev, around, fs, clicked, field, e, rstack, verified, rtoOpen, rpushes,
                                               coordsAround[..j], coordsAround[j]);
      TakenAfter(rev, fs, coordsAround[..j], coordsAround[j], toOpen, before, rtoOpen);
      j := j + 1;
    }
    assert coordsAround[..j] == coordsAround;
  }

  lemma VisitedExtend(rev: Revision, around: Coords -> seq<Coords>, fs: seq<Field>, parents: seq<Field>, field: Field, toOpen: set<int>, pushes: seq<Field>)
    requires Visited(rev, around, fs, parents, toOpen, pushes)
    requires VisitedAll(rev, around, fs, around(field.coords), toOpen, pushes)
    ensures Visited(rev, around, fs, parents + [field], toOpen, pushes)
  {
  }

  /** `verifiedEmptiesIds.add(field.id); emptiesStack.shift()` after the
      expansion of the top field. */
  lemma ShiftOuter(rev: Revision, around: Coords -> seq<Coords>, fs: seq<Field>, clicked: Field, e: nat, stack: seq<Field>, verified: set<int>,
                   toOpen: set<int>, pushes: seq<Field>)
    requires |stack| > 0 && Inner(rev, around, fs, clicked, stack[0], e, stack, verified, toOpen, pushes)
    requires VisitedAll(rev, around, fs, around(stack[0].coords), toOpen, pushes)
    ensures Outer(rev, around, fs, clicked, stack[1..], verified + {stack[0].id}, toOpen, pushes)
  {
    var p := pushes[..e + 1];
    assert p == pushes[..e] + [stack[0]];
    VisitedExtend(rev, around, fs, pushes[..e], stack[0], toOpen, pushes);
    assert stack[1..] == pushes[e + 1..];
    PushedIds(pushes[..e], stack[0]);
    assert |pushes| - |stack[1..]| == e + 1;
  }

  lemma StartInner(rev: Revision, around: Coords -> seq<Coords>, fs: seq<Field>, clicked: Field, stack: seq<Field>, verified: set<int>,
                   toOpen: set<int>, pushes: seq<Field>)
    requires |stack| > 0 && Outer(rev, around, fs, clicked, stack, verified, toOpen, pushes)
    ensures Inner(rev, around, fs, clicked, stack[0], |pushes| - |stack|, stack, verified, toOpen, pushes)
  {
    var e := |pushes| - |stack|;
    assert stack[0] == pushes[e];
    assert Shape(clicked, stack[0], e, stack, verified, pushes);
    assert pushes[..e + 1][..e] == pushes[..e];
    SoundWider(rev, around, fs, clicked, pushes[..e], pushes[..e + 1], toOpen);
    assert Logic(rev, around, fs, clicked, e, toOpen, pushes);
  }

  lemma StartOuter(rev: Revision, around: Coords -> seq<Coords>, fs: seq<Field>, clicked: Field)
    ensures Outer(rev, around, fs, clicked, [clicked], {}, if rev == MinesHook then {clicked.id} else {}, [clicked])
  {
    assert [clicked][..0] == [];
  }

  lemma StopOuter(rev: Revision, around: Coords -> seq<Coords>, fs: seq<Field>, clicked: Field, verified: set<int>,
                  toOpen: set<int>, pushes: seq<Field>)
    requires Outer(rev, around, fs, clicked, [], verified, toOpen, pushes)
    ensures Flooded(rev, around, fs, clicked, toOpen, pushes)
  {
    assert pushes[..|pushes|] == pushes;
  }

  /** The ids the walk can ever verify: the board's and the clicked one. */
  function Universe(fs: seq<Field>, clicked: Field): set<int> {
    IdSet(fs) + {clicked.id}
  }

  lemma PushesInUniverse(rev: Revision, around: Coords -> seq<Coords>, fs: seq<Field>, clicked: Field, pushes: seq<Field>)
    requires |pushes| >= 1 && pushes[0] == clicked && Chained(rev, around, fs, pushes)
    ensures IdSet(pushes) <= Universe(fs, clicked)
  {
    forall f | f in pushes
      ensures f.id in Universe(fs, clicked)
    {
      var i :| 0 <= i < |pushes| && pushes[i] == f;
      if i > 0 {
        assert ChainedAt(rev, around, fs, pushes, i);
      }
    }
  }

  lemma NextNotVerified(pushes: seq<Field>, e: nat)
    requires Unique(pushes) && e < |pushes|
    ensures pushes[e].id !in IdSet(pushes[..e])
  {
    forall f | f in pushes[..e]
      ensures f.id != pushes[e].id
    {
      var i :| 0 <= i < e && pushes[..e][i] == f;
    }
  }

  lemma CardShift(u: set<int>, v: set<int>, x: int)
    requires x in u && x !in v
    ensures |u - (v + {x})| < |u - v|
  {
    assert u - v == (u - (v + {x})) + {x};
  }

  lemma ShiftDecreases(rev: Revision, around: Coords -> seq<Coords>, fs: seq<Field>, clicked: Field, stack: seq<Field>,
                       verified: set<int>, toOpen: set<int>, pushes: seq<Field>)
    requires |stack| > 0 && Outer(rev, around, fs, clicked, stack, verified, toOpen, pushes)
    ensures |Universe(fs, clicked) - (verified + {stack[0].id})| < |Universe(fs, clicked) - verified|
  {
    var e := |pushes| - |stack|;
    PushesInUniverse(rev, around, fs, clicked, pushes);
    NextNotVerified(pushes, e);
    assert stack[0] == pushes[e] && pushes[e] in pushes;
    CardShift(Universe(fs, clicked), verified, stack[0].id);
  }

  /** `verifyEmptiesAround(clickedField)` and the calls it makes on itself
      until the stack is empty: returns the collected `fieldIdsToOpen`. The
      hook seeds it with the clicked id; the component starts it empty. The
      cells around a field come from `around`: `findCoordsAround` in the hook,
      `findAllCoordsAroundField` filtered by the `||` bounds check in the
      component. */
  method VerifyEmptiesAround(rev: Revision, around: Coords -> seq<Coords>, fs: seq<Field>, clicked: Field)
    returns (fieldIdsToOpen: set<int>, ghost pushes: seq<Field>)
    ensures Flooded(rev, around, fs, clicked, fieldIdsToOpen, pushes)
  {
    var emptiesStack := [clicked];
    fieldIdsToOpen := if rev == MinesHook then {clicked.id} else {};
    var verifiedEmptiesIds: set<int> := {};
    pushes := [clicked];
    StartOuter(rev, around, fs, clicked);
    while |emptiesStack| > 0
      invariant Outer(rev, around, fs, clicked, emptiesStack, verifiedEmptiesIds, fieldIdsToOpen, pushes)
      decreases |Universe(fs, clicked) - verifiedEmptiesIds|
    {
      ShiftDecreases(rev, around, fs, clicked, emptiesStack, verifiedEmptiesIds, fieldIdsToOpen, pushes);
      ghost var e := |pushes| - |emptiesStack|;
      StartInner(rev, around, fs, clicked, emptiesStack, verifiedEmptiesIds, fieldIdsToOpen, pushes);
      var field := emptiesStack[0];
      emptiesStack, fieldIdsToOpen, pushes := ExpandField(rev, around, fs, clicked, e, emptiesStack, verifiedEmptiesIds,
                                                          fieldIdsToOpen, pushes);
      ShiftOuter(rev, around, fs, clicked, e, emptiesStack, verifiedEmptiesIds, fieldIdsToOpen, pushes);
      verifiedEmptiesIds := verifiedEmptiesIds + {field.id};
      emptiesStack := emptiesStack[1..];
    }
    StopOuter(rev, around, fs, clicked, verifiedEmptiesIds, fieldIdsToOpen, pushes);
  }

  // What the flood opens

  /** The cells around a field in revision rev. */
  function Around(rev: Revision): Coords -> seq<Coords> {
    c => Neighbours(rev, c)
  }

  /** Every cell around a field, as far as it lies on the grid, touches the
      field. */
  ghost predicate AroundAdjacent(around: Coords -> seq<Coords>) {
    forall c, n :: n in around(c) && OnGrid(n) ==> Adjacent(c, n)
  }

  lemma AroundIsAdjacent(rev: Revision)
    ensures AroundAdjacent(Around(rev))
  {
    forall c, n | n in Around(rev)(c) && OnGrid(n)
      ensures Adjacent(c, n)
    {
      assert n in Neighbours(rev, c);
    }
  }

  /** Every expanded field is a field of the board with no mine around. */
  lemma ExpandedOnBoard(rev: Revision, around: Coords -> seq<Coords>, fs: seq<Field>, clicked: Field,
                        toOpen: set<int>, pushes: seq<Field>, k: int)
    requires clicked in fs && clicked.bombsAround == 0
    requires |pushes| >= 1 && pushes[0] == clicked && Chained(rev, around, fs, pushes) && 0 <= k < |pushes|
    ensures pushes[k] in fs && pushes[k].bombsAround == 0
  {
    if k > 0 {
      assert ChainedAt(rev, around, fs, pushes, k);
    }
  }

  /** A sibling taken from an expanded field is a mine-free field of the board:
      the expanded field counts no mine among its neighbours. */
  lemma SiblingSafe(rev: Revision, around: Coords -> seq<Coords>, fs: seq<Field>, parent: Field, n: Coords)
    requires ArrayLayout(fs) && CountsCorrect(fs) && AroundAdjacent(around)
    requires parent in fs && parent.bombsAround == 0
    requires n in around(parent.coords) && Sibling(rev, fs, n).Some?
    ensures var s := Sibling(rev, fs, n).value; 1 <= s.id <= FieldsCount && s == fs[s.id - 1] && !s.hasBomb
  {
    var s := Sibling(rev, fs, n).value;
    LayoutCoversGrid(fs);
    var i :| 0 <= i < |fs| && fs[i] == parent;
    var j :| 0 <= j < |fs| && fs[j] == s;
    assert OnGrid(n);
    assert n in CoordsAround(FieldsConstraintsX, FieldsConstraintsY, parent.coords);
    assert CountedRight(fs, i);
    CountInZero(CoordsAround(FieldsConstraintsX, FieldsConstraintsY, fs[i].coords), MineCoords(fs));
    assert n !in MineCoords(fs);
  }

  /** The sibling id v, taken from the k-th expanded field, names a mine-free field. */
  lemma JustifiedSafe(rev: Revision, around: Coords -> seq<Coords>, fs: seq<Field>, clicked: Field,
                      toOpen: set<int>, pushes: seq<Field>, v: int)
    requires ArrayLayout(fs) && CountsCorrect(fs) && AroundAdjacent(around)
    requires clicked in fs && clicked.bombsAround == 0
    requires |pushes| >= 1 && pushes[0] == clicked && Chained(rev, around, fs, pushes)
    requires Justified(rev, around, fs, pushes, v)
    ensures 1 <= v <= FieldsCount && !fs[v - 1].hasBomb
  {
    var k, n :| 0 <= k < |pushes| && n in around(pushes[k].coords) &&
      Sibling(rev, fs, n).Some? && Sibling(rev, fs, n).value.id == v;
    ExpandedOnBoard(rev, around, fs, clicked, toOpen, pushes, k);
    SiblingSafe(rev, around, fs, pushes[k], n);
  }

  /** The flood never opens a mine: every collected id belongs to a field
      without one, when the clicked field is a field of a correctly counted
      board with no mine on it or around it. */
  lemma FloodOpensNoMine(rev: Revision, around: Coords -> seq<Coords>, fs: seq<Field>, clicked: Field,
                         toOpen: set<int>, pushes: seq<Field>)
    requires ArrayLayout(fs) && CountsCorrect(fs) && AroundAdjacent(around)
    requires clicked in fs && !clicked.hasBomb && clicked.bombsAround == 0
    requires Flooded(rev, around, fs, clicked, toOpen, pushes)
    ensures forall v :: v in toOpen ==> 1 <= v <= FieldsCount && !fs[v - 1].hasBomb
  {
    AllCollectedSafe(rev, around, fs, clicked, toOpen, pushes);
  }

  lemma AllCollectedSafe(rev: Revision, around: Coords -> seq<Coords>, fs: seq<Field>, clicked: Field,
                         toOpen: set<int>, pushes: seq<Field>)
    requires ArrayLayout(fs) && CountsCorrect(fs) && AroundAdjacent(around)
    requires clicked in fs && !clicked.hasBomb && clicked.bombsAround == 0
    requires |pushes| >= 1 && pushes[0] == clicked && Chained(rev, around, fs, pushes)
    requires Sound(rev, around, fs, clicked, pushes, toOpen)
    ensures forall v :: v in toOpen ==> 1 <= v <= FieldsCount && !fs[v - 1].hasBomb
  {
    forall v | v in toOpen
      ensures 1 <= v <= FieldsCount && !fs[v - 1].hasBomb
    {
      CollectedSafe(rev, around, fs, clicked, toOpen, pushes, v);
    }
  }

  lemma CollectedSafe(rev: Revision, around: Coords -> seq<Coords>, fs: seq<Field>, clicked: Field,
                      toOpen: set<int>, pushes: seq<Field>, v: int)
    requires ArrayLayout(fs) && CountsCorrect(fs) && AroundAdjacent(around)
    requires clicked in fs && !clicked.hasBomb && clicked.bombsAround == 0
    requires |pushes| >= 1 && pushes[0] == clicked && Chained(rev, around, fs, pushes)
    requires Sound(rev, around, fs, clicked, pushes, toOpen) && v in toOpen
    ensures 1 <= v <= FieldsCount && !fs[v - 1].hasBomb
  {
    if v == clicked.id {
      var i :| 0 <= i < |fs| && fs[i] == clicked;
      assert clicked.id == i + 1;
    } else {
      JustifiedSafe(rev, around, fs, clicked, toOpen, pushes, v);
    }
  }

  /** The hook's flood collects only closed fields when the clicked one is
      closed: its lookups skip open siblings. */
  lemma HookFloodOpensClosed(around: Coords -> seq<Coords>, fs: seq<Field>, clicked: Field, toOpen: set<int>,
                             pushes: seq<Field>)
    requires ArrayLayout(fs)
    requires clicked in fs && !clicked.isOpened
    requires Flooded(MinesHook, around, fs, clicked, toOpen, pushes)
    ensures forall v :: v in toOpen ==> 1 <= v <= FieldsCount && !fs[v - 1].isOpened
  {
    forall v | v in toOpen
      ensures 1 <= v <= FieldsCount && !fs[v - 1].isOpened
    {
      var f: Field;
      if v == clicked.id {
        f := clicked;
      } else {
        assert Justified(MinesHook, around, fs, pushes, v);
        var k, n :| 0 <= k < |pushes| && n in around(pushes[k].coords) &&
          Sibling(MinesHook, fs, n).Some? && Sibling(MinesHook, fs, n).value.id == v;
        f := Sibling(MinesHook, fs, n).value;
      }
      var i :| 0 <= i < |fs| && fs[i] == f;
    }
  }

  // The component's unseeded flood

  /** The ten mines of a board whose corner field (1, 1) has no mine around
      while each of its three neighbours has one: two near the corner and the
      other eight on row 7, so that no mine has the last id. */
  ghost predicate CornerMines(mined: set<Coords>) {
    mined == {Coords(3, 1), Coords(1, 3), Coords(1, 7), Coords(2, 7), Coords(3, 7),
              Coords(4, 7), Coords(5, 7), Coords(6, 7), Coords(7, 7), Coords(8, 7)}
  }

  /** Each mine lies on the grid, and the ones outside row 7 are the two near
      the corner. */
  lemma CornerMineAt(mined: set<Coords>, c: Coords)
    requires CornerMines(mined) && c in mined
    ensures OnGrid(c) && (c.y == FieldsConstraintsY - 1 || c == Coords(3, 1) || c == Coords(1, 3))
  {
  }

  lemma CornerMinesCount(mined: set<Coords>)
    requires CornerMines(mined)
    ensures |mined| == BombsCount
  {
  }

  lemma CornerBoardShape(mined: set<Coords>, fs: seq<Field>)
    requires CornerMines(mined) && fs == Staged(mined)
    ensures ArrayLayout(fs) && CountsCorrect(fs) && MineCoords(fs) == mined && |mined| == BombsCount
    ensures fs[0].coords == Coords(1, 1) && fs[0].id == 1
    ensures !fs[0].hasBomb && !fs[0].isOpened && fs[0].bombsAround == 0
  {
    forall c | c in mined
      ensures OnGrid(c)
    {
      CornerMineAt(mined, c);
    }
    StagedBoard(mined);
    CornerMinesCount(mined);
    CornerField(mined, fs);
  }

  lemma CornerField(mined: set<Coords>, fs: seq<Field>)
    requires CornerMines(mined) && fs == Staged(mined)
    ensures fs[0].coords == Coords(1, 1) && fs[0].id == 1
    ensures !fs[0].hasBomb && !fs[0].isOpened && fs[0].bombsAround == 0
  {
    forall c | c in mined
      ensures !Adjacent(Coords(1, 1), c) && c != Coords(1, 1)
    {
      CornerMineAt(mined, c);
    }
    CountInNone(CoordsAround(FieldsConstraintsX, FieldsConstraintsY, CoordsAt(0)), mined);
  }

  /** The facts about the corner board the counterexample uses. */
  ghost predicate CornerFacts(fs: seq<Field>) {
    ArrayLayout(fs) && CountsCorrect(fs) && Coords(3, 1) in MineCoords(fs) && Coords(1, 3) in MineCoords(fs)
  }

  /** Every neighbour of the corner counts at least one mine. */
  lemma CornerNeighbourCounted(fs: seq<Field>, n: Coords)
    requires CornerFacts(fs)
    requires OnGrid(n) && Adjacent(Coords(1, 1), n)
    ensures fs[IndexOf(n)].bombsAround != 0
  {
    IndexOfOnGrid(n);
    LayoutCoversGrid(fs);
    var m := if n.y == 1 then Coords(3, 1) else Coords(1, 3);
    assert m in CoordsAround(FieldsConstraintsX, FieldsConstraintsY, n);
    assert CountedRight(fs, IndexOf(n));
    if fs[IndexOf(n)].bombsAround == 0 {
      CountInZero(CoordsAround(FieldsConstraintsX, FieldsConstraintsY, fs[IndexOf(n)].coords), MineCoords(fs));
    }
  }

  /** On the corner board, the component's flood from the corner expands only
      the corner: no sibling of it has a zero count. */
  lemma CornerExpandsAlone(fs: seq<Field>, around: Coords -> seq<Coords>, toOpen: set<int>, pushes: seq<Field>)
    requires CornerFacts(fs) && fs[0].coords == Coords(1, 1) && AroundAdjacent(around)
    requires Flooded(GameComponent, around, fs, fs[0], toOpen, pushes)
    ensures |pushes| == 1
  {
    if |pushes| > 1 {
      assert ChainedAt(GameComponent, around, fs, pushes, 1);
      var k, n :| 0 <= k < 1 && n in around(pushes[k].coords) && Sibling(GameComponent, fs, n) == Some(pushes[1]);
      var j :| 0 <= j < |fs| && fs[j] == pushes[1];
      CoordsAtIndex(j);
      CornerNeighbourCounted(fs, n);
      assert false;
    }
  }

  lemma CornerKeepsClicked(fs: seq<Field>, around: Coords -> seq<Coords>, toOpen: set<int>, pushes: seq<Field>)
    requires CornerFacts(fs) && fs[0].coords == Coords(1, 1) && AroundAdjacent(around)
    requires Flooded(GameComponent, around, fs, fs[0], toOpen, pushes)
    ensures 1 !in toOpen
  {
    CornerExpandsAlone(fs, around, toOpen, pushes);
    assert pushes == [fs[0]];
    FirstNotOwnSibling(around, fs);
  }

  /** The first field is not a sibling of itself, so expanding it alone does
      not justify its own id. */
  lemma FirstNotOwnSibling(around: Coords -> seq<Coords>, fs: seq<Field>)
    requires ArrayLayout(fs) && AroundAdjacent(around)
    ensures !Justified(GameComponent, around, fs, [fs[0]], fs[0].id)
  {
    forall k, n | 0 <= k < 1 && n in around([fs[0]][k].coords) && Sibling(GameComponent, fs, n).Some?
      ensures Sibling(GameComponent, fs, n).value.id != fs[0].id
    {
      assert [fs[0]][k] == fs[0];
      NotOwnSibling(around, fs, n);
    }
  }

  lemma NotOwnSibling(around: Coords -> seq<Coords>, fs: seq<Field>, n: Coords)
    requires ArrayLayout(fs) && AroundAdjacent(around)
    requires n in around(fs[0].coords) && Sibling(GameComponent, fs, n).Some?
    ensures Sibling(GameComponent, fs, n).value.id != fs[0].id
  {
    FindOnLayout(fs, n);
    IndexOfOnGrid(n);
    assert Adjacent(fs[0].coords, n);
    assert IndexOf(n) != 0;
  }

  /** `handleFieldClick` on a field with no mine around does not open the
      clicked field itself: the component's `fieldIdsToOpen` starts empty and
      only a zero-count neighbour could add the clicked id later. On the corner
      board, whatever the flood collects, id 1 of the clicked corner is not
      among it. */
  lemma ComponentFloodSkipsClicked(mined: set<Coords>, fs: seq<Field>, toOpen: set<int>, pushes: seq<Field>)
    requires CornerMines(mined) && fs == Staged(mined)
    requires Flooded(GameComponent, Around(GameComponent), fs, fs[0], toOpen, pushes)
    ensures !fs[0].hasBomb && !fs[0].isOpened && fs[0].bombsAround == 0
    ensures fs[0].id !in toOpen
  {
    CornerBoardShape(mined, fs);
    AroundIsAdjacent(GameComponent);
    CornerKeepsClicked(fs, Around(GameComponent), toOpen, pushes);
  }
}
