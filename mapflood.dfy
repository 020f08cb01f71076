/** `openEmptyFields` of src/hooks/useGame.ts: the flood fill that opens the
    clicked field and, from every field it expands, all closed in-grid
    neighbours; neighbours without a mine around are queued for expansion. */
module MapFlood {
  import opened Board
  import opened MapBoard

  /** m is m0 with some closed fields opened and nothing else changed. */
  ghost predicate Grows(m0: FieldsMap, m: FieldsMap) {
    (forall c :: c in m <==> c in m0) &&
    (forall c :: c in m ==> m[c] == m0[c].(isOpened := m[c].isOpened) && (m0[c].isOpened ==> m[c].isOpened))
  }

  /** `field.isOpened = true` on the field stored under c. */
  function Open(m: FieldsMap, c: Coords): (r: FieldsMap)
    requires c in m
    ensures c in r && r[c].isOpened
  {
    m[c := m[c].(isOpened := true)]
  }

  function Closed(m: FieldsMap): set<Coords> {
    set c | c in m && !m[c].isOpened
  }

  /** A cell the flood may expand: the clicked one, or a cell closed at the
      start with no mine around it. */
  ghost predicate Expandable(m0: FieldsMap, clicked: Field, c: Coords) {
    c == clicked.coords || (c in m0 && !m0[c].isOpened && m0[c].bombsAround == 0)
  }

  /** Every in-grid neighbour of an expanded cell is open. */
  ghost predicate Closure(w: nat, h: nat, m: FieldsMap, expanded: set<Coords>) {
    forall e, n :: e in expanded && n in CoordsAround(w, h, e) && n in m ==> m[n].isOpened
  }

  /** The clicked field is the board's own field under its coordinates. */
  ghost predicate Consistent(m0: FieldsMap, clicked: Field) {
    clicked.coords in m0 && m0[clicked.coords].id == clicked.id
  }

  /** No closed field carries the id v. */
  ghost predicate Foreign(m: FieldsMap, v: int) {
    forall c :: c in m && !m[c].isOpened ==> m[c].id != v
  }

  function CoordsOf(stack: seq<Field>): set<Coords> {
    set f | f in stack :: f.coords
  }

  /** `emptiesStack.find(({id}) => id === sibling.id)` finds a field. */
  predicate HasId(stack: seq<Field>, id: int) {
    exists i :: 0 <= i < |stack| && stack[i].id == id
  }

  /** b is an in-grid cell touching a, that is one of `findCoordsAround(a)`. */
  ghost predicate Touches(w: nat, h: nat, a: Coords, b: Coords) {
    InBounds(w, h, b) && Adjacent(a, b)
  }

  /** Every cell of pushes after the first is a neighbour of a cell pushed
      before it. */
  ghost predicate Chained(w: nat, h: nat, pushes: seq<Coords>) {
    forall i :: 1 <= i < |pushes| ==> ChainedAt(w, h, pushes, i)
  }

  ghost predicate ChainedAt(w: nat, h: nat, pushes: seq<Coords>, i: int)
    requires 0 <= i < |pushes|
  {
    exists k :: 0 <= k < i && Touches(w, h, pushes[k], pushes[i])
  }

  /** p walks from cell to neighbouring cell. */
  ghost predicate Path(w: nat, h: nat, p: seq<Coords>) {
    |p| >= 1 && forall j :: 0 <= j < |p| - 1 ==> Touches(w, h, p[j], p[j + 1])
  }

  /** What the flood promises about its result m and the cells it expanded, in
      the order pushes put them on the stack: the clicked cell is pushed first,
      every later one is a neighbour of one pushed before, and none twice; only
      closed fields open; the clicked field opens; every neighbour of an
      expanded cell is open; only the clicked cell and neighbours of expanded
      cells open; expanded cells are the clicked one or mine-free-around cells;
      and, when the clicked field belongs to the board, every opened cell with
      no mine around is expanded in turn. */
  ghost predicate Flooded(w: nat, h: nat, m0: FieldsMap, clicked: Field, m: FieldsMap, expanded: set<Coords>,
                          pushes: seq<Coords>) {
    |pushes| >= 1 && pushes[0] == clicked.coords && Distinct(pushes) && Chained(w, h, pushes) &&
    (forall c :: c in expanded <==> c in pushes) &&
    Grows(m0, m) &&
    (clicked.coords in m0 ==> m[clicked.coords].isOpened) &&
    clicked.coords in expanded &&
    (forall e :: e in expanded ==> Expandable(m0, clicked, e)) &&
    Closure(w, h, m, expanded) &&
    (forall c :: c in Switched(m0, m) ==> c == clicked.coords || exists e :: e in expanded && c in CoordsAround(w, h, e)) &&
    (Consistent(m0, clicked) ==> forall c :: c in Switched(m0, m) && m[c].bombsAround == 0 ==> c in expanded)
  }

  /** Every opened cell except the clicked one names, in parentOf, the cell among
      parents whose expansion opened it. */
  ghost predicate Justified(w: nat, h: nat, m0: FieldsMap, m: FieldsMap, clicked: Field,
                            parentOf: map<Coords, Coords>, parents: set<Coords>) {
    forall c :: c in Switched(m0, m) && c != clicked.coords ==>
      c in parentOf && parentOf[c] in parents && c in CoordsAround(w, h, parentOf[c])
  }

  /** Every opened cell with no mine around is expanded or waiting on the stack. */
  ghost predicate Pending(m0: FieldsMap, m: FieldsMap, clicked: Field, expanded: set<Coords>, stack: seq<Field>) {
    forall c :: c in Switched(m0, m) && m[c].bombsAround == 0 ==>
      c == clicked.coords || c in expanded || c in CoordsOf(stack)
  }

  /** The ids on the stack and the verified ids belong to open fields only. */
  ghost predicate Tracked(m: FieldsMap, stack: seq<Field>, verified: set<int>) {
    (forall i :: 0 <= i < |stack| ==> Foreign(m, stack[i].id)) &&
    (forall v :: v in verified ==> Foreign(m, v))
  }

  function OpenedBefore(m0: FieldsMap, clicked: Field): nat {
    if clicked.coords in m0 && m0[clicked.coords].isOpened then 1 else 0
  }

  /** The state the flood keeps between two neighbour visits. */
  ghost predicate FloodInv(w: nat, h: nat, m0: FieldsMap, clicked: Field, m: FieldsMap, stack: seq<Field>,
                           verified: set<int>, openedCount: nat, parentOf: map<Coords, Coords>,
                           parents: set<Coords>, expanded: set<Coords>) {
    Grows(m0, m) &&
    (clicked.coords in m0 ==> m[clicked.coords].isOpened) &&
    (forall i :: 0 <= i < |stack| ==> Expandable(m0, clicked, stack[i].coords)) &&
    Closure(w, h, m, expanded) &&
    Justified(w, h, m0, m, clicked, parentOf, parents) &&
    (Consistent(m0, clicked) ==> Pending(m0, m, clicked, expanded, stack) && Tracked(m, stack, verified)) &&
    openedCount == |Switched(m0, m)| + OpenedBefore(m0, clicked)
  }

  lemma OpenGrows(m0: FieldsMap, m: FieldsMap, n: Coords)
    requires Grows(m0, m) && n in m
    ensures Grows(m0, Open(m, n))
  {
  }

  lemma OpenSwitched(m0: FieldsMap, m: FieldsMap, n: Coords)
    requires Grows(m0, m) && n in m && !m[n].isOpened
    ensures n !in Switched(m0, m)
    ensures Switched(m0, Open(m, n)) == Switched(m0, m) + {n}
    ensures |Switched(m0, Open(m, n))| == |Switched(m0, m)| + 1
  {
    assert Switched(m0, Open(m, n)) == Switched(m0, m) + {n};
  }

  lemma OpenClosed(m: FieldsMap, n: Coords)
    requires n in m && !m[n].isOpened
    ensures |Closed(Open(m, n))| + 1 == |Closed(m)|
  {
    assert Closed(Open(m, n)) == Closed(m) - {n};
  }

  lemma ClosureOpen(w: nat, h: nat, m: FieldsMap, expanded: set<Coords>, n: Coords)
    requires n in m && Closure(w, h, m, expanded)
    ensures Closure(w, h, Open(m, n), expanded)
  {
  }

  /** Opening a field of the board leaves no closed field with its id. */
  lemma ForeignOpened(w: nat, h: nat, m0: FieldsMap, m: FieldsMap, n: Coords)
    requires IsLayout(w, h, m0) && Grows(m0, m) && n in m
    ensures Foreign(Open(m, n), m[n].id)
  {
    var r := Open(m, n);
    forall c | c in r && !r[c].isOpened
      ensures r[c].id != m[n].id
    {
      assert IdOf(w, c) == IdOf(w, n) ==> c == n by {
        if IdOf(w, c) == IdOf(w, n) {
          IdOfInjective(w, h, c, n);
        }
      }
    }
  }

  lemma TrackedOpen(m: FieldsMap, stack: seq<Field>, verified: set<int>, n: Coords)
    requires n in m && Tracked(m, stack, verified)
    ensures Tracked(Open(m, n), stack, verified)
  {
  }

  lemma PendingOpen(m0: FieldsMap, m: FieldsMap, clicked: Field, expanded: set<Coords>,
                    stack: seq<Field>, n: Coords, pushed: seq<Field>)
    requires Grows(m0, m) && n in m && !m[n].isOpened
    requires Pending(m0, m, clicked, expanded, stack)
    requires m[n].bombsAround == 0 ==> n in CoordsOf(stack + pushed)
    ensures Pending(m0, Open(m, n), clicked, expanded, stack + pushed)
  {
    OpenSwitched(m0, m, n);
    assert CoordsOf(stack) <= CoordsOf(stack + pushed);
  }

  lemma JustifiedOpen(w: nat, h: nat, m0: FieldsMap, m: FieldsMap, clicked: Field,
                      parentOf: map<Coords, Coords>, parents: set<Coords>, p: Coords, n: Coords)
    requires Grows(m0, m) && n in m && !m[n].isOpened
    requires Justified(w, h, m0, m, clicked, parentOf, parents)
    requires p in parents && n in CoordsAround(w, h, p)
    ensures Justified(w, h, m0, Open(m, n), clicked, parentOf[n := p], parents)
  {
    OpenSwitched(m0, m, n);
  }

  lemma StackFitPush(w: nat, h: nat, m0: FieldsMap, m: FieldsMap, clicked: Field, stack: seq<Field>,
                     n: Coords, pushed: seq<Field>)
    requires IsLayout(w, h, m0) && Grows(m0, m) && n in m && !m[n].isOpened
    requires forall i :: 0 <= i < |stack| ==> Expandable(m0, clicked, stack[i].coords)
    requires pushed == [] || (pushed == [Open(m, n)[n]] && m[n].bombsAround == 0)
    ensures forall i :: 0 <= i < |stack + pushed| ==> Expandable(m0, clicked, (stack + pushed)[i].coords)
  {
    if pushed != [] {
      assert m[n].coords == n by {
        assert m[n] == m0[n].(isOpened := m[n].isOpened);
      }
      assert Expandable(m0, clicked, n);
    }
  }

  lemma ConsistentOpen(w: nat, h: nat, m0: FieldsMap, clicked: Field, m: FieldsMap, stack: seq<Field>,
                       verified: set<int>, expanded: set<Coords>, n: Coords, pushed: seq<Field>)
    requires IsLayout(w, h, m0) && Grows(m0, m) && n in m && !m[n].isOpened
    requires Pending(m0, m, clicked, expanded, stack) && Tracked(m, stack, verified)
    requires pushed == [] || pushed == [Open(m, n)[n]]
    requires pushed == [] ==> !(m[n].bombsAround == 0 && !HasId(stack, m[n].id) && m[n].id !in verified)
    ensures Pending(m0, Open(m, n), clicked, expanded, stack + pushed)
    ensures Tracked(Open(m, n), stack + pushed, verified)
  {
    assert !HasId(stack, m[n].id) && m[n].id !in verified;
    assert m[n].bombsAround == 0 ==> pushed != [];
    assert Open(m, n)[n].coords == n by {
      assert m[n] == m0[n].(isOpened := m[n].isOpened);
    }
    assert pushed != [] ==> n in CoordsOf(stack + pushed) by {
      if pushed != [] {
        assert (stack + pushed)[|stack|] == Open(m, n)[n];
      }
    }
    PendingOpen(m0, m, clicked, expanded, stack, n, pushed);
    TrackedOpen(m, stack, verified, n);
    ForeignOpened(w, h, m0, m, n);
  }

  /** Opening a closed sibling, and queueing it or not by the rule of the
      source, keeps the flood's state. */
  lemma OpenStepInv(w: nat, h: nat, m0: FieldsMap, clicked: Field, m: FieldsMap, stack: seq<Field>,
                    verified: set<int>, openedCount: nat, parentOf: map<Coords, Coords>,
                    parents: set<Coords>, expanded: set<Coords>, p: Coords, n: Coords, pushed: seq<Field>)
    requires IsLayout(w, h, m0)
    requires p in parents && n in CoordsAround(w, h, p)
    requires FloodInv(w, h, m0, clicked, m, stack, verified, openedCount, parentOf, parents, expanded)
    requires n in m && !m[n].isOpened
    requires pushed == [] || (pushed == [Open(m, n)[n]] && m[n].bombsAround == 0)
    requires pushed == [] ==> !(m[n].bombsAround == 0 && !HasId(stack, m[n].id) && m[n].id !in verified)
    ensures FloodInv(w, h, m0, clicked, Open(m, n), stack + pushed, verified, openedCount + 1,
                     parentOf[n := p], parents, expanded)
  {
    OpenGrows(m0, m, n);
    OpenSwitched(m0, m, n);
    ClosureOpen(w, h, m, expanded, n);
    JustifiedOpen(w, h, m0, m, clicked, parentOf, parents, p, n);
    StackFitPush(w, h, m0, m, clicked, stack, n, pushed);
    if Consistent(m0, clicked) {
      ConsistentOpen(w, h, m0, clicked, m, stack, verified, expanded, n, pushed);
    }
  }

  /** pushes records every cell put on the stack, in order: the stack is what
      remains of it, the cells already taken off are the expanded ones, and a
      recorded cell is open. */
  ghost predicate Queued(m: FieldsMap, stack: seq<Field>, pushes: seq<Coords>, expanded: set<Coords>) {
    |stack| <= |pushes| && Distinct(pushes) &&
    (forall i :: 0 <= i < |stack| ==> stack[i].coords == pushes[|pushes| - |stack| + i]) &&
    (forall c :: c in expanded <==> c in pushes[..|pushes| - |stack|]) &&
    (forall i :: 0 <= i < |pushes| && pushes[i] in m ==> m[pushes[i]].isOpened)
  }

  lemma QueuedOpen(m: FieldsMap, stack: seq<Field>, pushes: seq<Coords>, expanded: set<Coords>,
                   n: Coords, pushed: seq<Field>)
    requires Queued(m, stack, pushes, expanded) && n in m && !m[n].isOpened
    requires pushed == [] || (|pushed| == 1 && pushed[0].coords == n)
    ensures Queued(Open(m, n), stack + pushed, pushes + (if pushed == [] then [] else [n]), expanded)
  {
    var rp := pushes + (if pushed == [] then [] else [n]);
    assert n !in pushes;
    assert rp[..|rp| - |stack + pushed|] == pushes[..|pushes| - |stack|];
    assert forall i :: 0 <= i < |stack| ==> (stack + pushed)[i] == stack[i];
  }

  lemma QueuedShift(m: FieldsMap, stack: seq<Field>, pushes: seq<Coords>, expanded: set<Coords>)
    requires Queued(m, stack, pushes, expanded) && stack != []
    ensures Queued(m, stack[1..], pushes, expanded + {stack[0].coords})
  {
    var k := |pushes| - |stack|;
    assert pushes[..k + 1] == pushes[..k] + [stack[0].coords];
    assert forall i :: 0 <= i < |stack[1..]| ==> stack[1..][i] == stack[i + 1];
  }

  /** Pushing a neighbour of a cell already pushed keeps the chain. */
  lemma ChainedPush(w: nat, h: nat, pushes: seq<Coords>, k: nat, n: Coords)
    requires Chained(w, h, pushes) && k < |pushes| && Touches(w, h, pushes[k], n)
    ensures Chained(w, h, pushes + [n])
  {
    var r := pushes + [n];
    forall i | 1 <= i < |r|
      ensures ChainedAt(w, h, r, i)
    {
      if i < |pushes| {
        assert ChainedAt(w, h, pushes, i);
        var k' :| 0 <= k' < i && Touches(w, h, pushes[k'], pushes[i]);
        assert r[i] == pushes[i] && r[k'] == pushes[k'];
      } else {
        assert r[i] == n && r[k] == pushes[k];
      }
    }
  }

  /** A sibling of the field on top of the stack, queued or not, keeps the chain. */
  lemma ChainedOpen(w: nat, h: nat, m: FieldsMap, stack: seq<Field>, pushes: seq<Coords>, expanded: set<Coords>,
                    field: Field, n: Coords, pushed: seq<Field>)
    requires Queued(m, stack, pushes, expanded) && |stack| > 0 && stack[0] == field && Chained(w, h, pushes)
    requires n in CoordsAround(w, h, field.coords)
    ensures Chained(w, h, pushes + (if pushed == [] then [] else [n]))
  {
    if pushed != [] {
      assert field.coords == pushes[|pushes| - |stack|];
      ChainedPush(w, h, pushes, |pushes| - |stack|, n);
    } else {
      assert pushes + [] == pushes;
    }
  }

  /** One pass of `for (const coords of coordsAround)`: the sibling at n opens if
      it is a closed field of the board, and is queued if it has no mine around
      and its id is neither queued nor verified. */
  method VisitSibling(w: nat, h: nat, m0: FieldsMap, clicked: Field, m: FieldsMap, stack: seq<Field>,
                      verified: set<int>, openedCount: nat, ghost parentOf: map<Coords, Coords>,
                      ghost parents: set<Coords>, ghost expanded: set<Coords>, ghost pushes: seq<Coords>,
                      field: Field, n: Coords)
    returns (rm: FieldsMap, rstack: seq<Field>, rcount: nat, ghost rparentOf: map<Coords, Coords>,
             ghost rpushes: seq<Coords>)
    requires IsLayout(w, h, m0)
    requires field.coords in parents && n in CoordsAround(w, h, field.coords)
    requires FloodInv(w, h, m0, clicked, m, stack, verified, openedCount, parentOf, parents, expanded)
    requires Queued(m, stack, pushes, expanded)
    requires |stack| > 0 && stack[0] == field && Chained(w, h, pushes)
    ensures FloodInv(w, h, m0, clicked, rm, rstack, verified, rcount, rparentOf, parents, expanded)
    ensures Queued(rm, rstack, rpushes, expanded) && Chained(w, h, rpushes)
    ensures |rpushes| >= |pushes| && rpushes[..|pushes|] == pushes
    ensures n in rm ==> rm[n].isOpened
    ensures forall c :: c in rm <==> c in m
    ensures forall c :: c in m && m[c].isOpened ==> rm[c].isOpened
    ensures |rstack| >= |stack| && rstack[..|stack|] == stack
    ensures |Closed(rm)| + |rstack| <= |Closed(m)| + |stack|
  {
    if n in m && !m[n].isOpened {
      rm, rstack, rcount, rparentOf, rpushes := OpenSibling(w, h, m0, clicked, m, stack, verified, openedCount,
                                                             parentOf, parents, expanded, pushes, field, n);
    } else {
      rm, rstack, rcount, rparentOf, rpushes := m, stack, openedCount, parentOf, pushes;
    }
  }

  /** The opening branch of that pass: n holds a closed field. */
  method OpenSibling(w: nat, h: nat, m0: FieldsMap, clicked: Field, m: FieldsMap, stack: seq<Field>,
                      verified: set<int>, openedCount: nat, ghost parentOf: map<Coords, Coords>,
                      ghost parents: set<Coords>, ghost expanded: set<Coords>, ghost pushes: seq<Coords>,
                      field: Field, n: Coords)
    returns (rm: FieldsMap, rstack: seq<Field>, rcount: nat, ghost rparentOf: map<Coords, Coords>,
             ghost rpushes: seq<Coords>)
    requires IsLayout(w, h, m0)
    requires field.coords in parents && n in CoordsAround(w, h, field.coords)
    requires FloodInv(w, h, m0, clicked, m, stack, verified, openedCount, parentOf, parents, expanded)
    requires Queued(m, stack, pushes, expanded)
    requires |stack| > 0 && stack[0] == field && Chained(w, h, pushes)
    requires n in m && !m[n].isOpened
    ensures FloodInv(w, h, m0, clicked, rm, rstack, verified, rcount, rparentOf, parents, expanded)
    ensures Queued(rm, rstack, rpushes, expanded) && Chained(w, h, rpushes)
    ensures |rpushes| >= |pushes| && rpushes[..|pushes|] == pushes
    ensures n in rm ==> rm[n].isOpened
    ensures forall c :: c in rm <==> c in m
    ensures forall c :: c in m && m[c].isOpened ==> rm[c].isOpened
    ensures |rstack| >= |stack| && rstack[..|stack|] == stack
    ensures |Closed(rm)| + |rstack| <= |Closed(m)| + |stack|
  {
    var sibling := m[n];
    rm := Open(m, n);
    rcount := openedCount + 1;
    rparentOf := parentOf[n := field.coords];
    var pushed: seq<Field> := [];
    if sibling.bombsAround == 0 && !HasId(stack, sibling.id) && sibling.id !in verified {
      pushed := [rm[n]];
    }
    rstack := stack + pushed;
    rpushes := pushes + (if pushed == [] then [] else [n]);
    assert rstack[..|stack|] == stack;
    assert rpushes[..|pushes|] == pushes;
    assert m[n].coords == n by {
      assert m[n] == m0[n].(isOpened := m[n].isOpened);
    }
    QueuedOpen(m, stack, pushes, expanded, n, pushed);
    ChainedOpen(w, h, m, stack, pushes, expanded, field, n, pushed);
    OpenStepInv(w, h, m0, clicked, m, stack, verified, openedCount, parentOf, parents, expanded,
                field.coords, n, pushed);
    OpenClosed(m, n);
  }

  lemma ClosureAdd(w: nat, h: nat, m: FieldsMap, expanded: set<Coords>, e: Coords)
    requires Closure(w, h, m, expanded)
    requires forall k :: 0 <= k < |CoordsAround(w, h, e)| && CoordsAround(w, h, e)[k] in m ==>
      m[CoordsAround(w, h, e)[k]].isOpened
    ensures Closure(w, h, m, expanded + {e})
  {
  }

  lemma ShiftStack(m0: FieldsMap, m: FieldsMap, clicked: Field, expanded: set<Coords>,
                   stack: seq<Field>, verified: set<int>)
    requires stack != []
    requires Pending(m0, m, clicked, expanded, stack) && Tracked(m, stack, verified)
    ensures Pending(m0, m, clicked, expanded + {stack[0].coords}, stack[1..])
    ensures Tracked(m, stack[1..], verified + {stack[0].id})
  {
    assert CoordsOf(stack) <= CoordsOf(stack[1..]) + {stack[0].coords} by {
      forall f | f in stack
        ensures f.coords in CoordsOf(stack[1..]) + {stack[0].coords}
      {
        assert f == stack[0] || f in stack[1..];
      }
    }
  }

  lemma JustifiedExists(w: nat, h: nat, m0: FieldsMap, m: FieldsMap, clicked: Field,
                        parentOf: map<Coords, Coords>, expanded: set<Coords>)
    requires Justified(w, h, m0, m, clicked, parentOf, expanded)
    ensures forall c :: c in Switched(m0, m) ==>
      c == clicked.coords || exists e :: e in expanded && c in CoordsAround(w, h, e)
  {
    forall c | c in Switched(m0, m) && c != clicked.coords
      ensures exists e :: e in expanded && c in CoordsAround(w, h, e)
    {
      var e := parentOf[c];
      assert e in expanded && c in CoordsAround(w, h, e);
    }
  }

  /** Opening the clicked field first: the state the loop starts from. */
  lemma FloodStart(w: nat, h: nat, m0: FieldsMap, clicked: Field, m: FieldsMap, openedCount: nat)
    requires IsLayout(w, h, m0)
    requires clicked.coords in m0 ==> m == Open(m0, clicked.coords) && openedCount == 1
    requires clicked.coords !in m0 ==> m == m0 && openedCount == 0
    ensures FloodInv(w, h, m0, clicked, m, [clicked], {}, openedCount, map[], {}, {})
  {
    var c := clicked.coords;
    if c in m0 {
      assert Switched(m0, m) == if m0[c].isOpened then {} else {c};
      ForeignOpened(w, h, m0, m0, c);
    } else {
      assert Switched(m0, m) == {};
    }
  }

  /** The `for` loop of `verifyEmptiesAround(field)`: visits every in-grid
      neighbour of the field on top of the stack; afterwards all of them are open. */
  method ExpandField(w: nat, h: nat, m0: FieldsMap, clicked: Field, m: FieldsMap, stack: seq<Field>,
                     verified: set<int>, openedCount: nat, ghost parentOf: map<Coords, Coords>,
                     ghost expanded: set<Coords>, ghost pushes: seq<Coords>)
    returns (rm: FieldsMap, rstack: seq<Field>, rcount: nat, ghost rparentOf: map<Coords, Coords>,
             ghost rpushes: seq<Coords>)
    requires IsLayout(w, h, m0) && stack != []
    requires FloodInv(w, h, m0, clicked, m, stack, verified, openedCount, parentOf, expanded, expanded)
    requires Queued(m, stack, pushes, expanded) && Chained(w, h, pushes)
    ensures rstack != [] && rstack[0] == stack[0]
    ensures Queued(rm, rstack, rpushes, expanded) && Chained(w, h, rpushes)
    ensures |rpushes| >= |pushes| && rpushes[..|pushes|] == pushes
    ensures FloodInv(w, h, m0, clicked, rm, rstack, verified, rcount, rparentOf,
                     expanded + {stack[0].coords}, expanded + {stack[0].coords})
    ensures |Closed(rm)| + |rstack| <= |Closed(m)| + |stack|
  {
    var field := stack[0];
    var around := CoordsAround(w, h, field.coords);
    ghost var parents := expanded + {field.coords};
    JustifiedWider(w, h, m0, m, clicked, parentOf, expanded, parents);
    rm, rstack, rcount, rparentOf, rpushes := m, stack, openedCount, parentOf, pushes;
    var j := 0;
    while j < |around|
      invariant 0 <= j <= |around|
      invariant |rstack| > 0 && rstack[0] == field
      invariant FloodInv(w, h, m0, clicked, rm, rstack, verified, rcount, rparentOf, parents, expanded)
      invariant Queued(rm, rstack, rpushes, expanded) && Chained(w, h, rpushes)
      invariant |rpushes| >= |pushes| && rpushes[..|pushes|] == pushes
      invariant forall k :: 0 <= k < j && around[k] in rm ==> rm[around[k]].isOpened
      invariant |Closed(rm)| + |rstack| <= |Closed(m)| + |stack|
    {
      rm, rstack, rcount, rparentOf, rpushes := VisitAt(w, h, m0, clicked, rm, rstack, verified, rcount,
                                                         rparentOf, parents, expanded, rpushes, field, j,
                                                         m, stack, pushes);
      j := j + 1;
    }
    ExpandedInv(w, h, m0, clicked, rm, rstack, verified, rcount, rparentOf, expanded, field.coords);
  }

  /** The visit of the j-th neighbour of field, with what the loop of
      `ExpandField` keeps about the neighbours before it. */
  method VisitAt(w: nat, h: nat, m0: FieldsMap, clicked: Field, m: FieldsMap, stack: seq<Field>,
                 verified: set<int>, openedCount: nat, ghost parentOf: map<Coords, Coords>,
                 ghost parents: set<Coords>, ghost expanded: set<Coords>, ghost pushes: seq<Coords>,
                 field: Field, j: nat, ghost m1: FieldsMap, ghost stack1: seq<Field>, ghost pushes1: seq<Coords>)
    returns (rm: FieldsMap, rstack: seq<Field>, rcount: nat, ghost rparentOf: map<Coords, Coords>,
             ghost rpushes: seq<Coords>)
    requires IsLayout(w, h, m0)
    requires field.coords in parents && j < |CoordsAround(w, h, field.coords)|
    requires |stack| > 0 && stack[0] == field
    requires FloodInv(w, h, m0, clicked, m, stack, verified, openedCount, parentOf, parents, expanded)
    requires Queued(m, stack, pushes, expanded) && Chained(w, h, pushes)
    requires |pushes| >= |pushes1| && pushes[..|pushes1|] == pushes1
    requires forall k :: 0 <= k < j && CoordsAround(w, h, field.coords)[k] in m ==>
      m[CoordsAround(w, h, field.coords)[k]].isOpened
    requires |Closed(m)| + |stack| <= |Closed(m1)| + |stack1|
    ensures |rstack| > 0 && rstack[0] == field
    ensures FloodInv(w, h, m0, clicked, rm, rstack, verified, rcount, rparentOf, parents, expanded)
    ensures Queued(rm, rstack, rpushes, expanded) && Chained(w, h, rpushes)
    ensures |rpushes| >= |pushes1| && rpushes[..|pushes1|] == pushes1
    ensures forall k :: 0 <= k < j + 1 && CoordsAround(w, h, field.coords)[k] in rm ==>
      rm[CoordsAround(w, h, field.coords)[k]].isOpened
    ensures |Closed(rm)| + |rstack| <= |Closed(m1)| + |stack1|
  {
    var around := CoordsAround(w, h, field.coords);
    rm, rstack, rcount, rparentOf, rpushes := VisitSibling(w, h, m0, clicked, m, stack, verified, openedCount,
                                                            parentOf, parents, expanded, pushes, field, around[j]);
    VisitKeeps(field, around, j, m, rm, stack, rstack, pushes1, pushes, rpushes, m1, stack1);
  }

  /** The facts the neighbour loop keeps besides the flood state, across one visit. */
  lemma VisitKeeps(field: Field, around: seq<Coords>, j: nat, m: FieldsMap, rm: FieldsMap,
                   stack: seq<Field>, rstack: seq<Field>, pushes1: seq<Coords>, pushes: seq<Coords>,
                   rpushes: seq<Coords>, m1: FieldsMap, stack1: seq<Field>)
    requires j < |around| && |stack| > 0 && stack[0] == field
    requires |rstack| >= |stack| && rstack[..|stack|] == stack
    requires |pushes| >= |pushes1| && pushes[..|pushes1|] == pushes1
    requires |rpushes| >= |pushes| && rpushes[..|pushes|] == pushes
    requires forall k :: 0 <= k < j && around[k] in m ==> m[around[k]].isOpened
    requires forall c :: c in rm <==> c in m
    requires forall c :: c in m && m[c].isOpened ==> rm[c].isOpened
    requires around[j] in rm ==> rm[around[j]].isOpened
    requires |Closed(m)| + |stack| <= |Closed(m1)| + |stack1|
    requires |Closed(rm)| + |rstack| <= |Closed(m)| + |stack|
    ensures |rstack| > 0 && rstack[0] == field
    ensures |rpushes| >= |pushes1| && rpushes[..|pushes1|] == pushes1
    ensures forall k :: 0 <= k < j + 1 && around[k] in rm ==> rm[around[k]].isOpened
    ensures |Closed(rm)| + |rstack| <= |Closed(m1)| + |stack1|
  {
    assert rstack[0] == stack[0];
    OpenedPrefix(around, j, m, rm);
    assert rpushes[..|pushes1|] == pushes[..|pushes1|];
  }

  /** Once every neighbour of e is open, e counts as expanded. */
  lemma ExpandedInv(w: nat, h: nat, m0: FieldsMap, clicked: Field, m: FieldsMap, stack: seq<Field>,
                    verified: set<int>, openedCount: nat, parentOf: map<Coords, Coords>,
                    expanded: set<Coords>, e: Coords)
    requires FloodInv(w, h, m0, clicked, m, stack, verified, openedCount, parentOf, expanded + {e}, expanded)
    requires forall k :: 0 <= k < |CoordsAround(w, h, e)| && CoordsAround(w, h, e)[k] in m ==>
      m[CoordsAround(w, h, e)[k]].isOpened
    ensures FloodInv(w, h, m0, clicked, m, stack, verified, openedCount, parentOf, expanded + {e}, expanded + {e})
  {
    ClosureAdd(w, h, m, expanded, e);
    if Consistent(m0, clicked) {
      PendingWider(m0, m, clicked, expanded, expanded + {e}, stack);
    }
  }

  lemma OpenedPrefix(around: seq<Coords>, j: nat, m: FieldsMap, r: FieldsMap)
    requires j < |around|
    requires forall k :: 0 <= k < j && around[k] in m ==> m[around[k]].isOpened
    requires forall c :: c in r <==> c in m
    requires forall c :: c in m && m[c].isOpened ==> r[c].isOpened
    requires around[j] in r ==> r[around[j]].isOpened
    ensures forall k :: 0 <= k < j + 1 && around[k] in r ==> r[around[k]].isOpened
  {
  }

  lemma JustifiedWider(w: nat, h: nat, m0: FieldsMap, m: FieldsMap, clicked: Field,
                       parentOf: map<Coords, Coords>, parents: set<Coords>, more: set<Coords>)
    requires Justified(w, h, m0, m, clicked, parentOf, parents) && parents <= more
    ensures Justified(w, h, m0, m, clicked, parentOf, more)
  {
  }

  lemma PendingWider(m0: FieldsMap, m: FieldsMap, clicked: Field, expanded: set<Coords>,
                     more: set<Coords>, stack: seq<Field>)
    requires Pending(m0, m, clicked, expanded, stack) && expanded <= more
    ensures Pending(m0, m, clicked, more, stack)
  {
  }

  /** `verifiedEmptiesIds.add(field.id); emptiesStack.shift()` keep the state. */
  lemma ShiftInv(w: nat, h: nat, m0: FieldsMap, clicked: Field, m: FieldsMap, stack: seq<Field>,
                 verified: set<int>, openedCount: nat, parentOf: map<Coords, Coords>, expanded: set<Coords>)
    requires stack != [] && stack[0].coords in expanded
    requires FloodInv(w, h, m0, clicked, m, stack, verified, openedCount, parentOf, expanded, expanded)
    ensures FloodInv(w, h, m0, clicked, m, stack[1..], verified + {stack[0].id}, openedCount, parentOf,
                     expanded, expanded)
  {
    if Consistent(m0, clicked) {
      ShiftStack(m0, m, clicked, expanded, stack, verified);
      assert expanded + {stack[0].coords} == expanded;
    }
    assert forall i :: 0 <= i < |stack[1..]| ==> stack[1..][i] == stack[i + 1];
  }

  /** `openEmptyFields(clickedField, fields)`: returns the new board and the
      number of fields `opened` it adds to `fieldsOpened`, which counts the
      clicked field and every sibling it opens. */
  method OpenEmptyFields(w: nat, h: nat, clicked: Field, m0: FieldsMap)
    returns (m: FieldsMap, openedCount: nat, ghost expanded: set<Coords>, ghost pushes: seq<Coords>)
    requires IsLayout(w, h, m0)
    ensures Flooded(w, h, m0, clicked, m, expanded, pushes)
    ensures openedCount == |Switched(m0, m)| + OpenedBefore(m0, clicked)
  {
    m := m0;
    openedCount := 0;
    if clicked.coords in m {
      m := Open(m, clicked.coords);
      openedCount := 1;
    }
    FloodStart(w, h, m0, clicked, m, openedCount);
    var stack := [clicked];
    var verified: set<int> := {};
    expanded := {};
    ghost var parentOf: map<Coords, Coords> := map[];
    pushes := [clicked.coords];
    while |stack| > 0
      invariant FloodInv(w, h, m0, clicked, m, stack, verified, openedCount, parentOf, expanded, expanded)
      invariant Queued(m, stack, pushes, expanded) && Chained(w, h, pushes)
      invariant |pushes| >= 1 && pushes[0] == clicked.coords
      invariant forall e :: e in expanded ==> Expandable(m0, clicked, e)
      invariant expanded == {} ==> stack == [clicked]
      invariant expanded != {} ==> clicked.coords in expanded
      decreases |Closed(m)| + |stack|
    {
      var field := stack[0];
      assert Expandable(m0, clicked, field.coords);
      m, stack, openedCount, parentOf, pushes := ExpandField(w, h, m0, clicked, m, stack, verified, openedCount,
                                                             parentOf, expanded, pushes);
      assert pushes[0] == clicked.coords;
      QueuedShift(m, stack, pushes, expanded);
      expanded := expanded + {field.coords};
      ShiftInv(w, h, m0, clicked, m, stack, verified, openedCount, parentOf, expanded);
      verified := verified + {field.id};
      stack := stack[1..];
    }
    JustifiedExists(w, h, m0, m, clicked, parentOf, expanded);
    assert pushes[..|pushes| - |stack|] == pushes;
  }

  /** With counts that match the mines, a flood from a mine-free clicked cell
      with no mine around opens no mine. */
  lemma FloodOpensNoMine(w: nat, h: nat, m0: FieldsMap, clicked: Field, m: FieldsMap, expanded: set<Coords>,
                         pushes: seq<Coords>)
    requires IsLayout(w, h, m0) && CountsCorrect(w, h, m0)
    requires Flooded(w, h, m0, clicked, m, expanded, pushes)
    requires clicked.coords in m0 && m0[clicked.coords].bombsAround == 0 && !m0[clicked.coords].hasBomb
    ensures forall c :: c in Switched(m0, m) ==> !m0[c].hasBomb
  {
    forall c | c in Switched(m0, m) && c != clicked.coords
      ensures !m0[c].hasBomb
    {
      var e :| e in expanded && c in CoordsAround(w, h, e);
      assert e in m0 && m0[e].bombsAround == 0;
      CountInZero(CoordsAround(w, h, e), BombCoords(m0));
    }
  }

  /** Each pushed cell is reached from the first along a path of pushed cells. */
  lemma {:induction false} ChainReaches(w: nat, h: nat, pushes: seq<Coords>, i: nat)
    requires Chained(w, h, pushes) && i < |pushes|
    ensures exists p :: Path(w, h, p) && p[0] == pushes[0] && p[|p| - 1] == pushes[i] &&
                        (forall j :: 0 <= j < |p| ==> p[j] in pushes)
    decreases i
  {
    if i == 0 {
      assert Path(w, h, [pushes[0]]);
    } else {
      assert ChainedAt(w, h, pushes, i);
      var k :| 0 <= k < i && Touches(w, h, pushes[k], pushes[i]);
      ChainReaches(w, h, pushes, k);
      var p :| Path(w, h, p) && p[0] == pushes[0] && p[|p| - 1] == pushes[k] &&
               (forall j :: 0 <= j < |p| ==> p[j] in pushes);
      var q := p + [pushes[i]];
      assert forall j :: 0 <= j < |p| ==> q[j] == p[j];
      assert Path(w, h, q);
      assert forall j :: 0 <= j < |q| ==> q[j] in pushes;
    }
  }

  /** A cell touching a pushed cell is reached from the first pushed cell along
      a path whose cells before the last were all pushed. */
  lemma PathThrough(w: nat, h: nat, pushes: seq<Coords>, i: nat, c: Coords)
    requires Chained(w, h, pushes) && i < |pushes| && Touches(w, h, pushes[i], c)
    ensures exists p :: Path(w, h, p) && p[0] == pushes[0] && p[|p| - 1] == c &&
                        (forall j :: 0 <= j < |p| - 1 ==> p[j] in pushes)
  {
    ChainReaches(w, h, pushes, i);
    var p :| Path(w, h, p) && p[0] == pushes[0] && p[|p| - 1] == pushes[i] &&
             (forall j :: 0 <= j < |p| ==> p[j] in pushes);
    var q := p + [c];
    assert forall j :: 0 <= j < |p| ==> q[j] == p[j];
    assert Path(w, h, q);
  }

  /** The flood opens only the region connected to the click: every opened cell
      is reached from the clicked one along a path whose cells before the last
      were all expanded, that is the clicked cell or cells with no mine around. */
  lemma FloodConnected(w: nat, h: nat, m0: FieldsMap, clicked: Field, m: FieldsMap, expanded: set<Coords>,
                       pushes: seq<Coords>)
    requires Flooded(w, h, m0, clicked, m, expanded, pushes)
    ensures forall c :: c in Switched(m0, m) ==>
      exists p :: Path(w, h, p) && p[0] == clicked.coords && p[|p| - 1] == c &&
                  (forall j :: 0 <= j < |p| - 1 ==> p[j] in expanded && Expandable(m0, clicked, p[j]))
  {
    ReachedCells(w, h, m0, clicked, Switched(m0, m), expanded, pushes);
  }

  lemma ReachedCells(w: nat, h: nat, m0: FieldsMap, clicked: Field, cells: set<Coords>, expanded: set<Coords>,
                     pushes: seq<Coords>)
    requires |pushes| >= 1 && pushes[0] == clicked.coords && Chained(w, h, pushes)
    requires forall c :: c in expanded <==> c in pushes
    requires forall e :: e in expanded ==> Expandable(m0, clicked, e)
    requires forall c :: c in cells ==> c == clicked.coords || exists e :: e in expanded && c in CoordsAround(w, h, e)
    ensures forall c :: c in cells ==>
      exists p :: Path(w, h, p) && p[0] == clicked.coords && p[|p| - 1] == c &&
                  (forall j :: 0 <= j < |p| - 1 ==> p[j] in expanded && Expandable(m0, clicked, p[j]))
  {
    forall c | c in cells
      ensures exists p :: Path(w, h, p) && p[0] == clicked.coords && p[|p| - 1] == c &&
                          (forall j :: 0 <= j < |p| - 1 ==> p[j] in expanded && Expandable(m0, clicked, p[j]))
    {
      if c == clicked.coords {
        assert Path(w, h, [c]);
      } else {
        var e :| e in expanded && c in CoordsAround(w, h, e);
        var i :| 0 <= i < |pushes| && pushes[i] == e;
        PathThrough(w, h, pushes, i, c);
      }
    }
  }
}
