/**
 iteration/iteration.go: the iteration rows, the constraints the table puts on them, and what it
 means for the rows of a space to form a tree.
 */
module Iterations {
  import opened Prelude
  import opened Paths

  datatype State = New | Start | Close

  datatype Iteration = Iteration(id: Uuid, spaceId: Uuid, path: Path, name: string, state: State)

  datatype Error = NotFound | Forbidden | BadParameter | DataConflict | PathMismatch | Internal

  // The live rows. A deleted row is only marked as deleted, so its ID stays taken; see `used` in Hierarchy.
  type Rows = map<Uuid, Iteration>

  function MakeChildOf(m: Iteration, parent: Iteration): Iteration {
    m.(path := parent.path + [m.id])
  }

  predicate IsRoot(m: Iteration, spaceId: Uuid) {
    m.spaceId == spaceId && |m.path| == 1 && m.path[0] == m.id
  }

  // The unique index of the table: space, path of the parent, name.
  predicate SameKey(a: Iteration, b: Iteration) {
    a.spaceId == b.spaceId && ParentPath(a.path) == ParentPath(b.path) && a.name == b.name
  }

  predicate NamesUnique(rows: Rows) {
    forall x, y {:trigger SameKey(rows[x], rows[y])} :: x in rows && y in rows && x != y ==> !SameKey(rows[x], rows[y])
  }

  // Whether storing `i` under its own ID violates the unique index.
  predicate Collides(rows: Rows, i: Iteration) {
    exists y :: y in rows && y != i.id && SameKey(rows[y], i)
  }

  // Every node on the path of a row is a live row of the same space that stores exactly that part of the path.
  predicate OnTree(rows: Rows, x: Uuid)
    requires x in rows
  {
    && x != NIL
    && rows[x].id == x
    && |rows[x].path| > 0
    && This(rows[x].path) == x
    && forall k :: 0 <= k < |rows[x].path| ==> Supports(rows, x, k)
  }

  predicate Supports(rows: Rows, x: Uuid, k: nat)
    requires x in rows && k < |rows[x].path|
  {
    var a := rows[x].path[k];
    a in rows && rows[a].path == rows[x].path[..k + 1] && rows[a].spaceId == rows[x].spaceId
  }

  predicate Tree(rows: Rows) {
    forall x {:trigger OnTree(rows, x)} :: x in rows ==> OnTree(rows, x)
  }

  // The rows that LoadChildren selects: strictly longer path with this one as prefix.
  function Subtree(rows: Rows, m: Uuid): set<Uuid>
    requires m in rows
  {
    set x | x in rows && rows[m].path < rows[x].path
  }

  // ---- What the tree invariant gives ----

  // An ID occurs in a path exactly when the path stored for that ID is a prefix of it.
  lemma OccursIffPrefix(rows: Rows, a: Uuid, b: Uuid)
    requires Tree(rows) && a in rows && b in rows
    ensures a in rows[b].path <==> rows[a].path <= rows[b].path
  {
    assert OnTree(rows, a) && OnTree(rows, b);
    if a in rows[b].path {
      var k :| 0 <= k < |rows[b].path| && rows[b].path[k] == a;
      assert Supports(rows, b, k);
    }
    if rows[a].path <= rows[b].path {
      assert rows[b].path[|rows[a].path| - 1] == This(rows[a].path);
    }
  }

  // No path repeats an ID, so no iteration is its own ancestor.
  lemma PathsHaveNoRepeats(rows: Rows, x: Uuid)
    requires Tree(rows) && x in rows
    ensures NoRepeats(rows[x].path)
    ensures x !in ParentPath(rows[x].path)
  {
    assert OnTree(rows, x);
    var p := rows[x].path;
    forall i, j | 0 <= i < j < |p|
      ensures p[i] != p[j]
    {
      assert Supports(rows, x, i) && Supports(rows, x, j);
      assert |p[..i + 1]| != |p[..j + 1]|;
    }
    assert p[|p| - 1] == x;
  }

  // The ancestors found by asking each iteration in turn for its parent, the root first.
  function ParentChain(rows: Rows, x: Uuid): seq<Uuid>
    requires Tree(rows) && x in rows
    decreases |rows[x].path|
  {
    assert OnTree(rows, x);
    var p := rows[x].path;
    if |p| == 1 then [x]
    else
      assert Supports(rows, x, |p| - 2);
      ParentChain(rows, ParentID(p)) + [x]
  }

  // The materialised path is what following the parents yields.
  lemma {:induction false} PathIsParentChain(rows: Rows, x: Uuid)
    requires Tree(rows) && x in rows
    ensures rows[x].path == ParentChain(rows, x)
    decreases |rows[x].path|
  {
    assert OnTree(rows, x);
    var p := rows[x].path;
    if |p| == 1 {
      assert p == [x];
    } else {
      assert Supports(rows, x, |p| - 2);
      PathIsParentChain(rows, ParentID(p));
      assert p == p[..|p| - 1] + [x];
    }
  }

  // All iterations of a tree share their first path element, so a space with one root is one tree.
  lemma RootIsFirst(rows: Rows, x: Uuid)
    requires Tree(rows) && x in rows
    ensures |rows[x].path| > 0 && rows[x].path[0] in rows
    ensures IsRoot(rows[rows[x].path[0]], rows[x].spaceId)
    ensures rows[rows[x].path[0]].path <= rows[x].path
  {
    assert OnTree(rows, x) && Supports(rows, x, 0);
    assert OnTree(rows, rows[x].path[0]);
  }

  lemma UniqueAfterStore(rows: Rows, i: Iteration)
    requires NamesUnique(rows)
    ensures NamesUnique(rows[i.id := i]) <==> !Collides(rows, i)
  {
    var after := rows[i.id := i];
    if Collides(rows, i) {
      var y :| y in rows && y != i.id && SameKey(rows[y], i);
      assert y in after && i.id in after && SameKey(after[y], after[i.id]);
    }
  }

  // ---- Adding a node ----

  function Added(rows: Rows, i: Iteration): Rows {
    rows[i.id := i]
  }

  lemma AddedKeepsTree(rows: Rows, i: Iteration, parent: Uuid)
    requires Tree(rows) && parent in rows
    requires i.id != NIL && i.id !in rows
    requires i.path == rows[parent].path + [i.id] && i.spaceId == rows[parent].spaceId
    ensures Tree(Added(rows, i))
    ensures Subtree(Added(rows, i), parent) == Subtree(rows, parent) + {i.id}
  {
    var after := Added(rows, i);
    forall x | x in after
      ensures OnTree(after, x)
    {
      forall k | 0 <= k < |after[x].path|
        ensures Supports(after, x, k)
      {
        if x != i.id {
          assert OnTree(rows, x) && Supports(rows, x, k);
        } else if k < |rows[parent].path| {
          assert OnTree(rows, parent) && Supports(rows, parent, k);
        }
      }
      if x != i.id {
        assert OnTree(rows, x);
      }
    }
  }

  lemma RootKeepsTree(rows: Rows, i: Iteration)
    requires Tree(rows)
    requires i.id != NIL && i.id !in rows && i.path == [i.id]
    ensures Tree(Added(rows, i))
  {
    var after := Added(rows, i);
    forall x | x in after
      ensures OnTree(after, x)
    {
      forall k | 0 <= k < |after[x].path|
        ensures Supports(after, x, k)
      {
        if x != i.id {
          assert OnTree(rows, x) && Supports(rows, x, k);
        }
      }
      if x != i.id {
        assert OnTree(rows, x);
      }
    }
  }

  // ---- Changing a node in place ----

  lemma InPlaceKeepsTree(rows: Rows, i: Iteration)
    requires Tree(rows) && i.id in rows
    requires i.path == rows[i.id].path && i.spaceId == rows[i.id].spaceId
    ensures Tree(rows[i.id := i])
  {
    var after := rows[i.id := i];
    forall x | x in after
      ensures OnTree(after, x)
    {
      assert OnTree(rows, x);
      forall k | 0 <= k < |after[x].path|
        ensures Supports(after, x, k)
      {
        assert Supports(rows, x, k);
      }
    }
  }

  // ---- Moving a subtree ----

  // The rows after `m` (already carrying its other new attributes) is put under `p` and every former
  // descendant is put directly under `m`.
  function Moved(rows: Rows, m: Iteration, p: Uuid): (after: Rows)
    requires m.id in rows && p in rows
  {
    var home := MakeChildOf(m, rows[p]);
    map x | x in rows ::
      if x == m.id then home
      else if x in Subtree(rows, m.id) then MakeChildOf(rows[x], home)
      else rows[x]
  }

  // The guards of a re-parent request, as a caller could check them.
  predicate MayMove(rows: Rows, m: Uuid, p: Uuid)
    requires m in rows && p in rows
  {
    p != m && p !in Subtree(rows, m) && rows[p].spaceId == rows[m].spaceId
  }

  // m itself keeps its identity and space when its attributes change
  predicate SameNode(rows: Rows, m: Iteration) {
    m.id in rows && m.spaceId == rows[m.id].spaceId
  }

  lemma OutsideSupports(rows: Rows, m: Uuid, x: Uuid, k: nat)
    requires Tree(rows) && m in rows && x in rows
    requires x != m && x !in Subtree(rows, m)
    requires k < |rows[x].path|
    ensures Supports(rows, x, k)
    ensures rows[x].path[k] != m && rows[x].path[k] !in Subtree(rows, m)
  {
    assert OnTree(rows, x) && Supports(rows, x, k) && OnTree(rows, m);
    var a := rows[x].path[k];
    assert rows[a].path <= rows[x].path;
    assert OnTree(rows, a);
  }

  lemma MovedKeepsTree(rows: Rows, m: Iteration, p: Uuid)
    requires Tree(rows) && SameNode(rows, m) && p in rows
    requires MayMove(rows, m.id, p)
    ensures Tree(Moved(rows, m, p))
  {
    var after := Moved(rows, m, p);
    assert OnTree(rows, m.id);
    forall k: nat | k < |rows[p].path|
      ensures Supports(after, p, k)
    {
      OutsideSupports(rows, m.id, p, k);
    }
    forall x | x in after
      ensures OnTree(after, x)
    {
      assert OnTree(rows, x);
      MovedNodeOnTree(rows, m, p, x);
    }
  }

  lemma MovedNodeOnTree(rows: Rows, m: Iteration, p: Uuid, x: Uuid)
    requires Tree(rows) && SameNode(rows, m) && p in rows && x in rows
    requires MayMove(rows, m.id, p)
    ensures OnTree(Moved(rows, m, p), x)
  {
    var after := Moved(rows, m, p);
    assert OnTree(rows, x) && OnTree(rows, m.id) && OnTree(rows, p);
    var home := MakeChildOf(m, rows[p]);
    assert after[m.id] == home;
    forall k | 0 <= k < |after[x].path|
      ensures Supports(after, x, k)
    {
      if x != m.id && x !in Subtree(rows, m.id) {
        OutsideSupports(rows, m.id, x, k);
      } else {
        if x != m.id {
          DescendantsShareSpace(rows, m.id, x);
        }
        if k < |rows[p].path| {
          OutsideSupports(rows, m.id, p, k);
          assert after[x].path[..k + 1] == rows[p].path[..k + 1];
        } else if k == |rows[p].path| {
          assert after[x].path[k] == m.id;
          assert after[x].path[..k + 1] == home.path;
        }
      }
    }
  }

  lemma DescendantsShareSpace(rows: Rows, m: Uuid, x: Uuid)
    requires Tree(rows) && m in rows && x in Subtree(rows, m)
    ensures rows[x].spaceId == rows[m].spaceId
    ensures x != m
  {
    assert OnTree(rows, x) && OnTree(rows, m);
    var k := |rows[m].path| - 1;
    assert Supports(rows, x, k);
    assert rows[x].path[k] == m;
  }

  lemma TreeAfterMoveIsGuarded(rows: Rows, m: Iteration, p: Uuid)
    requires Tree(rows) && SameNode(rows, m) && p in rows
    requires Tree(Moved(rows, m, p))
    ensures MayMove(rows, m.id, p)
  {
    var after := Moved(rows, m, p);
    assert OnTree(rows, p) && OnTree(rows, m.id) && OnTree(after, m.id);
    var n := |rows[p].path|;
    assert after[m.id].path == rows[p].path + [m.id];
    OccursIffPrefix(rows, m.id, p);
    PathsHaveNoRepeats(after, m.id);
    assert ParentPath(after[m.id].path) == rows[p].path;
    assert Supports(after, m.id, n - 1);
  }

  // The guards are exact: a move yields a tree if and only if they hold.
  lemma MoveKeepsTreeIffGuarded(rows: Rows, m: Iteration, p: Uuid)
    requires Tree(rows) && SameNode(rows, m) && p in rows
    ensures Tree(Moved(rows, m, p)) <==> MayMove(rows, m.id, p)
  {
    if MayMove(rows, m.id, p) {
      MovedKeepsTree(rows, m, p);
    }
    if Tree(Moved(rows, m, p)) {
      TreeAfterMoveIsGuarded(rows, m, p);
    }
  }

  // What a permitted move does: nothing outside the subtree changes, the moved iteration has the same
  // descendants as before, each now a direct child, and its ancestors are exactly the new parent's path.
  lemma MoveEffect(rows: Rows, m: Iteration, p: Uuid)
    requires Tree(rows) && SameNode(rows, m) && p in rows
    requires MayMove(rows, m.id, p)
    ensures Moved(rows, m, p).Keys == rows.Keys
    ensures forall x :: x in rows && x != m.id && x !in Subtree(rows, m.id) ==> Moved(rows, m, p)[x] == rows[x]
    ensures Subtree(Moved(rows, m, p), m.id) == Subtree(rows, m.id)
    ensures forall x :: x in Subtree(rows, m.id) ==> ParentID(Moved(rows, m, p)[x].path) == m.id
    ensures ParentPath(Moved(rows, m, p)[m.id].path) == rows[p].path
    ensures m.id !in ParentPath(Moved(rows, m, p)[m.id].path)
  {
    var after := Moved(rows, m, p);
    assert OnTree(rows, m.id) && OnTree(rows, p);
    MovedKeepsTree(rows, m, p);
    PathsHaveNoRepeats(after, m.id);
    forall x | x in rows
      ensures x in Subtree(after, m.id) <==> x in Subtree(rows, m.id)
    {
      assert OnTree(rows, x);
      if x != m.id && x !in Subtree(rows, m.id) && after[m.id].path < after[x].path {
        OccursIffPrefix(after, m.id, x);
        OccursIffPrefix(rows, m.id, x);
        assert false;
      }
    }
  }

  // ---- The unique index during a move ----

  // A row that has not been moved yet and stands in the way of a moved one would still stand in its
  // way at the end: saving the subtree row by row never fails for a transient reason.
  lemma CollisionIsLasting(rows: Rows, m: Iteration, p: Uuid, x: Uuid, y: Uuid)
    requires Tree(rows) && SameNode(rows, m) && p in rows
    requires MayMove(rows, m.id, p)
    requires x == m.id || x in Subtree(rows, m.id)
    requires y in Subtree(rows, m.id)
    requires SameKey(rows[y], Moved(rows, m, p)[x])
    ensures Moved(rows, m, p)[y] == rows[y]
  {
    assert OnTree(rows, m.id) && OnTree(rows, y) && OnTree(rows, p);
    var was, home := rows[m.id].path, rows[p].path + [m.id];
    var place := ParentPath(Moved(rows, m, p)[x].path);
    assert ParentPath(rows[y].path) == rows[y].path[..|rows[y].path| - 1];
    assert was <= place;
    assert ParentPath(home) == rows[p].path && ParentPath(home + [x]) == home;
    NotBelow(rows, m.id, p);
    assert x != m.id;
    PrefixOfAppended(was, rows[p].path, m.id);
    assert rows[y].path == home + [y];
  }

  lemma PrefixOfAppended(a: Path, b: Path, x: Uuid)
    requires a <= b + [x] && !(a <= b)
    ensures a == b + [x]
  {
    assert a == (b + [x])[..|a|];
  }

  lemma NotBelow(rows: Rows, m: Uuid, p: Uuid)
    requires Tree(rows) && m in rows && p in rows && MayMove(rows, m, p)
    ensures !(rows[m].path <= rows[p].path)
  {
    assert OnTree(rows, m) && OnTree(rows, p);
  }

  // When a permitted move is not in the way of the unique index: no two descendants share a name,
  // on whatever levels they were, and no child of the new parent already has the name of the moved one.
  predicate NamesFit(rows: Rows, m: Iteration, p: Uuid)
    requires m.id in rows && p in rows
  {
    && (forall x, y :: x in Subtree(rows, m.id) && y in Subtree(rows, m.id) && x != y ==> rows[x].name != rows[y].name)
    && (forall y :: y in rows && y != m.id && ParentPath(rows[y].path) == rows[p].path ==> rows[y].name != m.name)
  }

  lemma MovedNamesUnique(rows: Rows, m: Iteration, p: Uuid)
    requires Tree(rows) && NamesUnique(rows) && SameNode(rows, m) && p in rows
    requires MayMove(rows, m.id, p) && NamesFit(rows, m, p)
    ensures NamesUnique(Moved(rows, m, p))
  {
    var after := Moved(rows, m, p);
    forall x, y | x in after && y in after && x != y && (x == m.id || x in Subtree(rows, m.id))
      ensures !SameKey(after[x], after[y])
    {
      MovedNameIsFree(rows, m, p, x, y);
    }
  }

  lemma MovedNameIsFree(rows: Rows, m: Iteration, p: Uuid, x: Uuid, y: Uuid)
    requires Tree(rows) && SameNode(rows, m) && p in rows && y in rows && x != y
    requires MayMove(rows, m.id, p) && NamesFit(rows, m, p)
    requires x == m.id || x in Subtree(rows, m.id)
    ensures !SameKey(Moved(rows, m, p)[x], Moved(rows, m, p)[y])
  {
    var after := Moved(rows, m, p);
    var home := rows[p].path + [m.id];
    assert OnTree(rows, p) && OnTree(rows, y) && OnTree(rows, x);
    assert ParentPath(home) == rows[p].path && ParentPath(home + [x]) == home && ParentPath(home + [y]) == home;
    if y != m.id && y !in Subtree(rows, m.id) && ParentPath(rows[y].path) == home {
      // a node outside the subtree has no m on its path
      assert |rows[y].path| == |home| + 1;
      OutsideSupports(rows, m.id, y, |rows[p].path|);
    }
  }

  // A permitted move is accepted by the unique index if and only if the names fit.
  lemma MoveAcceptedIffNamesFit(rows: Rows, m: Iteration, p: Uuid)
    requires Tree(rows) && NamesUnique(rows) && SameNode(rows, m) && p in rows
    requires MayMove(rows, m.id, p)
    ensures NamesUnique(Moved(rows, m, p)) <==> NamesFit(rows, m, p)
  {
    if NamesFit(rows, m, p) {
      MovedNamesUnique(rows, m, p);
    }
    if NamesUnique(Moved(rows, m, p)) {
      UniqueMeansNamesFit(rows, m, p);
    }
  }

  lemma UniqueMeansNamesFit(rows: Rows, m: Iteration, p: Uuid)
    requires Tree(rows) && SameNode(rows, m) && p in rows
    requires MayMove(rows, m.id, p) && NamesUnique(Moved(rows, m, p))
    ensures NamesFit(rows, m, p)
  {
    var after := Moved(rows, m, p);
    var home := rows[p].path + [m.id];
    assert OnTree(rows, p);
    assert ParentPath(home) == rows[p].path;
    forall x, y | x in Subtree(rows, m.id) && y in Subtree(rows, m.id) && x != y
      ensures rows[x].name != rows[y].name
    {
      assert ParentPath(after[x].path) == home == ParentPath(after[y].path);
      DescendantsShareSpace(rows, m.id, x);
      DescendantsShareSpace(rows, m.id, y);
      assert !SameKey(after[x], after[y]);
    }
    forall y | y in rows && y != m.id && ParentPath(rows[y].path) == rows[p].path
      ensures rows[y].name != m.name
    {
      assert OnTree(rows, y) && Supports(rows, y, |rows[p].path| - 1);
      assert rows[y].path[|rows[p].path| - 1] == p;
      NotBelow(rows, m.id, p);
      ChildOfOutsideIsOutside(rows, m.id, p, y);
      assert !SameKey(after[y], after[m.id]);
    }
  }

  lemma ChildOfOutsideIsOutside(rows: Rows, m: Uuid, p: Uuid, y: Uuid)
    requires Tree(rows) && m in rows && p in rows && y in rows && y != m
    requires MayMove(rows, m, p) && ParentPath(rows[y].path) == rows[p].path
    ensures y !in Subtree(rows, m)
  {
    NotBelow(rows, m, p);
    assert OnTree(rows, p);
  }

  // Only a subtree of one level keeps its shape when it is moved.
  lemma ShapeSurvivesIffOneLevel(rows: Rows, m: Iteration, p: Uuid)
    requires Tree(rows) && SameNode(rows, m) && p in rows && MayMove(rows, m.id, p)
    ensures (forall x :: x in Subtree(rows, m.id) ==> ParentID(Moved(rows, m, p)[x].path) == ParentID(rows[x].path))
       <==> (forall x :: x in Subtree(rows, m.id) ==> ParentPath(rows[x].path) == rows[m.id].path)
  {
    MoveEffect(rows, m, p);
    assert OnTree(rows, m.id);
    forall x | x in Subtree(rows, m.id)
      ensures ParentID(rows[x].path) == m.id <==> ParentPath(rows[x].path) == rows[m.id].path
    {
      assert OnTree(rows, x);
      assert Supports(rows, x, |rows[x].path| - 2);
    }
  }

  // ---- Removing a subtree ----

  function Removed(rows: Rows, m: Uuid): Rows
    requires m in rows
  {
    map x | x in rows && x != m && x !in Subtree(rows, m) :: rows[x]
  }

  // Removing a subtree leaves a tree in which no path mentions a removed iteration.
  lemma RemovedKeepsTree(rows: Rows, m: Uuid)
    requires Tree(rows) && m in rows
    ensures Tree(Removed(rows, m))
    ensures forall x :: x in Removed(rows, m) ==> m !in rows[x].path && forall d :: d in Subtree(rows, m) ==> d !in rows[x].path
  {
    var after := Removed(rows, m);
    forall x | x in after
      ensures OnTree(after, x)
      ensures m !in rows[x].path
      ensures forall d :: d in Subtree(rows, m) ==> d !in rows[x].path
    {
      assert OnTree(rows, x);
      forall k: nat | k < |rows[x].path|
        ensures Supports(after, x, k)
        ensures rows[x].path[k] != m && rows[x].path[k] !in Subtree(rows, m)
      {
        OutsideSupports(rows, m, x, k);
      }
    }
  }

  // Removing less than the whole subtree would leave paths that mention a missing row.
  lemma RemovalMustBeClosed(rows: Rows, gone: set<Uuid>)
    requires Tree(rows) && gone <= rows.Keys
    ensures Tree(rows - gone) <==> forall m, d :: m in gone && d in Subtree(rows, m) ==> d in gone
  {
    var after := rows - gone;
    if Tree(after) {
      forall m, d | m in gone && d in Subtree(rows, m)
        ensures d in gone
      {
        assert OnTree(rows, m);
        assert rows[d].path[|rows[m].path| - 1] == m;
        assert d in after ==> OnTree(after, d) && Supports(after, d, |rows[m].path| - 1);
      }
    }
    if forall m, d :: m in gone && d in Subtree(rows, m) ==> d in gone {
      forall x | x in after
        ensures OnTree(after, x)
      {
        assert OnTree(rows, x);
        forall k: nat | k < |rows[x].path|
          ensures Supports(after, x, k)
        {
          assert Supports(rows, x, k);
          var a := rows[x].path[k];
          assert OnTree(rows, a);
          assert a != x ==> x in Subtree(rows, a);
        }
      }
    }
  }
}
