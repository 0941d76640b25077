/**
 The iteration tables as the requests change them: statements update the rows in place, requests loop
 over a subtree, and a request that fails is rolled back to the tables it started from.
 */
module IterationStore {
  import opened Prelude
  import opened Paths
  import opened Iterations
  import opened Hierarchy

  class Store {
    var spaces: set<Uuid>
    var used: set<Uuid>
    var rows: Rows
    var items: map<Uuid, Option<Uuid>>

    ghost function Contents(): Db
      reads this
    {
      Db(spaces, used, rows, items)
    }

    ghost predicate Valid()
      reads this
    {
      Inv(Contents())
    }

    constructor ()
      ensures Valid() && Contents() == EMPTY
    {
      spaces, used, rows, items := {}, {}, map[], map[];
    }

    // ---- Statements of the iteration repository ----

    method Root(space: Uuid) returns (r: Result<Iteration, Error>)
      requires Valid()
      ensures r.Ok? <==> space in spaces
      ensures r.Ok? ==> r.value.id in rows && rows[r.value.id] == r.value && IsRoot(r.value, space)
      ensures r.Err? ==> r.error == NotFound
    {
      var roots := set x | x in rows && rows[x].spaceId == space && |rows[x].path| == 1;
      if roots == {} {
        assert space in spaces ==> RootOf(Contents(), space) in roots;
        return Err(NotFound);
      }
      var x :| x in roots;
      assert OnTree(rows, x);
      return Ok(rows[x]);
    }

    // Only one iteration of a space runs at a time, and the root never does.
    method CanStart(i: Iteration) returns (r: Option<Error>)
      requires Valid() && i.id in rows && i.spaceId == rows[i.id].spaceId
      ensures r == if |rows[i.id].path| == 1 || SpaceRunning(rows, i.spaceId) then Some(BadParameter) else None
    {
      var root := Root(i.spaceId);
      if root.Err? {
        return Some(NotFound);
      }
      assert OnTree(rows, i.id);
      assert |rows[i.id].path| == 1 ==> BothRoots(rows[i.id], rows[root.value.id]);
      if i.id == root.value.id {
        return Some(BadParameter);
      }
      var running := set x | x in rows && rows[x].spaceId == i.spaceId && rows[x].state == Start;
      if |running| != 0 {
        var x :| x in running;
        return Some(BadParameter);
      }
      assert forall x :: x in rows && rows[x].spaceId == i.spaceId && rows[x].state == Start ==> x in running;
      return None;
    }

    method Create(i: Iteration, uuid: FreshUuid) returns (failure: Option<Error>)
      modifies this`used, this`rows
      ensures failure == old(CreateFailure(Contents(), i, uuid))
      ensures Contents() == if failure.None? then old(Inserted(Contents(), Completed(i, uuid))) else old(Contents())
    {
      var u := i;
      if u.id == NIL {
        u := u.(id := uuid);
        u := u.(path := [u.id]);
      }
      if |u.path| == 0 {
        u := u.(path := [u.id]);
      } else if This(u.path) != u.id {
        return Some(PathMismatch);
      }
      if u.id in used {
        return Some(Internal);
      }
      if Collides(rows, u) {
        return Some(DataConflict);
      }
      used, rows := used + {u.id}, rows[u.id := u];
      return None;
    }

    method Save(i: Iteration) returns (failure: Option<Error>)
      modifies this`rows
      ensures failure == old(if i.id !in rows then Some(NotFound) else if Collides(rows, i) then Some(Internal) else None)
      ensures rows == if failure.None? then old(rows)[i.id := i] else old(rows)
    {
      if i.id !in rows {
        return Some(NotFound);
      }
      if Collides(rows, i) {
        return Some(Internal);
      }
      rows := rows[i.id := i];
      return None;
    }

    // The IDs of the rows below `m`; the order, by time of change, is left open.
    method LoadChildren(m: Uuid) returns (r: Result<seq<Uuid>, Error>)
      ensures r == Err(NotFound) <==> m !in rows
      ensures r.Err? ==> r == Err(NotFound)
      ensures r.Ok? ==> NoRepeats(r.value) && Elements(r.value) == Subtree(rows, m)
    {
      if m !in rows {
        return Err(NotFound);
      }
      var ids := InSomeOrder(Subtree(rows, m));
      return Ok(ids);
    }

    method DeleteRow(id: Uuid) returns (failure: Option<Error>)
      modifies this`rows
      ensures failure == old(if id == NIL || id !in rows then Some(NotFound) else None)
      ensures rows == if failure.None? then old(rows) - {id} else old(rows)
    {
      if id == NIL || id !in rows {
        return Some(NotFound);
      }
      rows := rows - {id};
      return None;
    }

    method LoadByIteration(id: Uuid) returns (q: seq<Uuid>)
      ensures NoRepeats(q)
      ensures Elements(q) == set w | w in items && items[w] == Some(id)
    {
      q := InSomeOrder(set w | w in items && items[w] == Some(id));
    }

    // ---- Requests ----

    method CreateSpace(space: Uuid, name: string, uuid: FreshUuid) returns (failure: Option<Error>)
      requires Valid()
      modifies this
      ensures failure == old(Failure(Contents(), Request.CreateSpace(space, name, uuid)))
      ensures Contents() == old(Exec(Contents(), Request.CreateSpace(space, name, uuid)))
      ensures Valid()
    {
      ghost var before := Contents();
      if space in spaces {
        return Some(Internal);
      }
      failure := Create(Iteration(NIL, space, [], name, New), uuid);
      if failure.None? {
        spaces := spaces + {space};
      }
      assert Contents() == Exec(before, Request.CreateSpace(space, name, uuid));
      ExecKeepsInv(before, Request.CreateSpace(space, name, uuid));
    }

    method CreateChild(parent: Uuid, name: string, clientId: Option<Uuid>, uuid: FreshUuid) returns (failure: Option<Error>)
      requires Valid()
      modifies this
      ensures failure == old(Failure(Contents(), Request.CreateChild(parent, name, clientId, uuid)))
      ensures Contents() == old(Exec(Contents(), Request.CreateChild(parent, name, clientId, uuid)))
      ensures Valid()
    {
      ghost var before := Contents();
      if parent !in rows {
        return Some(NotFound);
      }
      var id := if clientId.Some? then clientId.value else uuid;
      if id == NIL {
        // making it a child gives an iteration without ID a generated one
        id := uuid;
      }
      var itr := Iteration(id, rows[parent].spaceId, [], name, New);
      itr := MakeChildOf(itr, rows[parent]);
      failure := Create(itr, uuid);
      ExecKeepsInv(before, Request.CreateChild(parent, name, clientId, uuid));
    }

    method CreateUnderRoot(space: Uuid, name: string, uuid: FreshUuid) returns (failure: Option<Error>)
      requires Valid()
      modifies this
      ensures failure == old(Failure(Contents(), Request.CreateUnderRoot(space, name, uuid)))
      ensures Contents() == old(Exec(Contents(), Request.CreateUnderRoot(space, name, uuid)))
      ensures Valid()
    {
      ghost var before := Contents();
      var root := Root(space);
      if root.Err? {
        return Some(NotFound);
      }
      assert BothRoots(rows[root.value.id], rows[RootOf(before, space)]);
      failure := Create(MakeChildOf(Iteration(uuid, space, [], name, New), root.value), uuid);
      ExecKeepsInv(before, Request.CreateUnderRoot(space, name, uuid));
    }

    // Saves the moved iteration and then its former descendants.
    method SaveMoved(m: Iteration, p: Uuid, subtree: seq<Uuid>) returns (failure: Option<Error>)
      requires Tree(rows) && NamesUnique(rows) && SameNode(rows, m) && p in rows && MayMove(rows, m.id, p)
      requires NoRepeats(subtree) && Elements(subtree) == Subtree(rows, m.id)
      modifies this`rows
      ensures failure == old(if NamesUnique(Moved(rows, m, p)) then None else Some(Internal))
      ensures rows == old(if NamesUnique(Moved(rows, m, p)) then Moved(rows, m, p) else rows)
    {
      var before := rows;
      assert Partly(before, m, p, {}) == before;
      SaveStep(before, m, p, {}, m.id);
      failure := Save(MakeChildOf(m, rows[p]));
      if failure.Some? {
        return;
      }
      assert {m.id} == {} + {m.id};
      failure := SaveSubtree(before, m, p, subtree);
      if failure.Some? {
        rows := before;
      }
    }

    method SaveSubtree(loaded: Rows, m: Iteration, p: Uuid, subtree: seq<Uuid>) returns (failure: Option<Error>)
      requires Tree(loaded) && SameNode(loaded, m) && p in loaded && MayMove(loaded, m.id, p)
      requires NoRepeats(subtree) && Elements(subtree) == Subtree(loaded, m.id)
      requires rows == Partly(loaded, m, p, {m.id}) && NamesUnique(rows)
      modifies this`rows
      ensures failure == if NamesUnique(Moved(loaded, m, p)) then None else Some(Internal)
      ensures failure.None? ==> rows == Moved(loaded, m, p)
    {
      var home := MakeChildOf(m, loaded[p]);
      var k := 0;
      while k < |subtree|
        invariant k <= |subtree|
        invariant rows == Partly(loaded, m, p, {m.id} + Elements(subtree[..k]))
        invariant NamesUnique(rows)
      {
        var x := subtree[k];
        assert x in Elements(subtree);
        DescendantsShareSpace(loaded, m.id, x);
        ghost var done := {m.id} + Elements(subtree[..k]);
        assert x !in Elements(subtree[..k]);
        SaveStep(loaded, m, p, done, x);
        failure := Save(MakeChildOf(loaded[x], home));
        if failure.Some? {
          return;
        }
        assert done + {x} == {m.id} + Elements(subtree[..k + 1]);
        k := k + 1;
      }
      assert subtree[..k] == subtree;
      PartlyAll(loaded, m, p);
      return None;
    }

    // The given attributes are assigned one after the other; starting asks for permission first.
    method Assign(m: Iteration, change: Change) returns (itr: Iteration, failure: Option<Error>)
      requires Valid() && m.id in rows && rows[m.id] == m
      ensures failure == if change.state == Some(Start) && (|m.path| == 1 || SpaceRunning(rows, m.spaceId)) then Some(BadParameter) else None
      ensures failure.None? ==> itr == Changed(m, change)
    {
      itr, failure := m, None;
      if change.name.Some? {
        itr := itr.(name := change.name.value);
      }
      if change.state.Some? {
        if change.state.value == Start {
          failure := CanStart(itr);
          if failure.Some? {
            return;
          }
        }
        itr := itr.(state := change.state.value);
      }
    }

    method Update(id: Uuid, change: Change) returns (failure: Option<Error>)
      requires Valid()
      modifies this
      ensures failure == old(Failure(Contents(), Request.Update(id, change)))
      ensures Contents() == old(Exec(Contents(), Request.Update(id, change)))
      ensures Valid()
    {
      ghost var before := Contents();
      ExecKeepsInv(before, Request.Update(id, change));
      if id !in rows {
        return Some(NotFound);
      }
      assert OnTree(rows, id);
      var itr;
      itr, failure := Assign(rows[id], change);
      if failure.Some? {
        return;
      }
      if change.parent.None? {
        failure := Save(itr);
        return;
      }
      failure := Reparent(itr, change.parent.value);
    }

    method Reparent(m: Iteration, ref: ParentRef) returns (failure: Option<Error>)
      requires Tree(rows) && NamesUnique(rows) && SameNode(rows, m)
      requires m.path == rows[m.id].path
      modifies this`rows
      ensures failure == old(ReparentFailure(rows, m, ref))
      ensures rows == old(if ReparentFailure(rows, m, ref).None? then Moved(rows, m, ref.id) else rows)
    {
      if IsRoot(m, m.spaceId) {
        return Some(Forbidden);
      }
      if ref.NoId? {
        return Some(BadParameter);
      }
      if ref.Malformed? {
        return Some(BadParameter);
      }
      if ref.id == m.id {
        return Some(Forbidden);
      }
      if ref.id !in rows {
        return Some(NotFound);
      }
      if rows[ref.id].spaceId != m.spaceId {
        return Some(Forbidden);
      }
      var subtree := LoadChildren(m.id);
      if ref.id in subtree.value {
        assert ref.id in Elements(subtree.value);
        return Some(Forbidden);
      }
      assert ref.id !in Elements(subtree.value);
      failure := SaveMoved(m, ref.id, subtree.value);
    }

    // Moves the work items of one iteration to another.
    method MoveItems(from: Uuid, to: Uuid)
      requires from != to
      modifies this`items
      ensures items == old(map w | w in items :: if items[w] == Some(from) then Some(to) else items[w])
    {
      var before := items;
      var wis := LoadByIteration(from);
      var k := 0;
      while k < |wis|
        invariant k <= |wis|
        invariant items.Keys == before.Keys
        invariant forall w :: w in before ==> items[w] == if w in wis[..k] then Some(to) else before[w]
      {
        assert wis[k] in Elements(wis);
        items := items[wis[k] := Some(to)];
        k := k + 1;
      }
      forall w | w in before
        ensures w in wis[..k] <==> before[w] == Some(from)
      {
        assert w in wis <==> w in Elements(wis);
      }
    }

    // What a delete removes, the iteration itself last, and where the work items go.
    method Doomed(id: Uuid) returns (gone: seq<Uuid>, parent: Uuid)
      requires Valid() && DeleteFailure(Contents(), id).None?
      ensures NoRepeats(gone) && Elements(gone) == Subtree(rows, id) + {id}
      ensures forall x :: x in Elements(gone) ==> x in rows && x != NIL
      ensures parent == ParentID(rows[id].path) && parent != NIL && parent in rows && parent !in Elements(gone)
    {
      var subtree := LoadChildren(id);
      assert OnTree(rows, id);
      parent := ParentID(rows[id].path);
      ParentStays(Contents(), id);
      assert OnTree(rows, parent);
      gone := subtree.value + [id];
      assert id !in Elements(subtree.value);
      AppendedNoRepeats(subtree.value, id);
      assert Elements(gone) == Subtree(rows, id) + {id};
      forall x | x in Elements(gone)
        ensures x in rows && x != NIL
      {
        assert OnTree(rows, x);
      }
    }

    method Delete(id: Uuid) returns (failure: Option<Error>)
      requires Valid()
      modifies this
      ensures failure == old(Failure(Contents(), Request.Delete(id)))
      ensures Contents() == old(Exec(Contents(), Request.Delete(id)))
      ensures Valid()
    {
      ghost var before := Contents();
      ExecKeepsInv(before, Request.Delete(id));
      if id !in rows {
        return Some(NotFound);
      }
      if IsRoot(rows[id], rows[id].spaceId) {
        return Some(Forbidden);
      }
      var gone, parent := Doomed(id);
      if parent == NIL || parent !in rows {
        return Some(NotFound);
      }
      RemoveAll(gone, parent);
      assert rows == Removed(before.rows, id);
      assert items == ItemsAfterDelete(before, id);
      return None;
    }

    // Deletes the given iterations, moving the work items of each to `parent` first.
    method RemoveAll(gone: seq<Uuid>, parent: Uuid)
      requires NoRepeats(gone) && parent !in Elements(gone)
      requires forall x :: x in Elements(gone) ==> x in rows && x != NIL
      modifies this`rows, this`items
      ensures rows == old(rows) - Elements(gone)
      ensures items == old(map w | w in items ::
                if items[w].Some? && items[w].value in Elements(gone) then Some(parent) else items[w])
    {
      var before, was := rows, items;
      var k := 0;
      while k < |gone|
        invariant k <= |gone|
        invariant rows == before - Elements(gone[..k])
        invariant items == map w | w in was ::
                    if was[w].Some? && was[w].value in Elements(gone[..k]) then Some(parent) else was[w]
      {
        assert Elements(gone[..k + 1]) == Elements(gone[..k]) + {gone[k]};
        assert gone[k] in Elements(gone) && gone[k] !in Elements(gone[..k]);
        MoveItems(gone[k], parent);
        var failure := DeleteRow(gone[k]);
        assert failure.None?;
        k := k + 1;
      }
      assert gone[..k] == gone;
    }

    method PutItem(item: Uuid, iteration: Uuid) returns (failure: Option<Error>)
      requires Valid()
      modifies this
      ensures failure == old(Failure(Contents(), Request.PutItem(item, iteration)))
      ensures Contents() == old(Exec(Contents(), Request.PutItem(item, iteration)))
      ensures Valid()
    {
      ghost var before := Contents();
      ExecKeepsInv(before, Request.PutItem(item, iteration));
      if iteration !in rows {
        return Some(NotFound);
      }
      items := items[item := Some(iteration)];
      return None;
    }
  }

  lemma AppendedNoRepeats(s: seq<Uuid>, x: Uuid)
    requires NoRepeats(s) && x !in Elements(s)
    ensures NoRepeats(s + [x])
  {
    forall i | 0 <= i < |s|
      ensures s[i] != x
    {
      assert s[i] in Elements(s);
    }
  }

  // ---- A move under way ----

  // The rows when only those in `done` have been saved.
  function Partly(rows: Rows, m: Iteration, p: Uuid, done: set<Uuid>): Rows
    requires m.id in rows && p in rows
  {
    map x | x in rows :: if x in done then Moved(rows, m, p)[x] else rows[x]
  }

  lemma PartlyAll(rows: Rows, m: Iteration, p: Uuid)
    requires m.id in rows && p in rows
    ensures Partly(rows, m, p, {m.id} + Subtree(rows, m.id)) == Moved(rows, m, p)
  {
  }

  // Saving one more row fails exactly when the whole move violates the unique index.
  lemma SaveStep(rows: Rows, m: Iteration, p: Uuid, done: set<Uuid>, x: Uuid)
    requires Tree(rows) && SameNode(rows, m) && p in rows && MayMove(rows, m.id, p)
    requires x in {m.id} + Subtree(rows, m.id) && x !in done
    requires x != m.id ==> m.id in done
    requires NamesUnique(Partly(rows, m, p, done))
    ensures var now := Partly(rows, m, p, done);
            && Moved(rows, m, p)[x].id == x
            && Partly(rows, m, p, done + {x}) == now[x := Moved(rows, m, p)[x]]
            && (Collides(now, Moved(rows, m, p)[x]) ==> !NamesUnique(Moved(rows, m, p)))
            && (!Collides(now, Moved(rows, m, p)[x]) ==> NamesUnique(Partly(rows, m, p, done + {x})))
  {
    var now, after := Partly(rows, m, p, done), Moved(rows, m, p);
    assert OnTree(rows, x);
    UniqueAfterStore(now, after[x]);
    if Collides(now, after[x]) {
      var y :| y in now && y != x && SameKey(now[y], after[x]);
      if y !in done && y in Subtree(rows, m.id) {
        CollisionIsLasting(rows, m, p, x, y);
      }
      assert SameKey(after[y], after[x]);
    }
  }
}
