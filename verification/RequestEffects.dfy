/**
 What the iteration requests of Hierarchy do, told in the rows, fields and paths a client can see: when each is
 accepted, what each error means, and everything an accepted one changes and leaves alone.
 */
module RequestEffects {
  import opened Prelude
  import opened Paths
  import opened Iterations
  import opened Hierarchy

  // The descendants of an iteration are those with its ID on their path.
  lemma SubtreeIffOnPath(rows: Rows, m: Uuid, x: Uuid)
    requires Tree(rows) && m in rows && x in rows
    ensures x in Subtree(rows, m) <==> x != m && m in rows[x].path
  {
    OccursIffPrefix(rows, m, x);
    assert OnTree(rows, x) && OnTree(rows, m);
    if rows[m].path == rows[x].path {
      assert This(rows[m].path) == This(rows[x].path);
    }
  }

  // After every run siblings have different names.
  lemma SiblingsDiffer(requests: seq<Request>, a: Uuid, b: Uuid)
    requires a in Run(requests).rows && b in Run(requests).rows && a != b
    requires Run(requests).rows[a].spaceId == Run(requests).rows[b].spaceId
    requires ParentPath(Run(requests).rows[a].path) == ParentPath(Run(requests).rows[b].path)
    ensures Run(requests).rows[a].name != Run(requests).rows[b].name
  {
    assert !SameKey(Run(requests).rows[a], Run(requests).rows[b]);
  }

  lemma RejectedChangesNothing(db: Db, q: Request)
    requires Inv(db) && Failure(db, q).Some?
    ensures Exec(db, q) == db
  {
  }

  // ---- Update ----

  function NameAfter(m: Iteration, change: Change): string {
    match change.name case Some(name) => name case None => m.name
  }

  // Starting is for iterations other than the root, in a space where nothing runs.
  predicate StartOk(rows: Rows, id: Uuid, change: Change)
    requires id in rows
  {
    change.state == Some(Start) ==>
      |rows[id].path| > 1 && forall x :: x in rows && rows[x].spaceId == rows[id].spaceId ==> rows[x].state != Start
  }

  // Another iteration below the same parent path has the name.
  predicate NameTaken(rows: Rows, id: Uuid, space: Uuid, home: Path, name: string) {
    exists y :: y in rows && y != id && rows[y].spaceId == space && ParentPath(rows[y].path) == home && rows[y].name == name
  }

  // Two descendants share a name.
  predicate NamesClash(rows: Rows, id: Uuid) {
    exists x, y {:trigger rows[x], rows[y]} ::
      x in rows && y in rows && x != y && x != id && y != id && id in rows[x].path && id in rows[y].path && rows[x].name == rows[y].name
  }

  // The new parent exists, is in the same space, and is neither the iteration nor below it.
  predicate ParentOk(rows: Rows, id: Uuid, p: Uuid)
    requires id in rows
  {
    p in rows && rows[p].spaceId == rows[id].spaceId && id !in rows[p].path
  }

  predicate NamesOk(rows: Rows, id: Uuid, change: Change)
    requires id in rows
  {
    var m := rows[id];
    match change.parent
    case None => !NameTaken(rows, id, m.spaceId, ParentPath(m.path), NameAfter(m, change))
    case Some(Id(p)) => p in rows ==> !NameTaken(rows, id, m.spaceId, rows[p].path, NameAfter(m, change)) && !NamesClash(rows, id)
    case Some(_) => true
  }

  predicate ParentGivenOk(rows: Rows, id: Uuid, change: Change)
    requires id in rows
  {
    change.parent.Some? ==> |rows[id].path| > 1 && change.parent.value.Id? && ParentOk(rows, id, change.parent.value.id)
  }

  lemma ReparentNames(db: Db, id: Uuid, change: Change, p: Uuid)
    requires Inv(db) && id in db.rows && ParentOk(db.rows, id, p) && change.parent == Some(Id(p))
    ensures SameNode(db.rows, Changed(db.rows[id], change)) && MayMove(db.rows, id, p)
    ensures NamesUnique(Moved(db.rows, Changed(db.rows[id], change), p)) <==> NamesOk(db.rows, id, change)
  {
    var rows, m := db.rows, Changed(db.rows[id], change);
    assert OnTree(rows, id) && OnTree(rows, p);
    SubtreeIffOnPath(rows, id, p);
    MoveAcceptedIffNamesFit(rows, m, p);
    NamesFitIff(rows, m, p);
  }

  lemma NamesFitIff(rows: Rows, m: Iteration, p: Uuid)
    requires Tree(rows) && SameNode(rows, m) && p in rows && rows[p].spaceId == m.spaceId
    ensures NamesFit(rows, m, p) <==> !NameTaken(rows, m.id, m.spaceId, rows[p].path, m.name) && !NamesClash(rows, m.id)
  {
    forall x | x in rows
      ensures x in Subtree(rows, m.id) <==> x != m.id && m.id in rows[x].path
    {
      SubtreeIffOnPath(rows, m.id, x);
    }
    SameSpaceBelow(rows, p);
  }

  lemma SameSpaceBelow(rows: Rows, p: Uuid)
    requires Tree(rows) && p in rows
    ensures forall y :: y in rows && ParentPath(rows[y].path) == rows[p].path ==> rows[y].spaceId == rows[p].spaceId
  {
    forall y | y in rows && ParentPath(rows[y].path) == rows[p].path
      ensures rows[y].spaceId == rows[p].spaceId
    {
      assert OnTree(rows, y) && OnTree(rows, p);
      var k := |rows[p].path| - 1;
      assert Supports(rows, y, k);
      assert rows[y].path[k] == rows[p].path[k];
    }
  }

  // An update is accepted exactly when starting, the parent and the names are in order.
  lemma UpdateAcceptedIff(db: Db, id: Uuid, change: Change)
    requires Inv(db)
    ensures UpdateFailure(db, id, change) == None <==>
            && id in db.rows
            && StartOk(db.rows, id, change)
            && ParentGivenOk(db.rows, id, change)
            && NamesOk(db.rows, id, change)
  {
    if id in db.rows {
      assert OnTree(db.rows, id);
      var m := Changed(db.rows[id], change);
      assert StartOk(db.rows, id, change) <==>
             !(change.state == Some(Start) && (|db.rows[id].path| == 1 || SpaceRunning(db.rows, db.rows[id].spaceId)));
      match change.parent
      case None => InPlaceNames(db, id, change);
      case Some(Id(p)) =>
        if p in db.rows {
          SubtreeIffOnPath(db.rows, id, p);
          assert p == id ==> id in db.rows[p].path;
          if ParentOk(db.rows, id, p) {
            ReparentNames(db, id, change, p);
          }
        }
      case Some(_) =>
    }
  }

  lemma InPlaceNames(db: Db, id: Uuid, change: Change)
    requires Inv(db) && id in db.rows && change.parent == None
    ensures Collides(db.rows, Changed(db.rows[id], change)) <==> !NamesOk(db.rows, id, change)
  {
    var m := Changed(db.rows[id], change);
    assert OnTree(db.rows, id);
    assert forall y :: y in db.rows ==>
      (SameKey(db.rows[y], m) <==>
       db.rows[y].spaceId == m.spaceId && ParentPath(db.rows[y].path) == ParentPath(m.path) && db.rows[y].name == m.name);
  }

  // What the errors of an update mean.
  lemma UpdateErrors(db: Db, id: Uuid, change: Change)
    requires Inv(db)
    ensures var failure := UpdateFailure(db, id, change);
            if id !in db.rows then failure == Some(NotFound)
            else if !StartOk(db.rows, id, change) then failure == Some(BadParameter)
            else if change.parent.Some? && |db.rows[id].path| == 1 then failure == Some(Forbidden)
            else if change.parent.Some? && !change.parent.value.Id? then failure == Some(BadParameter)
            else if change.parent.Some? && change.parent.value.id !in db.rows then failure == Some(NotFound)
            else if !ParentGivenOk(db.rows, id, change) then failure == Some(Forbidden)
            else if !NamesOk(db.rows, id, change) then failure == Some(Internal)
            else failure == None
  {
    UpdateAcceptedIff(db, id, change);
    if id in db.rows {
      assert OnTree(db.rows, id);
      if change.parent.Some? && change.parent.value.Id? && change.parent.value.id in db.rows {
        SubtreeIffOnPath(db.rows, id, change.parent.value.id);
      }
    }
  }

  // The path of an iteration after an update that was accepted.
  function PathAfter(rows: Rows, id: Uuid, change: Change, x: Uuid): Path
    requires id in rows && x in rows
    requires change.parent.Some? ==> change.parent.value.Id? && change.parent.value.id in rows
  {
    if change.parent.None? || id !in rows[x].path then rows[x].path
    else if x == id then rows[change.parent.value.id].path + [id]
    else rows[change.parent.value.id].path + [id, x]
  }

  // An accepted update stores what is given, keeps what is not, puts the iteration under the new parent, if any, and
  // its descendants directly under it, and leaves everything else alone.
  lemma UpdateEffect(db: Db, id: Uuid, change: Change, x: Uuid)
    requires Inv(db) && UpdateFailure(db, id, change).None? && x in db.rows
    ensures var t := Exec(db, Request.Update(id, change));
            && t.spaces == db.spaces && t.used == db.used && t.items == db.items && t.rows.Keys == db.rows.Keys
            && id in db.rows && ParentGivenOk(db.rows, id, change)
            && t.rows[x].id == x && t.rows[x].spaceId == db.rows[x].spaceId
            && t.rows[x].path == PathAfter(db.rows, id, change, x)
            && t.rows[x].name == (if x == id && change.name.Some? then change.name.value else db.rows[x].name)
            && t.rows[x].state == (if x == id && change.state.Some? then change.state.value else db.rows[x].state)
  {
    UpdateAcceptedIff(db, id, change);
    RowAfter(db.rows, id, change, x);
  }

  lemma RowAfter(rows: Rows, id: Uuid, change: Change, x: Uuid)
    requires Tree(rows) && id in rows && x in rows && ParentGivenOk(rows, id, change)
    ensures var after := UpdatedRows(rows, id, change);
            && after.Keys == rows.Keys
            && after[x].id == x && after[x].spaceId == rows[x].spaceId
            && after[x].path == PathAfter(rows, id, change, x)
            && after[x].name == (if x == id && change.name.Some? then change.name.value else rows[x].name)
            && after[x].state == (if x == id && change.state.Some? then change.state.value else rows[x].state)
  {
    assert OnTree(rows, id) && OnTree(rows, x);
    SubtreeIffOnPath(rows, id, x);
  }

  // ---- Creating ----

  // Of a created iteration: its fields, and that nothing else changes.
  predicate Inserts(db: Db, t: Db, id: Uuid, space: Uuid, path: Path, name: string) {
    && id !in db.used && t.used == db.used + {id} && t.items == db.items
    && t.rows.Keys == db.rows.Keys + {id}
    && (forall x :: x in db.rows ==> t.rows[x] == db.rows[x])
    && t.rows[id].id == id && t.rows[id].spaceId == space && t.rows[id].path == path
    && t.rows[id].name == name && t.rows[id].state == New
  }

  // What is inserted has an ID and a path that ends in it; a given ID and a given path are kept.
  lemma CreateMeans(db: Db, i: Iteration, uuid: FreshUuid)
    ensures var c := Completed(i, uuid);
            && c.name == i.name && c.state == i.state && c.spaceId == i.spaceId
            && (i.id == NIL ==> c.id == uuid && c.path == [uuid])
            && (i.id != NIL ==> c.id == i.id && (i.path != [] ==> c.path == i.path) && (i.path == [] ==> c.path == [i.id]))
    ensures CreateFailure(db, i, uuid) == Some(PathMismatch) <==> i.id != NIL && i.path != [] && i.path[|i.path| - 1] != i.id
    ensures CreateFailure(db, i, uuid) == None ==> Completed(i, uuid).id !in db.used && NamesFree(db.rows, Completed(i, uuid))
  {
  }

  // No other row has the same space, parent path and name.
  predicate NamesFree(rows: Rows, i: Iteration) {
    !NameTaken(rows, i.id, i.spaceId, ParentPath(i.path), i.name)
  }

  lemma CreateChildEffect(db: Db, parent: Uuid, name: string, clientId: Option<Uuid>, uuid: FreshUuid)
    requires Inv(db)
    ensures var q := Request.CreateChild(parent, name, clientId, uuid);
            var id := if clientId.None? || clientId.value == NIL then uuid else clientId.value;
            if parent !in db.rows then Failure(db, q) == Some(NotFound)
            else if id in db.used then Failure(db, q) == Some(Internal)
            else if NameTaken(db.rows, id, db.rows[parent].spaceId, db.rows[parent].path, name) then Failure(db, q) == Some(DataConflict)
            else
              && Failure(db, q) == None && Exec(db, q).spaces == db.spaces
              && Inserts(db, Exec(db, q), id, db.rows[parent].spaceId, db.rows[parent].path + [id], name)
  {
    if parent in db.rows {
      var id := if clientId.None? || clientId.value == NIL then uuid else clientId.value;
      ChildNames(db, parent, name, id);
    }
  }

  lemma ChildNames(db: Db, parent: Uuid, name: string, id: Uuid)
    requires Inv(db) && parent in db.rows
    ensures Collides(db.rows, NewChild(db, parent, name, id)) <==>
            NameTaken(db.rows, id, db.rows[parent].spaceId, db.rows[parent].path, name)
  {
    var i := NewChild(db, parent, name, id);
    assert OnTree(db.rows, parent);
    assert ParentPath(i.path) == db.rows[parent].path;
    assert forall y :: y in db.rows ==>
      (SameKey(db.rows[y], i) <==>
       db.rows[y].spaceId == i.spaceId && ParentPath(db.rows[y].path) == db.rows[parent].path && db.rows[y].name == name);
  }

  lemma CreateSpaceEffect(db: Db, space: Uuid, name: string, uuid: FreshUuid)
    requires Inv(db)
    ensures var q := Request.CreateSpace(space, name, uuid);
            if space in db.spaces || uuid in db.used then Failure(db, q) == Some(Internal)
            else
              && Failure(db, q) == None && Exec(db, q).spaces == db.spaces + {space}
              && Inserts(db, Exec(db, q), uuid, space, [uuid], name)
  {
    if space !in db.spaces {
      assert forall y :: y in db.rows ==> !SameKey(db.rows[y], NewRoot(space, name, uuid));
    }
  }

  lemma CreateUnderRootEffect(db: Db, space: Uuid, name: string, uuid: FreshUuid, root: Uuid)
    requires Inv(db)
    requires space in db.spaces ==> root in db.rows && db.rows[root].spaceId == space && db.rows[root].path == [root]
    ensures var q := Request.CreateUnderRoot(space, name, uuid);
            if space !in db.spaces then Failure(db, q) == Some(NotFound)
            else if uuid in db.used then Failure(db, q) == Some(Internal)
            else if NameTaken(db.rows, uuid, space, [root], name) then Failure(db, q) == Some(DataConflict)
            else
              && Failure(db, q) == None && Exec(db, q).spaces == db.spaces
              && Inserts(db, Exec(db, q), uuid, space, [root, uuid], name)
  {
    if space in db.spaces {
      var r := RootOf(db, space);
      assert BothRoots(db.rows[r], db.rows[root]);
      assert r == root;
      ChildNames(db, root, name, uuid);
      assert [root] + [uuid] == [root, uuid];
    }
  }

  // ---- Deleting and placing work items ----

  // A delete removes exactly the rows with the iteration on their path.
  lemma DeleteEffect(db: Db, id: Uuid)
    requires Inv(db)
    ensures var q := Request.Delete(id);
            if id !in db.rows then Failure(db, q) == Some(NotFound)
            else if |db.rows[id].path| == 1 then Failure(db, q) == Some(Forbidden)
            else
              var t := Exec(db, q);
              && Failure(db, q) == None && t.spaces == db.spaces && t.used == db.used && t.items.Keys == db.items.Keys
              && (forall x :: x in t.rows <==> x in db.rows && id !in db.rows[x].path)
              && (forall x :: x in t.rows ==> t.rows[x] == db.rows[x])
  {
    if id in db.rows {
      assert OnTree(db.rows, id);
      forall x | x in db.rows
        ensures x in Subtree(db.rows, id) <==> x != id && id in db.rows[x].path
      {
        SubtreeIffOnPath(db.rows, id, x);
      }
    }
  }

  // And it moves exactly the work items of those rows to the parent.
  lemma DeleteItems(db: Db, id: Uuid, w: Uuid)
    requires Inv(db) && id in db.rows && |db.rows[id].path| > 1 && w in db.items
    ensures var t, path := Exec(db, Request.Delete(id)), db.rows[id].path;
            w in t.items && t.items[w] ==
              if db.items[w].Some? && id in db.rows[db.items[w].value].path then Some(path[|path| - 2]) else db.items[w]
  {
    assert OnTree(db.rows, id);
    if db.items[w].Some? {
      SubtreeIffOnPath(db.rows, id, db.items[w].value);
    }
  }

  lemma PutItemEffect(db: Db, item: Uuid, iteration: Uuid)
    requires Inv(db)
    ensures var q := Request.PutItem(item, iteration);
            if iteration !in db.rows then Failure(db, q) == Some(NotFound)
            else
              var t := Exec(db, q);
              && Failure(db, q) == None && t.spaces == db.spaces && t.used == db.used && t.rows == db.rows
              && t.items.Keys == db.items.Keys + {item} && t.items[item] == Some(iteration)
              && (forall w :: w in db.items && w != item ==> t.items[w] == db.items[w])
  {
  }
}
