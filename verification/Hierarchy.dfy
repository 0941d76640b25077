/**
 The iteration requests of controller/iteration.go, controller/space_iterations.go and controller/space.go,
 each run as one step on the database, and the invariant every run of them keeps.
 */
module Hierarchy {
  import opened Prelude
  import opened Paths
  import opened Iterations

  // `used` holds every primary key of the iteration table, deleted rows included; `items` maps each work
  // item to the iteration it is in, if any.
  datatype Db = Db(spaces: set<Uuid>, used: set<Uuid>, rows: Rows, items: map<Uuid, Option<Uuid>>)

  // The parent relationship of an update payload: without an ID, with one that is no UUID, or with a UUID.
  datatype ParentRef = NoId | Malformed | Id(id: Uuid)

  datatype Change = Change(name: Option<string>, state: Option<State>, parent: Option<ParentRef>)

  datatype Request =
    | CreateSpace(space: Uuid, name: string, uuid: FreshUuid)
    | CreateChild(parent: Uuid, name: string, clientId: Option<Uuid>, uuid: FreshUuid)
    | CreateUnderRoot(space: Uuid, name: string, uuid: FreshUuid)
    | Update(id: Uuid, change: Change)
    | Delete(id: Uuid)
    | PutItem(item: Uuid, iteration: Uuid)

  datatype Outcome = Done | Failed(error: Error)

  // ---- The invariant ----

  predicate HasRoot(rows: Rows, space: Uuid) {
    exists r :: r in rows && IsRoot(rows[r], space)
  }

  predicate BothRoots(a: Iteration, b: Iteration) {
    |a.path| == |b.path| == 1 && a.spaceId == b.spaceId
  }

  predicate BothRunning(a: Iteration, b: Iteration) {
    a.state == b.state == Start && a.spaceId == b.spaceId
  }

  predicate RootsOk(db: Db) {
    && (forall x :: x in db.rows ==> db.rows[x].spaceId in db.spaces)
    && (forall s :: s in db.spaces ==> HasRoot(db.rows, s))
    && (forall a, b {:trigger BothRoots(db.rows[a], db.rows[b])} :: a in db.rows && b in db.rows && BothRoots(db.rows[a], db.rows[b]) ==> a == b)
  }

  // At most one iteration of a space is running, and never the root.
  predicate StatesOk(db: Db) {
    && (forall a, b {:trigger BothRunning(db.rows[a], db.rows[b])} :: a in db.rows && b in db.rows && BothRunning(db.rows[a], db.rows[b]) ==> a == b)
    && (forall a :: a in db.rows && |db.rows[a].path| == 1 ==> db.rows[a].state != Start)
  }

  predicate ItemsOk(db: Db) {
    forall w :: w in db.items && db.items[w].Some? ==> db.items[w].value in db.rows
  }

  predicate Inv(db: Db) {
    && Tree(db.rows)
    && db.rows.Keys <= db.used
    && RootsOk(db)
    && NamesUnique(db.rows)
    && StatesOk(db)
    && ItemsOk(db)
  }

  // ---- What each request does ----

  predicate SpaceRunning(rows: Rows, space: Uuid) {
    exists x :: x in rows && rows[x].spaceId == space && rows[x].state == Start
  }

  function InsertFailure(db: Db, i: Iteration): Option<Error> {
    if i.id in db.used then Some(Internal)
    else if Collides(db.rows, i) then Some(DataConflict)
    else None
  }

  // An iteration without ID is made a root under a generated one, one without path a root under its own.
  function Completed(i: Iteration, uuid: FreshUuid): Iteration {
    if i.id == NIL then i.(id := uuid, path := [uuid])
    else if i.path == [] then i.(path := [i.id])
    else i
  }

  function CreateFailure(db: Db, i: Iteration, uuid: FreshUuid): Option<Error> {
    var c := Completed(i, uuid);
    if This(c.path) != c.id then Some(PathMismatch) else InsertFailure(db, c)
  }

  function NewChild(db: Db, parent: Uuid, name: string, id: Uuid): Iteration
    requires parent in db.rows
  {
    Iteration(id, db.rows[parent].spaceId, db.rows[parent].path + [id], name, New)
  }

  function NewRoot(space: Uuid, name: string, id: FreshUuid): Iteration {
    Iteration(id, space, [id], name, New)
  }

  function ChildId(clientId: Option<Uuid>, uuid: FreshUuid): Uuid {
    if clientId.Some? && clientId.value != NIL then clientId.value else uuid
  }

  function Changed(m: Iteration, change: Change): Iteration {
    m.(name := if change.name.Some? then change.name.value else m.name,
       state := if change.state.Some? then change.state.value else m.state)
  }

  // The first guard that rejects an update, in the order the request checks them.
  function UpdateFailure(db: Db, id: Uuid, change: Change): Option<Error>
    requires Tree(db.rows)
  {
    if id !in db.rows then Some(NotFound)
    else
      assert OnTree(db.rows, id);
      var m := db.rows[id];
      if change.state == Some(Start) && (|m.path| == 1 || SpaceRunning(db.rows, m.spaceId)) then Some(BadParameter)
      else match change.parent
        case None => if Collides(db.rows, Changed(m, change)) then Some(Internal) else None
        case Some(ref) => ReparentFailure(db.rows, Changed(m, change), ref)
  }

  function ReparentFailure(rows: Rows, m: Iteration, ref: ParentRef): Option<Error>
    requires m.id in rows
  {
    if IsRoot(m, m.spaceId) then Some(Forbidden)
    else match ref
      case NoId => Some(BadParameter)
      case Malformed => Some(BadParameter)
      case Id(p) =>
        if p == m.id then Some(Forbidden)
        else if p !in rows then Some(NotFound)
        else if rows[p].spaceId != m.spaceId then Some(Forbidden)
        else if p in Subtree(rows, m.id) then Some(Forbidden)
        else if !NamesUnique(Moved(rows, m, p)) then Some(Internal)
        else None
  }

  // The rows after an update that no guard rejects.
  function UpdatedRows(rows: Rows, id: Uuid, change: Change): Rows {
    if id !in rows || rows[id].id != id then rows
    else
      var m := Changed(rows[id], change);
      match change.parent
      case None => rows[id := m]
      case Some(ref) => if ref.Id? && ref.id in rows then Moved(rows, m, ref.id) else rows
  }

  // Work items of the removed subtree go to the parent of the removed iteration.
  function ItemsAfterDelete(db: Db, id: Uuid): map<Uuid, Option<Uuid>>
    requires id in db.rows
  {
    map w | w in db.items ::
      if db.items[w].Some? && (db.items[w].value == id || db.items[w].value in Subtree(db.rows, id))
      then Some(ParentID(db.rows[id].path))
      else db.items[w]
  }

  function DeleteFailure(db: Db, id: Uuid): Option<Error> {
    if id !in db.rows then Some(NotFound)
    else if IsRoot(db.rows[id], db.rows[id].spaceId) then Some(Forbidden)
    else None
  }

  function Inserted(db: Db, i: Iteration): Db {
    db.(used := db.used + {i.id}, rows := Added(db.rows, i))
  }

  // The root iteration of a space, unique by the invariant.
  ghost function RootOf(db: Db, space: Uuid): (r: Uuid)
    requires RootsOk(db) && space in db.spaces
    ensures r in db.rows && IsRoot(db.rows[r], space)
  {
    assert HasRoot(db.rows, space);
    var r :| r in db.rows && IsRoot(db.rows[r], space);
    r
  }

  function SpaceFailure(db: Db, space: Uuid, name: string, uuid: FreshUuid): Option<Error> {
    if space in db.spaces then Some(Internal)
    else InsertFailure(db, NewRoot(space, name, uuid))
  }

  function ChildFailure(db: Db, parent: Uuid, name: string, id: Uuid): Option<Error> {
    if parent !in db.rows then Some(NotFound)
    else InsertFailure(db, NewChild(db, parent, name, id))
  }

  ghost function Failure(db: Db, q: Request): Option<Error>
    requires Inv(db)
  {
    match q
    case CreateSpace(space, name, uuid) => SpaceFailure(db, space, name, uuid)
    case CreateChild(parent, name, clientId, uuid) => ChildFailure(db, parent, name, ChildId(clientId, uuid))
    case CreateUnderRoot(space, name, uuid) =>
      if space !in db.spaces then Some(NotFound)
      else ChildFailure(db, RootOf(db, space), name, uuid)
    case Update(id, change) => UpdateFailure(db, id, change)
    case Delete(id) => DeleteFailure(db, id)
    case PutItem(item, iteration) => if iteration in db.rows then None else Some(NotFound)
  }

  // The database after an accepted request.
  ghost function Accepted(db: Db, q: Request): Db
    requires Inv(db) && Failure(db, q).None?
  {
    match q
    case CreateSpace(space, name, uuid) => Inserted(db.(spaces := db.spaces + {space}), NewRoot(space, name, uuid))
    case CreateChild(parent, name, clientId, uuid) => Inserted(db, NewChild(db, parent, name, ChildId(clientId, uuid)))
    case CreateUnderRoot(space, name, uuid) => Inserted(db, NewChild(db, RootOf(db, space), name, uuid))
    case Update(id, change) => db.(rows := UpdatedRows(db.rows, id, change))
    case Delete(id) => db.(rows := Removed(db.rows, id), items := ItemsAfterDelete(db, id))
    case PutItem(item, iteration) => db.(items := db.items[item := Some(iteration)])
  }

  // The database after a request: a rejected one is rolled back.
  ghost function Exec(db: Db, q: Request): Db
    requires Inv(db)
  {
    if Failure(db, q).Some? then db else Accepted(db, q)
  }

  // ---- Each request keeps the invariant ----

  lemma InsertChildKeepsInv(db: Db, parent: Uuid, name: string, id: Uuid)
    requires Inv(db) && parent in db.rows && id != NIL
    requires InsertFailure(db, NewChild(db, parent, name, id)).None?
    ensures Inv(Inserted(db, NewChild(db, parent, name, id)))
  {
    var i := NewChild(db, parent, name, id);
    assert OnTree(db.rows, parent);
    AddedKeepsTree(db.rows, i, parent);
    UniqueAfterStore(db.rows, i);
    RootsAfterInsertChild(db, i);
  }

  lemma RootsAfterInsertChild(db: Db, i: Iteration)
    requires RootsOk(db) && i.spaceId in db.spaces && i.id !in db.rows && |i.path| > 1
    ensures RootsOk(Inserted(db, i))
  {
    forall s | s in db.spaces
      ensures HasRoot(Added(db.rows, i), s)
    {
      var r := RootOf(db, s);
      assert Added(db.rows, i)[r] == db.rows[r];
    }
  }

  lemma InsertRootKeepsInv(db: Db, space: Uuid, name: string, id: FreshUuid)
    requires Inv(db) && space !in db.spaces
    requires InsertFailure(db, NewRoot(space, name, id)).None?
    ensures Inv(Inserted(db.(spaces := db.spaces + {space}), NewRoot(space, name, id)))
  {
    var i := NewRoot(space, name, id);
    RootKeepsTree(db.rows, i);
    UniqueAfterStore(db.rows, i);
    RootsAfterInsertRoot(db, i);
  }

  lemma RootsAfterInsertRoot(db: Db, i: Iteration)
    requires RootsOk(db) && i.spaceId !in db.spaces && i.id !in db.rows && i.path == [i.id]
    ensures RootsOk(Inserted(db.(spaces := db.spaces + {i.spaceId}), i))
  {
    var after := Added(db.rows, i);
    assert IsRoot(after[i.id], i.spaceId);
    forall s | s in db.spaces
      ensures HasRoot(after, s)
    {
      var r := RootOf(db, s);
      assert after[r] == db.rows[r];
    }
  }

  // What a move or an in-place change leaves alone, as far as roots, spaces and states are concerned.
  predicate SameFrame(rows: Rows, after: Rows) {
    && after.Keys == rows.Keys
    && forall x :: x in after ==> after[x].spaceId == rows[x].spaceId && (|after[x].path| == 1 <==> |rows[x].path| == 1)
  }

  lemma StartAllowed(db: Db, id: Uuid, change: Change)
    requires Tree(db.rows) && UpdateFailure(db, id, change).None? && change.state == Some(Start)
    ensures id in db.rows && |db.rows[id].path| != 1 && !SpaceRunning(db.rows, db.rows[id].spaceId)
  {
  }

  // A row that starts running was allowed to, so it is the only running one.
  lemma ChangedStateOk(db: Db, id: Uuid, state: State, after: Rows)
    requires StatesOk(db) && id in db.rows && SameFrame(db.rows, after)
    requires after[id].state == state
    requires state == Start && db.rows[id].state != Start ==> |db.rows[id].path| != 1 && !SpaceRunning(db.rows, db.rows[id].spaceId)
    requires forall x :: x in after && x != id ==> after[x].state == db.rows[x].state
    ensures StatesOk(db.(rows := after))
  {
    forall a, b | a in after && b in after && BothRunning(after[a], after[b])
      ensures a == b
    {
      if (a != id && b != id) || db.rows[id].state == Start {
        assert BothRunning(db.rows[a], db.rows[b]);
      }
    }
  }

  lemma RootsInSameFrame(db: Db, after: Rows)
    requires RootsOk(db) && SameFrame(db.rows, after) && Tree(after)
    ensures RootsOk(db.(rows := after))
  {
    forall s | s in db.spaces
      ensures HasRoot(after, s)
    {
      var r := RootOf(db, s);
      assert OnTree(after, r);
      assert IsRoot(after[r], s);
    }
    forall a, b | a in after && b in after && BothRoots(after[a], after[b])
      ensures a == b
    {
      assert BothRoots(db.rows[a], db.rows[b]);
    }
  }

  lemma MoveKeepsFrame(db: Db, m: Iteration, p: Uuid)
    requires Tree(db.rows) && SameNode(db.rows, m) && p in db.rows && MayMove(db.rows, m.id, p)
    requires !IsRoot(db.rows[m.id], db.rows[m.id].spaceId)
    ensures SameFrame(db.rows, Moved(db.rows, m, p))
  {
    var after := Moved(db.rows, m, p);
    assert OnTree(db.rows, p) && OnTree(db.rows, m.id);
    forall x | x in after
      ensures after[x].spaceId == db.rows[x].spaceId
      ensures |after[x].path| == 1 <==> |db.rows[x].path| == 1
    {
      if x in Subtree(db.rows, m.id) {
        DescendantsShareSpace(db.rows, m.id, x);
      }
    }
  }

  lemma UpdateKeepsTree(db: Db, id: Uuid, change: Change)
    requires Tree(db.rows) && NamesUnique(db.rows) && UpdateFailure(db, id, change).None?
    ensures id in db.rows
    ensures var after := UpdatedRows(db.rows, id, change);
            Tree(after) && SameFrame(db.rows, after) && NamesUnique(after)
    ensures UpdatedRows(db.rows, id, change)[id].state == Changed(db.rows[id], change).state
    ensures forall x :: x in db.rows && x != id ==> UpdatedRows(db.rows, id, change)[x].state == db.rows[x].state
  {
    assert OnTree(db.rows, id);
    var m := Changed(db.rows[id], change);
    if change.parent.Some? {
      MovedKeepsTree(db.rows, m, change.parent.value.id);
      MoveKeepsFrame(db, m, change.parent.value.id);
    } else {
      InPlaceKeepsTree(db.rows, m);
      UniqueAfterStore(db.rows, m);
    }
  }

  lemma SameFrameKeepsInv(db: Db, id: Uuid, after: Rows)
    requires Inv(db) && SameFrame(db.rows, after) && Tree(after) && NamesUnique(after)
    requires StatesOk(db.(rows := after))
    ensures Inv(db.(rows := after))
  {
    RootsInSameFrame(db, after);
  }

  lemma UpdateKeepsInv(db: Db, id: Uuid, change: Change)
    requires Inv(db) && UpdateFailure(db, id, change).None?
    ensures id in db.rows
    ensures Inv(db.(rows := UpdatedRows(db.rows, id, change)))
  {
    UpdateKeepsTree(db, id, change);
    var after := UpdatedRows(db.rows, id, change);
    UpdateKeepsStates(db, id, change, after);
    SameFrameKeepsInv(db, id, after);
  }

  lemma UpdateKeepsStates(db: Db, id: Uuid, change: Change, after: Rows)
    requires Tree(db.rows) && StatesOk(db) && UpdateFailure(db, id, change).None?
    requires id in db.rows && SameFrame(db.rows, after)
    requires after[id].state == Changed(db.rows[id], change).state
    requires forall x :: x in after && x != id ==> after[x].state == db.rows[x].state
    ensures StatesOk(db.(rows := after))
  {
    if change.state == Some(Start) {
      StartAllowed(db, id, change);
    }
    ChangedStateOk(db, id, after[id].state, after);
  }

  lemma ParentStays(db: Db, id: Uuid)
    requires Tree(db.rows) && DeleteFailure(db, id).None?
    ensures ParentID(db.rows[id].path) in Removed(db.rows, id)
  {
    assert OnTree(db.rows, id);
    var k := |db.rows[id].path| - 2;
    assert k >= 0;
    assert Supports(db.rows, id, k);
  }

  lemma RootsAfterDelete(db: Db, id: Uuid)
    requires RootsOk(db) && Tree(db.rows) && DeleteFailure(db, id).None?
    ensures RootsOk(db.(rows := Removed(db.rows, id)))
  {
    var after := Removed(db.rows, id);
    assert OnTree(db.rows, id);
    forall s | s in db.spaces
      ensures HasRoot(after, s)
    {
      var r := RootOf(db, s);
      assert r in after && after[r] == db.rows[r];
    }
  }

  lemma StatesAfterDelete(db: Db, id: Uuid)
    requires StatesOk(db) && NamesUnique(db.rows) && id in db.rows
    ensures StatesOk(db.(rows := Removed(db.rows, id))) && NamesUnique(Removed(db.rows, id))
  {
  }

  lemma ItemsAfterDeleteOk(db: Db, id: Uuid)
    requires Tree(db.rows) && ItemsOk(db) && DeleteFailure(db, id).None?
    ensures ItemsOk(db.(rows := Removed(db.rows, id), items := ItemsAfterDelete(db, id)))
  {
    ParentStays(db, id);
  }

  lemma DeleteKeepsInv(db: Db, id: Uuid)
    requires Inv(db) && DeleteFailure(db, id).None?
    ensures Inv(db.(rows := Removed(db.rows, id), items := ItemsAfterDelete(db, id)))
  {
    RemovedKeepsTree(db.rows, id);
    RootsAfterDelete(db, id);
    StatesAfterDelete(db, id);
    ItemsAfterDeleteOk(db, id);
  }

  lemma CreateKeepsInv(db: Db, q: Request)
    requires Inv(db) && Failure(db, q).None?
    requires q.CreateSpace? || q.CreateChild? || q.CreateUnderRoot?
    ensures Inv(Accepted(db, q))
  {
    match q
    case CreateSpace(space, name, uuid) => InsertRootKeepsInv(db, space, name, uuid);
    case CreateChild(parent, name, clientId, uuid) => InsertChildKeepsInv(db, parent, name, ChildId(clientId, uuid));
    case CreateUnderRoot(space, name, uuid) => InsertChildKeepsInv(db, RootOf(db, space), name, uuid);
  }

  lemma ExecKeepsInv(db: Db, q: Request)
    requires Inv(db)
    ensures Inv(Exec(db, q))
  {
    if Failure(db, q).None? {
      match q
      case Update(id, change) => UpdateKeepsInv(db, id, change);
      case Delete(id) => DeleteKeepsInv(db, id);
      case PutItem(item, iteration) => PutKeepsInv(db, item, iteration);
      case _ => CreateKeepsInv(db, q);
    }
  }

  lemma PutKeepsInv(db: Db, item: Uuid, iteration: Uuid)
    requires Inv(db) && iteration in db.rows
    ensures Inv(db.(items := db.items[item := Some(iteration)]))
  {
  }

  // ---- Runs ----

  const EMPTY := Db({}, {}, map[], map[])

  // The database after any list of requests; every state a run goes through satisfies the invariant.
  ghost function Run(requests: seq<Request>): (db: Db)
    ensures Inv(db)
  {
    if requests == [] then EMPTY
    else
      var before := Run(requests[..|requests| - 1]);
      ExecKeepsInv(before, requests[|requests| - 1]);
      Exec(before, requests[|requests| - 1])
  }

  // After every run: no path repeats an ID, every ID on a path is a live iteration of the same space whose
  // own path is that prefix, and the path is what asking for the parent again and again yields.
  lemma RunsAreTrees(requests: seq<Request>, x: Uuid, k: nat)
    requires x in Run(requests).rows && k < |Run(requests).rows[x].path|
    ensures var rows := Run(requests).rows;
            && This(rows[x].path) == x
            && NoRepeats(rows[x].path)
            && rows[x].path == ParentChain(rows, x)
            && rows[x].path[k] in rows
            && rows[rows[x].path[k]].path == rows[x].path[..k + 1]
            && rows[rows[x].path[k]].spaceId == rows[x].spaceId
  {
    var rows := Run(requests).rows;
    assert OnTree(rows, x) && Supports(rows, x, k);
    PathsHaveNoRepeats(rows, x);
    PathIsParentChain(rows, x);
  }

  // After every run: each space has exactly one root, at most one running iteration, and its root does not run.
  lemma RunsHaveOneRootAndOneRunning(requests: seq<Request>, a: Uuid, b: Uuid)
    requires a in Run(requests).rows && b in Run(requests).rows
    requires Run(requests).rows[a].spaceId == Run(requests).rows[b].spaceId
    ensures var rows := Run(requests).rows;
            && HasRoot(rows, rows[a].spaceId)
            && (|rows[a].path| == 1 && |rows[b].path| == 1 ==> a == b)
            && (rows[a].state == Start && rows[b].state == Start ==> a == b && |rows[a].path| > 1)
            && |rows[a].path| > 0 && |rows[b].path| > 0 && rows[a].path[0] == rows[b].path[0]
  {
    var db := Run(requests);
    assert OnTree(db.rows, a);
    assert BothRoots(db.rows[a], db.rows[b]) ==> a == b;
    assert BothRunning(db.rows[a], db.rows[b]) ==> a == b;
    RootIsFirst(db.rows, a);
    RootIsFirst(db.rows, b);
    assert BothRoots(db.rows[db.rows[a].path[0]], db.rows[db.rows[b].path[0]]);
  }

  lemma ExecNeverRevives(db: Db, q: Request, id: Uuid)
    requires Inv(db) && id in db.used && id !in db.rows
    ensures id in Exec(db, q).used && id !in Exec(db, q).rows
  {
    if Failure(db, q).None? && q.Update? {
      UpdateKeepsTree(db, q.id, q.change);
    }
  }

  // Once deleted, an iteration is never stored again: no later request can bring its ID back.
  lemma {:induction false} DeletedStaysDeleted(requests: seq<Request>, n: nat, id: Uuid)
    requires n <= |requests|
    requires id in Run(requests[..n]).used && id !in Run(requests[..n]).rows
    ensures id in Run(requests).used && id !in Run(requests).rows
  {
    if n == |requests| {
      assert requests[..n] == requests;
    } else {
      var shorter := requests[..|requests| - 1];
      assert shorter[..n] == requests[..n];
      DeletedStaysDeleted(shorter, n, id);
      ExecNeverRevives(Run(shorter), requests[|requests| - 1], id);
    }
  }

  // Deleting an iteration loses no work item: one in the subtree moves to the parent, which is still
  // there, and every other one stays where it was.
  lemma DeleteMovesItems(db: Db, id: Uuid, w: Uuid)
    requires Tree(db.rows) && ItemsOk(db) && DeleteFailure(db, id).None? && w in db.items
    ensures w in ItemsAfterDelete(db, id)
    ensures db.items[w].Some? ==>
              var was := db.items[w].value;
              && ItemsAfterDelete(db, id)[w].Some?
              && (var now := ItemsAfterDelete(db, id)[w].value;
                  && now in Removed(db.rows, id)
                  && (if db.rows[id].path <= db.rows[was].path
                      then db.rows[now].path == ParentPath(db.rows[id].path)
                      else now == was))
  {
    if db.items[w].Some? {
      ParentStays(db, id);
      var was := db.items[w].value;
      assert OnTree(db.rows, id) && OnTree(db.rows, was);
      assert Supports(db.rows, id, |db.rows[id].path| - 2);
    }
  }

  // Flattening is final: moving an iteration back where it was does not restore the old shape.
  // A grandchild that became a child stays one under every later move of the same iteration.
  lemma MoveTwiceStaysFlat(rows: Rows, m: Iteration, p: Uuid, q: Uuid)
    requires Tree(rows) && SameNode(rows, m) && p in rows && q in rows
    requires MayMove(rows, m.id, p) && MayMove(Moved(rows, m, p), m.id, q)
    ensures MayMove(rows, m.id, q)
    ensures Moved(Moved(rows, m, p), MakeChildOf(m, rows[p]), q) == Moved(rows, m, q)
  {
    MoveEffect(rows, m, p);
    var once := Moved(rows, m, p);
    var twice := Moved(once, MakeChildOf(m, rows[p]), q);
    assert once[q] == rows[q];
    forall x | x in rows
      ensures twice[x] == Moved(rows, m, q)[x]
    {
      assert OnTree(rows, x);
    }
    assert twice.Keys == Moved(rows, m, q).Keys;
  }
}
