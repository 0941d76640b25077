/** comment/comment_repository.go, the repository itself: one table, one log, and the listing of a work item's comments. */
module CommentRepository {
  import opened Prelude
  import opened Paths
  import opened CommentLog

  // The comments of one work item.
  function IdsOf(rows: Rows, parent: Uuid): set<Uuid> {
    set id | id in rows && rows[id].parent == parent
  }

  // Newest first; comments made at the same time come in any order.
  ghost predicate IsOrder(rows: Rows, ids: set<Uuid>, q: seq<Uuid>) {
    && ids <= rows.Keys && NoRepeats(q) && Elements(q) == ids
    && (forall i, j {:trigger q[i], q[j]} :: 0 <= i < j < |q| ==> q[i] in rows && q[j] in rows && rows[q[i]].created >= rows[q[j]].created)
  }

  function Window<T>(q: seq<T>, start: Option<int>, limit: Option<int>): seq<T>
    requires (start.Some? ==> start.value >= 0) && (limit.Some? ==> limit.value > 0)
  {
    var from := Least(if start.Some? then start.value else 0, |q|);
    q[from..if limit.Some? then Least(from + limit.value, |q|) else |q|]
  }

  predicate BadWindow(start: Option<int>, limit: Option<int>) {
    (start.Some? && start.value < 0) || (limit.Some? && limit.value <= 0)
  }

  function Pick(rows: Rows, q: seq<Uuid>): seq<Comment>
    requires forall id :: id in q ==> id in rows
  {
    seq(|q|, i requires 0 <= i < |q| => rows[q[i]])
  }

  class Repository {
    var rows: Rows
    var dead: set<Uuid>
    var log: seq<Revision>

    ghost function Contents(): State
      reads this
    {
      State(rows, dead, log)
    }

    constructor ()
      ensures Contents() == EMPTY
    {
      rows, dead, log := map[], {}, [];
    }

    method CreateRevision(who: Uuid, kind: RevisionType, c: Comment)
      modifies this`log
      ensures log == old(log) + [RevisionOf(kind, who, c)]
    {
      var body, markup := Some(c.body), Some(c.markup);
      if kind == Deleted {
        body, markup := None, None;
      }
      log := log + [Revision(kind, who, c.id, c.parent, c.parentComment, body, markup)];
    }

    method Create(c: Comment, uuid: FreshUuid, now: int, who: Uuid) returns (err: Option<Error>)
      modifies this
      ensures err == Failure(old(Contents()), CommentLog.Create(c, uuid, now, who))
      ensures Contents() == Exec(old(Contents()), CommentLog.Create(c, uuid, now, who))
    {
      var row := c.(id := uuid, created := now);
      if row.markup == "" {
        row := row.(markup := SYSTEM_MARKUP_DEFAULT);
      }
      if uuid in rows || uuid in dead {
        return Some(Internal);
      }
      rows := rows[uuid := row];
      CreateRevision(who, Created, row);
      return None;
    }

    method Save(c: Comment, who: Uuid) returns (err: Option<Error>)
      modifies this
      ensures err == Failure(old(Contents()), CommentLog.Save(c, who))
      ensures Contents() == Exec(old(Contents()), CommentLog.Save(c, who))
    {
      if c.id !in rows {
        return Some(NotFound);
      }
      var row := c;
      if row.markup == "" {
        row := row.(markup := SYSTEM_MARKUP_DEFAULT);
      }
      rows := rows[row.id := row];
      CreateRevision(who, Updated, row);
      return None;
    }

    method Delete(id: Uuid, who: Uuid) returns (err: Option<Error>)
      modifies this
      ensures err == Failure(old(Contents()), CommentLog.Delete(id, who))
      ensures Contents() == Exec(old(Contents()), CommentLog.Delete(id, who))
    {
      if id == NIL {
        return Some(NotFound);
      }
      if id !in rows {
        return Some(NotFound);
      }
      var c := rows[id];
      rows := rows - {id};
      dead := dead + {id};
      CreateRevision(who, Deleted, c);
      return None;
    }

    method ListRevisions(id: Uuid) returns (h: seq<Revision>)
      ensures h == Of(log, id)
    {
      h := [];
      var i := 0;
      while i < |log|
        invariant i <= |log| && h == Of(log[..i], id)
      {
        assert log[..i + 1] == log[..i] + [log[i]];
        OfAppend(log[..i], log[i], id);
        if log[i].comment == id {
          h := h + [log[i]];
        }
        i := i + 1;
      }
      assert log[..i] == log;
    }

    method Load(id: Uuid) returns (r: Result<Comment, Error>)
      ensures r == if id in rows then Ok(rows[id]) else Err(NotFound)
    {
      if id in rows {
        return Ok(rows[id]);
      }
      return Err(NotFound);
    }

    method Count(parent: Uuid) returns (n: nat)
      ensures n == |IdsOf(rows, parent)|
    {
      var ids := IdsOf(rows, parent);
      return |ids|;
    }

    // One page of a work item's comments and how many there are in all, which the first row of the page tells,
    // and a second query if the page has no row.
    method List(parent: Uuid, start: Option<int>, limit: Option<int>)
      returns (r: Result<(seq<Comment>, nat), Error>, ghost order: seq<Uuid>)
      ensures BadWindow(start, limit) ==> r == Err(BadParameter)
      ensures !BadWindow(start, limit) ==>
                && IsOrder(rows, IdsOf(rows, parent), order)
                && (forall id :: id in order ==> id in rows)
                && r == Ok((Window(Pick(rows, order), start, limit), |IdsOf(rows, parent)|))
    {
      order := [];
      if start.Some? && start.value < 0 {
        return Err(BadParameter), order;
      }
      if limit.Some? && limit.value <= 0 {
        return Err(BadParameter), order;
      }
      var ids := InOrder(rows, IdsOf(rows, parent));
      order := ids;
      OrderedIn(rows, parent, ids);
      var page := Window(Pick(rows, ids), start, limit);
      var result: seq<Comment> := [];
      var count: nat := 0;
      var first := true;
      var i := 0;
      while i < |page|
        invariant i <= |page| && result == page[..i]
        invariant first <==> i == 0
        invariant !first ==> count == |ids|
      {
        var value := page[i];
        if first {
          first := false;
          count := |ids|;
        }
        result := result + [value];
        i := i + 1;
      }
      if first {
        count := Count(parent);
      }
      assert result == page;
      return Ok((result, count)), order;
    }
  }

  // ORDER BY created_at DESC
  method InOrder(rows: Rows, ids: set<Uuid>) returns (q: seq<Uuid>)
    requires ids <= rows.Keys
    ensures IsOrder(rows, ids, q)
  {
    q := [];
    var rest := ids;
    while rest != {}
      invariant rest <= ids && rest !! Elements(q) && Elements(q) + rest == ids
      invariant NoRepeats(q)
      invariant forall i, j {:trigger q[i], q[j]} :: 0 <= i < j < |q| ==> rows[q[i]].created >= rows[q[j]].created
      invariant forall i :: 0 <= i < |q| ==> Newest(rows, rest, q[i])
      decreases rest
    {
      ghost var z := NewestExists(rows, rest);
      var x :| x in rest && Newest(rows, rest, x);
      assert x !in Elements(q);
      assert Elements(q + [x]) == Elements(q) + {x};
      forall y | y in Elements(q + [x])
        ensures Newest(rows, rest - {x}, y)
      {
        assert Newest(rows, rest, y);
      }
      assert forall i :: 0 <= i < |q| ==> rows[q[i]].created >= rows[x].created;
      q := q + [x];
      rest := rest - {x};
    }
  }

  predicate Newest(rows: Rows, ids: set<Uuid>, x: Uuid)
    requires x in rows && ids <= rows.Keys
  {
    forall y :: y in ids ==> rows[x].created >= rows[y].created
  }

  lemma {:induction false} NewestExists(rows: Rows, ids: set<Uuid>) returns (z: Uuid)
    requires ids != {} && ids <= rows.Keys
    ensures z in ids && Newest(rows, ids, z)
    decreases ids
  {
    var x :| x in ids;
    z := x;
    var rest := ids - {x};
    if rest == {} {
      assert ids == {x};
    } else {
      var y := NewestExists(rows, rest);
      z := if rows[y].created >= rows[x].created then y else x;
    }
  }

  lemma OrderedIn(rows: Rows, parent: Uuid, q: seq<Uuid>)
    requires IsOrder(rows, IdsOf(rows, parent), q)
    ensures forall id :: id in q ==> id in rows
    ensures |q| == |IdsOf(rows, parent)|
  {
    SizeOfElements(q);
    forall id | id in q
      ensures id in rows
    {
      assert id in Elements(q);
    }
  }

  lemma NewestComeFirst(rows: Rows, parent: Uuid, q: seq<Uuid>, i: nat, j: nat)
    requires IsOrder(rows, IdsOf(rows, parent), q) && i < j < |q|
    ensures q[i] != q[j] && q[i] in rows && q[j] in rows
    ensures rows[q[i]].parent == parent && rows[q[j]].parent == parent && rows[q[i]].created >= rows[q[j]].created
  {
    assert q[i] in Elements(q) && q[j] in Elements(q);
  }

  predicate DistinctTimes(rows: Rows, ids: set<Uuid>)
    requires ids <= rows.Keys
  {
    forall x, y {:trigger rows[x], rows[y]} :: x in ids && y in ids && x != y ==> rows[x].created != rows[y].created
  }

  // When no two comments were made at the same time, every listing has the same order.
  lemma {:induction false} OrderIsUnique(rows: Rows, ids: set<Uuid>, p: seq<Uuid>, q: seq<Uuid>)
    requires IsOrder(rows, ids, p) && IsOrder(rows, ids, q) && DistinctTimes(rows, ids)
    ensures p == q
    decreases |p|
  {
    SizeOfElements(p);
    SizeOfElements(q);
    if p != [] {
      assert p[0] in Elements(q) && q[0] in Elements(p);
      SameNewest(rows, ids, p, q);
      var rest := ids - {p[0]};
      WithoutFirst(rows, ids, p);
      WithoutFirst(rows, ids, q);
      OrderIsUnique(rows, rest, p[1..], q[1..]);
    }
  }

  lemma SameNewest(rows: Rows, ids: set<Uuid>, p: seq<Uuid>, q: seq<Uuid>)
    requires IsOrder(rows, ids, p) && IsOrder(rows, ids, q) && DistinctTimes(rows, ids)
    requires p != [] && q != []
    ensures p[0] == q[0]
  {
    assert p[0] in Elements(p) && q[0] in Elements(q);
    FirstIsNewest(rows, ids, p, q[0]);
    FirstIsNewest(rows, ids, q, p[0]);
  }

  lemma FirstIsNewest(rows: Rows, ids: set<Uuid>, q: seq<Uuid>, x: Uuid)
    requires IsOrder(rows, ids, q) && x in ids
    ensures q != [] && q[0] in rows && rows[q[0]].created >= rows[x].created
  {
    assert x in Elements(q);
    var i :| 0 <= i < |q| && q[i] == x;
    assert q[0] in Elements(q);
  }

  lemma WithoutFirst(rows: Rows, ids: set<Uuid>, q: seq<Uuid>)
    requires IsOrder(rows, ids, q) && q != []
    ensures IsOrder(rows, ids - {q[0]}, q[1..])
  {
    assert Elements(q[1..]) == Elements(q) - {q[0]};
  }

  // So two requests for adjoining pages together show what one request for both would have shown: a reader who
  // pages through the comments misses none and sees none twice.
  lemma PagesOfOneListing(rows: Rows, parent: Uuid, p: seq<Uuid>, q: seq<Uuid>, start: nat, limit: int, more: int)
    requires IsOrder(rows, IdsOf(rows, parent), p) && IsOrder(rows, IdsOf(rows, parent), q)
    requires DistinctTimes(rows, IdsOf(rows, parent)) && limit > 0 && more > 0
    ensures (forall id :: id in p ==> id in rows) && (forall id :: id in q ==> id in rows)
    ensures Window(Pick(rows, p), Some(start), Some(limit)) + Window(Pick(rows, q), Some(start + limit), Some(more))
            == Window(Pick(rows, p), Some(start), Some(limit + more))
  {
    OrderedIn(rows, parent, p);
    OrderIsUnique(rows, IdsOf(rows, parent), p, q);
    PagesMeet(Pick(rows, p), start, limit, more);
  }

  // A window starts at its start, or at the end if that is past it, and has as many rows as there are, up to its limit.
  lemma WindowMeans<T>(q: seq<T>, start: Option<int>, limit: Option<int>)
    requires !BadWindow(start, limit)
    ensures var w, from := Window(q, start, limit), if start.None? then 0 else start.value;
            && (from >= |q| ==> w == [])
            && (from < |q| ==> |w| == if limit.Some? && limit.value < |q| - from then limit.value else |q| - from)
            && forall i :: 0 <= i < |w| ==> w[i] == q[from + i]
  {
  }

  lemma PagesMeet<T>(q: seq<T>, start: nat, limit: int, more: int)
    requires limit > 0 && more > 0
    ensures Window(q, Some(start), Some(limit)) + Window(q, Some(start + limit), Some(more))
            == Window(q, Some(start), Some(limit + more))
  {
  }

  // A work item's count goes up by one with each comment made and down by one with each comment deleted.
  lemma CountAfterCreate(s: State, c: Comment, uuid: FreshUuid, now: int, who: Uuid, parent: Uuid)
    requires Failure(s, Create(c, uuid, now, who)).None?
    ensures |IdsOf(Exec(s, Create(c, uuid, now, who)).rows, parent)| == |IdsOf(s.rows, parent)| + if c.parent == parent then 1 else 0
  {
    var before, after := IdsOf(s.rows, parent), IdsOf(Exec(s, Create(c, uuid, now, who)).rows, parent);
    assert after == if c.parent == parent then before + {uuid} else before;
  }

  lemma CountAfterDelete(s: State, id: Uuid, who: Uuid, parent: Uuid)
    requires Failure(s, Delete(id, who)).None?
    ensures |IdsOf(Exec(s, Delete(id, who)).rows, parent)| == |IdsOf(s.rows, parent)| - if s.rows[id].parent == parent then 1 else 0
  {
    var before, after := IdsOf(s.rows, parent), IdsOf(Exec(s, Delete(id, who)).rows, parent);
    assert after == if s.rows[id].parent == parent then before - {id} else before;
  }
}
