/**
 comment/comment_repository.go and comment/comment_revision_repository.go, the meaning: a table of comments, a log
 of revisions that is only ever appended to, and why the two always agree.
 */
module CommentLog {
  import opened Prelude
  import opened Paths

  const SYSTEM_MARKUP_DEFAULT := "PlainText"

  // `created` is the creation time, by which listings are ordered.
  datatype Comment = Comment(id: Uuid, parent: Uuid, parentComment: Option<Uuid>, creator: Uuid,
                             body: string, markup: string, created: int)

  datatype RevisionType = Created | Deleted | Updated

  datatype Revision = Revision(kind: RevisionType, modifier: Uuid, comment: Uuid, parent: Uuid,
                               parentComment: Option<Uuid>, body: Option<string>, markup: Option<string>)

  type Rows = map<Uuid, Comment>

  // `dead` are the rows that were soft-deleted: queries do not see them, but their keys stay taken.
  datatype State = State(rows: Rows, dead: set<Uuid>, log: seq<Revision>)

  datatype Error = NotFound | BadParameter | Internal

  datatype Request =
    | Create(comment: Comment, uuid: FreshUuid, now: int, who: Uuid)
    | Save(comment: Comment, who: Uuid)
    | Delete(id: Uuid, who: Uuid)

  const EMPTY := State(map[], {}, [])

  // ---- What each request does ----

  function WithMarkup(c: Comment): Comment {
    if c.markup == "" then c.(markup := SYSTEM_MARKUP_DEFAULT) else c
  }

  function RevisionOf(kind: RevisionType, who: Uuid, c: Comment): Revision {
    Revision(kind, who, c.id, c.parent, c.parentComment,
             if kind == Deleted then None else Some(c.body), if kind == Deleted then None else Some(c.markup))
  }

  function Failure(s: State, q: Request): Option<Error> {
    match q
    case Create(_, uuid, _, _) => if uuid in s.rows || uuid in s.dead then Some(Internal) else None
    case Save(c, _) => if c.id in s.rows then None else Some(NotFound)
    case Delete(id, _) => if id != NIL && id in s.rows then None else Some(NotFound)
  }

  // The whole new state: a failed request changes nothing, any other writes one row and one revision.
  function Exec(s: State, q: Request): State {
    if Failure(s, q).Some? then s
    else
      match q
      case Create(c, uuid, now, who) =>
        var row := WithMarkup(c.(id := uuid, created := now));
        s.(rows := s.rows[uuid := row], log := s.log + [RevisionOf(Created, who, row)])
      case Save(c, who) =>
        var row := WithMarkup(c);
        s.(rows := s.rows[c.id := row], log := s.log + [RevisionOf(Updated, who, row)])
      case Delete(id, who) =>
        State(s.rows - {id}, s.dead + {id}, s.log + [RevisionOf(Deleted, who, s.rows[id])])
  }

  function Run(qs: seq<Request>): State {
    if qs == [] then EMPTY else Exec(Run(qs[..|qs| - 1]), qs[|qs| - 1])
  }

  // ---- Reading the log ----

  // The revisions of one comment, oldest first.
  function Of(log: seq<Revision>, id: Uuid): seq<Revision> {
    if log == [] then []
    else
      var last := log[|log| - 1];
      Of(log[..|log| - 1], id) + if last.comment == id then [last] else []
  }

  datatype Content = Content(parent: Uuid, parentComment: Option<Uuid>, body: string, markup: string)

  // What one comment has come to: never created, stored, deleted, or a history that makes no sense.
  datatype Stage = Absent | Live(content: Content) | Gone(parent: Uuid, parentComment: Option<Uuid>) | Broken

  function After(t: Stage, r: Revision): Stage {
    match r.kind
    case Created => if t.Absent? then Written(r) else Broken
    case Updated => if t.Live? then Written(r) else Broken
    case Deleted =>
      if t.Live? && r.parent == t.content.parent && r.parentComment == t.content.parentComment
         && r.body.None? && r.markup.None?
      then Gone(r.parent, r.parentComment)
      else Broken
  }

  function Written(r: Revision): Stage {
    if r.body.Some? && r.markup.Some? && r.markup.value != ""
    then Live(Content(r.parent, r.parentComment, r.body.value, r.markup.value))
    else Broken
  }

  function Replay(h: seq<Revision>): Stage {
    if h == [] then Absent else After(Replay(h[..|h| - 1]), h[|h| - 1])
  }

  function ContentOf(c: Comment): Content {
    Content(c.parent, c.parentComment, c.body, c.markup)
  }

  // The table and the log say the same about a comment.
  predicate Agree(s: State, id: Uuid) {
    match Replay(Of(s.log, id))
    case Absent => id !in s.rows && id !in s.dead
    case Live(content) => id in s.rows && id !in s.dead && ContentOf(s.rows[id]) == content
    case Gone(_, _) => id !in s.rows && id in s.dead
    case Broken => false
  }

  lemma OfAppend(log: seq<Revision>, r: Revision, id: Uuid)
    ensures Of(log + [r], id) == Of(log, id) + if r.comment == id then [r] else []
  {
    assert (log + [r])[..|log|] == log;
  }

  lemma ReplayAppend(h: seq<Revision>, r: Revision)
    ensures Replay(h + [r]) == After(Replay(h), r)
  {
    assert (h + [r])[..|h|] == h;
  }

  // A row sits under its own key.
  predicate Keyed(s: State) {
    forall id :: id in s.rows ==> s.rows[id].id == id
  }

  lemma ExecKeepsKeyed(s: State, q: Request)
    requires Keyed(s)
    ensures Keyed(Exec(s, q))
  {
  }

  // The revision that a successful request leaves.
  function Made(s: State, q: Request): Revision
    requires Failure(s, q).None?
  {
    match q
    case Create(c, uuid, now, who) => RevisionOf(Created, who, WithMarkup(c.(id := uuid, created := now)))
    case Save(c, who) => RevisionOf(Updated, who, WithMarkup(c))
    case Delete(id, who) => RevisionOf(Deleted, who, s.rows[id])
  }

  lemma MadeFits(s: State, q: Request)
    requires Keyed(s) && Failure(s, q).None? && Agree(s, Made(s, q).comment)
    ensures var r := Made(s, q);
            var t := Exec(s, q);
            && t.log == s.log + [r]
            && match After(Replay(Of(s.log, r.comment)), r)
               case Absent => false
               case Live(content) => r.comment in t.rows && r.comment !in t.dead && ContentOf(t.rows[r.comment]) == content
               case Gone(_, _) => r.comment !in t.rows && r.comment in t.dead
               case Broken => false
  {
    var id := Made(s, q).comment;
    match q
    case Create(c, uuid, now, who) =>
      assert Replay(Of(s.log, id)).Absent?;
    case Save(c, who) =>
      assert Replay(Of(s.log, id)).Live?;
    case Delete(x, who) =>
      assert id == x && Replay(Of(s.log, id)) == Live(ContentOf(s.rows[x]));
  }

  lemma ExecKeepsAgreement(s: State, q: Request, id: Uuid)
    requires Keyed(s) && Agree(s, id)
    ensures Agree(Exec(s, q), id)
  {
    if Failure(s, q).None? {
      if Made(s, q).comment == id {
        MadeFits(s, q);
        OfAppend(s.log, Made(s, q), id);
        ReplayAppend(Of(s.log, id), Made(s, q));
      } else {
        OthersAreUntouched(s, q, id);
      }
    }
  }

  lemma OthersAreUntouched(s: State, q: Request, id: Uuid)
    requires Keyed(s) && Failure(s, q).None? && Made(s, q).comment != id
    ensures var t := Exec(s, q);
            && Of(t.log, id) == Of(s.log, id)
            && (id in t.rows <==> id in s.rows) && (id in t.dead <==> id in s.dead)
            && (id in t.rows ==> t.rows[id] == s.rows[id])
  {
    OfAppend(s.log, Made(s, q), id);
  }

  lemma {:induction false} RunsAreKeyed(qs: seq<Request>)
    ensures Keyed(Run(qs))
  {
    if qs != [] {
      RunsAreKeyed(qs[..|qs| - 1]);
      ExecKeepsKeyed(Run(qs[..|qs| - 1]), qs[|qs| - 1]);
    }
  }

  // After every run, replaying the revisions of a comment gives exactly what is stored, or that it is not.
  lemma {:induction false} RunsAgree(qs: seq<Request>, id: Uuid)
    ensures Agree(Run(qs), id)
  {
    if qs != [] {
      var before := qs[..|qs| - 1];
      RunsAreKeyed(before);
      RunsAgree(before, id);
      ExecKeepsAgreement(Run(before), qs[|qs| - 1], id);
    }
  }

  // ---- The form of a history ----

  // One create, any number of updates, at most one delete, which is the last.
  predicate WellFormed(h: seq<Revision>) {
    h != [] ==>
      && h[0].kind == Created
      && (forall i :: 0 < i < |h| ==> h[i].kind != Created)
      && (forall i :: 0 <= i < |h| - 1 ==> h[i].kind != Deleted)
  }

  lemma {:induction false} UnbrokenIsWellFormed(h: seq<Revision>)
    requires !Replay(h).Broken?
    ensures WellFormed(h)
    ensures Replay(h).Live? <==> h != [] && h[|h| - 1].kind != Deleted
    ensures Replay(h).Absent? <==> h == []
  {
    if h != [] {
      var before := h[..|h| - 1];
      UnbrokenIsWellFormed(before);
      assert forall i :: 0 <= i < |before| ==> h[i] == before[i];
    }
  }

  lemma HistoriesAreWellFormed(qs: seq<Request>, id: Uuid)
    ensures var h := Of(Run(qs).log, id);
            && WellFormed(h)
            && (id in Run(qs).rows <==> h != [] && h[|h| - 1].kind != Deleted)
  {
    RunsAgree(qs, id);
    UnbrokenIsWellFormed(Of(Run(qs).log, id));
  }

  // ---- Nothing is forgotten ----

  lemma {:induction false} LogOnlyGrows(qs: seq<Request>, k: nat)
    requires k <= |qs|
    ensures Run(qs[..k]).log <= Run(qs).log
  {
    if k == |qs| {
      assert qs[..k] == qs;
    } else {
      var before := qs[..|qs| - 1];
      assert before[..k] == qs[..k];
      LogOnlyGrows(before, k);
      assert Run(before).log <= Run(qs).log;
    }
  }

  // However the run went on, the final log still tells the content each comment had after the first `k` requests.
  lemma EveryVersionIsKept(qs: seq<Request>, k: nat, id: Uuid)
    requires k <= |qs|
    ensures var past := Run(qs[..k]);
            && |past.log| <= |Run(qs).log|
            && Agree(past.(log := Run(qs).log[..|past.log|]), id)
  {
    LogOnlyGrows(qs, k);
    RunsAgree(qs[..k], id);
    var past := Run(qs[..k]);
    assert Run(qs).log[..|past.log|] == past.log;
    assert past.(log := past.log) == past;
  }

  // Each request that succeeds leaves one revision with its kind and its author, each other one leaves none.
  lemma {:induction false} OneRevisionPerSuccess(qs: seq<Request>)
    ensures |Run(qs).log| == Successes(qs)
  {
    if qs != [] {
      OneRevisionPerSuccess(qs[..|qs| - 1]);
    }
  }

  function Successes(qs: seq<Request>): nat {
    if qs == [] then 0
    else
      var before := qs[..|qs| - 1];
      Successes(before) + if Failure(Run(before), qs[|qs| - 1]).None? then 1 else 0
  }

  // A deleted comment never comes back, and its key is never given out again.
  lemma {:induction false} DeletedStaysDeleted(qs: seq<Request>, k: nat, id: Uuid)
    requires k <= |qs| && id in Run(qs[..k]).dead
    ensures id in Run(qs).dead && id !in Run(qs).rows
  {
    RunsAgree(qs, id);
    if k == |qs| {
      assert qs[..k] == qs;
    } else {
      var before := qs[..|qs| - 1];
      assert before[..k] == qs[..k];
      DeletedStaysDeleted(before, k, id);
    }
  }

  // ---- What each request leaves, field by field ----

  // The markup that is given, or plain text if none is.
  predicate MarkupFrom(given: string, stored: string) {
    (given != "" ==> stored == given) && (given == "" ==> stored == "PlainText")
  }

  predicate AppendsOne(s: State, t: State, kind: RevisionType, who: Uuid, id: Uuid) {
    && |t.log| == |s.log| + 1 && t.log[..|s.log|] == s.log
    && (var r := t.log[|s.log|];
        && r.kind == kind && r.modifier == who && r.comment == id
        && (kind == Deleted <==> r.body.None?) && (kind == Deleted <==> r.markup.None?))
  }

  ghost predicate OthersKept(s: State, t: State, id: Uuid) {
    forall x :: x != id ==> (x in t.rows <==> x in s.rows) && (x in t.dead <==> x in s.dead) && (x in s.rows ==> t.rows[x] == s.rows[x])
  }

  lemma CreateEffect(s: State, c: Comment, uuid: FreshUuid, now: int, who: Uuid)
    ensures var q := Create(c, uuid, now, who);
            if uuid in s.rows || uuid in s.dead then Failure(s, q) == Some(Internal) && Exec(s, q) == s
            else
              var t := Exec(s, q);
              && Failure(s, q) == None && OthersKept(s, t, uuid) && AppendsOne(s, t, Created, who, uuid)
              && uuid in t.rows && uuid !in t.dead
              && (var row := t.rows[uuid];
                  && row.id == uuid && row.created == now && row.creator == c.creator
                  && row.parent == c.parent && row.parentComment == c.parentComment && row.body == c.body
                  && MarkupFrom(c.markup, row.markup))
  {
  }

  lemma SaveEffect(s: State, c: Comment, who: Uuid)
    ensures var q := Save(c, who);
            if c.id !in s.rows then Failure(s, q) == Some(NotFound) && Exec(s, q) == s
            else
              var t := Exec(s, q);
              && Failure(s, q) == None && OthersKept(s, t, c.id) && AppendsOne(s, t, Updated, who, c.id)
              && c.id in t.rows && t.dead == s.dead
              && (var row := t.rows[c.id];
                  && row.id == c.id && row.created == c.created && row.creator == c.creator
                  && row.parent == c.parent && row.parentComment == c.parentComment && row.body == c.body
                  && MarkupFrom(c.markup, row.markup))
  {
  }

  lemma DeleteEffect(s: State, id: Uuid, who: Uuid)
    requires Keyed(s)
    ensures var q := Delete(id, who);
            if id == NIL || id !in s.rows then Failure(s, q) == Some(NotFound) && Exec(s, q) == s
            else
              var t := Exec(s, q);
              && Failure(s, q) == None && OthersKept(s, t, id) && AppendsOne(s, t, Deleted, who, id)
              && id !in t.rows && id in t.dead
  {
  }
}
