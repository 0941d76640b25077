/**
 Any number of concurrent label updates (controller/label.go, label/label.go), interleaved statement by
 statement: load and check, re-read, conditional update, commit. A statement sees the rows committed before
 it; a conditional update waits while another transaction holds the row, or an equal name, uncommitted.
 */
module LabelConcurrency {
  import opened Prelude
  import opened Paths
  import opened Labels

  datatype Phase =
    | Idle
    | Loaded(l: Label)                         // merged with the payload; l.version is the guard
    | Reread(l: Label, next: nat)              // `next` is the version to write
    | Written(l: Label)                        // not committed yet
    | Finished(result: Result<Label, Error>)

  datatype Client = Client(id: Uuid, payload: Payload, phase: Phase)

  // A version of a label, and the client that wrote it; the first one is written by its creation.
  datatype Entry = Entry(value: Label, writer: Option<nat>)

  datatype Sys = Sys(rows: Rows, history: map<Uuid, seq<Entry>>, clients: seq<Client>)

  datatype Step =
    | Create(l: Label)
    | LoadAndCheck(c: nat)
    | ReadAgain(c: nat)
    | Write(c: nat)
    | WriteFails(c: nat)
    | CommitIt(c: nat)
    | Abort(c: nat)

  function At(s: Sys, c: nat, phase: Phase): Sys
    requires c < |s.clients|
  {
    s.(clients := s.clients[c := s.clients[c].(phase := phase)])
  }

  // Another client has written this row and not committed.
  predicate Locked(s: Sys, c: nat, id: Uuid) {
    exists d :: 0 <= d < |s.clients| && d != c && s.clients[d].phase.Written? && s.clients[d].id == id
  }

  // Another client has written an equal name and not committed.
  predicate NamePending(s: Sys, c: nat, l: Label) {
    exists d :: 0 <= d < |s.clients| && d != c && s.clients[d].phase.Written? && SameKey(s.clients[d].phase.l, l)
  }

  predicate GuardHolds(s: Sys, c: nat)
    requires c < |s.clients| && s.clients[c].phase.Reread?
  {
    s.clients[c].id in s.rows && s.rows[s.clients[c].id].version == s.clients[c].phase.l.version
  }

  predicate Enabled(s: Sys, step: Step) {
    match step
    case Create(l) =>
      && l.id !in s.rows && l.version == 0 && TrimSpace(l.name) != "" && !Collides(s.rows, l)
      && !NamePending(s, |s.clients|, l)
    case LoadAndCheck(c) => c < |s.clients| && s.clients[c].phase.Idle?
    case ReadAgain(c) => c < |s.clients| && s.clients[c].phase.Loaded?
    case Write(c) =>
      && c < |s.clients| && s.clients[c].phase.Reread?
      && !Locked(s, c, s.clients[c].id)
      && (GuardHolds(s, c) ==> !NamePending(s, c, s.clients[c].phase.l))
    case WriteFails(c) => c < |s.clients| && s.clients[c].phase.Reread?
    case CommitIt(c) => c < |s.clients| && s.clients[c].phase.Written?
    case Abort(c) => c < |s.clients| && !s.clients[c].phase.Finished?
  }

  function AfterLoad(rows: Rows, id: Uuid, p: Payload): Phase {
    if p.version.None? then Finished(Err(BadParameter))
    else if id !in rows then Finished(Err(NotFound))
    else if rows[id].version != p.version.value then Finished(Err(VersionConflict))
    else if TrimSpace(Merge(rows[id], p).name) == "" then Finished(Err(BadParameter))
    else Loaded(Merge(rows[id], p))
  }

  function Next(s: Sys, step: Step): Sys
    requires Enabled(s, step)
  {
    match step
    case Create(l) => s.(rows := s.rows[l.id := l], history := s.history[l.id := [Entry(l, None)]])
    case LoadAndCheck(c) => At(s, c, AfterLoad(s.rows, s.clients[c].id, s.clients[c].payload))
    case ReadAgain(c) =>
      var l := s.clients[c].phase.l;
      if s.clients[c].id !in s.rows then At(s, c, Finished(Err(NotFound)))
      else At(s, c, Reread(l, s.rows[s.clients[c].id].version + 1))
    case Write(c) =>
      var l := s.clients[c].phase.l;
      if !GuardHolds(s, c) then At(s, c, Finished(Err(VersionConflict)))
      else if Collides(s.rows, l) then At(s, c, Finished(Err(DataConflict)))
      else At(s, c, Written(l.(version := s.clients[c].phase.next)))
    case WriteFails(c) => At(s, c, Finished(Err(Internal)))
    case CommitIt(c) =>
      var l := s.clients[c].phase.l;
      var entries := if l.id in s.history then s.history[l.id] else [];
      At(s.(rows := s.rows[l.id := l], history := s.history[l.id := entries + [Entry(l, Some(c))]]), c, Finished(Ok(l)))
    case Abort(c) => At(s, c, Finished(Err(Timeout)))
  }

  // ---- The invariant ----

  // The version a client was shown when it loaded, as it still stands in the history.
  predicate Shown(s: Sys, c: nat)
    requires c < |s.clients|
  {
    var k := s.clients[c];
    && k.id in s.history && k.payload.version.Some? && 0 <= k.payload.version.value < |s.history[k.id]|
  }

  function ShownLabel(s: Sys, c: nat): Label
    requires c < |s.clients| && Shown(s, c)
  {
    s.history[s.clients[c].id][s.clients[c].payload.version.value].value
  }

  predicate HistoryOk(s: Sys) {
    && s.history.Keys == s.rows.Keys
    && forall id :: id in s.history ==> ChainOk(s, id)
  }

  // Version k is the k-th entry, and each entry but the first is what one client made of the entry before.
  predicate ChainOk(s: Sys, id: Uuid)
    requires id in s.history && id in s.rows
  {
    var h := s.history[id];
    && h != []
    && h[|h| - 1].value == s.rows[id]
    && (forall k :: 0 <= k < |h| ==> h[k].value.version == k && h[k].value.id == id)
    && (forall k :: 0 < k < |h| ==> LinkOk(s, id, k))
  }

  predicate LinkOk(s: Sys, id: Uuid, k: nat)
    requires id in s.history && 0 < k < |s.history[id]|
  {
    var h := s.history[id];
    && h[k].writer.Some? && h[k].writer.value < |s.clients|
    && (var c := s.clients[h[k].writer.value];
        && c.id == id
        && c.payload.version == Some(k - 1)
        && h[k].value == Updated(h[k - 1].value, c.payload)
        && c.phase == Finished(Ok(h[k].value)))
  }

  predicate ClientOk(s: Sys, c: nat)
    requires c < |s.clients|
  {
    match s.clients[c].phase
    case Idle => true
    case Loaded(l) => Shown(s, c) && l == Merge(ShownLabel(s, c), s.clients[c].payload)
    case Reread(l, next) =>
      && Shown(s, c) && l == Merge(ShownLabel(s, c), s.clients[c].payload)
      && l.version < next <= |s.history[s.clients[c].id]|
    case Written(l) =>
      && Shown(s, c) && l == Updated(ShownLabel(s, c), s.clients[c].payload)
      && s.clients[c].payload.version.value == |s.history[s.clients[c].id]| - 1
      && !Collides(s.rows, l)
      && !Locked(s, c, s.clients[c].id)
      && !NamePending(s, c, l)
    case Finished(Ok(l)) =>
      && Shown(s, c) && l.version == s.clients[c].payload.version.value + 1
      && l.version < |s.history[s.clients[c].id]|
      && s.history[s.clients[c].id][l.version] == Entry(l, Some(c))
    case Finished(Err(_)) => true
  }

  predicate Inv(s: Sys) {
    && HistoryOk(s)
    && forall c {:trigger ClientOk(s, c)} :: 0 <= c < |s.clients| ==> ClientOk(s, c)
  }

  // ---- Every step keeps it ----

  // A step of client c that only moves it to another phase leaves the rest in order.
  lemma PhaseKeepsInv(s: Sys, c: nat, phase: Phase)
    requires Inv(s) && c < |s.clients|
    requires ClientOk(At(s, c, phase), c)
    requires !(s.clients[c].phase.Finished?)
    requires phase.Written? ==> forall d :: 0 <= d < |s.clients| && d != c && s.clients[d].phase.Written? ==>
               s.clients[d].id != s.clients[c].id && !SameKey(phase.l, s.clients[d].phase.l)
    ensures Inv(At(s, c, phase))
  {
    var t := At(s, c, phase);
    forall id | id in t.history
      ensures ChainOk(t, id)
    {
      assert ChainOk(s, id);
      forall k: nat | 0 < k < |t.history[id]|
        ensures LinkOk(t, id, k)
      {
        assert LinkOk(s, id, k);
      }
    }
    forall d: nat | d < |t.clients|
      ensures ClientOk(t, d)
    {
      assert ClientOk(s, d);
      if d != c {
        OthersStay(s, c, phase, d);
      }
    }
  }

  lemma OthersStay(s: Sys, c: nat, phase: Phase, d: nat)
    requires c < |s.clients| && d < |s.clients| && c != d && ClientOk(s, d)
    requires phase.Written? && s.clients[d].phase.Written? ==>
               s.clients[d].id != s.clients[c].id && !SameKey(phase.l, s.clients[d].phase.l)
    ensures ClientOk(At(s, c, phase), d)
  {
    var t := At(s, c, phase);
    assert forall e :: 0 <= e < |t.clients| && e != c ==> t.clients[e] == s.clients[e];
  }

  lemma LoadKeepsInv(s: Sys, c: nat)
    requires Inv(s) && Enabled(s, LoadAndCheck(c))
    ensures Inv(Next(s, LoadAndCheck(c)))
  {
    var phase := AfterLoad(s.rows, s.clients[c].id, s.clients[c].payload);
    if phase.Loaded? {
      assert ChainOk(s, s.clients[c].id);
    }
    PhaseKeepsInv(s, c, phase);
  }

  lemma ReadAgainKeepsInv(s: Sys, c: nat)
    requires Inv(s) && Enabled(s, ReadAgain(c))
    ensures Inv(Next(s, ReadAgain(c)))
  {
    assert ClientOk(s, c);
    assert ChainOk(s, s.clients[c].id);
    PhaseKeepsInv(s, c, Reread(s.clients[c].phase.l, s.rows[s.clients[c].id].version + 1));
  }

  // The heart of the protocol: the new version number comes from the re-read and the guard from the first
  // load, and whenever the guard holds the two fit together.
  lemma GuardFitsReread(s: Sys, c: nat)
    requires Inv(s) && c < |s.clients| && s.clients[c].phase.Reread? && GuardHolds(s, c)
    ensures s.clients[c].phase.next == s.clients[c].phase.l.version + 1
    ensures s.clients[c].phase.l == Merge(s.rows[s.clients[c].id], s.clients[c].payload)
    ensures s.clients[c].payload.version == Some(s.rows[s.clients[c].id].version)
  {
    assert ClientOk(s, c);
    assert ChainOk(s, s.clients[c].id);
  }

  lemma WriteKeepsInv(s: Sys, c: nat)
    requires Inv(s) && Enabled(s, Write(c))
    ensures Inv(Next(s, Write(c)))
  {
    var l := s.clients[c].phase.l;
    if !GuardHolds(s, c) {
      PhaseKeepsInv(s, c, Finished(Err(VersionConflict)));
    } else if Collides(s.rows, l) {
      PhaseKeepsInv(s, c, Finished(Err(DataConflict)));
    } else {
      GuardFitsReread(s, c);
      assert ClientOk(s, c) && ChainOk(s, s.clients[c].id);
      var w := l.(version := s.clients[c].phase.next);
      WrittenOk(s, c, w);
      PhaseKeepsInv(s, c, Written(w));
    }
  }

  lemma WrittenOk(s: Sys, c: nat, w: Label)
    requires Inv(s) && Enabled(s, Write(c)) && GuardHolds(s, c) && !Collides(s.rows, s.clients[c].phase.l)
    requires w == s.clients[c].phase.l.(version := s.clients[c].phase.next)
    ensures ClientOk(At(s, c, Written(w)), c)
    ensures forall d :: 0 <= d < |s.clients| && d != c && s.clients[d].phase.Written? ==>
              s.clients[d].id != s.clients[c].id && !SameKey(w, s.clients[d].phase.l)
  {
    GuardFitsReread(s, c);
    assert ClientOk(s, c) && ChainOk(s, s.clients[c].id);
    var l := s.clients[c].phase.l;
    assert !Collides(s.rows, w) by {
      assert forall y :: y in s.rows ==> SameKey(s.rows[y], w) == SameKey(s.rows[y], l);
    }
    forall d | 0 <= d < |s.clients| && d != c && s.clients[d].phase.Written?
      ensures s.clients[d].id != s.clients[c].id && !SameKey(w, s.clients[d].phase.l)
    {
      assert !SameKey(s.clients[d].phase.l, l);
    }
    var t := At(s, c, Written(w));
    assert !Locked(t, c, t.clients[c].id);
    assert !NamePending(t, c, w);
  }

  lemma CreateKeepsInv(s: Sys, l: Label)
    requires Inv(s) && Enabled(s, Create(l))
    ensures Inv(Next(s, Create(l)))
  {
    var t := Next(s, Create(l));
    forall id | id in t.history
      ensures ChainOk(t, id)
    {
      if id != l.id {
        assert ChainOk(s, id);
        forall k: nat | 0 < k < |t.history[id]|
          ensures LinkOk(t, id, k)
        {
          assert LinkOk(s, id, k);
        }
      }
    }
    forall c: nat | c < |t.clients|
      ensures ClientOk(t, c)
    {
      assert ClientOk(s, c);
      if t.clients[c].phase.Written? {
        assert !SameKey(t.clients[c].phase.l, l);
        assert !Collides(t.rows, t.clients[c].phase.l);
      }
    }
  }

  // What a client that is about to commit knows: its label is the update of the row, and would be its next version.
  lemma WrittenFits(s: Sys, c: nat)
    requires Inv(s) && Enabled(s, CommitIt(c))
    ensures var k := s.clients[c];
            && k.id in s.rows && k.id in s.history && ChainOk(s, k.id)
            && k.payload.version == Some(s.rows[k.id].version) && s.rows[k.id].version == |s.history[k.id]| - 1
            && k.phase.l == Updated(s.rows[k.id], k.payload) && k.phase.l.id == k.id
  {
    assert ClientOk(s, c);
    assert ChainOk(s, s.clients[c].id);
  }

  lemma OldLinkStays(s: Sys, c: nat, id: Uuid, k: nat)
    requires c < |s.clients| && s.clients[c].phase.Written? && id in s.history && id in s.rows && 0 < k < |s.history[id]|
    requires LinkOk(s, id, k)
    ensures id in Next(s, CommitIt(c)).history && k < |Next(s, CommitIt(c)).history[id]|
    ensures LinkOk(Next(s, CommitIt(c)), id, k)
  {
  }

  lemma NewLink(s: Sys, c: nat)
    requires Inv(s) && Enabled(s, CommitIt(c))
    ensures var id, t := s.clients[c].id, Next(s, CommitIt(c));
            && id in s.history && id in t.history && 0 < |s.history[id]| == |t.history[id]| - 1
            && t.history[id][..|s.history[id]|] == s.history[id]
            && LinkOk(t, id, |s.history[id]|)
            && t.history[id][|s.history[id]|].value == t.rows[id]
            && t.rows[id].version == |s.history[id]| && t.rows[id].id == id
  {
    WrittenFits(s, c);
  }

  lemma GrownChain(s: Sys, c: nat)
    requires Inv(s) && Enabled(s, CommitIt(c))
    ensures var id, t := s.clients[c].id, Next(s, CommitIt(c));
            id in t.history && id in t.rows && ChainOk(t, id)
  {
    var id, t := s.clients[c].id, Next(s, CommitIt(c));
    WrittenFits(s, c);
    NewLink(s, c);
    var h, n := t.history[id], |s.history[id]|;
    forall k: nat | 0 < k < |h|
      ensures LinkOk(t, id, k)
    {
      if k < n {
        assert LinkOk(s, id, k);
        OldLinkStays(s, c, id, k);
      }
    }
    assert forall k :: 0 <= k < n ==> h[k] == s.history[id][k];
  }

  lemma CommitKeepsChains(s: Sys, c: nat, id: Uuid)
    requires Inv(s) && Enabled(s, CommitIt(c))
    requires id in Next(s, CommitIt(c)).history
    ensures id in Next(s, CommitIt(c)).rows && ChainOk(Next(s, CommitIt(c)), id)
  {
    WrittenFits(s, c);
    if id == s.clients[c].id {
      GrownChain(s, c);
    } else {
      assert ChainOk(s, id);
      forall k: nat | 0 < k < |s.history[id]|
        ensures LinkOk(Next(s, CommitIt(c)), id, k)
      {
        assert LinkOk(s, id, k);
        OldLinkStays(s, c, id, k);
      }
    }
  }

  // Another client that has written is on another row with another name, so the commit does not touch it.
  lemma CommitKeepsWritten(s: Sys, c: nat, d: nat)
    requires c < |s.clients| && d < |s.clients| && c != d
    requires s.clients[c].phase.Written? && s.clients[d].phase.Written?
    requires ClientOk(s, c) && ClientOk(s, d) && s.clients[c].phase.l.id == s.clients[c].id
    ensures ClientOk(Next(s, CommitIt(c)), d)
  {
    var t := Next(s, CommitIt(c));
    var l, w := s.clients[c].phase.l, s.clients[d].phase.l;
    assert s.clients[c].id != s.clients[d].id && !SameKey(l, w);
    assert forall e :: 0 <= e < |t.clients| && t.clients[e].phase.Written? ==> t.clients[e] == s.clients[e];
    assert !Collides(t.rows, w);
    assert !Locked(t, d, t.clients[d].id);
    assert !NamePending(t, d, w);
  }

  lemma CommitKeepsClient(s: Sys, c: nat, d: nat)
    requires c < |s.clients| && d < |s.clients| && s.clients[c].phase.Written?
    requires ClientOk(s, c) && ClientOk(s, d) && s.clients[c].phase.l.id == s.clients[c].id
    requires s.clients[c].id in s.rows && ChainOk(s, s.clients[c].id)
    ensures ClientOk(Next(s, CommitIt(c)), d)
  {
    if d != c && s.clients[d].phase.Written? {
      CommitKeepsWritten(s, c, d);
    }
  }

  lemma CommitKeepsInv(s: Sys, c: nat)
    requires Inv(s) && Enabled(s, CommitIt(c))
    ensures Inv(Next(s, CommitIt(c)))
  {
    var t := Next(s, CommitIt(c));
    assert ClientOk(s, c);
    assert ChainOk(s, s.clients[c].id);
    forall id | id in t.history
      ensures id in t.rows && ChainOk(t, id)
    {
      CommitKeepsChains(s, c, id);
    }
    forall d: nat | d < |t.clients|
      ensures ClientOk(t, d)
    {
      assert ClientOk(s, d);
      CommitKeepsClient(s, c, d);
    }
  }

  lemma NextKeepsInv(s: Sys, step: Step)
    requires Inv(s) && Enabled(s, step)
    ensures Inv(Next(s, step))
  {
    match step
    case Create(l) => CreateKeepsInv(s, l);
    case LoadAndCheck(c) => LoadKeepsInv(s, c);
    case ReadAgain(c) => ReadAgainKeepsInv(s, c);
    case Write(c) => WriteKeepsInv(s, c);
    case WriteFails(c) => PhaseKeepsInv(s, c, Finished(Err(Internal)));
    case CommitIt(c) => CommitKeepsInv(s, c);
    case Abort(c) => PhaseKeepsInv(s, c, Finished(Err(Timeout)));
  }

  // ---- Runs ----

  predicate CanRun(s: Sys, steps: seq<Step>)
    decreases |steps|
  {
    steps == [] || (Enabled(s, steps[0]) && CanRun(Next(s, steps[0]), steps[1..]))
  }

  function After(s: Sys, steps: seq<Step>): Sys
    requires CanRun(s, steps)
    decreases |steps|
  {
    if steps == [] then s else After(Next(s, steps[0]), steps[1..])
  }

  predicate Starting(s: Sys) {
    s.rows == map[] && s.history == map[] && forall c :: 0 <= c < |s.clients| ==> s.clients[c].phase == Idle
  }

  lemma {:induction false} RunKeepsInv(s: Sys, steps: seq<Step>)
    requires Inv(s) && CanRun(s, steps)
    ensures Inv(After(s, steps))
    decreases |steps|
  {
    if steps != [] {
      NextKeepsInv(s, steps[0]);
      RunKeepsInv(Next(s, steps[0]), steps[1..]);
    }
  }

  // A commit raises the stored version by one and replaces exactly the version its client was shown,
  // leaving every field that its payload does not mention as it was.
  lemma CommitReplacesWhatWasShown(s: Sys, steps: seq<Step>, c: nat)
    requires Starting(s) && CanRun(s, steps) && Enabled(After(s, steps), CommitIt(c))
    ensures var before, after := After(s, steps), Next(After(s, steps), CommitIt(c));
            var k := before.clients[c];
            && k.id in before.rows
            && k.payload.version == Some(before.rows[k.id].version)
            && after.rows == before.rows[k.id := Updated(before.rows[k.id], k.payload)]
            && Follows(before.rows[k.id], k.payload, after.rows[k.id])
            && after.clients[c].phase == Finished(Ok(after.rows[k.id]))
  {
    RunKeepsInv(s, steps);
    WrittenFits(After(s, steps), c);
  }

  // Version `k` is what the payload of its writer makes of version `k - 1`, which the writer had asked for.
  predicate MadeFromBefore(s: Sys, id: Uuid, k: nat)
    requires id in s.history && 0 < k < |s.history[id]|
  {
    var was, now := s.history[id][k - 1], s.history[id][k];
    && now.writer.Some? && now.writer.value < |s.clients|
    && (var c := s.clients[now.writer.value];
        c.id == id && c.payload.version == Some(was.value.version) && Follows(was.value, c.payload, now.value))
  }

  // No update is lost: of all the versions of a label each is the previous one updated by one client that was
  // told it succeeded, and a client that was told so wrote one of them.
  lemma NoUpdateIsLost(s: Sys, steps: seq<Step>)
    requires Starting(s) && CanRun(s, steps)
    ensures var t := After(s, steps);
            && t.history.Keys == t.rows.Keys
            && (forall id :: id in t.history ==> ChainOk(t, id))
            && (forall id, k :: id in t.history && 0 < k < |t.history[id]| ==> MadeFromBefore(t, id, k))
            && (forall c :: 0 <= c < |t.clients| && t.clients[c].phase.Finished? && t.clients[c].phase.result.Ok? ==>
                  var l := t.clients[c].phase.result.value;
                  && t.clients[c].id in t.history && l.version < |t.history[t.clients[c].id]|
                  && t.history[t.clients[c].id][l.version] == Entry(l, Some(c)))
  {
    RunKeepsInv(s, steps);
    var t := After(s, steps);
    forall id, k | id in t.history && 0 < k < |t.history[id]|
      ensures MadeFromBefore(t, id, k)
    {
      assert ChainOk(t, id) && LinkOk(t, id, k);
    }
    forall c | 0 <= c < |t.clients| && t.clients[c].phase.Finished? && t.clients[c].phase.result.Ok?
      ensures var l := t.clients[c].phase.result.value;
              && t.clients[c].id in t.history && l.version < |t.history[t.clients[c].id]|
              && t.history[t.clients[c].id][l.version] == Entry(l, Some(c))
    {
      assert ClientOk(t, c);
    }
  }

  // Of all the clients that were shown the same version of a label, at most one succeeds.
  lemma OneWinnerPerVersion(s: Sys, steps: seq<Step>, c: nat, d: nat)
    requires Starting(s) && CanRun(s, steps)
    requires var t := After(s, steps);
             && c < |t.clients| && d < |t.clients|
             && t.clients[c].phase.Finished? && t.clients[c].phase.result.Ok?
             && t.clients[d].phase.Finished? && t.clients[d].phase.result.Ok?
             && t.clients[c].id == t.clients[d].id
             && t.clients[c].payload.version == t.clients[d].payload.version
    ensures c == d
  {
    RunKeepsInv(s, steps);
    assert ClientOk(After(s, steps), c) && ClientOk(After(s, steps), d);
  }

  function TryStep(s: Sys, step: Step): Sys {
    if Enabled(s, step) then Next(s, step) else s
  }

  // The statements of one client in a row, as far as it gets.
  function Alone(s: Sys, c: nat): Sys {
    TryStep(TryStep(TryStep(TryStep(s, LoadAndCheck(c)), ReadAgain(c)), Write(c)), CommitIt(c))
  }

  predicate Undisturbed(s: Sys, c: nat) {
    && c < |s.clients| && s.clients[c].phase == Idle
    && forall d :: 0 <= d < |s.clients| ==> !s.clients[d].phase.Written?
  }

  lemma AloneFailsAtLoad(s: Sys, c: nat)
    requires Undisturbed(s, c)
    requires AfterLoad(s.rows, s.clients[c].id, s.clients[c].payload).Finished?
    ensures Alone(s, c) == At(s, c, AfterLoad(s.rows, s.clients[c].id, s.clients[c].payload))
  {
  }

  lemma AloneReachesWrite(s: Sys, c: nat)
    requires Inv(s) && Undisturbed(s, c)
    requires AfterLoad(s.rows, s.clients[c].id, s.clients[c].payload).Loaded?
    ensures s.clients[c].id in s.rows
    ensures var m := Merge(s.rows[s.clients[c].id], s.clients[c].payload);
            var t := TryStep(TryStep(s, LoadAndCheck(c)), ReadAgain(c));
            && t == At(s, c, Reread(m, m.version + 1))
            && Enabled(t, Write(c)) && GuardHolds(t, c)
  {
    var m := Merge(s.rows[s.clients[c].id], s.clients[c].payload);
    var t := TryStep(TryStep(s, LoadAndCheck(c)), ReadAgain(c));
    assert t.clients == s.clients[c := s.clients[c].(phase := Reread(m, m.version + 1))];
    assert !Locked(t, c, t.clients[c].id) && !NamePending(t, c, m);
  }

  // A client that is not disturbed does what the update of the repository does: it stores the same row, or fails
  // with the same error and stores nothing.
  lemma AloneIsSequential(s: Sys, c: nat)
    requires Inv(s) && Undisturbed(s, c)
    ensures var k, t := s.clients[c], Alone(s, c);
            var failure := UpdateFailure(s.rows, k.id, k.payload);
            if failure.Some? then t == At(s, c, Finished(Err(failure.value)))
            else
              && k.id in s.rows
              && (var l := Updated(s.rows[k.id], k.payload);
                  t.rows == s.rows[k.id := l] && t.clients == s.clients[c := k.(phase := Finished(Ok(l)))])
  {
    var k := s.clients[c];
    if AfterLoad(s.rows, k.id, k.payload).Finished? {
      AloneFailsAtLoad(s, c);
    } else {
      AloneReachesWrite(s, c);
      assert ChainOk(s, k.id);
    }
  }
}
