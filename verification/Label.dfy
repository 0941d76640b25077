/** label/label.go and the update action of controller/label.go, one request at a time. */
module Labels {
  import opened Prelude
  import opened Paths

  datatype Label = Label(id: Uuid, spaceId: Uuid, name: string, textColor: string, backgroundColor: string,
                         borderColor: string, version: nat)

  // The attributes of an update request; absent ones are None.
  datatype Payload = Payload(version: Option<int>, name: Option<string>, textColor: Option<string>,
                             backgroundColor: Option<string>, borderColor: Option<string>)

  datatype Error = NotFound | BadParameter | VersionConflict | DataConflict | Internal | Timeout

  type Rows = map<Uuid, Label>

  // The white space characters of Unicode, as strings.TrimSpace takes them.
  predicate IsSpace(c: char) {
    || '\t' <= c <= '\r'
    || c in {' ', '\U{0085}', '\U{00A0}', '\U{1680}', '\U{2028}', '\U{2029}', '\U{202F}', '\U{205F}', '\U{3000}'}
    || '\U{2000}' <= c <= '\U{200A}'
  }

  function TrimLeft(s: string): string {
    if s != [] && IsSpace(s[0]) then TrimLeft(s[1..]) else s
  }

  function TrimRight(s: string): string {
    if s != [] && IsSpace(s[|s| - 1]) then TrimRight(s[..|s| - 1]) else s
  }

  function TrimSpace(s: string): string {
    TrimRight(TrimLeft(s))
  }

  predicate Trimmed(s: string) {
    s != [] ==> !IsSpace(s[0]) && !IsSpace(s[|s| - 1])
  }

  lemma {:induction false} TrimLeftStrips(s: string)
    ensures TrimLeft(s) != [] ==> !IsSpace(TrimLeft(s)[0])
    ensures TrimLeft(s) == [] <==> forall c :: c in s ==> IsSpace(c)
  {
    if s != [] && IsSpace(s[0]) {
      TrimLeftStrips(s[1..]);
      assert s == [s[0]] + s[1..];
    }
  }

  lemma {:induction false} TrimRightStrips(s: string)
    ensures TrimRight(s) <= s
    ensures TrimRight(s) != [] ==> !IsSpace(TrimRight(s)[|TrimRight(s)| - 1])
    ensures TrimRight(s) == [] <==> forall c :: c in s ==> IsSpace(c)
  {
    if s != [] && IsSpace(s[|s| - 1]) {
      TrimRightStrips(s[..|s| - 1]);
      assert s == s[..|s| - 1] + [s[|s| - 1]];
    }
  }

  // Trimming leaves no space at either end, leaves nothing exactly of a blank string, and is done once for all.
  lemma TrimSpaceStrips(s: string)
    ensures Trimmed(TrimSpace(s))
    ensures TrimSpace(s) == "" <==> forall c :: c in s ==> IsSpace(c)
    ensures TrimSpace(TrimSpace(s)) == TrimSpace(s)
  {
    TrimLeftStrips(s);
    TrimRightStrips(TrimLeft(s));
    TrimLeftAllSpace(s);
  }

  lemma {:induction false} TrimLeftAllSpace(s: string)
    ensures (forall c :: c in TrimLeft(s) ==> IsSpace(c)) <==> (forall c :: c in s ==> IsSpace(c))
  {
    if s != [] && IsSpace(s[0]) {
      TrimLeftAllSpace(s[1..]);
      assert s == [s[0]] + s[1..];
    }
  }

  // Trimming takes away white space from both ends and nothing else.
  lemma {:induction false} TrimLeftIsRest(s: string) returns (a: string)
    ensures s == a + TrimLeft(s) && forall c :: c in a ==> IsSpace(c)
  {
    a := "";
    if s != [] && IsSpace(s[0]) {
      a := TrimLeftIsRest(s[1..]);
      a := [s[0]] + a;
    }
  }

  lemma {:induction false} TrimRightIsRest(s: string) returns (b: string)
    ensures s == TrimRight(s) + b && forall c :: c in b ==> IsSpace(c)
  {
    b := "";
    if s != [] && IsSpace(s[|s| - 1]) {
      b := TrimRightIsRest(s[..|s| - 1]);
      b := b + [s[|s| - 1]];
    }
  }

  lemma TrimSpaceIsMiddle(s: string) returns (a: string, b: string)
    ensures s == a + TrimSpace(s) + b
    ensures forall c :: c in a || c in b ==> IsSpace(c)
  {
    a := TrimLeftIsRest(s);
    b := TrimRightIsRest(TrimLeft(s));
    assert a + (TrimSpace(s) + b) == a + TrimSpace(s) + b;
  }

  // The merge of the fields a payload gives into a label.
  function Merge(l: Label, p: Payload): Label {
    l.(name := if p.name.Some? then TrimSpace(p.name.value) else l.name,
       textColor := if p.textColor.Some? then p.textColor.value else l.textColor,
       backgroundColor := if p.backgroundColor.Some? then p.backgroundColor.value else l.backgroundColor,
       borderColor := if p.borderColor.Some? then p.borderColor.value else l.borderColor)
  }

  predicate SameKey(a: Label, b: Label) {
    a.name == b.name && a.spaceId == b.spaceId
  }

  // Whether storing `l` violates the unique index on name and space.
  predicate Collides(rows: Rows, l: Label) {
    exists y :: y in rows && y != l.id && SameKey(rows[y], l)
  }

  predicate RowsOk(rows: Rows) {
    && (forall x :: x in rows ==> rows[x].id == x && TrimSpace(rows[x].name) != "")
    && (forall x, y {:trigger SameKey(rows[x], rows[y])} :: x in rows && y in rows && x != y ==> !SameKey(rows[x], rows[y]))
  }

  // What an update amounts to when it runs alone.
  function UpdateFailure(rows: Rows, id: Uuid, p: Payload): Option<Error> {
    if p.version.None? then Some(BadParameter)
    else if id !in rows then Some(NotFound)
    else if rows[id].version != p.version.value then Some(VersionConflict)
    else if TrimSpace(Merge(rows[id], p).name) == "" then Some(BadParameter)
    else if Collides(rows, Merge(rows[id], p)) then Some(DataConflict)
    else None
  }

  function Updated(l: Label, p: Payload): Label {
    Merge(l, p).(version := l.version + 1)
  }

  // A field the payload gives is stored, one it does not give stays.
  predicate Follows(was: Label, p: Payload, now: Label) {
    && now.id == was.id && now.spaceId == was.spaceId && now.version == was.version + 1
    && (p.name.Some? ==> now.name == TrimSpace(p.name.value)) && (p.name.None? ==> now.name == was.name)
    && (p.textColor.Some? ==> now.textColor == p.textColor.value) && (p.textColor.None? ==> now.textColor == was.textColor)
    && (p.backgroundColor.Some? ==> now.backgroundColor == p.backgroundColor.value)
    && (p.backgroundColor.None? ==> now.backgroundColor == was.backgroundColor)
    && (p.borderColor.Some? ==> now.borderColor == p.borderColor.value)
    && (p.borderColor.None? ==> now.borderColor == was.borderColor)
  }

  lemma UpdatedFollows(l: Label, p: Payload)
    ensures Follows(l, p, Updated(l, p))
  {
  }

  // Another label of the space has the name.
  predicate NameTaken(rows: Rows, id: Uuid, name: string) {
    id in rows && exists y :: y in rows && y != id && rows[y].spaceId == rows[id].spaceId && rows[y].name == name
  }

  predicate VersionFits(rows: Rows, id: Uuid, p: Payload) {
    p.version.Some? && id in rows && p.version.value == rows[id].version
  }

  function NameAfter(rows: Rows, id: Uuid, p: Payload): string {
    if p.name.Some? then TrimSpace(p.name.value) else if id in rows then rows[id].name else ""
  }

  // When an update is accepted, and what each error means.
  lemma UpdateFailureIff(rows: Rows, id: Uuid, p: Payload)
    requires RowsOk(rows)
    ensures var failure, name := UpdateFailure(rows, id, p), NameAfter(rows, id, p);
            && (failure == None <==> VersionFits(rows, id, p) && TrimSpace(name) != "" && !NameTaken(rows, id, name))
            && (failure == Some(NotFound) <==> p.version.Some? && id !in rows)
            && (failure == Some(VersionConflict) <==> p.version.Some? && id in rows && p.version.value != rows[id].version)
            && (failure == Some(BadParameter) <==> p.version.None? || (VersionFits(rows, id, p) && TrimSpace(name) == ""))
            && (failure == Some(DataConflict) <==>
                  VersionFits(rows, id, p) && TrimSpace(name) != "" && NameTaken(rows, id, name))
  {
    if id in rows {
      var m := Merge(rows[id], p);
      assert forall y :: y in rows ==> SameKey(rows[y], m) == (rows[y].spaceId == rows[id].spaceId && rows[y].name == m.name);
    }
  }

  lemma UpdateKeepsRowsOk(rows: Rows, id: Uuid, p: Payload)
    requires RowsOk(rows) && UpdateFailure(rows, id, p).None?
    ensures id in rows && RowsOk(rows[id := Updated(rows[id], p)])
  {
    var l := Updated(rows[id], p);
    forall y | y in rows && y != id
      ensures !SameKey(rows[y], l) && !SameKey(l, rows[y])
    {
      assert !SameKey(rows[y], Merge(rows[id], p));
    }
  }

  // The given fields are assigned one after the other.
  method Assign(l: Label, p: Payload) returns (lbl: Label)
    ensures lbl == Merge(l, p)
  {
    lbl := l;
    if p.name.Some? {
      lbl := lbl.(name := TrimSpace(p.name.value));
    }
    if p.textColor.Some? {
      lbl := lbl.(textColor := p.textColor.value);
    }
    if p.backgroundColor.Some? {
      lbl := lbl.(backgroundColor := p.backgroundColor.value);
    }
    if p.borderColor.Some? {
      lbl := lbl.(borderColor := p.borderColor.value);
    }
  }

  class Repository {
    var rows: Rows

    constructor ()
      ensures rows == map[]
    {
      rows := map[];
    }

    method Create(l: Label, uuid: FreshUuid) returns (r: Result<Label, Error>)
      requires RowsOk(rows)
      modifies this
      ensures RowsOk(rows)
      ensures r == old(if TrimSpace(l.name) == "" then Err(BadParameter)
                       else if uuid in rows then Err(Internal)
                       else if Collides(rows, l.(id := uuid)) then Err(DataConflict)
                       else Ok(l.(id := uuid)))
      ensures rows == if r.Ok? then old(rows)[uuid := l.(id := uuid)] else old(rows)
    {
      var u := l.(id := uuid);
      if TrimSpace(u.name) == "" {
        return Err(BadParameter);
      }
      if uuid in rows {
        return Err(Internal);
      }
      if Collides(rows, u) {
        return Err(DataConflict);
      }
      rows := rows[uuid := u];
      return Ok(u);
    }

    method Load(id: Uuid) returns (r: Result<Label, Error>)
      ensures r == if id in rows then Ok(rows[id]) else Err(NotFound)
    {
      if id !in rows {
        return Err(NotFound);
      }
      return Ok(rows[id]);
    }

    // The version of the row is read again, raised by one, and written under the version that was passed in.
    method Save(l: Label) returns (r: Result<Label, Error>)
      modifies this
      ensures r == old(if TrimSpace(l.name) == "" then Err(BadParameter)
                       else if l.id !in rows then Err(NotFound)
                       else if rows[l.id].version != l.version then Err(VersionConflict)
                       else if Collides(rows, l) then Err(DataConflict)
                       else Ok(l.(version := l.version + 1)))
      ensures rows == if r.Ok? then old(rows)[l.id := r.value] else old(rows)
    {
      if TrimSpace(l.name) == "" {
        return Err(BadParameter);
      }
      if l.id !in rows {
        return Err(NotFound);
      }
      var lbl := rows[l.id];
      var oldVersion := l.version;
      var saved := l.(version := lbl.version + 1);
      assert Collides(rows, saved) <==> Collides(rows, l) by {
        assert forall y :: y in rows ==> SameKey(rows[y], saved) == SameKey(rows[y], l);
      }
      if rows[l.id].version != oldVersion {
        return Err(VersionConflict);
      }
      if Collides(rows, saved) {
        return Err(DataConflict);
      }
      rows := rows[l.id := saved];
      return Ok(saved);
    }

    method Update(id: Uuid, p: Payload) returns (r: Result<Label, Error>)
      requires RowsOk(rows)
      modifies this
      ensures RowsOk(rows)
      ensures r == old(var failure := UpdateFailure(rows, id, p);
                       if failure.Some? then Err(failure.value) else Ok(Updated(rows[id], p)))
      ensures rows == if r.Ok? then old(rows)[id := r.value] else old(rows)
      ensures r.Ok? ==> id in old(rows) && Follows(old(rows)[id], p, r.value)
    {
      if p.version.None? {
        return Err(BadParameter);
      }
      var loaded := Load(id);
      if loaded.Err? {
        return loaded;
      }
      var lbl := loaded.value;
      if lbl.version != p.version.value {
        return Err(VersionConflict);
      }
      lbl := Assign(lbl, p);
      ghost var before := rows;
      r := Save(lbl);
      if r.Ok? {
        UpdateKeepsRowsOk(before, id, p);
      }
    }
  }
}
