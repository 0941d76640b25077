/**
 controller/workitem.go: the loop over the attributes of an update payload. A Go map is visited in any
 order; whether the loop succeeds, and the fields it leaves behind, do not depend on that order.
 */
module Attributes {
  import opened Prelude

  const DESCRIPTION := "system.description"
  const DESCRIPTION_MARKUP := "system.description.markup"
  const CODEBASE := "system.codebase"
  const CONTENT_KEY := "content"
  const MARKUP_KEY := "markup"
  const MARKUP_PLAIN := "PlainText"
  const MARKUP_MARKDOWN := "Markdown"

  // A dynamically typed value; `Other` stands for all types the loop does not tell apart.
  datatype Value =
    | Nil
    | Str(s: string)
    | Markup(content: string, markup: string)
    | Obj(entries: map<string, Value>)
    | Other(tag: int)

  type Fields = map<string, Value>

  // How a value becomes the codebase that is stored, or fails to.
  type CodebaseOf = Value -> Option<Value>

  predicate MarkupSupported(markup: string) {
    markup == MARKUP_PLAIN || markup == MARKUP_MARKDOWN
  }

  // ---- rendering/markup_content.go ----

  datatype Converted = Panics | Ignored | Content(content: string, markup: string)

  function FromMap(m: map<string, Value>): Converted {
    if CONTENT_KEY !in m || !m[CONTENT_KEY].Str? then Panics
    else if MARKUP_KEY !in m then Content(m[CONTENT_KEY].s, MARKUP_PLAIN)
    else if !m[MARKUP_KEY].Str? then Panics
    else Content(m[CONTENT_KEY].s, if MarkupSupported(m[MARKUP_KEY].s) then m[MARKUP_KEY].s else MARKUP_PLAIN)
  }

  function FromValue(v: Value): Converted {
    match v
    case Nil => Ignored
    case Str(s) => Content(s, MARKUP_PLAIN)
    case Markup(c, m) => Content(c, m)
    case Obj(entries) => FromMap(entries)
    case Other(_) => Ignored
  }

  // ---- One turn of the loop ----

  function Stored(f: Fields, key: string): Value {
    if key in f then f[key] else Nil
  }

  // None when the turn fails, by an error or a failing type assertion.
  function Turn(f: Fields, key: string, v: Value, cb: CodebaseOf): Option<Fields> {
    if key == DESCRIPTION then
      match FromValue(v)
      case Panics => None
      case Ignored => Some(f)
      case Content(content, markup) =>
        (match Stored(f, DESCRIPTION)
         case Nil => Some(f[DESCRIPTION := Markup(content, markup)])
         case Markup(_, m) => Some(f[DESCRIPTION := Markup(content, m)])
         case _ => None)
    else if key == DESCRIPTION_MARKUP then
      if !v.Str? then None
      else
        match Stored(f, DESCRIPTION)
        case Nil => Some(f[DESCRIPTION := Markup("", v.s)])
        case Markup(c, _) => Some(f[DESCRIPTION := Markup(c, v.s)])
        case _ => None
    else if key == CODEBASE then
      match cb(v)
      case None => None
      case Some(w) => Some(f[key := w])
    else Some(f[key := v])
  }

  // ---- What the loop amounts to, without an order ----

  predicate EntryOk(target: Fields, key: string, v: Value, cb: CodebaseOf) {
    var d := Stored(target, DESCRIPTION);
    if key == DESCRIPTION then
      FromValue(v) != Panics && (FromValue(v).Content? ==> d.Nil? || d.Markup?)
    else if key == DESCRIPTION_MARKUP then v.Str? && (d.Nil? || d.Markup?)
    else if key == CODEBASE then cb(v).Some?
    else true
  }

  predicate AllOk(attrs: map<string, Value>, target: Fields, cb: CodebaseOf) {
    forall k :: k in attrs ==> EntryOk(target, k, attrs[k], cb)
  }

  function GivenContent(attrs: map<string, Value>): Converted {
    if DESCRIPTION in attrs then FromValue(attrs[DESCRIPTION]) else Ignored
  }

  predicate GivesMarkup(attrs: map<string, Value>) {
    DESCRIPTION_MARKUP in attrs && attrs[DESCRIPTION_MARKUP].Str?
  }

  // The description: content and markup each come from the payload if it gives them, else from the old
  // description, else from the default.
  function Description(attrs: map<string, Value>, target: Fields): Value {
    var was, given := Stored(target, DESCRIPTION), GivenContent(attrs);
    if !given.Content? && !GivesMarkup(attrs) then was
    else
      Markup(
        if given.Content? then given.content else if was.Markup? then was.content else "",
        if GivesMarkup(attrs) then attrs[DESCRIPTION_MARKUP].s
        else if was.Markup? then was.markup
        else given.markup)
  }

  predicate IsPlain(key: string) {
    key != DESCRIPTION && key != DESCRIPTION_MARKUP
  }

  function Stores(key: string, v: Value, cb: CodebaseOf): Value {
    if key != CODEBASE then v else match cb(v) case None => v case Some(w) => w
  }

  // The fields without the description taken into account.
  function PlainFields(attrs: map<string, Value>, target: Fields, cb: CodebaseOf): Fields {
    target + Plain(attrs, cb)
  }

  function Plain(attrs: map<string, Value>, cb: CodebaseOf): Fields {
    map k | k in attrs && IsPlain(k) :: Stores(k, attrs[k], cb)
  }

  function MergedFields(attrs: map<string, Value>, target: Fields, cb: CodebaseOf): Fields {
    var fields := PlainFields(attrs, target, cb);
    if GivenContent(attrs).Content? || GivesMarkup(attrs) then fields[DESCRIPTION := Description(attrs, target)] else fields
  }

  function Merged(attrs: map<string, Value>, target: Fields, cb: CodebaseOf): Option<Fields> {
    if AllOk(attrs, target, cb) then Some(MergedFields(attrs, target, cb)) else None
  }

  // ---- One more turn ----

  lemma AllOkExtends(done: map<string, Value>, target: Fields, k: string, v: Value, cb: CodebaseOf)
    requires k !in done && AllOk(done, target, cb)
    ensures AllOk(done[k := v], target, cb) <==> EntryOk(target, k, v, cb)
  {
    var more := done[k := v];
    assert k in more && more[k] == v;
  }

  lemma PlainUnchanged(done: map<string, Value>, k: string, v: Value, cb: CodebaseOf)
    requires k !in done && !IsPlain(k)
    ensures Plain(done[k := v], cb) == Plain(done, cb)
  {
  }

  lemma PlainGrows(done: map<string, Value>, k: string, v: Value, cb: CodebaseOf)
    requires k !in done && IsPlain(k)
    ensures Plain(done[k := v], cb) == Plain(done, cb)[k := Stores(k, v, cb)]
  {
  }

  lemma UpdateTwice(f: Fields, k: string, v: Value, w: Value)
    ensures f[k := v][k := w] == f[k := w]
  {
  }

  lemma UpdatesCommute(f: Fields, j: string, v: Value, k: string, w: Value)
    requires j != k
    ensures f[j := v][k := w] == f[k := w][j := v]
  {
  }

  lemma TurnOnDescription(done: map<string, Value>, target: Fields, v: Value, cb: CodebaseOf)
    requires DESCRIPTION !in done
    requires Stored(target, DESCRIPTION).Nil? || Stored(target, DESCRIPTION).Markup? || FromValue(v).Ignored?
    requires !FromValue(v).Panics?
    ensures Turn(MergedFields(done, target, cb), DESCRIPTION, v, cb) == Some(MergedFields(done[DESCRIPTION := v], target, cb))
  {
    var more := done[DESCRIPTION := v];
    DescriptionSoFar(done, target, cb);
    PlainUnchanged(done, DESCRIPTION, v, cb);
    assert GivesMarkup(more) == GivesMarkup(done) && GivenContent(more) == FromValue(v);
    UpdateTwice(PlainFields(done, target, cb), DESCRIPTION, Description(done, target), Description(more, target));
  }

  lemma TurnOnMarkup(done: map<string, Value>, target: Fields, v: Value, cb: CodebaseOf)
    requires DESCRIPTION_MARKUP !in done && v.Str?
    requires Stored(target, DESCRIPTION).Nil? || Stored(target, DESCRIPTION).Markup?
    ensures Turn(MergedFields(done, target, cb), DESCRIPTION_MARKUP, v, cb)
         == Some(MergedFields(done[DESCRIPTION_MARKUP := v], target, cb))
  {
    var more := done[DESCRIPTION_MARKUP := v];
    DescriptionSoFar(done, target, cb);
    PlainUnchanged(done, DESCRIPTION_MARKUP, v, cb);
    assert GivenContent(more) == GivenContent(done) && GivesMarkup(more);
    UpdateTwice(PlainFields(done, target, cb), DESCRIPTION, Description(done, target), Description(more, target));
  }

  lemma TurnOnPlain(done: map<string, Value>, target: Fields, k: string, v: Value, cb: CodebaseOf)
    requires k !in done && IsPlain(k) && (k == CODEBASE ==> cb(v).Some?)
    ensures Turn(MergedFields(done, target, cb), k, v, cb) == Some(MergedFields(done[k := v], target, cb))
  {
    var more := done[k := v];
    PlainGrows(done, k, v, cb);
    var w := Stores(k, v, cb);
    assert target + Plain(done, cb)[k := w] == (target + Plain(done, cb))[k := w];
    assert GivenContent(more) == GivenContent(done) && GivesMarkup(more) == GivesMarkup(done);
    UpdatesCommute(PlainFields(done, target, cb), k, w, DESCRIPTION, Description(done, target));
  }

  lemma BadTurnFails(done: map<string, Value>, target: Fields, k: string, v: Value, cb: CodebaseOf)
    requires k !in done && AllOk(done, target, cb) && !EntryOk(target, k, v, cb)
    ensures Turn(MergedFields(done, target, cb), k, v, cb).None?
  {
    DescriptionSoFar(done, target, cb);
    assert DESCRIPTION in done ==> EntryOk(target, DESCRIPTION, done[DESCRIPTION], cb);
    assert DESCRIPTION_MARKUP in done ==> EntryOk(target, DESCRIPTION_MARKUP, done[DESCRIPTION_MARKUP], cb);
  }

  lemma TurnExtends(done: map<string, Value>, target: Fields, k: string, v: Value, cb: CodebaseOf)
    requires k !in done && AllOk(done, target, cb)
    ensures Merged(done[k := v], target, cb) == Turn(MergedFields(done, target, cb), k, v, cb)
  {
    AllOkExtends(done, target, k, v, cb);
    if EntryOk(target, k, v, cb) {
      if k == DESCRIPTION {
        TurnOnDescription(done, target, v, cb);
      } else if k == DESCRIPTION_MARKUP {
        TurnOnMarkup(done, target, v, cb);
      } else {
        TurnOnPlain(done, target, k, v, cb);
      }
    } else {
      BadTurnFails(done, target, k, v, cb);
    }
  }

  lemma DescriptionSoFar(done: map<string, Value>, target: Fields, cb: CodebaseOf)
    ensures Stored(MergedFields(done, target, cb), DESCRIPTION) == Description(done, target)
  {
  }

  // The loop as a list of turns.
  function Turns(keys: seq<string>, attrs: map<string, Value>, f: Fields, cb: CodebaseOf): Option<Fields>
    requires Elements(keys) <= attrs.Keys
  {
    if keys == [] then Some(f)
    else
      assert keys[0] in Elements(keys);
      assert Elements(keys[1..]) <= Elements(keys);
      match Turn(f, keys[0], attrs[keys[0]], cb)
      case None => None
      case Some(g) => Turns(keys[1..], attrs, g, cb)
  }

  lemma {:induction false} TurnsMerge(keys: seq<string>, attrs: map<string, Value>, done: map<string, Value>,
                                      target: Fields, cb: CodebaseOf)
    requires NoRepeats(keys) && Elements(keys) <= attrs.Keys && done.Keys == attrs.Keys - Elements(keys)
    requires forall k :: k in done ==> done[k] == attrs[k]
    requires AllOk(done, target, cb)
    ensures Turns(keys, attrs, MergedFields(done, target, cb), cb) == Merged(attrs, target, cb)
  {
    if keys == [] {
      assert done == attrs;
    } else {
      var k := keys[0];
      assert k in Elements(keys);
      assert k !in Elements(keys[1..]);
      assert Elements(keys) == {k} + Elements(keys[1..]);
      TurnExtends(done, target, k, attrs[k], cb);
      var more := done[k := attrs[k]];
      if AllOk(more, target, cb) {
        TurnsMerge(keys[1..], attrs, more, target, cb);
      } else {
        assert !AllOk(attrs, target, cb) by {
          assert exists j :: j in more && !EntryOk(target, j, more[j], cb);
        }
      }
    }
  }

  // The loop, with the keys in whatever order they are handed out.
  method MergeAttributes(attrs: map<string, Value>, target: Fields, cb: CodebaseOf) returns (r: Option<Fields>)
    ensures r == Merged(attrs, target, cb)
  {
    var keys := InSomeOrder(attrs.Keys);
    assert MergedFields(map[], target, cb) == target;
    TurnsMerge(keys, attrs, map[], target, cb);
    var fields := target;
    var i := 0;
    assert keys[0..] == keys;
    while i < |keys|
      invariant i <= |keys|
      invariant Elements(keys[i..]) <= attrs.Keys
      invariant Turns(keys[i..], attrs, fields, cb) == Merged(attrs, target, cb)
    {
      var k := keys[i];
      assert k in Elements(keys[i..]);
      assert keys[i..][1..] == keys[i + 1..];
      var next := Turn(fields, k, attrs[k], cb);
      if next.None? {
        return None;
      }
      fields := next.value;
      i := i + 1;
      assert Elements(keys[i..]) <= Elements(keys);
    }
    return Some(fields);
  }

  predicate DescriptionOk(d: Value) {
    d.Markup? ==> MarkupSupported(d.markup)
  }

  // The loop and the check of the markup behind it.
  method ConvertAttributes(attrs: map<string, Value>, target: Fields, cb: CodebaseOf) returns (r: Option<Fields>)
    ensures r.Some? <==> AllOk(attrs, target, cb) && DescriptionOk(Description(attrs, target))
    ensures r.Some? && Stored(r.value, DESCRIPTION).Markup? ==>
              Stored(r.value, DESCRIPTION).markup == "PlainText" || Stored(r.value, DESCRIPTION).markup == "Markdown"
    ensures r.None? && AllOk(attrs, target, cb) ==>
              var d := Stored(MergedFields(attrs, target, cb), DESCRIPTION);
              d.Markup? && d.markup != "PlainText" && d.markup != "Markdown"
    ensures r.Some? ==> r.value == MergedFields(attrs, target, cb)
  {
    r := MergeAttributes(attrs, target, cb);
    DescriptionSoFar(attrs, target, cb);
    if r.Some? {
      var d := Stored(r.value, DESCRIPTION);
      if d.Markup? && !MarkupSupported(d.markup) {
        return None;
      }
    }
  }

  // Any two orders of the payload lead to the same fields, or both to a failure.
  lemma OrderDoesNotMatter(a: seq<string>, b: seq<string>, attrs: map<string, Value>, target: Fields, cb: CodebaseOf)
    requires NoRepeats(a) && Elements(a) == attrs.Keys && NoRepeats(b) && Elements(b) == attrs.Keys
    ensures Turns(a, attrs, target, cb) == Turns(b, attrs, target, cb)
  {
    assert MergedFields(map[], target, cb) == target;
    TurnsMerge(a, attrs, map[], target, cb);
    TurnsMerge(b, attrs, map[], target, cb);
  }

  // After a successful loop a description is always marked-up text if the payload touched it, both given
  // parts are the ones stored, and all other fields are the payload's or the old ones.
  lemma MergeEffect(attrs: map<string, Value>, target: Fields, cb: CodebaseOf, key: string)
    requires AllOk(attrs, target, cb)
    ensures var f := MergedFields(attrs, target, cb);
            && (GivesMarkup(attrs) ==> Stored(f, DESCRIPTION).Markup? && f[DESCRIPTION].markup == attrs[DESCRIPTION_MARKUP].s)
            && (GivenContent(attrs).Content? ==>
                  Stored(f, DESCRIPTION).Markup? && f[DESCRIPTION].content == GivenContent(attrs).content)
            && (IsPlain(key) && key !in attrs ==> Stored(f, key) == Stored(target, key) && (key in f <==> key in target))
            && (IsPlain(key) && key != CODEBASE && key in attrs ==> key in f && f[key] == attrs[key])
            && (CODEBASE in attrs ==> CODEBASE in f && cb(attrs[CODEBASE]) == Some(f[CODEBASE]))
  {
    assert CODEBASE in attrs ==> EntryOk(target, CODEBASE, attrs[CODEBASE], cb);
  }

  // ---- What comes out, told of the values in the payload ----

  // The value given for the description is one that has a content.
  predicate HasContent(v: Value) {
    v.Str? || v.Markup? || (v.Obj? && "content" in v.entries && v.entries["content"].Str?)
  }

  function ContentIn(v: Value): string {
    match v
    case Str(s) => s
    case Markup(content, _) => content
    case Obj(entries) => if "content" in entries && entries["content"].Str? then entries["content"].s else ""
    case _ => ""
  }

  // The markup that comes with a description; plain text where there is none or none that is supported.
  function MarkupIn(v: Value): string {
    match v
    case Markup(_, markup) => markup
    case Obj(entries) =>
      if "markup" in entries && (entries["markup"] == Str("PlainText") || entries["markup"] == Str("Markdown"))
      then entries["markup"].s else "PlainText"
    case _ => "PlainText"
  }

  // The loop fails exactly for an object that is no description, a markup that is no text, a description on top of
  // something else, and a codebase that cannot be made.
  lemma AllOkIff(attrs: map<string, Value>, target: Fields, cb: CodebaseOf)
    ensures var was := Stored(target, DESCRIPTION);
            AllOk(attrs, target, cb) <==>
              && (DESCRIPTION in attrs && attrs[DESCRIPTION].Obj? ==>
                    && HasContent(attrs[DESCRIPTION])
                    && ("markup" in attrs[DESCRIPTION].entries ==> attrs[DESCRIPTION].entries["markup"].Str?))
              && (DESCRIPTION_MARKUP in attrs ==> attrs[DESCRIPTION_MARKUP].Str?)
              && ((DESCRIPTION in attrs && HasContent(attrs[DESCRIPTION])) || DESCRIPTION_MARKUP in attrs ==> was.Nil? || was.Markup?)
              && (CODEBASE in attrs ==> cb(attrs[CODEBASE]).Some?)
  {
    if AllOk(attrs, target, cb) {
      assert DESCRIPTION in attrs ==> EntryOk(target, DESCRIPTION, attrs[DESCRIPTION], cb);
      assert DESCRIPTION_MARKUP in attrs ==> EntryOk(target, DESCRIPTION_MARKUP, attrs[DESCRIPTION_MARKUP], cb);
      assert CODEBASE in attrs ==> EntryOk(target, CODEBASE, attrs[CODEBASE], cb);
    }
  }

  // Content and markup of the description each come from the payload if it has them, or else from the description
  // there was, or else they are empty and the markup that came with the content.
  lemma DescriptionMeans(attrs: map<string, Value>, target: Fields, cb: CodebaseOf)
    requires AllOk(attrs, target, cb)
    ensures var was, now := Stored(target, DESCRIPTION), Stored(MergedFields(attrs, target, cb), DESCRIPTION);
            var given := DESCRIPTION in attrs && HasContent(attrs[DESCRIPTION]);
            if !given && DESCRIPTION_MARKUP !in attrs then now == was
            else
              && now.Markup?
              && now.content == (if given then ContentIn(attrs[DESCRIPTION]) else if was.Markup? then was.content else "")
              && (DESCRIPTION_MARKUP in attrs ==> attrs[DESCRIPTION_MARKUP] == Str(now.markup))
              && (DESCRIPTION_MARKUP !in attrs ==> now.markup == if was.Markup? then was.markup else MarkupIn(attrs[DESCRIPTION]))
  {
    AllOkIff(attrs, target, cb);
    DescriptionSoFar(attrs, target, cb);
  }
}
