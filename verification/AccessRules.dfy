/**
 kubernetes/deployments_access.go, the index: the rules of a SelfSubjectRulesReview are turned into a map from
 resource to verbs, and requests are answered from the map instead of from the rules.
 */
module AccessRules {
  import opened Prelude

  datatype Json = JString(text: string) | JArray(items: seq<Json>) | JObject(fields: map<string, Json>) | JOther

  type JsonObject = map<string, Json>

  datatype Resource = Resource(apiGroup: string, resourceType: string)

  type Index = map<Resource, set<string>>

  datatype Access = Access(resource: Resource, verbs: seq<string>)

  datatype Error = UnknownEnvironment | ReviewFailed | StatusMissing | RulesMissing | RuleNotObject

  type Review = Result<JsonObject, Error>

  const WILDCARD := "*"
  const ALL := Resource(WILDCARD, WILDCARD)

  // ---- Reading a rule ----

  function ItemsOf(o: JsonObject, name: string): seq<Json> {
    if name in o && o[name].JArray? then o[name].items else []
  }

  // An item that is no string counts as the empty one.
  function TextOf(j: Json): string {
    if j.JString? then j.text else ""
  }

  function Texts(items: seq<Json>): seq<string> {
    seq(|items|, i requires 0 <= i < |items| => TextOf(items[i]))
  }

  predicate Qualified(rule: JsonObject) {
    ItemsOf(rule, "resourceNames") != [] || ItemsOf(rule, "nonResourceURLs") != []
  }

  function Groups(rule: JsonObject): seq<string> {
    Texts(ItemsOf(rule, "apiGroups"))
  }

  function Resources(rule: JsonObject): seq<string> {
    Texts(ItemsOf(rule, "resources"))
  }

  function Verbs(rule: JsonObject): set<string> {
    Elements(Texts(ItemsOf(rule, "verbs")))
  }

  // The rule is not restricted to single objects and names exactly this resource, wildcards taken literally.
  predicate Names(rule: JsonObject, key: Resource) {
    && !Qualified(rule)
    && key.resourceType in Resources(rule)
    && (if Groups(rule) == [] then key.apiGroup == "" else key.apiGroup in Groups(rule))
  }

  method GetStringSlice(o: JsonObject, name: string) returns (r: seq<string>)
    ensures r == Texts(ItemsOf(o, name))
  {
    r := [];
    var items := ItemsOf(o, name);
    var i := 0;
    while i < |items|
      invariant i <= |items| && r == Texts(items[..i])
    {
      r := r + [TextOf(items[i])];
      i := i + 1;
    }
    assert items[..i] == items;
  }

  method GetStringSet(o: JsonObject, name: string) returns (r: set<string>)
    ensures r == Elements(Texts(ItemsOf(o, name)))
  {
    r := {};
    var items := ItemsOf(o, name);
    var i := 0;
    while i < |items|
      invariant i <= |items| && r == Elements(Texts(items[..i]))
    {
      assert Texts(items[..i + 1]) == Texts(items[..i]) + [TextOf(items[i])];
      ElementsAppend(Texts(items[..i]), TextOf(items[i]));
      r := r + {TextOf(items[i])};
      i := i + 1;
    }
    assert items[..i] == items;
  }

  lemma ElementsAppend(s: seq<string>, x: string)
    ensures Elements(s + [x]) == Elements(s) + {x}
  {
  }

  predicate IsArray(rule: JsonObject, name: string) {
    name in rule && rule[name].JArray?
  }

  // The array has an item with this text, or one that is no text, which counts as empty.
  predicate Lists(rule: JsonObject, name: string, text: string) {
    IsArray(rule, name) && exists i :: 0 <= i < |rule[name].items|
                                       && (rule[name].items[i] == JString(text) || (!rule[name].items[i].JString? && text == ""))
  }

  predicate NonEmpty(rule: JsonObject, name: string) {
    IsArray(rule, name) && rule[name].items != []
  }

  lemma TextListed(rule: JsonObject, name: string, text: string)
    ensures text in Texts(ItemsOf(rule, name)) <==> Lists(rule, name, text)
  {
    var items := ItemsOf(rule, name);
    assert forall i :: 0 <= i < |items| ==> Texts(items)[i] == TextOf(items[i]);
  }

  // What a rule names and grants, told of its JSON.
  lemma NamesIff(rule: JsonObject, key: Resource)
    ensures Names(rule, key) <==>
            && !NonEmpty(rule, "resourceNames") && !NonEmpty(rule, "nonResourceURLs")
            && Lists(rule, "resources", key.resourceType)
            && (if NonEmpty(rule, "apiGroups") then Lists(rule, "apiGroups", key.apiGroup) else key.apiGroup == "")
    ensures forall verb :: verb in Verbs(rule) <==> Lists(rule, "verbs", verb)
  {
    TextListed(rule, "resources", key.resourceType);
    TextListed(rule, "apiGroups", key.apiGroup);
    forall verb
      ensures verb in Verbs(rule) <==> Lists(rule, "verbs", verb)
    {
      TextListed(rule, "verbs", verb);
    }
    assert |Groups(rule)| == |ItemsOf(rule, "apiGroups")|;
  }

  // ---- Building the index ----

  function Lookup(index: Index, key: Resource): set<string> {
    if key in index then index[key] else {}
  }

  // What one rule does to the index: every resource it names gets the rule's verbs, whatever was there before.
  ghost predicate Processed(before: Index, rule: JsonObject, after: Index) {
    && (forall k :: k in after <==> k in before || Names(rule, k))
    && (forall k :: k in after ==> after[k] == if Names(rule, k) then Verbs(rule) else Lookup(before, k))
  }

  class RuleIndex {
    var entries: Index

    constructor ()
      ensures entries == map[]
    {
      entries := map[];
    }

    method ProcessRule(rule: JsonObject)
      modifies this
      ensures Processed(old(entries), rule, entries)
    {
      if |ItemsOf(rule, "resourceNames")| > 0 {
        return;
      }
      if |ItemsOf(rule, "nonResourceURLs")| > 0 {
        return;
      }
      var verbs := GetStringSet(rule, "verbs");
      var groups := GetStringSlice(rule, "apiGroups");
      var resources := GetStringSlice(rule, "resources");
      var i := 0;
      while i < |resources|
        invariant i <= |resources|
        invariant forall k :: k in entries <==> k in old(entries) || Covered(k, resources[..i], groups)
        invariant forall k :: k in entries ==> entries[k] == if Covered(k, resources[..i], groups) then verbs else Lookup(old(entries), k)
      {
        AddResource(resources[i], groups, verbs);
        assert resources[..i + 1] == resources[..i] + [resources[i]];
        i := i + 1;
      }
      assert resources[..i] == resources;
      assert forall k :: Covered(k, resources, groups) <==> Names(rule, k);
    }

    method AddResource(resource: string, groups: seq<string>, verbs: set<string>)
      modifies this
      ensures forall k :: k in entries <==> k in old(entries) || Covered(k, [resource], groups)
      ensures forall k :: k in entries ==> entries[k] == if Covered(k, [resource], groups) then verbs else Lookup(old(entries), k)
    {
      if |groups| == 0 {
        entries := entries[Resource("", resource) := verbs];
        return;
      }
      var i := 0;
      while i < |groups|
        invariant i <= |groups|
        invariant forall k :: k in entries <==> k in old(entries) || (k.resourceType == resource && k.apiGroup in groups[..i])
        invariant forall k :: k in entries ==>
                    entries[k] == if k.resourceType == resource && k.apiGroup in groups[..i] then verbs else Lookup(old(entries), k)
      {
        entries := entries[Resource(groups[i], resource) := verbs];
        assert groups[..i + 1] == groups[..i] + [groups[i]];
        i := i + 1;
      }
      assert groups[..i] == groups;
    }
  }

  predicate Covered(k: Resource, resources: seq<string>, groups: seq<string>) {
    k.resourceType in resources && (if groups == [] then k.apiGroup == "" else k.apiGroup in groups)
  }

  // ---- The index of a list of rules ----

  // The last rule that names the resource, if there is one.
  function LastNaming(rules: seq<JsonObject>, key: Resource): Option<JsonObject> {
    if rules == [] then None
    else
      var last := rules[|rules| - 1];
      if Names(last, key) then Some(last) else LastNaming(rules[..|rules| - 1], key)
  }

  ghost predicate IsIndex(index: Index, rules: seq<JsonObject>) {
    forall k ::
      && (k in index <==> LastNaming(rules, k).Some?)
      && (k in index ==> index[k] == Verbs(LastNaming(rules, k).value))
  }

  lemma IndexOneMore(before: Index, rules: seq<JsonObject>, rule: JsonObject, after: Index)
    requires IsIndex(before, rules) && Processed(before, rule, after)
    ensures IsIndex(after, rules + [rule])
  {
    assert (rules + [rule])[..|rules|] == rules;
  }

  predicate IsLastAt(rules: seq<JsonObject>, key: Resource, i: int) {
    && 0 <= i < |rules| && Names(rules[i], key)
    && (forall j :: i < j < |rules| ==> !Names(rules[j], key))
  }

  lemma {:induction false} LastNamingIsLast(rules: seq<JsonObject>, key: Resource) returns (i: int)
    ensures LastNaming(rules, key).None? ==> forall j :: 0 <= j < |rules| ==> !Names(rules[j], key)
    ensures LastNaming(rules, key).Some? ==> IsLastAt(rules, key, i) && LastNaming(rules, key) == Some(rules[i])
  {
    i := |rules| - 1;
    if rules != [] && !Names(rules[i], key) {
      var n := i;
      var before := rules[..n];
      i := LastNamingIsLast(before, key);
      assert forall j :: 0 <= j < n ==> before[j] == rules[j];
    }
  }

  // ---- Answering a request ----

  // A resource is also covered by its group's wildcard, its name's wildcard and the wildcard for everything.
  function Patterns(r: Resource): set<Resource> {
    {r, ALL, Resource(r.apiGroup, WILDCARD), Resource(WILDCARD, r.resourceType)}
  }

  predicate Granted(index: Index, r: Resource, verb: string) {
    exists p :: p in Patterns(r) && verb in Lookup(index, p)
  }

  predicate Authorized(index: Index, reqs: seq<Access>) {
    forall q, verb :: q in reqs && verb in q.verbs ==> Granted(index, q.resource, verb)
  }

  method IsAuthorized(index: Index, reqs: seq<Access>) returns (ok: bool)
    ensures ok <==> Authorized(index, reqs)
  {
    var i := 0;
    while i < |reqs|
      invariant i <= |reqs|
      invariant Authorized(index, reqs[..i])
    {
      var res, verbs := reqs[i].resource, reqs[i].verbs;
      var allRes := Resource(res.apiGroup, WILDCARD);
      var allGroup := Resource(WILDCARD, res.resourceType);
      assert Patterns(res) == {res, ALL, allRes, allGroup};
      var j := 0;
      while j < |verbs|
        invariant j <= |verbs|
        invariant forall verb :: verb in verbs[..j] ==> Granted(index, res, verb)
      {
        var verb := verbs[j];
        if verb !in Lookup(index, res) && verb !in Lookup(index, ALL)
           && verb !in Lookup(index, allRes) && verb !in Lookup(index, allGroup)
        {
          assert reqs[i] in reqs && verb in reqs[i].verbs && !Granted(index, res, verb);
          return false;
        }
        assert Granted(index, res, verb);
        j := j + 1;
      }
      assert verbs[..j] == verbs;
      assert reqs[..i + 1] == reqs[..i] + [reqs[i]];
      i := i + 1;
    }
    assert reqs[..i] == reqs;
    return true;
  }

  // A rule's group and resource each match if they are equal to the requested one or the wildcard.
  predicate Matches(pattern: Resource, r: Resource) {
    && (pattern.apiGroup == r.apiGroup || pattern.apiGroup == "*")
    && (pattern.resourceType == r.resourceType || pattern.resourceType == "*")
  }

  lemma PatternsMatch(r: Resource, p: Resource)
    ensures p in Patterns(r) <==> Matches(p, r)
  {
  }

  // ---- The index against the rules ----

  // Scanning the list: some unrestricted rule grants the verb on the resource itself or on a wildcard for it.
  predicate Scanned(rules: seq<JsonObject>, r: Resource, verb: string) {
    exists i, p {:trigger rules[i], p in Patterns(r)} ::
      0 <= i < |rules| && p in Patterns(r) && Names(rules[i], p) && verb in Verbs(rules[i])
  }

  // What is left of the list when of all rules for a resource only the last counts.
  predicate Held(rules: seq<JsonObject>, r: Resource, verb: string) {
    exists p, j :: p in Patterns(r) && 0 <= j < |rules| && IsLastAt(rules, p, j) && verb in Verbs(rules[j])
  }

  lemma GrantedIsHeld(index: Index, rules: seq<JsonObject>, r: Resource, verb: string)
    requires IsIndex(index, rules)
    ensures Granted(index, r, verb) <==> Held(rules, r, verb)
  {
    if Granted(index, r, verb) {
      var p :| p in Patterns(r) && verb in Lookup(index, p);
      var j := LastNamingIsLast(rules, p);
      assert IsLastAt(rules, p, j) && verb in Verbs(rules[j]);
    }
    if Held(rules, r, verb) {
      var p, j :| p in Patterns(r) && 0 <= j < |rules| && IsLastAt(rules, p, j) && verb in Verbs(rules[j]);
      var i := LastNamingIsLast(rules, p);
      OneLast(rules, p, i, j);
      assert verb in Lookup(index, p);
    }
  }

  lemma OneLast(rules: seq<JsonObject>, key: Resource, i: int, j: int)
    requires IsLastAt(rules, key, j) && (LastNaming(rules, key).Some? ==> IsLastAt(rules, key, i))
    requires LastNaming(rules, key).None? ==> forall h :: 0 <= h < |rules| ==> !Names(rules[h], key)
    ensures LastNaming(rules, key).Some? && i == j
  {
  }

  predicate Overwrites(rules: seq<JsonObject>, i: int, j: int, r: Resource) {
    0 <= i < j < |rules| && Names(rules[i], r) && Names(rules[j], r)
  }

  // A rule that is overwritten loses nothing: whenever a later rule names the same resource, each verb of the
  // earlier one is in the last rule for that resource or for one of its wildcards.
  ghost predicate NothingHidden(rules: seq<JsonObject>) {
    forall i, j, r, verb {:trigger Overwrites(rules, i, j, r), verb in Verbs(rules[i])} ::
      Overwrites(rules, i, j, r) && verb in Verbs(rules[i]) ==> Held(rules, r, verb)
  }

  // The index never grants what the rules do not.
  lemma IndexIsSound(rules: seq<JsonObject>, index: Index, r: Resource, verb: string)
    requires IsIndex(index, rules) && Granted(index, r, verb)
    ensures Scanned(rules, r, verb)
  {
    GrantedIsHeld(index, rules, r, verb);
    var p, j :| p in Patterns(r) && 0 <= j < |rules| && IsLastAt(rules, p, j) && verb in Verbs(rules[j]);
    assert Names(rules[j], p);
  }

  lemma PatternsNest(r: Resource, p: Resource)
    requires p in Patterns(r)
    ensures Patterns(p) <= Patterns(r)
  {
  }

  // Each verb that a rule grants by name is held, if nothing is hidden.
  lemma NamedIsHeld(rules: seq<JsonObject>, i: nat, r: Resource, verb: string)
    requires NothingHidden(rules) && i < |rules| && Names(rules[i], r) && verb in Verbs(rules[i])
    ensures Held(rules, r, verb)
  {
    var j := LastNamingIsLast(rules, r);
    assert i <= j;
    if i == j {
      assert r in Patterns(r) && IsLastAt(rules, r, i);
    } else {
      assert Overwrites(rules, i, j, r);
    }
  }

  lemma NothingHiddenSuffices(rules: seq<JsonObject>, r: Resource, verb: string)
    requires NothingHidden(rules) && Scanned(rules, r, verb)
    ensures Held(rules, r, verb)
  {
    var i, p :| 0 <= i < |rules| && p in Patterns(r) && Names(rules[i], p) && verb in Verbs(rules[i]);
    NamedIsHeld(rules, i, p, verb);
    var q, j :| q in Patterns(p) && 0 <= j < |rules| && IsLastAt(rules, q, j) && verb in Verbs(rules[j]);
    PatternsNest(r, p);
  }

  // Index and rules give the same answer to every question.
  ghost predicate Agrees(index: Index, rules: seq<JsonObject>) {
    forall r, verb :: Granted(index, r, verb) <==> Scanned(rules, r, verb)
  }

  // They agree exactly when no rule loses a grant to a later one.
  lemma IndexAgreesIff(rules: seq<JsonObject>, index: Index)
    requires IsIndex(index, rules)
    ensures Agrees(index, rules) <==> NothingHidden(rules)
  {
    forall r, verb
      ensures Granted(index, r, verb) ==> Scanned(rules, r, verb)
      ensures NothingHidden(rules) && Scanned(rules, r, verb) ==> Granted(index, r, verb)
    {
      GrantedIsHeld(index, rules, r, verb);
      if Granted(index, r, verb) {
        IndexIsSound(rules, index, r, verb);
      } else if NothingHidden(rules) && Scanned(rules, r, verb) {
        NothingHiddenSuffices(rules, r, verb);
      }
    }
    forall i, j, r, verb {:trigger Overwrites(rules, i, j, r), verb in Verbs(rules[i])} |
      Agrees(index, rules) && Overwrites(rules, i, j, r) && verb in Verbs(rules[i])
      ensures Held(rules, r, verb)
    {
      assert r in Patterns(r) && Names(rules[i], r);
      assert Scanned(rules, r, verb);
      GrantedIsHeld(index, rules, r, verb);
    }
  }

  // In particular when no two rules name the same resource.
  ghost predicate NamedOnce(rules: seq<JsonObject>) {
    forall i, j, r :: !Overwrites(rules, i, j, r)
  }

  lemma NamedOnceAgrees(rules: seq<JsonObject>, index: Index)
    requires IsIndex(index, rules) && NamedOnce(rules)
    ensures Agrees(index, rules)
  {
    IndexAgreesIff(rules, index);
  }

  // It does happen: of two rules for the same resource only the later one is kept.
  lemma LaterRuleHides(r: Resource, early: JsonObject, late: JsonObject, verb: string, index: Index)
    requires IsIndex(index, [early, late])
    requires Names(early, r) && Names(late, r) && verb in Verbs(early) && verb !in Verbs(late)
    requires forall p :: p in Patterns(r) && p != r ==> !Names(early, p) && !Names(late, p)
    ensures Scanned([early, late], r, verb) && !Granted(index, r, verb)
  {
    var rules := [early, late];
    assert rules[0] == early && rules[1] == late && r in Patterns(r);
    var none: seq<JsonObject> := [];
    assert rules[..1] == [early] && [early][..0] == none;
    forall p | p in Patterns(r)
      ensures verb !in Lookup(index, p)
    {
      assert LastNaming(none, p) == None;
      assert p != r ==> LastNaming([early], p) == None;
      assert LastNaming(rules, p) == if p == r then Some(late) else None;
    }
  }

  function PodsRule(verb: string): JsonObject {
    map["verbs" := JArray([JString(verb)]), "apiGroups" := JArray([JString("")]), "resources" := JArray([JString("pods")])]
  }

  lemma PodsRuleNames(verb: string, p: Resource)
    ensures Names(PodsRule(verb), p) <==> p == Resource("", "pods")
    ensures Verbs(PodsRule(verb)) == {verb}
  {
    assert Texts([JString(verb)]) == [verb];
    assert Resources(PodsRule(verb)) == ["pods"] && Groups(PodsRule(verb)) == [""];
  }

  // For example, a rule to get pods followed by a rule to list them: getting them is refused.
  lemma GetPodsIsHidden(index: Index)
    requires IsIndex(index, [PodsRule("get"), PodsRule("list")])
    ensures Scanned([PodsRule("get"), PodsRule("list")], Resource("", "pods"), "get")
    ensures !Authorized(index, [Access(Resource("", "pods"), ["get"])])
  {
    var r := Resource("", "pods");
    forall p
      ensures Names(PodsRule("get"), p) <==> p == r
      ensures Names(PodsRule("list"), p) <==> p == r
    {
      PodsRuleNames("get", p);
      PodsRuleNames("list", p);
    }
    PodsRuleNames("get", r);
    PodsRuleNames("list", r);
    assert "get"[0] != "list"[0];
    LaterRuleHides(r, PodsRule("get"), PodsRule("list"), "get", index);
    assert "get" in ["get"];
  }

  // ---- Reading a review ----

  predicate AllObjects(items: seq<Json>) {
    forall i :: 0 <= i < |items| ==> items[i].JObject?
  }

  function Objects(items: seq<Json>): seq<JsonObject>
    requires AllObjects(items)
  {
    seq(|items|, i requires 0 <= i < |items| => items[i].fields)
  }

  // What is to be made of the answer of the cluster: its list of rules, or why there is none.
  function RulesOf(review: Review): Result<seq<JsonObject>, Error> {
    if review.Err? then Err(review.error)
    else if !("status" in review.value && review.value["status"].JObject?) then Err(StatusMissing)
    else
      var status := review.value["status"].fields;
      if !("rules" in status && status["rules"].JArray?) then Err(RulesMissing)
      else if !AllObjects(status["rules"].items) then Err(RuleNotObject)
      else Ok(Objects(status["rules"].items))
  }

  // There are rules exactly when the review is an answer with a status with an array of objects, and then they are
  // those objects; otherwise the first thing that is missing is the error.
  lemma RulesOfIff(review: Review)
    ensures var rules := RulesOf(review);
            if review.Err? then rules == Err(review.error)
            else if "status" !in review.value || !review.value["status"].JObject? then rules == Err(StatusMissing)
            else if !IsArray(review.value["status"].fields, "rules") then rules == Err(RulesMissing)
            else
              var items := review.value["status"].fields["rules"].items;
              if exists i :: 0 <= i < |items| && !items[i].JObject? then rules == Err(RuleNotObject)
              else
                rules.Ok? && |rules.value| == |items| && forall i :: 0 <= i < |items| ==> items[i] == JObject(rules.value[i])
  {
  }

  method LookupAllRules(review: Review) returns (r: Result<Index, Error>)
    ensures var rules := RulesOf(review);
            if rules.Err? then r == Err(rules.error) else r.Ok? && IsIndex(r.value, rules.value)
  {
    if review.Err? {
      return Err(review.error);
    }
    if !("status" in review.value && review.value["status"].JObject?) {
      return Err(StatusMissing);
    }
    var status := review.value["status"].fields;
    if !("rules" in status && status["rules"].JArray?) {
      return Err(RulesMissing);
    }
    var indexed := IndexAll(status["rules"].items);
    return match indexed case None => Err(RuleNotObject) case Some(index) => Ok(index);
  }

  method IndexAll(items: seq<Json>) returns (r: Option<Index>)
    ensures r.Some? <==> AllObjects(items)
    ensures r.Some? ==> IsIndex(r.value, Objects(items))
  {
    var result := new RuleIndex();
    var i := 0;
    while i < |items|
      invariant i <= |items| && AllObjects(items[..i])
      invariant IsIndex(result.entries, Objects(items[..i]))
    {
      if !items[i].JObject? {
        return None;
      }
      ghost var before := result.entries;
      result.ProcessRule(items[i].fields);
      assert AllObjects(items[..i + 1]);
      assert Objects(items[..i + 1]) == Objects(items[..i]) + [items[i].fields];
      IndexOneMore(before, Objects(items[..i]), items[i].fields, result.entries);
      i := i + 1;
    }
    assert items[..i] == items;
    return Some(result.entries);
  }
}
