/**
 kubernetes/deployments_access.go, the checks: whether the user may call a method is decided from the rules of
 one or more environments, each of which is looked up once and then kept.
 */
module AccessChecks {
  import opened Prelude
  import opened AccessRules

  // What the cluster answers, namespace by namespace.
  type Cluster = string -> Review

  // The environments the user has, with their namespaces, and those that can be deployed to.
  datatype Setup = Setup(namespaces: map<string, string>, deployable: set<string>)

  const USER_ENVIRONMENT := "user"

  function Need(resourceType: string, verbs: seq<string>): Access {
    Access(Resource("", resourceType), verbs)
  }

  const GET_BUILDS := [Need("builds", ["list"])]
  const GET_BUILD_CONFIGS_AND_BUILDS := [Need("buildconfigs", ["list"]), Need("builds", ["list"])]
  const GET_ENVIRONMENT := [Need("resourcequotas", ["list"])]
  const GET_DEPLOYMENT_STATS :=
    [Need("deploymentconfigs", ["get"]), Need("replicationcontrollers", ["list"]), Need("pods", ["list"])]
  const GET_DEPLOYMENT :=
    [Need("deploymentconfigs", ["get"]), Need("replicationcontrollers", ["list"]), Need("pods", ["list"]),
     Need("services", ["list"]), Need("routes", ["list"])]

  // ---- Answers from a list of rules ----

  predicate Permitted(rules: seq<JsonObject>, reqs: seq<Access>) {
    forall q, verb :: q in reqs && verb in q.verbs ==> Held(rules, q.resource, verb)
  }

  lemma AuthorizedIsPermitted(index: Index, rules: seq<JsonObject>, reqs: seq<Access>)
    requires IsIndex(index, rules)
    ensures Authorized(index, reqs) <==> Permitted(rules, reqs)
  {
    forall q, verb | q in reqs && verb in q.verbs
      ensures Granted(index, q.resource, verb) <==> Held(rules, q.resource, verb)
    {
      GrantedIsHeld(index, rules, q.resource, verb);
    }
  }

  // ---- What the cache holds ----

  // The rules that were found for each environment looked up so far.
  type Seen = map<string, seq<JsonObject>>

  function RulesIn(env: string, u: Setup, cluster: Cluster): Result<seq<JsonObject>, Error> {
    if env in u.namespaces then RulesOf(cluster(u.namespaces[env])) else Err(UnknownEnvironment)
  }

  function Found(seen: Seen, env: string, u: Setup, cluster: Cluster): Result<seq<JsonObject>, Error> {
    if env in seen then Ok(seen[env]) else RulesIn(env, u, cluster)
  }

  function After(seen: Seen, env: string, u: Setup, cluster: Cluster): Seen {
    var found := Found(seen, env, u, cluster);
    if found.Ok? then seen[env := found.value] else seen
  }

  ghost predicate SameAnswers(a: Seen, b: Seen, u: Setup, cluster: Cluster) {
    forall env :: Found(a, env, u, cluster) == Found(b, env, u, cluster)
  }

  lemma LookingChangesNothing(seen: Seen, env: string, u: Setup, cluster: Cluster)
    ensures SameAnswers(After(seen, env, u, cluster), seen, u, cluster)
  {
  }

  // One lookup, at a time when the cluster answers like this.
  datatype Look = Look(env: string, cluster: Cluster)

  ghost function SeenAfter(looks: seq<Look>, u: Setup): Seen {
    if looks == [] then map[]
    else
      var last := looks[|looks| - 1];
      After(SeenAfter(looks[..|looks| - 1], u), last.env, u, last.cluster)
  }

  // The first answer for the environment that was no error.
  ghost function FirstSuccess(looks: seq<Look>, u: Setup, env: string): Option<seq<JsonObject>> {
    if looks == [] then None
    else
      var last := looks[|looks| - 1];
      var before := FirstSuccess(looks[..|looks| - 1], u, env);
      if before.Some? then before
      else if last.env == env && RulesIn(env, u, last.cluster).Ok? then Some(RulesIn(env, u, last.cluster).value)
      else None
  }

  // However the cluster changes its mind, an environment keeps the rules of its first successful lookup; errors are
  // not kept.
  lemma {:induction false} CacheHoldsFirstSuccess(looks: seq<Look>, u: Setup, env: string)
    ensures var seen := SeenAfter(looks, u);
            FirstSuccess(looks, u, env) == if env in seen then Some(seen[env]) else None
  {
    if looks != [] {
      CacheHoldsFirstSuccess(looks[..|looks| - 1], u, env);
    }
  }

  ghost predicate Steady(looks: seq<Look>, cluster: Cluster) {
    forall i :: 0 <= i < |looks| ==> looks[i].cluster == cluster
  }

  // While the cluster does not change its answers, no sequence of lookups makes a cached answer differ from a
  // direct one.
  lemma {:induction false} SteadyMeansUncached(looks: seq<Look>, u: Setup, cluster: Cluster, env: string)
    requires Steady(looks, cluster)
    ensures Found(SeenAfter(looks, u), env, u, cluster) ==
            if env in u.namespaces then RulesOf(cluster(u.namespaces[env])) else Err(UnknownEnvironment)
  {
    if looks != [] {
      var before := looks[..|looks| - 1];
      SteadyMeansUncached(before, u, cluster, env);
      LookingChangesNothing(SeenAfter(before, u), looks[|looks| - 1].env, u, cluster);
    }
  }

  // ---- Checks ----

  function Check(reqs: seq<Access>, env: string, seen: Seen, u: Setup, cluster: Cluster): Result<bool, Error> {
    var found := Found(seen, env, u, cluster);
    if found.Err? then Err(found.error) else Ok(Permitted(found.value, reqs))
  }

  function WithBuilds(reqs: seq<Access>, env: string, seen: Seen, u: Setup, cluster: Cluster): Result<bool, Error> {
    var builds := Check(GET_BUILDS, USER_ENVIRONMENT, seen, u, cluster);
    if builds == Ok(true) then Check(reqs, env, seen, u, cluster) else builds
  }

  function DeployableEnvironments(u: Setup): set<string> {
    u.namespaces.Keys * u.deployable
  }

  // A check of all environments that can be deployed to, which stops at the first that is refused or fails.
  ghost predicate Decided(r: Result<bool, Error>, reqs: seq<Access>, seen: Seen, u: Setup, cluster: Cluster) {
    if r == Ok(true) then forall env :: env in DeployableEnvironments(u) ==> Check(reqs, env, seen, u, cluster) == Ok(true)
    else exists env :: env in DeployableEnvironments(u) && Check(reqs, env, seen, u, cluster) == r
  }

  // Whether all is permitted never depends on the order in which the environments come.
  lemma DecidedAlike(r1: Result<bool, Error>, r2: Result<bool, Error>, reqs: seq<Access>, seen: Seen, u: Setup, cluster: Cluster)
    requires Decided(r1, reqs, seen, u, cluster) && Decided(r2, reqs, seen, u, cluster)
    ensures r1 == Ok(true) <==> r2 == Ok(true)
  {
  }

  ghost predicate OrderShows(reqs: seq<Access>, seen: Seen, u: Setup, cluster: Cluster) {
    exists r1, r2 :: Decided(r1, reqs, seen, u, cluster) && Decided(r2, reqs, seen, u, cluster) && r1 != r2
  }

  // Whether a negative answer is a refusal or an error depends on the order exactly when two environments answer
  // negatively in different ways.
  lemma OrderShowsIff(reqs: seq<Access>, seen: Seen, u: Setup, cluster: Cluster)
    ensures OrderShows(reqs, seen, u, cluster) <==>
            exists e, f ::
              && e in DeployableEnvironments(u) && f in DeployableEnvironments(u)
              && Check(reqs, e, seen, u, cluster) != Ok(true) && Check(reqs, f, seen, u, cluster) != Ok(true)
              && Check(reqs, e, seen, u, cluster) != Check(reqs, f, seen, u, cluster)
  {
    if OrderShows(reqs, seen, u, cluster) {
      var r1, r2 :| Decided(r1, reqs, seen, u, cluster) && Decided(r2, reqs, seen, u, cluster) && r1 != r2;
      DecidedAlike(r1, r2, reqs, seen, u, cluster);
    }
    forall e, f | e in DeployableEnvironments(u) && f in DeployableEnvironments(u)
                  && Check(reqs, e, seen, u, cluster) != Ok(true) && Check(reqs, f, seen, u, cluster) != Ok(true)
                  && Check(reqs, e, seen, u, cluster) != Check(reqs, f, seen, u, cluster)
      ensures OrderShows(reqs, seen, u, cluster)
    {
      assert Decided(Check(reqs, e, seen, u, cluster), reqs, seen, u, cluster);
      assert Decided(Check(reqs, f, seen, u, cluster), reqs, seen, u, cluster);
    }
  }

  class Client {
    const setup: Setup
    var rulesMap: map<string, Index>
    ghost var seen: Seen

    ghost predicate Valid()
      reads this
    {
      rulesMap.Keys == seen.Keys && forall env :: env in seen ==> IsIndex(rulesMap[env], seen[env])
    }

    constructor (setup: Setup)
      ensures Valid() && this.setup == setup && seen == map[]
    {
      this.setup := setup;
      rulesMap := map[];
      seen := map[];
    }

    method GetRulesForEnvironment(env: string, cluster: Cluster) returns (r: Result<Index, Error>)
      requires Valid()
      modifies this
      ensures Valid() && seen == After(old(seen), env, setup, cluster)
      ensures var found := Found(old(seen), env, setup, cluster);
              if found.Err? then r == Err(found.error) else r.Ok? && IsIndex(r.value, found.value)
    {
      if env in rulesMap {
        return Ok(rulesMap[env]);
      }
      if env !in setup.namespaces {
        return Err(UnknownEnvironment);
      }
      r := LookupAllRules(cluster(setup.namespaces[env]));
      if r.Ok? {
        rulesMap := rulesMap[env := r.value];
        seen := seen[env := RulesIn(env, setup, cluster).value];
      }
    }

    method CheckAuthorizedInEnv(reqs: seq<Access>, env: string, cluster: Cluster) returns (r: Result<bool, Error>)
      requires Valid()
      modifies this
      ensures Valid() && SameAnswers(seen, old(seen), setup, cluster)
      ensures r == Check(reqs, env, old(seen), setup, cluster)
    {
      ghost var found := Found(seen, env, setup, cluster);
      LookingChangesNothing(seen, env, setup, cluster);
      var rules := GetRulesForEnvironment(env, cluster);
      if rules.Err? {
        return Err(rules.error);
      }
      AuthorizedIsPermitted(rules.value, found.value, reqs);
      var ok := IsAuthorized(rules.value, reqs);
      return Ok(ok);
    }

    method CheckAuthorizedWithBuilds(env: string, reqs: seq<Access>, cluster: Cluster) returns (r: Result<bool, Error>)
      requires Valid()
      modifies this
      ensures Valid() && SameAnswers(seen, old(seen), setup, cluster)
      ensures r == WithBuilds(reqs, env, old(seen), setup, cluster)
    {
      r := CheckAuthorizedInEnv(GET_BUILDS, USER_ENVIRONMENT, cluster);
      if r == Ok(true) {
        r := CheckAuthorizedInEnv(reqs, env, cluster);
      }
    }

    method CheckDeployable(reqs: seq<Access>, cluster: Cluster) returns (r: Result<bool, Error>)
      requires Valid()
      modifies this
      ensures Valid() && SameAnswers(seen, old(seen), setup, cluster)
      ensures Decided(r, reqs, old(seen), setup, cluster)
    {
      var envs := InSomeOrder(setup.namespaces.Keys);
      var i := 0;
      while i < |envs|
        invariant i <= |envs| && Valid() && SameAnswers(seen, old(seen), setup, cluster)
        invariant forall env :: env in envs[..i] && env in setup.deployable ==> Check(reqs, env, old(seen), setup, cluster) == Ok(true)
      {
        assert envs[i] in Elements(envs);
        assert envs[..i + 1] == envs[..i] + [envs[i]];
        if envs[i] in setup.deployable {
          r := CheckAuthorizedInEnv(reqs, envs[i], cluster);
          assert r == Check(reqs, envs[i], old(seen), setup, cluster);
          if r != Ok(true) {
            assert envs[i] in DeployableEnvironments(setup);
            return;
          }
        }
        i := i + 1;
      }
      assert envs[..i] == envs;
      assert forall env :: env in DeployableEnvironments(setup) ==> env in Elements(envs);
      return Ok(true);
    }

    method CanGetSpace(cluster: Cluster) returns (r: Result<bool, Error>)
      requires Valid()
      modifies this
      ensures Valid() && SameAnswers(seen, old(seen), setup, cluster)
      ensures SpaceOk(r, old(seen), setup, cluster)
    {
      r := CheckAuthorizedInEnv(GET_BUILD_CONFIGS_AND_BUILDS, USER_ENVIRONMENT, cluster);
      if r == Ok(true) {
        r := CheckDeployable(GET_DEPLOYMENT, cluster);
      }
    }

    method CanGetApplication(cluster: Cluster) returns (r: Result<bool, Error>)
      requires Valid()
      modifies this
      ensures Valid() && SameAnswers(seen, old(seen), setup, cluster)
      ensures ApplicationOk(r, old(seen), setup, cluster)
    {
      r := CheckAuthorizedInEnv(GET_BUILDS, USER_ENVIRONMENT, cluster);
      if r == Ok(true) {
        r := CheckDeployable(GET_DEPLOYMENT, cluster);
      }
    }

    method CanGetEnvironments(cluster: Cluster) returns (r: Result<bool, Error>)
      requires Valid()
      modifies this
      ensures Valid() && SameAnswers(seen, old(seen), setup, cluster)
      ensures Decided(r, GET_ENVIRONMENT, old(seen), setup, cluster)
    {
      r := CheckDeployable(GET_ENVIRONMENT, cluster);
    }
  }

  ghost predicate SpaceOk(r: Result<bool, Error>, seen: Seen, u: Setup, cluster: Cluster) {
    var builds := Check(GET_BUILD_CONFIGS_AND_BUILDS, USER_ENVIRONMENT, seen, u, cluster);
    if builds == Ok(true) then Decided(r, GET_DEPLOYMENT, seen, u, cluster) else r == builds
  }

  ghost predicate ApplicationOk(r: Result<bool, Error>, seen: Seen, u: Setup, cluster: Cluster) {
    var builds := Check(GET_BUILDS, USER_ENVIRONMENT, seen, u, cluster);
    if builds == Ok(true) then Decided(r, GET_DEPLOYMENT, seen, u, cluster) else r == builds
  }

  lemma FewerNeeds(fewer: seq<Access>, more: seq<Access>, env: string, seen: Seen, u: Setup, cluster: Cluster)
    requires forall q :: q in fewer ==> q in more
    requires Check(more, env, seen, u, cluster) == Ok(true)
    ensures Check(fewer, env, seen, u, cluster) == Ok(true)
  {
  }

  // Who may get a space may get its applications, and every deployment in it with its statistics.
  lemma SpaceCoversTheRest(seen: Seen, u: Setup, cluster: Cluster, env: string, r: Result<bool, Error>)
    requires SpaceOk(Ok(true), seen, u, cluster)
    ensures ApplicationOk(r, seen, u, cluster) ==> r == Ok(true)
    ensures env in DeployableEnvironments(u) ==>
              && WithBuilds(GET_DEPLOYMENT, env, seen, u, cluster) == Ok(true)
              && WithBuilds(GET_DEPLOYMENT_STATS, env, seen, u, cluster) == Ok(true)
  {
    BuildsAreNeeded();
    StatsAreNeeded();
    FewerNeeds(GET_BUILDS, GET_BUILD_CONFIGS_AND_BUILDS, USER_ENVIRONMENT, seen, u, cluster);
    if env in DeployableEnvironments(u) {
      FewerNeeds(GET_DEPLOYMENT_STATS, GET_DEPLOYMENT, env, seen, u, cluster);
    }
  }

  lemma BuildsAreNeeded()
    ensures forall q :: q in GET_BUILDS ==> q in GET_BUILD_CONFIGS_AND_BUILDS
  {
    assert GET_BUILD_CONFIGS_AND_BUILDS[1] == GET_BUILDS[0];
  }

  lemma StatsAreNeeded()
    ensures forall q :: q in GET_DEPLOYMENT_STATS ==> q in GET_DEPLOYMENT
  {
    assert GET_DEPLOYMENT_STATS == GET_DEPLOYMENT[..3];
  }

  // ---- What the checks ask for ----

  // The user may do this in the environment, whose rules are known.
  predicate May(verb: string, resourceType: string, env: string, seen: Seen, u: Setup, cluster: Cluster) {
    var found := Found(seen, env, u, cluster);
    found.Ok? && Held(found.value, Resource("", resourceType), verb)
  }

  lemma CheckSplits(one: Access, rest: seq<Access>, env: string, seen: Seen, u: Setup, cluster: Cluster)
    requires |one.verbs| == 1 && one.resource.apiGroup == ""
    ensures Check([one] + rest, env, seen, u, cluster) == Ok(true) <==>
            May(one.verbs[0], one.resource.resourceType, env, seen, u, cluster) && Check(rest, env, seen, u, cluster) == Ok(true)
  {
    var all := [one] + rest;
    assert one.verbs == [one.verbs[0]];
    assert one == all[0];
    var found := Found(seen, env, u, cluster);
    if found.Ok? {
      assert Permitted(found.value, all) <==>
             Held(found.value, one.resource, one.verbs[0]) && Permitted(found.value, rest);
    }
  }

  lemma CheckOne(one: Access, env: string, seen: Seen, u: Setup, cluster: Cluster)
    requires |one.verbs| == 1 && one.resource.apiGroup == ""
    ensures Check([one], env, seen, u, cluster) == Ok(true) <==>
            May(one.verbs[0], one.resource.resourceType, env, seen, u, cluster)
  {
    CheckSplits(one, [], env, seen, u, cluster);
    assert [one] + [] == [one];
  }

  lemma BuildsNeeded(seen: Seen, u: Setup, cluster: Cluster)
    ensures Check(GET_BUILDS, USER_ENVIRONMENT, seen, u, cluster) == Ok(true) <==> May("list", "builds", "user", seen, u, cluster)
    ensures Check(GET_BUILD_CONFIGS_AND_BUILDS, USER_ENVIRONMENT, seen, u, cluster) == Ok(true) <==>
            May("list", "buildconfigs", "user", seen, u, cluster) && May("list", "builds", "user", seen, u, cluster)
  {
    CheckOne(GET_BUILDS[0], USER_ENVIRONMENT, seen, u, cluster);
    CheckSplits(GET_BUILD_CONFIGS_AND_BUILDS[0], GET_BUILDS, USER_ENVIRONMENT, seen, u, cluster);
    assert GET_BUILD_CONFIGS_AND_BUILDS == [GET_BUILD_CONFIGS_AND_BUILDS[0]] + GET_BUILDS;
    assert GET_BUILDS == [GET_BUILDS[0]];
  }

  predicate MaySeeStats(env: string, seen: Seen, u: Setup, cluster: Cluster) {
    && May("get", "deploymentconfigs", env, seen, u, cluster)
    && May("list", "replicationcontrollers", env, seen, u, cluster)
    && May("list", "pods", env, seen, u, cluster)
  }

  predicate MaySeeDeployment(env: string, seen: Seen, u: Setup, cluster: Cluster) {
    && MaySeeStats(env, seen, u, cluster)
    && May("list", "services", env, seen, u, cluster)
    && May("list", "routes", env, seen, u, cluster)
  }

  lemma StatsNeed(env: string, seen: Seen, u: Setup, cluster: Cluster)
    ensures Check(GET_DEPLOYMENT_STATS, env, seen, u, cluster) == Ok(true) <==> MaySeeStats(env, seen, u, cluster)
  {
    var g := GET_DEPLOYMENT_STATS;
    assert g == [g[0]] + g[1..] && g[1..] == [g[1]] + g[2..] && g[2..] == [g[2]];
    CheckSplits(g[0], g[1..], env, seen, u, cluster);
    CheckSplits(g[1], g[2..], env, seen, u, cluster);
    CheckOne(g[2], env, seen, u, cluster);
  }

  lemma DeploymentNeeds(env: string, seen: Seen, u: Setup, cluster: Cluster)
    ensures Check(GET_DEPLOYMENT, env, seen, u, cluster) == Ok(true) <==> MaySeeDeployment(env, seen, u, cluster)
  {
    var g := GET_DEPLOYMENT;
    assert g == [g[0]] + g[1..] && g[1..] == [g[1]] + g[2..] && g[2..] == [g[2]] + g[3..] && g[3..] == [g[3]] + g[4..] && g[4..] == [g[4]];
    CheckSplits(g[0], g[1..], env, seen, u, cluster);
    CheckSplits(g[1], g[2..], env, seen, u, cluster);
    CheckSplits(g[2], g[3..], env, seen, u, cluster);
    CheckSplits(g[3], g[4..], env, seen, u, cluster);
    CheckOne(g[4], env, seen, u, cluster);
  }

  // Whoever passes a check behind the builds may list builds in the user environment as well.
  lemma WithBuildsIff(reqs: seq<Access>, env: string, seen: Seen, u: Setup, cluster: Cluster)
    ensures WithBuilds(reqs, env, seen, u, cluster) == Ok(true) <==>
            May("list", "builds", "user", seen, u, cluster) && Check(reqs, env, seen, u, cluster) == Ok(true)
    ensures WithBuilds(reqs, env, seen, u, cluster).Err? ==>
              Found(seen, "user", u, cluster).Err? || Found(seen, env, u, cluster).Err?
  {
    BuildsNeeded(seen, u, cluster);
  }

  // What it takes, verb by verb, to be allowed to get a space, an application and all environments.
  lemma SpaceNeeds(seen: Seen, u: Setup, cluster: Cluster)
    ensures SpaceOk(Ok(true), seen, u, cluster) <==>
            && May("list", "buildconfigs", "user", seen, u, cluster) && May("list", "builds", "user", seen, u, cluster)
            && (forall env :: env in u.namespaces && env in u.deployable ==> MaySeeDeployment(env, seen, u, cluster))
    ensures ApplicationOk(Ok(true), seen, u, cluster) <==>
            && May("list", "builds", "user", seen, u, cluster)
            && (forall env :: env in u.namespaces && env in u.deployable ==> MaySeeDeployment(env, seen, u, cluster))
  {
    BuildsNeeded(seen, u, cluster);
    forall env
      ensures Check(GET_DEPLOYMENT, env, seen, u, cluster) == Ok(true) <==> MaySeeDeployment(env, seen, u, cluster)
    {
      DeploymentNeeds(env, seen, u, cluster);
    }
    assert forall env :: env in DeployableEnvironments(u) <==> env in u.namespaces && env in u.deployable;
  }

  lemma EnvironmentsNeed(seen: Seen, u: Setup, cluster: Cluster)
    ensures Decided(Ok(true), GET_ENVIRONMENT, seen, u, cluster) <==>
            forall env :: env in u.namespaces && env in u.deployable ==> May("list", "resourcequotas", env, seen, u, cluster)
  {
    forall env
      ensures Check(GET_ENVIRONMENT, env, seen, u, cluster) == Ok(true) <==> May("list", "resourcequotas", env, seen, u, cluster)
    {
      CheckOne(GET_ENVIRONMENT[0], env, seen, u, cluster);
      assert GET_ENVIRONMENT == [GET_ENVIRONMENT[0]];
    }
    assert forall env :: env in DeployableEnvironments(u) <==> env in u.namespaces && env in u.deployable;
  }
}
