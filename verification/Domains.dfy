/** Custom domains: a map from environments to domains and one back, changed by single writes
    with a crash possible after each of them. */
module Domains {
  import opened Wrappers
  import opened Remote

  type Env = string
  type Domain = string

  datatype Maps = Maps(envDomain: map<Env, Domain>, domainEnv: map<Domain, Env>)

  datatype Write =
    | PutEnvDomain(env: Env, domain: Domain)
    | PutDomainEnv(domain: Domain, env: Env)
    | DeleteEnvDomain(env: Env)
    | DeleteDomainEnv(domain: Domain)

  datatype Request = PutDomain(env: Env, domain: Domain) | DeleteDomain(env: Env)

  datatype Error = DomainInUse | Internal

  function Apply(m: Maps, w: Write): Maps {
    match w
    case PutEnvDomain(env, domain) => m.(envDomain := m.envDomain[env := domain])
    case PutDomainEnv(domain, env) => m.(domainEnv := m.domainEnv[domain := env])
    case DeleteEnvDomain(env) => m.(envDomain := m.envDomain - {env})
    case DeleteDomainEnv(domain) => m.(domainEnv := m.domainEnv - {domain})
  }

  function ApplyAll(m: Maps, writes: seq<Write>): Maps
    decreases |writes|
  {
    if writes == [] then m else ApplyAll(Apply(m, writes[0]), writes[1..])
  }

  predicate InUse(m: Maps, r: Request) {
    r.PutDomain? && r.domain in m.domainEnv && m.domainEnv[r.domain] != r.env
  }

  /** The writes a request makes, in order. Later ones do not depend on reading back earlier ones. */
  function Plan(m: Maps, r: Request): seq<Write> {
    match r
    case PutDomain(env, domain) =>
      if InUse(m, r) then []
      else (if env in m.envDomain && m.envDomain[env] != domain then [DeleteDomainEnv(m.envDomain[env])] else [])
           + [PutEnvDomain(env, domain), PutDomainEnv(domain, env)]
    case DeleteDomain(env) =>
      (if env in m.envDomain then [DeleteDomainEnv(m.envDomain[env])] else []) + [DeleteEnvDomain(env)]
  }

  /** A request that crashes after `k` of its writes. */
  function Crash(m: Maps, r: Request, k: nat): Maps {
    var plan := Plan(m, r);
    ApplyAll(m, if k < |plan| then plan[..k] else plan)
  }

  function Complete(m: Maps, r: Request): Maps {
    ApplyAll(m, Plan(m, r))
  }

  // ---- What holds ----

  /** Every domain that resolves resolves to an environment that claims it. */
  ghost predicate Safe(m: Maps) {
    forall d | d in m.domainEnv :: m.domainEnv[d] in m.envDomain && m.envDomain[m.domainEnv[d]] == d
  }

  ghost predicate MutuallyInverse(m: Maps) {
    Safe(m) && forall e | e in m.envDomain :: m.envDomain[e] in m.domainEnv && m.domainEnv[m.envDomain[e]] == e
  }

  lemma AtMostThree(m: Maps, writes: seq<Write>)
    ensures writes == [] ==> ApplyAll(m, writes) == m
    ensures |writes| == 1 ==> ApplyAll(m, writes) == Apply(m, writes[0])
    ensures |writes| == 2 ==> ApplyAll(m, writes) == Apply(Apply(m, writes[0]), writes[1])
    ensures |writes| == 3 ==> ApplyAll(m, writes) == Apply(Apply(Apply(m, writes[0]), writes[1]), writes[2])
    decreases |writes|
  {
    if |writes| < 2 {
    } else {
      assert writes[1..][0] == writes[1];
      AtMostThree(Apply(m, writes[0]), writes[1..]);
    }
  }

  predicate Moves(m: Maps, env: Env, domain: Domain) {
    env in m.envDomain && m.envDomain[env] != domain
  }

  function Cleared(m: Maps, env: Env, domain: Domain): map<Domain, Env> {
    if Moves(m, env, domain) then m.domainEnv - {m.envDomain[env]} else m.domainEnv
  }

  /** The maps after each write of a request. */
  lemma PutWrites(m: Maps, env: Env, domain: Domain)
    ensures var r := PutDomain(env, domain);
            var n := if Moves(m, env, domain) then 1 else 0;
            var cleared := Cleared(m, env, domain);
            && Crash(m, r, 0) == m
            && (!InUse(m, r) ==>
                  && |Plan(m, r)| == n + 2
                  && Crash(m, r, n) == Maps(m.envDomain, cleared)
                  && Crash(m, r, n + 1) == Maps(m.envDomain[env := domain], cleared)
                  && Crash(m, r, n + 2) == Maps(m.envDomain[env := domain], cleared[domain := env]))
  {
    var plan := Plan(m, PutDomain(env, domain));
    AtMostThree(m, plan);
    AtMostThree(m, plan[..if 1 < |plan| then 1 else 0]);
    AtMostThree(m, plan[..if 2 < |plan| then 2 else 0]);
  }

  lemma DeleteWrites(m: Maps, env: Env)
    ensures var r := DeleteDomain(env);
            var n := if env in m.envDomain then 1 else 0;
            var cleared := if env in m.envDomain then m.domainEnv - {m.envDomain[env]} else m.domainEnv;
            && |Plan(m, r)| == n + 1
            && Crash(m, r, 0) == m
            && Crash(m, r, n) == Maps(m.envDomain, cleared)
            && Crash(m, r, n + 1) == Maps(m.envDomain - {env}, cleared)
  {
    var plan := Plan(m, DeleteDomain(env));
    AtMostThree(m, plan);
    AtMostThree(m, plan[..|plan| - 1]);
  }

  lemma CompleteIsLastCrash(m: Maps, r: Request)
    ensures forall k: nat | k >= |Plan(m, r)| :: Crash(m, r, k) == Complete(m, r)
  {
  }

  lemma CrashKeepsSafe(m: Maps, r: Request, k: nat)
    requires Safe(m)
    ensures Safe(Crash(m, r, k))
  {
    var plan := Plan(m, r);
    AtMostThree(m, if k < |plan| then plan[..k] else plan);
  }

  lemma CompleteKeepsInverse(m: Maps, r: Request)
    requires MutuallyInverse(m)
    ensures MutuallyInverse(Complete(m, r))
  {
    AtMostThree(m, Plan(m, r));
  }

  /** A completed request does what it says, also in maps that crashes left behind. */
  lemma CompleteTakesEffect(m: Maps, r: Request)
    requires Safe(m) && !InUse(m, r)
    ensures var after := Complete(m, r);
            match r
            case PutDomain(env, domain) =>
              && env in after.envDomain && after.envDomain[env] == domain
              && domain in after.domainEnv && after.domainEnv[domain] == env
              && (forall d | d in after.domainEnv && d != domain :: after.domainEnv[d] != env)
            case DeleteDomain(env) =>
              env !in after.envDomain && forall d | d in after.domainEnv :: after.domainEnv[d] != env
    ensures forall e | e != r.env ::
              (e in Complete(m, r).envDomain <==> e in m.envDomain)
              && (e in m.envDomain ==> Complete(m, r).envDomain[e] == m.envDomain[e])
  {
    AtMostThree(m, Plan(m, r));
  }

  /** Repeating a request that crashed, wherever it did and in whatever maps, ends where it would have ended
      without the crash. */
  lemma RetryRepairs(m: Maps, r: Request, k: nat)
    ensures InUse(Crash(m, r, k), r) <==> InUse(m, r)
    ensures Complete(Crash(m, r, k), r) == Complete(m, r)
  {
    match r
    case PutDomain(env, domain) => RetryPut(m, env, domain, k);
    case DeleteDomain(env) => RetryDelete(m, env, k);
  }

  lemma RetryDelete(m: Maps, env: Env, k: nat)
    ensures Complete(Crash(m, DeleteDomain(env), k), DeleteDomain(env)) == Complete(m, DeleteDomain(env))
  {
    var crashed := Crash(m, DeleteDomain(env), k);
    DeleteWrites(m, env);
    DeleteWrites(crashed, env);
    CompleteIsLastCrash(m, DeleteDomain(env));
    CompleteIsLastCrash(crashed, DeleteDomain(env));
  }

  lemma RetryPut(m: Maps, env: Env, domain: Domain, k: nat)
    ensures InUse(Crash(m, PutDomain(env, domain), k), PutDomain(env, domain)) <==> InUse(m, PutDomain(env, domain))
    ensures Complete(Crash(m, PutDomain(env, domain), k), PutDomain(env, domain)) == Complete(m, PutDomain(env, domain))
  {
    CompletePut(m, env, domain);
    CompletePut(Crash(m, PutDomain(env, domain), k), env, domain);
    PutWrites(m, env, domain);
    CompleteIsLastCrash(m, PutDomain(env, domain));
    FinishFromAnyWrite(m, env, domain, Crash(m, PutDomain(env, domain), k));
  }

  function Finished(m: Maps, env: Env, domain: Domain): Maps {
    if InUse(m, PutDomain(env, domain)) then m
    else Maps(m.envDomain[env := domain], Cleared(m, env, domain)[domain := env])
  }

  lemma CompletePut(m: Maps, env: Env, domain: Domain)
    ensures Complete(m, PutDomain(env, domain)) == Finished(m, env, domain)
  {
    PutWrites(m, env, domain);
    CompleteIsLastCrash(m, PutDomain(env, domain));
  }

  lemma FinishFromAnyWrite(m: Maps, env: Env, domain: Domain, crashed: Maps)
    requires var moved := m.envDomain[env := domain];
             || crashed in {m, Finished(m, env, domain)}
             || (!InUse(m, PutDomain(env, domain))
                 && crashed in {Maps(m.envDomain, Cleared(m, env, domain)), Maps(moved, Cleared(m, env, domain))})
    ensures InUse(crashed, PutDomain(env, domain)) <==> InUse(m, PutDomain(env, domain))
    ensures Finished(crashed, env, domain) == Finished(m, env, domain)
  {
    var f := Finished(crashed, env, domain);
    assert f.envDomain == Finished(m, env, domain).envDomain;
    assert f.domainEnv == Finished(m, env, domain).domainEnv;
  }

  // ---- Whom a request takes a domain from ----

  /** The request makes its environment give up a domain that another environment has come to own. That can
      be told from the maps before the request. */
  predicate Takes(m: Maps, r: Request) {
    && !InUse(m, r)
    && r.env in m.envDomain
    && m.envDomain[r.env] in m.domainEnv && m.domainEnv[m.envDomain[r.env]] != r.env
  }

  /** The domain that resolves to another environment still does. */
  predicate Keeps(m: Maps, after: Maps, d: Domain)
    requires d in m.domainEnv
  {
    d in after.domainEnv && after.domainEnv[d] == m.domainEnv[d]
  }

  /** A request, cut short or not, leaves a domain of another environment alone exactly when it is not the
      one it takes. */
  lemma DomainIsKeptIffNotTaken(m: Maps, r: Request, k: nat, d: Domain)
    requires d in m.domainEnv && m.domainEnv[d] != r.env
    ensures Keeps(m, Crash(m, r, k), d) <==> k == 0 || !Takes(m, r) || d != m.envDomain[r.env]
  {
    CompleteIsLastCrash(m, r);
    match r
    case PutDomain(env, domain) => PutWrites(m, env, domain);
    case DeleteDomain(env) => DeleteWrites(m, env);
  }

  /** So a completed request leaves the domains of all other environments alone exactly when it takes none. */
  lemma OthersAreKeptIffNoneTaken(m: Maps, r: Request)
    ensures (forall d | d in m.domainEnv && m.domainEnv[d] != r.env :: Keeps(m, Complete(m, r), d)) <==> !Takes(m, r)
  {
    CompleteIsLastCrash(m, r);
    var k := |Plan(m, r)| + 1;
    forall d | d in m.domainEnv && m.domainEnv[d] != r.env
      ensures Keeps(m, Complete(m, r), d) <==> !Takes(m, r) || d != m.envDomain[r.env]
    {
      DomainIsKeptIffNotTaken(m, r, k, d);
    }
  }

  /** In mutually inverse maps no request takes a domain. */
  lemma NoneTakenWhenInverse(m: Maps, r: Request)
    requires MutuallyInverse(m)
    ensures !Takes(m, r)
  {
  }

  /** Requests, each with the number of writes after which it crashes, if that comes at all. */
  function Run(m: Maps, requests: seq<(Request, nat)>): Maps
    decreases |requests|
  {
    if requests == [] then m else Run(Crash(m, requests[0].0, requests[0].1), requests[1..])
  }

  lemma {:induction false} EveryRunIsSafe(m: Maps, requests: seq<(Request, nat)>)
    requires Safe(m)
    ensures Safe(Run(m, requests))
    decreases |requests|
  {
    if requests == [] {
    } else {
      CrashKeepsSafe(m, requests[0].0, requests[0].1);
      EveryRunIsSafe(Crash(m, requests[0].0, requests[0].1), requests[1..]);
    }
  }

  lemma {:induction false} CrashFreeRunsKeepInverse(m: Maps, requests: seq<(Request, nat)>)
    requires MutuallyInverse(m)
    requires forall q | q in requests :: q.1 >= 3
    ensures MutuallyInverse(Run(m, requests))
    decreases |requests|
  {
    if requests == [] {
    } else {
      assert |Plan(m, requests[0].0)| <= 3;
      assert Crash(m, requests[0].0, requests[0].1) == Complete(m, requests[0].0) by {
        assert Plan(m, requests[0].0)[..|Plan(m, requests[0].0)|] == Plan(m, requests[0].0);
      }
      CompleteKeepsInverse(m, requests[0].0);
      CrashFreeRunsKeepInverse(Complete(m, requests[0].0), requests[1..]);
    }
  }

  /** The request that takes the domain, if one does before it is cut short. */
  predicate TakenInRun(m: Maps, requests: seq<(Request, nat)>, d: Domain)
    decreases |requests|
  {
    requests != []
    && (var (r, k) := requests[0];
        || (k > 0 && Takes(m, r) && m.envDomain[r.env] == d)
        || TakenInRun(Crash(m, r, k), requests[1..], d))
  }

  /** Over any run of other environments' requests, crashes included, a domain stays with its environment
      exactly when none of them takes it. */
  lemma {:induction false} DomainStaysIffNeverTaken(m: Maps, requests: seq<(Request, nat)>, d: Domain, owner: Env)
    requires forall q | q in requests :: q.0.env != owner
    ensures Owns(m, owner, d) ==> (Owns(Run(m, requests), owner, d) <==> !TakenInRun(m, requests, d))
    ensures !Owns(m, owner, d) ==> !Owns(Run(m, requests), owner, d)
    decreases |requests|
  {
    if requests == [] {
    } else {
      var (r, k) := requests[0];
      assert r.env != owner;
      if Owns(m, owner, d) {
        DomainIsKeptIffNotTaken(m, r, k, d);
      } else {
        NothingGivenToOthers(m, r, k, d, owner);
      }
      DomainStaysIffNeverTaken(Crash(m, r, k), requests[1..], d, owner);
    }
  }

  predicate Owns(m: Maps, env: Env, d: Domain) {
    d in m.domainEnv && m.domainEnv[d] == env
  }

  lemma NothingGivenToOthers(m: Maps, r: Request, k: nat, d: Domain, owner: Env)
    requires r.env != owner && !Owns(m, owner, d)
    ensures !Owns(Crash(m, r, k), owner, d)
  {
    CompleteIsLastCrash(m, r);
    match r
    case PutDomain(env, domain) => PutWrites(m, env, domain);
    case DeleteDomain(env) => DeleteWrites(m, env);
  }

  /** Requests each of which may crash any number of times, but is repeated until it completes. */
  function RunRepeated(m: Maps, requests: seq<(Request, seq<nat>)>): Maps
    decreases |requests|
  {
    if requests == [] then m else RunRepeated(Repeat(m, requests[0].0, requests[0].1), requests[1..])
  }

  function Repeat(m: Maps, r: Request, crashes: seq<nat>): Maps
    decreases |crashes|
  {
    if crashes == [] then Complete(m, r) else Repeat(Crash(m, r, crashes[0]), r, crashes[1..])
  }

  lemma {:induction false} RepeatCompletes(m: Maps, r: Request, crashes: seq<nat>)
    ensures Repeat(m, r, crashes) == Complete(m, r)
    decreases |crashes|
  {
    if crashes == [] {
    } else {
      RepeatCompletes(Crash(m, r, crashes[0]), r, crashes[1..]);
      RetryRepairs(m, r, crashes[0]);
    }
  }

  /** As many writes as a plan can have. */
  function WithoutCrashes(requests: seq<(Request, seq<nat>)>): seq<(Request, nat)> {
    if requests == [] then [] else [(requests[0].0, 3)] + WithoutCrashes(requests[1..])
  }

  /** Such a run ends like the run without crashes. */
  lemma {:induction false} RepeatedRunIsCrashFree(m: Maps, requests: seq<(Request, seq<nat>)>)
    ensures RunRepeated(m, requests) == Run(m, WithoutCrashes(requests))
    decreases |requests|
  {
    if requests == [] {
    } else {
      RepeatCompletes(m, requests[0].0, requests[0].1);
      CompleteIsLastCrash(m, requests[0].0);
      RepeatedRunIsCrashFree(Complete(m, requests[0].0), requests[1..]);
      assert WithoutCrashes(requests)[1..] == WithoutCrashes(requests[1..]);
      assert Crash(m, requests[0].0, 3) == Complete(m, requests[0].0);
    }
  }

  /** Repeating each crashed request before the next one keeps the maps mutually inverse, so that over such a run
      no request ever takes a domain. */
  lemma {:induction false} RepeatingKeepsInverse(m: Maps, requests: seq<(Request, seq<nat>)>)
    requires MutuallyInverse(m)
    ensures MutuallyInverse(RunRepeated(m, requests))
    ensures forall r :: !Takes(RunRepeated(m, requests), r)
    decreases |requests|
  {
    if requests == [] {
    } else {
      RepeatCompletes(m, requests[0].0, requests[0].1);
      CompleteKeepsInverse(m, requests[0].0);
      RepeatingKeepsInverse(Complete(m, requests[0].0), requests[1..]);
    }
  }

  /** A run in which a domain is taken: a crash leaves an environment claiming a domain that another one then
      gets, and moving on, it takes the domain away from that other one. */
  lemma CrashesCanOrphanADomain()
    ensures var m := Run(Maps(map[], map[]),
              [(PutDomain("a", "d.example"), 1), (PutDomain("b", "d.example"), 3), (PutDomain("a", "e.example"), 3)]);
            "b" in m.envDomain && m.envDomain["b"] == "d.example" && "d.example" !in m.domainEnv
  {
    var none := Maps(map[], map[]);
    var p1, p2, p3 := PutDomain("a", "d.example"), PutDomain("b", "d.example"), PutDomain("a", "e.example");
    AtMostThree(none, Plan(none, p1)[..1]);
    var m1 := Crash(none, p1, 1);
    AtMostThree(m1, Plan(m1, p2));
    var m2 := Crash(m1, p2, 3);
    AtMostThree(m2, Plan(m2, p3));
    var m3 := Crash(m2, p3, 3);
    assert Run(none, [(p1, 1), (p2, 3), (p3, 3)]) == Run(m1, [(p2, 3), (p3, 3)]) == Run(m2, [(p3, 3)]) == Run(m3, []);
  }

  // ---- The handlers ----

  /** The two handlers. Each makes the first `k` writes of its plan, all of them on success. */
  class DomainStore {
    const wire: Wire
    var envDomain: map<Env, Domain>
    var domainEnv: map<Domain, Env>

    constructor (wire: Wire)
      ensures Contents() == Maps(map[], map[]) && this.wire == wire
    {
      this.wire := wire;
      envDomain, domainEnv := map[], map[];
    }

    function Contents(): Maps
      reads this
    {
      Maps(envDomain, domainEnv)
    }

    method PutEnvDomain(env: Env, domain: Domain) returns (error: Option<Error>, ghost k: nat)
      modifies this, wire
      ensures Contents() == Crash(old(Contents()), PutDomain(env, domain), k)
      ensures error.None? ==> k == |Plan(old(Contents()), PutDomain(env, domain))| > 0
      ensures error == Some(DomainInUse) <== InUse(old(Contents()), PutDomain(env, domain)) && error != Some(Internal)
      ensures error == Some(DomainInUse) ==>
                InUse(old(Contents()), PutDomain(env, domain)) && Contents() == old(Contents())
      ensures wire.faults >= old(wire.faults)
      ensures error == Some(Internal) <==> wire.faults > old(wire.faults)
    {
      PutWrites(Contents(), env, domain);
      k := 0;
      var reply := wire.Call();
      if !reply.Succeeded? {
        return Some(Internal), k;
      }
      if domain in domainEnv && domainEnv[domain] != env {
        return Some(DomainInUse), k;
      }
      reply := wire.Call();
      if !reply.Succeeded? {
        return Some(Internal), k;
      }
      if env in envDomain && envDomain[env] != domain {
        reply := wire.Call();
        if !reply.Refused? {
          domainEnv := domainEnv - {envDomain[env]};
          k := k + 1;
        }
        if !reply.Succeeded? {
          return Some(Internal), k;
        }
      }
      reply := wire.Call();
      if !reply.Refused? {
        envDomain := envDomain[env := domain];
        k := k + 1;
      }
      if !reply.Succeeded? {
        return Some(Internal), k;
      }
      reply := wire.Call();
      if !reply.Refused? {
        domainEnv := domainEnv[domain := env];
        k := k + 1;
      }
      error := if reply.Succeeded? then None else Some(Internal);
    }

    method DeleteEnvDomain(env: Env) returns (error: Option<Error>, ghost k: nat)
      modifies this, wire
      ensures Contents() == Crash(old(Contents()), DeleteDomain(env), k)
      ensures error.None? ==> k == |Plan(old(Contents()), DeleteDomain(env))|
      ensures error in {None, Some(Internal)}
      ensures wire.faults >= old(wire.faults)
      ensures error.Some? <==> wire.faults > old(wire.faults)
    {
      DeleteWrites(Contents(), env);
      k := 0;
      var reply := wire.Call();
      if !reply.Succeeded? {
        return Some(Internal), k;
      }
      if env in envDomain {
        reply := wire.Call();
        if !reply.Refused? {
          domainEnv := domainEnv - {envDomain[env]};
          k := k + 1;
        }
        if !reply.Succeeded? {
          return Some(Internal), k;
        }
      }
      reply := wire.Call();
      if !reply.Refused? {
        envDomain := envDomain - {env};
        k := k + 1;
      }
      error := if reply.Succeeded? then None else Some(Internal);
    }
  }
}
