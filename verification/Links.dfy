/** Public IDs of environments: each environment has one current ID, and every ID ever handed out
    keeps a record of its environment. */
module Links {
  import opened Wrappers
  import opened Remote

  type Env = string
  type Id = string

  /** `envId` is the map from an environment to its current ID, `idEnv` the one back. */
  datatype Links = Links(envId: map<Env, Id>, idEnv: map<Id, Env>)

  datatype Link = Link(env: Env, id: Id)

  function Lookup<K, V>(m: map<K, V>, k: K): Option<V> {
    if k in m then Some(m[k]) else None
  }

  /** Only the latest ID of an environment works, so that old links can be invalidated. */
  function Resolve(m: Links, id: Id): Option<Env> {
    match Lookup(m.idEnv, id)
    case Some(env) => if Lookup(m.envId, env) == Some(id) then Some(env) else None
    case None => None
  }

  predicate AlreadyCurrent(m: Links, l: Link) {
    Lookup(m.envId, l.env) == Some(l.id)
  }

  /** A `put_link` request that stops after `k` of its two writes: the reverse entry, then the current ID. */
  function Put(m: Links, l: Link, k: nat): Links {
    if AlreadyCurrent(m, l) || k == 0 then m
    else
      var recorded := m.(idEnv := m.idEnv[l.id := l.env]);
      if k == 1 then recorded else recorded.(envId := m.envId[l.env := l.id])
  }

  /** Every current ID leads back to its environment. */
  ghost predicate Sound(m: Links) {
    forall e | e in m.envId :: Lookup(m.idEnv, m.envId[e]) == Some(e)
  }

  ghost predicate TakesOver(m: Links, l: Link) {
    exists e | e in m.envId :: e != l.env && m.envId[e] == l.id
  }

  /** In sound links the IDs that resolve are exactly the current ones, one for each environment. */
  lemma ResolvesExactlyCurrent(m: Links, env: Env, id: Id)
    requires Sound(m)
    ensures Resolve(m, id) == Some(env) <==> Lookup(m.envId, env) == Some(id)
  {
  }

  /** A link request keeps the links sound, whether or not it is cut short, exactly when it does not
      write the reverse entry of another environment's current ID. */
  lemma PutKeepsSound(m: Links, l: Link, k: nat)
    requires Sound(m)
    ensures Sound(Put(m, l, k)) <==> k == 0 || !TakesOver(m, l)
  {
  }

  /** Until the last write, links resolve as before; then the new ID works, the environment's old one
      no longer does, and nothing else changes. */
  lemma PutSwitchesAtOnce(m: Links, l: Link, k: nat, id: Id)
    requires Sound(m) && !TakesOver(m, l)
    ensures k < 2 ==> Resolve(Put(m, l, k), id) == Resolve(m, id)
    ensures k >= 2 ==> Resolve(Put(m, l, k), id) ==
                       if id == l.id then Some(l.env)
                       else if Resolve(m, id) == Some(l.env) then None
                       else Resolve(m, id)
  {
  }

  function Run(m: Links, requests: seq<(Link, nat)>): Links
    decreases |requests|
  {
    if requests == [] then m else Run(Put(m, requests[0].0, requests[0].1), requests[1..])
  }

  ghost predicate NoTakeover(m: Links, requests: seq<(Link, nat)>)
    decreases |requests|
  {
    requests != [] ==>
      !TakesOver(m, requests[0].0) && NoTakeover(Put(m, requests[0].0, requests[0].1), requests[1..])
  }

  lemma {:induction false} EveryRunIsSound(m: Links, requests: seq<(Link, nat)>)
    requires Sound(m) && NoTakeover(m, requests)
    ensures Sound(Run(m, requests))
    decreases |requests|
  {
    if requests == [] {
    } else {
      PutKeepsSound(m, requests[0].0, requests[0].1);
      EveryRunIsSound(Put(m, requests[0].0, requests[0].1), requests[1..]);
    }
  }

  /** Whatever came before without taking over an ID, an ID works once it has been put. */
  lemma {:induction false} LastPutResolves(m: Links, requests: seq<(Link, nat)>, l: Link)
    requires Sound(m) && NoTakeover(m, requests)
    ensures Resolve(Run(m, requests + [(l, 2)]), l.id) == Some(l.env)
    decreases |requests|
  {
    var all := requests + [(l, 2)];
    if requests == [] {
      assert all == [(l, 2)] && all[1..] == [];
    } else {
      assert all[1..] == requests[1..] + [(l, 2)];
      PutKeepsSound(m, requests[0].0, requests[0].1);
      LastPutResolves(Put(m, requests[0].0, requests[0].1), requests[1..], l);
    }
  }

  class LinkStore {
    const wire: Wire
    var envId: map<Env, Id>
    var idEnv: map<Id, Env>

    constructor (wire: Wire)
      ensures Contents() == Links(map[], map[]) && this.wire == wire
    {
      this.wire := wire;
      envId, idEnv := map[], map[];
    }

    function Contents(): Links
      reads this
    {
      Links(envId, idEnv)
    }

    /** The handler has made a first part of its writes, all of them on success. */
    method PutLink(env: Env, newId: Id) returns (ok: bool)
      modifies this, wire
      ensures exists k :: k <= 2 && Contents() == Put(old(Contents()), Link(env, newId), k) && (ok ==> k == 2)
      ensures wire.faults >= old(wire.faults)
      ensures ok <==> wire.faults == old(wire.faults)
    {
      ghost var m, l := Contents(), Link(env, newId);
      var reply := wire.Call();
      if !reply.Succeeded? {
        assert Contents() == Put(m, l, 0);
        return false;
      }
      var alreadyCurrent := env in envId && envId[env] == newId;
      if !alreadyCurrent {
        reply := wire.Call();
        if !reply.Refused? {
          idEnv := idEnv[newId := env];
        }
        if !reply.Succeeded? {
          assert Contents() == Put(m, l, if reply.Refused? then 0 else 1);
          return false;
        }
        reply := wire.Call();
        if !reply.Refused? {
          envId := envId[env := newId];
        }
        if !reply.Succeeded? {
          assert Contents() == Put(m, l, if reply.Refused? then 1 else 2);
          return false;
        }
      }
      assert Contents() == Put(m, l, 2);
      reply := wire.Call();
      ok := reply.Succeeded?;
    }
  }
}
