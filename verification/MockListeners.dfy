/** The queue listeners of the mock servers: as long as no start raises, each live server has exactly its
    own, and stopping a server stops these and no others. */
module MockListeners {
  import opened PyText
  import opened MockRegistry

  /** The start makes all the listeners of its server. */
  predicate Succeeds(op: Op) { op.Start? ==> op.failAt.None? || op.server.queues <= op.failAt.value }

  ghost predicate DistinctNumbers(xs: seq<nat>) { forall j, k | 0 <= j < k < |xs| :: xs[j] != xs[k] }

  /** Each live server has as many listeners as it has queues, all running, none shared, and none else runs. */
  ghost predicate EachItsOwn(r: Registry) {
    && r.threads.Keys == r.servers.Keys
    && (forall id | id in r.servers :: |r.threads[id]| == r.servers[id].queues && DistinctNumbers(r.threads[id]))
    && (forall i, j, t | i in r.threads && j in r.threads && t in r.threads[i] && t in r.threads[j] :: i == j)
    && (forall t :: t in r.running <==> exists id :: id in r.threads && t in r.threads[id])
    && forall t <- r.running :: t < r.created
  }

  lemma StopKeepsOwn(r: Registry, id: string)
    requires EachItsOwn(r)
    ensures EachItsOwn(Stopped(r, id))
  {
    hide NormalizeEndpoint;
    var s := Stopped(r, id);
    forall t
      ensures t in s.running <==> exists i :: i in s.threads && t in s.threads[i]
    {
      if t in s.running {
        var i :| i in r.threads && t in r.threads[i];
        assert i in s.threads && t in s.threads[i];
      }
    }
  }

  lemma NewNumbers(r: Registry, n: nat)
    requires EachItsOwn(r)
    ensures DistinctNumbers(Numbers(r.created, n)) && forall t | t in Numbers(r.created, n) :: r.created <= t < r.created + n
    ensures forall id, t | id in r.threads && t in r.threads[id] :: t < r.created
  {
    forall id, t | id in r.threads && t in r.threads[id]
      ensures t < r.created
    {
      assert t in r.running;
    }
  }

  lemma StartKeepsOwn(r: Registry, id: string, server: Server, failAt: Option<nat>)
    requires EachItsOwn(r) && Succeeds(Start(id, server, failAt))
    ensures EachItsOwn(Started(r, id, server, failAt))
  {
    hide NormalizeEndpoint, Stopped, DistinctNumbers;
    var s := Stopped(r, id);
    StopKeepsOwn(r, id);
    StoppedIsGone(r, id);
    NewNumbers(s, server.queues);
    var made := Numbers(s.created, server.queues);
    var n := Started(r, id, server, failAt);
    assert n.threads == s.threads[id := made] && n.servers == s.servers[id := server] && n.running == s.running + Members(made);
    forall t
      ensures t in n.running <==> exists i :: i in n.threads && t in n.threads[i]
    {
      if t in made {
        assert id in n.threads && t in n.threads[id];
      } else if t in s.running {
        var i :| i in s.threads && t in s.threads[i];
        assert i in n.threads && t in n.threads[i];
      }
    }
  }

  lemma StoppedIsGone(r: Registry, id: string)
    requires EachItsOwn(r)
    ensures id !in Stopped(r, id).servers && id !in Stopped(r, id).threads
  {
    hide NormalizeEndpoint;
  }

  lemma {:induction false} RunKeepsOwn(r: Registry, ops: seq<Op>)
    requires EachItsOwn(r) && forall i | 0 <= i < |ops| :: Succeeds(ops[i])
    ensures EachItsOwn(Run(r, ops))
    decreases |ops|
  {
    hide EachItsOwn, Started, Stopped;
    if ops == [] {
    } else {
      match ops[0] {
        case Start(id, server, failAt) => StartKeepsOwn(r, id, server, failAt);
        case Stop(id) => StopKeepsOwn(r, id);
      }
      assert forall i | 0 <= i < |ops[1..]| :: ops[1..][i] == ops[i + 1];
      RunKeepsOwn(Apply(r, ops[0]), ops[1..]);
    }
  }

  /** In every state that starts, restarts and stops reach, each live server has exactly the listeners of
      its queues. */
  lemma ListenersAreExact(ops: seq<Op>)
    requires forall i | 0 <= i < |ops| :: Succeeds(ops[i])
    ensures EachItsOwn(Run(EMPTY, ops))
  {
    hide Succeeds;
    RunKeepsOwn(EMPTY, ops);
  }

  /** A stop takes away the server, its listeners and its own index entry, and leaves all else as it was. */
  lemma StopIsExact(ops: seq<Op>, id: string)
    requires forall i | 0 <= i < |ops| :: Succeeds(ops[i])
    ensures var r := Run(EMPTY, ops);
            var s := Stopped(r, id);
            && id !in s.servers && (forall i | i != id :: i in s.servers <==> i in r.servers)
            && (forall i | i in s.servers :: s.servers[i] == r.servers[i] && i in s.threads && i in r.threads && s.threads[i] == r.threads[i])
            && (forall t :: t in s.running <==> t in r.running && !(id in r.threads && t in r.threads[id]))
            && (forall e | e in s.endpoints :: e in r.endpoints && s.endpoints[e] == r.endpoints[e])
            && forall e | e in r.endpoints && e !in s.endpoints :: r.endpoints[e] == id
  {
    hide NormalizeEndpoint;
    ListenersAreExact(ops);
  }

  /** A start puts the server under its id and its endpoint, in the place of what was there. */
  lemma StartIsExact(ops: seq<Op>, id: string, server: Server)
    requires forall i | 0 <= i < |ops| :: Succeeds(ops[i])
    ensures var r := Run(EMPTY, ops);
            var s := Started(r, id, server, None);
            && id in s.servers && s.servers[id] == server && server.endpoint in s.endpoints && s.endpoints[server.endpoint] == id
            && id in s.threads && |s.threads[id]| == server.queues
            && (forall t | t in s.threads[id] :: t in s.running && t !in r.running)
            && forall i | i in r.servers && i != id ::
                 && i in s.servers && s.servers[i] == r.servers[i] && i in s.threads && i in r.threads && s.threads[i] == r.threads[i]
                 && forall t | t in r.threads[i] :: t in s.running
  {
    hide NormalizeEndpoint, Stopped, DistinctNumbers;
    var r := Run(EMPTY, ops);
    ListenersAreExact(ops);
    StartKeepsOwn(r, id, server, None);
    StopIsExact(ops, id);
    StopKeepsOwn(r, id);
    NewNumbers(Stopped(r, id), server.queues);
    SameCounter(r, id);
  }

  lemma SameCounter(r: Registry, id: string)
    ensures Stopped(r, id).created == r.created
  {
    hide NormalizeEndpoint;
  }
}
