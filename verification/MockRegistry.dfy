/** The registry of running mock servers and its endpoint index (mock_server_runtime_registry.py). */
module MockRegistry {
  import opened PyText

  /** `_normalize_endpoint`. */
  function NormalizeEndpoint(e: string): string { Lower(Trim(Strip(e), IsSlash)) }

  /** A loaded server: its endpoint as the loader normalised it, and its number of queue bindings. */
  datatype Server = Server(endpoint: string, queues: nat)

  /** The class-level state. Listener threads are numbered as they are created. */
  datatype Registry = Registry(
    servers: map<string, Server>, endpoints: map<string, string>, threads: map<string, seq<nat>>,
    running: set<nat>, created: nat)

  const EMPTY := Registry(map[], map[], map[], {}, 0)

  function Members(xs: seq<nat>): set<nat> { set x | x in xs }

  /** `_stop_server_locked`. */
  function Stopped(r: Registry, id: string): Registry {
    var endpoints :=
      if id !in r.servers then r.endpoints
      else
        var e := NormalizeEndpoint(r.servers[id].endpoint);
        if e in r.endpoints && r.endpoints[e] == id then r.endpoints - {e} else r.endpoints;
    var threads := if id in r.threads then r.threads[id] else [];
    Registry(r.servers - {id}, endpoints, r.threads - {id}, r.running - Members(threads), r.created)
  }

  function Numbers(from: nat, n: nat): (xs: seq<nat>)
    ensures |xs| == n && forall i | 0 <= i < n :: xs[i] == from + i
  {
    seq(n, i requires 0 <= i < n => from + i)
  }

  /** The locked part of `start_server`; creating listener `failAt` raises when there is one. */
  function Started(r: Registry, id: string, server: Server, failAt: Option<nat>): Registry {
    var s := Stopped(r, id);
    var fails := failAt.Some? && failAt.value < server.queues;
    var made := Numbers(s.created, if fails then failAt.value else server.queues);
    Registry(s.servers[id := server], s.endpoints[server.endpoint := id],
             if fails then s.threads else s.threads[id := made],
             s.running + Members(made), s.created + |made|)
  }

  function Lookup(r: Registry, endpoint: string): Option<Server> {
    var e := NormalizeEndpoint(endpoint);
    if e !in r.endpoints || r.endpoints[e] == [] || r.endpoints[e] !in r.servers then None
    else Some(r.servers[r.endpoints[e]])
  }

  class MockServerRuntimeRegistry {
    var serversById: map<string, Server>
    var serverIdsByEndpoint: map<string, string>
    var queueThreadsByServerId: map<string, seq<nat>>
    var running: set<nat>
    var created: nat

    function State(): Registry
      reads this
    {
      Registry(serversById, serverIdsByEndpoint, queueThreadsByServerId, running, created)
    }

    method GetServerByEndpoint(endpoint: string) returns (server: Option<Server>)
      ensures server == Lookup(State(), endpoint)
    {
      var e := NormalizeEndpoint(endpoint);
      if e !in serverIdsByEndpoint || serverIdsByEndpoint[e] == [] {
        return None;
      }
      var id := serverIdsByEndpoint[e];
      server := if id in serversById then Some(serversById[id]) else None;
    }

    method StopServerLocked(id: string)
      modifies this
      ensures State() == Stopped(old(State()), id)
    {
      hide NormalizeEndpoint, Members;
      if id in serversById {
        var e := NormalizeEndpoint(serversById[id].endpoint);
        if e in serverIdsByEndpoint && serverIdsByEndpoint[e] == id {
          serverIdsByEndpoint := serverIdsByEndpoint - {e};
        }
      }
      serversById := serversById - {id};
      var threads := if id in queueThreadsByServerId then queueThreadsByServerId[id] else [];
      queueThreadsByServerId := queueThreadsByServerId - {id};
      StopThreads(threads);
    }

    method StopThreads(threads: seq<nat>)
      modifies this`running
      ensures running == old(running) - Members(threads)
    {
      for i := 0 to |threads|
        invariant running == old(running) - Members(threads[..i])
      {
        assert threads[..i + 1] == threads[..i] + [threads[i]];
        running := running - {threads[i]};
      }
      assert threads[..|threads|] == threads;
    }

    /** `raised` is whether creating a listener raised. */
    method StartServer(id: string, server: Server, failAt: Option<nat>) returns (raised: bool)
      modifies this
      ensures State() == Started(old(State()), id, server, failAt)
      ensures raised <==> failAt.Some? && failAt.value < server.queues
    {
      StopServerLocked(id);
      ghost var stopped := State();
      serversById := serversById[id := server];
      serverIdsByEndpoint := serverIdsByEndpoint[server.endpoint := id];
      var threads := [];
      for i := 0 to server.queues
        invariant failAt.Some? ==> i <= failAt.value || server.queues <= failAt.value
        invariant threads == Numbers(stopped.created, i) && created == stopped.created + i
        invariant running == stopped.running + Members(threads)
        invariant serversById == stopped.servers[id := server] && queueThreadsByServerId == stopped.threads
        invariant serverIdsByEndpoint == stopped.endpoints[server.endpoint := id]
      {
        if failAt == Some(i) {
          return true;
        }
        running := running + {created};
        threads := threads + [created];
        created := created + 1;
      }
      queueThreadsByServerId := queueThreadsByServerId[id := threads];
      raised := false;
    }
  }

  // ---- runs -------------------------------------------------------------------------------------

  datatype Op = Start(id: string, server: Server, failAt: Option<nat>) | Stop(id: string)

  function Apply(r: Registry, op: Op): Registry {
    match op
    case Start(id, server, failAt) => Started(r, id, server, failAt)
    case Stop(id) => Stopped(r, id)
  }

  function Run(r: Registry, ops: seq<Op>): Registry
    decreases |ops|
  {
    if ops == [] then r else Run(Apply(r, ops[0]), ops[1..])
  }

  /** A text that normalising leaves as it is. */
  predicate Stable(e: string) { NormalizeEndpoint(e) == e }

  /** Every index entry under a stable text names a live server that has that endpoint. */
  ghost predicate IndexAgrees(r: Registry) {
    forall e | e in r.endpoints && Stable(e) :: r.endpoints[e] in r.servers && r.servers[r.endpoints[e]].endpoint == e
  }

  lemma OpKeepsIndex(r: Registry, op: Op)
    requires IndexAgrees(r)
    ensures IndexAgrees(Apply(r, op))
  {
    hide NormalizeEndpoint;
  }

  /** In every state that starts, restarts, failed starts and stops reach, whatever endpoints the servers
      have been loaded with, the entries under stable texts agree. */
  lemma {:induction false} IndexAlwaysAgrees(r: Registry, ops: seq<Op>)
    requires IndexAgrees(r)
    ensures IndexAgrees(Run(r, ops))
    decreases |ops|
  {
    hide IndexAgrees, Apply;
    if ops == [] {
    } else {
      OpKeepsIndex(r, ops[0]);
      IndexAlwaysAgrees(Apply(r, ops[0]), ops[1..]);
    }
  }

  /** A lookup by a text whose normal form is stable answers a server that is live now and that has the
      requested endpoint, and fails only where the index has no entry. */
  lemma LookupIsExact(ops: seq<Op>, endpoint: string)
    requires Stable(NormalizeEndpoint(endpoint))
    ensures var r := Run(EMPTY, ops);
            match Lookup(r, endpoint)
            case Some(server) => server.endpoint == NormalizeEndpoint(endpoint) &&
                                 exists id :: id in r.servers && r.servers[id] == server
            case None => NormalizeEndpoint(endpoint) !in r.endpoints || r.endpoints[NormalizeEndpoint(endpoint)] == []
  {
    hide NormalizeEndpoint, Run;
    IndexAlwaysAgrees(EMPTY, ops);
  }

  // ---- the texts that the router passes ---------------------------------------------------------

  predicate SlashFree(s: string) { forall i | 0 <= i < |s| :: s[i] != '/' }

  /** The router's `{server_endpoint}` holds no slash: its normal form is stable. */
  lemma SlashFreeIsStable(e: string)
    requires SlashFree(e)
    ensures Stable(NormalizeEndpoint(e)) && SlashFree(NormalizeEndpoint(e))
  {
    hide Strip, IsSpace;
    var t := Strip(e);
    StripIsPart(e);
    TrimKeeps(t, IsSlash);
    TrimmedEnds(t);
    EndpointNormalFormIsExact(e);
    StripEnds(e);
  }

  lemma StripIsPart(e: string)
    requires SlashFree(e)
    ensures SlashFree(Strip(e))
  {
    var left := TrimLeft(e, IsSpace);
    assert forall i | 0 <= i < |left| :: left[i] == e[|e| - |left| + i];
    assert Strip(e) <= left;
  }

  lemma StripEnds(e: string)
    ensures var t := Strip(e); t != [] ==> !IsSpace(t[0]) && !IsSpace(t[|t| - 1])
  {
    hide Trim;
  }

  /** So every lookup of the program answers a live server with the requested endpoint. */
  lemma RouterLookupIsExact(ops: seq<Op>, endpoint: string)
    requires SlashFree(endpoint)
    ensures var r := Run(EMPTY, ops);
            match Lookup(r, endpoint)
            case Some(server) => server.endpoint == NormalizeEndpoint(endpoint) &&
                                 exists id :: id in r.servers && r.servers[id] == server
            case None => NormalizeEndpoint(endpoint) !in r.endpoints || r.endpoints[NormalizeEndpoint(endpoint)] == []
  {
    hide NormalizeEndpoint, Run;
    SlashFreeIsStable(endpoint);
    LookupIsExact(ops, endpoint);
  }

  /** A started server is found by some text of the router if and only if its endpoint is stable and holds
      no slash. */
  lemma FoundExactly(ops: seq<Op>, id: string, server: Server)
    requires id != []
    ensures var r := Apply(Run(EMPTY, ops), Start(id, server, None));
            (exists text :: SlashFree(text) && Lookup(r, text) == Some(server))
            <==> Stable(server.endpoint) && SlashFree(server.endpoint)
  {
    hide NormalizeEndpoint, Run;
    var r := Apply(Run(EMPTY, ops), Start(id, server, None));
    IndexAlwaysAgrees(EMPTY, ops);
    OpKeepsIndex(Run(EMPTY, ops), Start(id, server, None));
    forall text | SlashFree(text) && Lookup(r, text) == Some(server)
      ensures Stable(server.endpoint) && SlashFree(server.endpoint)
    {
      SlashFreeIsStable(text);
    }
    if Stable(server.endpoint) && SlashFree(server.endpoint) {
      assert Lookup(r, server.endpoint) == Some(server);
    }
  }

  // ---- endpoints that are not in normal form ----------------------------------------------------

  lemma TrimmedEnds(s: string)
    ensures var r := Lower(s); |r| == |s| && forall i | 0 <= i < |s| :: (r[i] == '/' <==> s[i] == '/') && (IsSpace(r[i]) <==> IsSpace(s[i]))
  {
    forall i | 0 <= i < |s| { LowerKeepsSpace(s[i]); }
  }

  /** Normalising again changes the endpoint exactly when a space is left at one of its ends. */
  lemma EndpointNormalFormIsExact(e: string)
    ensures var n := NormalizeEndpoint(e);
            NormalizeEndpoint(n) == n <==> n == [] || (!IsSpace(n[0]) && !IsSpace(n[|n| - 1]))
  {
    hide Strip, IsSpace;
    var t := Trim(Strip(e), IsSlash);
    var n := NormalizeEndpoint(e);
    TrimmedEnds(t);
    LowerIdempotent(t);
    if n == [] || (!IsSpace(n[0]) && !IsSpace(n[|n| - 1])) {
      StripKeeps(n);
      TrimKeeps(n, IsSlash);
    } else {
      StripShortens(n);
      assert |NormalizeEndpoint(n)| < |n|;
    }
  }

  lemma StripShortens(s: string)
    requires s != [] && (IsSpace(s[0]) || IsSpace(s[|s| - 1]))
    ensures |Strip(s)| < |s|
  {
    hide IsSpace, Trim;
    TrimShortens(s, IsSpace);
  }

  /** From an empty registry, stopping a started server clears its index entry exactly when its endpoint
      is in normal form. */
  lemma StopClearsExactly(id: string, server: Server)
    ensures var r := Run(EMPTY, [Start(id, server, None), Stop(id)]);
            r.endpoints == map[] <==> NormalizeEndpoint(server.endpoint) == server.endpoint
  {
    hide NormalizeEndpoint;
    var ops := [Start(id, server, None), Stop(id)];
    assert ops[1..] == [Stop(id)] && ops[1..][1..] == [];
    var s := Started(EMPTY, id, server, None);
    assert s.endpoints == map[server.endpoint := id] && s.servers == map[id := server];
    assert Run(EMPTY, ops) == Run(s, [Stop(id)]) == Run(Stopped(s, id), []);
    var e := NormalizeEndpoint(server.endpoint);
    if e != server.endpoint {
      assert server.endpoint in Stopped(s, id).endpoints;
    }
  }

  /** The endpoint with which a server is loaded: the configuration class, the stored entity and the
      loader each normalise it. */
  function LoadedEndpoint(e: string): string { NormalizeEndpoint(Lower(Strip(NormalizeEndpoint(e)))) }

  /** The endpoint "/ / a" of a configuration is loaded as " a", which is not stable. No text of the router
      finds the server. After it is restarted with another endpoint its entry is left behind, and a text
      with the unstable normal form " a" answers a server that does not have it. */
  lemma StaleEntryAnswers(id: string, ops: seq<Op>)
    requires id != []
    ensures LoadedEndpoint("/ / a") == " a" && !Stable(" a")
    ensures forall text | SlashFree(text) :: Lookup(Apply(Run(EMPTY, ops), Start(id, Server(" a", 0), None)), text) != Some(Server(" a", 0))
    ensures var r := Run(EMPTY, [Start(id, Server(" a", 0), None), Start(id, Server("b", 0), None)]);
            NormalizeEndpoint("/ a") == " a" && Lookup(r, "/ a") == Some(Server("b", 0))
  {
    LoadedSpaceA();
    hide NormalizeEndpoint, LoadedEndpoint;
    FoundExactly(ops, id, Server(" a", 0));
    var a, b := Start(id, Server(" a", 0), None), Start(id, Server("b", 0), None);
    assert [a, b][1..] == [b] && [b][1..] == [];
    var s := Started(EMPTY, id, Server(" a", 0), None);
    assert s.endpoints[" a"] == id && s.servers == map[id := Server(" a", 0)];
    var t := Started(s, id, Server("b", 0), None);
    assert t.endpoints[" a"] == id && t.servers[id] == Server("b", 0);
    assert Run(EMPTY, [a, b]) == Run(s, [b]) == Run(t, []) == t;
  }

  /** " / a" once normalised, "/ a" stored, " a" loaded. */
  lemma LoadedSpaceA()
    ensures LoadedEndpoint("/ / a") == " a" && NormalizeEndpoint("/ a") == " a" && !Stable(" a")
  {
    hide Strip, Trim, Lower, IsSpace;
    SpaceIsSpace();
    StripKeeps("/ / a");
    StripKeeps("/ a");
    TrimmedTexts();
    LoweredTexts();
    EndpointNormalFormIsExact("/ a");
  }

  lemma SpaceIsSpace()
    ensures IsSpace(' ') && !IsSpace('/') && !IsSpace('a')
  {
  }

  /** `text` after one character to be dropped. */
  lemma TrimOne(text: string, drop: char -> bool)
    requires |text| > 1 && drop(text[0]) && !drop(text[1]) && !drop(text[|text| - 1])
    ensures Trim(text, drop) == text[1..]
  {
    hide TrimRight;
    var rest := text[1..];
    assert rest[0] == text[1] && rest[|rest| - 1] == text[|text| - 1];
    assert Leading(text, drop, 1) == 1 && Leading(rest, drop, 0) == 0;
    assert TrimLeft(text, drop) == TrimLeft(rest, drop) == rest;
    TrimKeeps(rest, drop);
  }

  lemma TrimmedTexts()
    ensures Trim("/ / a", IsSlash) == " / a" && Trim("/ a", IsSlash) == " a" && Strip(" / a") == "/ a"
  {
    hide Trim;
    assert "/ / a"[1..] == " / a" && "/ a"[1..] == " a" && " / a"[1..] == "/ a";
    TrimOne("/ / a", IsSlash);
    TrimOne("/ a", IsSlash);
    TrimOne(" / a", IsSpace);
  }

  lemma LoweredTexts()
    ensures Lower("/ a") == "/ a" && Lower(" / a") == " / a" && Lower(" a") == " a"
  {
  }

  // ---- listeners --------------------------------------------------------------------------------

  ghost predicate Recorded(r: Registry, thread: nat) { exists id :: id in r.threads && thread in r.threads[id] }

  /** A listener that runs and that no server's list holds. */
  ghost predicate Orphan(r: Registry, thread: nat) { thread in r.running && !Recorded(r, thread) }

  /** Listener numbers are below the counter. */
  ghost predicate Numbered(r: Registry) {
    && (forall t <- r.running :: t < r.created)
    && forall id, t | id in r.threads && t in r.threads[id] :: t < r.created
  }

  lemma OpKeepsNumbers(r: Registry, op: Op)
    requires Numbered(r)
    ensures Numbered(Apply(r, op))
  {
    hide NormalizeEndpoint;
  }

  /** No start or stop ever stops an orphan. */
  lemma OpKeepsOrphans(r: Registry, op: Op, thread: nat)
    requires Numbered(r) && Orphan(r, thread)
    ensures Orphan(Apply(r, op), thread)
  {
    hide NormalizeEndpoint;
  }

  lemma {:induction false} OrphansStay(r: Registry, ops: seq<Op>, thread: nat)
    requires Numbered(r) && Orphan(r, thread)
    ensures Orphan(Run(r, ops), thread)
    decreases |ops|
  {
    hide Apply, Numbered, Orphan;
    if ops == [] {
    } else {
      OpKeepsNumbers(r, ops[0]);
      OpKeepsOrphans(r, ops[0], thread);
      OrphansStay(Apply(r, ops[0]), ops[1..], thread);
    }
  }

  /** A start that raises at listener `n` leaves exactly the `n` listeners before it running for good:
      no sequence of starts and stops reaches them. */
  lemma FailedStartLeaks(r: Registry, id: string, server: Server, n: nat, ops: seq<Op>, thread: nat)
    requires Numbered(r) && n < server.queues && r.created <= thread < r.created + n
    ensures Orphan(Run(Started(r, id, server, Some(n)), ops), thread)
  {
    hide NormalizeEndpoint, Run;
    var s := Started(r, id, server, Some(n));
    assert Numbers(r.created, n)[thread - r.created] == thread;
    OpKeepsNumbers(r, Start(id, server, Some(n)));
    OrphansStay(s, ops, thread);
  }

  /** A start that raises after it has made a listener. */
  predicate Leaks(op: Op) { op.Start? && op.failAt.Some? && 0 < op.failAt.value < op.server.queues }

  lemma OpMakesNoOrphan(r: Registry, op: Op)
    requires (forall t :: !Orphan(r, t)) && !Leaks(op)
    ensures forall t :: !Orphan(Apply(r, op), t)
  {
    hide NormalizeEndpoint;
    var s := Apply(r, op);
    forall t
      ensures !Orphan(s, t)
    {
      var stopped := Stopped(r, op.id);
      if t in stopped.running {
        assert !Orphan(r, t);
        var id :| id in r.threads && t in r.threads[id];
        assert id != op.id && id in s.threads && s.threads[id] == r.threads[id];
      } else if t in s.running {
        assert t in s.threads[op.id];
      }
    }
  }

  lemma {:induction false} NoOrphanWithoutLeak(r: Registry, ops: seq<Op>)
    requires (forall t :: !Orphan(r, t)) && forall i | 0 <= i < |ops| :: !Leaks(ops[i])
    ensures forall t :: !Orphan(Run(r, ops), t)
    decreases |ops|
  {
    hide Apply, Orphan, Leaks;
    if ops == [] {
    } else {
      OpMakesNoOrphan(r, ops[0]);
      NoOrphanWithoutLeak(Apply(r, ops[0]), ops[1..]);
    }
  }

  lemma {:induction false} RunSplits(r: Registry, ops: seq<Op>, i: nat)
    requires i < |ops| && Numbered(r)
    ensures var before := Run(r, ops[..i]);
            Numbered(before) && Run(r, ops) == Run(Apply(before, ops[i]), ops[i + 1..])
    decreases i
  {
    hide Apply, Numbered;
    if i == 0 {
    } else {
      OpKeepsNumbers(r, ops[0]);
      RunSplits(Apply(r, ops[0]), ops[1..], i - 1);
      assert ops[1..][..i - 1] == ops[..i][1..] && ops[1..][i..] == ops[i + 1..];
    }
  }

  /** In every state that a sequence of starts, restarts, failed starts and stops reaches: a listener
      runs that no server's list holds, if and only if some start raised after making one. */
  lemma OrphansExactly(ops: seq<Op>)
    ensures (exists t :: Orphan(Run(EMPTY, ops), t)) <==> exists i :: 0 <= i < |ops| && Leaks(ops[i])
  {
    hide Run, Started;
    if exists i :: 0 <= i < |ops| && Leaks(ops[i]) {
      var i :| 0 <= i < |ops| && Leaks(ops[i]);
      RunSplits(EMPTY, ops, i);
      var before, op := Run(EMPTY, ops[..i]), ops[i];
      FailedStartLeaks(before, op.id, op.server, op.failAt.value, ops[i + 1..], before.created);
    } else {
      NoOrphanWithoutLeak(EMPTY, ops);
    }
  }
}
