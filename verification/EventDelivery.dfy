/** All interleavings of publications, subscriptions and readers over the event bus: what each
    subscriber is shown, and what it is not. */
module EventDelivery {
  import opened PyText
  import opened EventBus

  /** A publication between its locked part and its last delivery. */
  datatype Delivery = Delivery(exec: string, index: nat, frame: Frame, remaining: seq<nat>)

  /** What happened to one subscriber. Frames are named by their position in the log of the execution. */
  datatype Member = Member(exec: string, joined: nat, left: Option<nat>, snapshot: seq<Frame>,
                           delivered: seq<nat>, dropped: set<nat>, taken: nat)

  /** The bus, the publications in flight by thread, and the history of the run. */
  datatype World = World(bus: Bus, flying: map<nat, Delivery>, log: map<string, seq<Frame>>, members: seq<Member>)

  /** The steps that threads interleave. */
  datatype Step =
    | Begin(thread: nat, exec: string, frame: Frame)
    | Put(thread: nat)
    | End(thread: nat)
    | Subscribing(exec: string)
    | Unsubscribing(exec: string, queue: nat)
    | Take(queue: nat)

  function LogOf(s: World, e: string): seq<Frame> { if e in s.log then s.log[e] else [] }

  predicate Enabled(s: World, step: Step) {
    match step
    case Begin(t, e, _) => t !in s.flying && e != []
    case Put(t) => t in s.flying && s.flying[t].remaining != [] && s.flying[t].remaining[0] < |s.bus.queues|
                   && |s.members| == |s.bus.queues|
    case End(t) => t in s.flying && s.flying[t].remaining == []
    case Subscribing(_) => true
    case Unsubscribing(_, q) => q < |s.members|
    case Take(q) => q < |s.members| && q < |s.bus.queues| && s.bus.queues[q] != []
  }

  function Began(s: World, t: nat, e: string, f: Frame): World {
    var d := Delivery(e, |LogOf(s, e)|, f, SubscribersOf(s.bus, e));
    World(Recorded(s.bus, e, f), s.flying[t := d], s.log[e := LogOf(s, e) + [f]], s.members)
  }

  function WasPut(s: World, t: nat): World
    requires Enabled(s, Put(t))
  {
    var d := s.flying[t];
    var q := d.remaining[0];
    var m := s.members[q];
    var m' := if |s.bus.queues[q]| < QUEUE_SIZE then m.(delivered := m.delivered + [d.index])
              else m.(dropped := m.dropped + {d.index});
    World(Offered(s.bus, q, d.frame), s.flying[t := d.(remaining := d.remaining[1..])], s.log, s.members[q := m'])
  }

  function HasJoined(s: World, e: string): World {
    s.(bus := Joined(s.bus, e),
       members := s.members + [Member(e, |LogOf(s, e)|, None, HistoryOf(s.bus, e), [], {}, 0)])
  }

  function HasLeft(s: World, e: string, q: nat): World
    requires q < |s.members|
  {
    s.(bus := Left(s.bus, e, q),
       members := if q in SubscribersOf(s.bus, e) then s.members[q := s.members[q].(left := Some(|LogOf(s, e)|))]
                  else s.members)
  }

  function HasTaken(s: World, q: nat): World
    requires Enabled(s, Take(q))
  {
    s.(bus := Taken(s.bus, q), members := s.members[q := s.members[q].(taken := s.members[q].taken + 1)])
  }

  function Apply(s: World, step: Step): World
    requires Enabled(s, step)
  {
    match step
    case Begin(t, e, f) => Began(s, t, e, f)
    case Put(t) => WasPut(s, t)
    case End(t) => s.(flying := s.flying - {t})
    case Subscribing(e) => HasJoined(s, e)
    case Unsubscribing(e, q) => HasLeft(s, e, q)
    case Take(q) => HasTaken(s, q)
  }

  const START := World(Bus(map[], map[], []), map[], map[], [])

  /** `s` is reached from `from` by `steps`. */
  ghost predicate Reaches(from: World, steps: seq<Step>, s: World)
    decreases |steps|
  {
    if steps == [] then s == from
    else Enabled(from, steps[0]) && Reaches(Apply(from, steps[0]), steps[1..], s)
  }

  // ---- the invariant ----------------------------------------------------------------------------

  function LastOf(xs: seq<Frame>): seq<Frame> { if |xs| <= HISTORY_SIZE then xs else xs[|xs| - HISTORY_SIZE..] }

  function EndOf(s: World, m: Member): nat { if m.left.Some? then m.left.value else |LogOf(s, m.exec)| }

  /** The frames of the subscriber: published after it joined, and before it left if it did. */
  predicate Owed(s: World, m: Member, i: nat) { m.joined <= i < EndOf(s, m) }

  /** Some thread still has to put frame `i` into queue `q`. */
  ghost predicate InFlight(s: World, q: nat, i: nat)
    requires q < |s.members|
  {
    exists t :: t in s.flying && s.flying[t].exec == s.members[q].exec && s.flying[t].index == i && q in s.flying[t].remaining
  }

  /** Exactly one of delivered, dropped and in flight. */
  ghost predicate Once(s: World, q: nat, i: nat)
    requires q < |s.members|
  {
    var m := s.members[q];
    && (i in m.delivered || i in m.dropped || InFlight(s, q, i))
    && !(i in m.delivered && i in m.dropped) && !(i in m.delivered && InFlight(s, q, i)) && !(i in m.dropped && InFlight(s, q, i))
  }

  ghost predicate Distinct(xs: seq<nat>) { forall j, k | 0 <= j < k < |xs| :: xs[j] != xs[k] }

  ghost predicate MemberFits(s: World, m: Member, queue: seq<Frame>) {
    var l := LogOf(s, m.exec);
    && m.joined <= EndOf(s, m) <= |l| && m.snapshot == LastOf(l[..m.joined])
    && Distinct(m.delivered) && (forall k | 0 <= k < |m.delivered| :: Owed(s, m, m.delivered[k]))
    && (forall i <- m.dropped :: Owed(s, m, i))
    && m.taken + |queue| == |m.delivered| && |queue| <= QUEUE_SIZE
    && forall k | 0 <= k < |queue| :: queue[k] == l[m.delivered[m.taken + k]]
  }

  ghost predicate MembersFit(s: World) {
    && |s.members| == |s.bus.queues|
    && forall q | 0 <= q < |s.members| :: MemberFits(s, s.members[q], s.bus.queues[q])
  }

  ghost predicate AllOnce(s: World) {
    forall q, i | 0 <= q < |s.members| && Owed(s, s.members[q], i) :: Once(s, q, i)
  }

  ghost predicate DeliveryFits(s: World, d: Delivery) {
    && d.index < |LogOf(s, d.exec)| && LogOf(s, d.exec)[d.index] == d.frame && Distinct(d.remaining)
    && forall k | 0 <= k < |d.remaining| ::
         var q := d.remaining[k];
         q < |s.members| && s.members[q].exec == d.exec && Owed(s, s.members[q], d.index)
  }

  ghost predicate NoTwins(s: World) {
    forall t, u | t in s.flying && u in s.flying && t != u && s.flying[t].exec == s.flying[u].exec ::
      s.flying[t].index != s.flying[u].index
  }

  ghost predicate FlightsFit(s: World) {
    NoTwins(s) && forall t | t in s.flying :: DeliveryFits(s, s.flying[t])
  }

  ghost predicate ListsDistinct(s: World) { forall e :: Distinct(SubscribersOf(s.bus, e)) }

  predicate IsListed(s: World, e: string, q: nat) { q in SubscribersOf(s.bus, e) }

  predicate IsActive(s: World, e: string, q: nat) {
    q < |s.members| && s.members[q].exec == e && s.members[q].left == None
  }

  ghost predicate ListsExact(s: World) { forall e, q: nat :: IsListed(s, e, q) <==> IsActive(s, e, q) }

  lemma Listed(s: World, e: string, q: nat)
    requires ListsExact(s)
    ensures q in SubscribersOf(s.bus, e) <==> q < |s.members| && s.members[q].exec == e && s.members[q].left == None
  {
    assert IsListed(s, e, q) <==> IsActive(s, e, q);
  }

  ghost predicate HistoriesFit(s: World) { forall e :: HistoryOf(s.bus, e) == LastOf(LogOf(s, e)) }

  ghost predicate Inv(s: World) {
    MembersFit(s) && AllOnce(s) && FlightsFit(s) && ListsDistinct(s) && ListsExact(s) && HistoriesFit(s)
  }

  // ---- steps that publish nothing ---------------------------------------------------------------

  /** The same log, and every subscriber with the same frames owed. */
  ghost predicate Quiet(s: World, s': World) {
    && s'.log == s.log && |s.members| <= |s'.members|
    && forall q | 0 <= q < |s.members| ::
         && s'.members[q].exec == s.members[q].exec && s'.members[q].joined == s.members[q].joined
         && EndOf(s', s'.members[q]) == EndOf(s, s.members[q])
  }

  lemma QuietFlight(s: World, s': World, d: Delivery, d': Delivery)
    requires Quiet(s, s') && DeliveryFits(s, d)
    requires d' == d || (d.remaining != [] && d' == d.(remaining := d.remaining[1..]))
    ensures DeliveryFits(s', d')
  {
    var from := if d' == d then 0 else 1;
    forall k | 0 <= k < |d'.remaining|
      ensures var q := d'.remaining[k];
              q < |s'.members| && s'.members[q].exec == d'.exec && Owed(s', s'.members[q], d'.index)
    {
      assert d'.remaining[k] == d.remaining[k + from];
    }
  }

  lemma QuietFlights(s: World, s': World)
    requires FlightsFit(s) && Quiet(s, s')
    requires forall t | t in s'.flying :: t in s.flying && s'.flying[t] == s.flying[t]
    ensures FlightsFit(s')
  {
    hide DeliveryFits, Quiet;
    forall t | t in s'.flying
      ensures DeliveryFits(s', s'.flying[t])
    {
      QuietFlight(s, s', s.flying[t], s'.flying[t]);
    }
  }

  /** Nobody's deliveries or drops change, and no delivery with work left disappears. */
  lemma QuietOnce(s: World, s': World)
    requires AllOnce(s) && Quiet(s, s')
    requires forall q | 0 <= q < |s.members| ::
               s'.members[q].delivered == s.members[q].delivered && s'.members[q].dropped == s.members[q].dropped
    requires forall q | |s.members| <= q < |s'.members| :: s'.members[q].joined == EndOf(s', s'.members[q])
    requires forall t | t in s'.flying :: t in s.flying && s'.flying[t] == s.flying[t]
    requires forall t | t in s.flying && t !in s'.flying :: s.flying[t].remaining == []
    ensures AllOnce(s')
  {
    forall q, i | 0 <= q < |s'.members| && Owed(s', s'.members[q], i)
      ensures Once(s', q, i)
    {
      assert q < |s.members| && Owed(s, s.members[q], i);
      assert Once(s, q, i);
      SameFlights(s, s', q, i);
    }
  }

  lemma SameFlights(s: World, s': World, q: nat, i: nat)
    requires q < |s.members| <= |s'.members| && s'.members[q].exec == s.members[q].exec
    requires forall t | t in s'.flying :: t in s.flying && s'.flying[t] == s.flying[t]
    requires forall t | t in s.flying && t !in s'.flying :: s.flying[t].remaining == []
    ensures InFlight(s', q, i) <==> InFlight(s, q, i)
  {
    if InFlight(s, q, i) {
      var u :| u in s.flying && s.flying[u].exec == s.members[q].exec && s.flying[u].index == i && q in s.flying[u].remaining;
      assert u in s'.flying;
    }
    if InFlight(s', q, i) {
      var u :| u in s'.flying && s'.flying[u].exec == s'.members[q].exec && s'.flying[u].index == i && q in s'.flying[u].remaining;
      assert u in s.flying;
    }
  }

  /** The same frames, whether or not the subscriber has left since. */
  lemma QuietMember(s: World, s': World, m: Member, m': Member, queue: seq<Frame>)
    requires s'.log == s.log && MemberFits(s, m, queue) && EndOf(s', m') == EndOf(s, m) && m' == m.(left := m'.left)
    ensures MemberFits(s', m', queue)
  {
    hide LastOf;
  }

  lemma QuietMembers(s: World, s': World, except: set<nat>)
    requires MembersFit(s) && Quiet(s, s') && |s'.bus.queues| == |s'.members|
    requires forall q | 0 <= q < |s'.members| && q !in except ::
               && q < |s.members| && s'.bus.queues[q] == s.bus.queues[q]
               && s'.members[q] == s.members[q].(left := s'.members[q].left)
    requires forall q <- except :: q < |s'.members| && MemberFits(s', s'.members[q], s'.bus.queues[q])
    ensures MembersFit(s')
  {
    hide MemberFits;
    forall q | 0 <= q < |s'.members|
      ensures MemberFits(s', s'.members[q], s'.bus.queues[q])
    {
      if q !in except {
        QuietMember(s, s', s.members[q], s'.members[q], s.bus.queues[q]);
      }
    }
  }

  // ---- publishing -------------------------------------------------------------------------------

  lemma LastOfAppend(xs: seq<Frame>, f: Frame)
    ensures LastOf(xs + [f]) == Remember(LastOf(xs), f)
  {
  }

  lemma BeginLists(s: World, t: nat, e: string, f: Frame)
    requires ListsDistinct(s) && ListsExact(s) && HistoriesFit(s)
    ensures ListsDistinct(Began(s, t, e, f)) && ListsExact(Began(s, t, e, f)) && HistoriesFit(Began(s, t, e, f))
  {
    hide LastOf, Remember, Distinct;
    var s' := Began(s, t, e, f);
    forall x
      ensures SubscribersOf(s'.bus, x) == SubscribersOf(s.bus, x)
    {
    }
    forall x
      ensures HistoryOf(s'.bus, x) == LastOf(LogOf(s', x))
    {
      if x == e {
        LastOfAppend(LogOf(s, e), f);
      } else {
        assert LogOf(s', x) == LogOf(s, x) && HistoryOf(s'.bus, x) == HistoryOf(s.bus, x);
      }
    }
    forall x, q: nat
      ensures IsListed(s', x, q) <==> IsActive(s', x, q)
    {
      Listed(s, x, q);
    }
  }

  /** A longer log keeps what a subscriber has. */
  lemma GrownMember(s: World, s': World, m: Member, queue: seq<Frame>)
    requires MemberFits(s, m, queue) && LogOf(s, m.exec) <= LogOf(s', m.exec)
    ensures MemberFits(s', m, queue)
  {
    hide LastOf, Distinct;
    var l, l' := LogOf(s, m.exec), LogOf(s', m.exec);
    assert l'[..m.joined] == l[..m.joined];
    forall k | 0 <= k < |m.delivered|
      ensures Owed(s', m, m.delivered[k])
    {
      assert Owed(s, m, m.delivered[k]);
    }
    forall k | 0 <= k < |queue|
      ensures queue[k] == l'[m.delivered[m.taken + k]]
    {
      assert Owed(s, m, m.delivered[m.taken + k]);
    }
  }

  lemma BeginMembers(s: World, t: nat, e: string, f: Frame)
    requires MembersFit(s)
    ensures MembersFit(Began(s, t, e, f))
  {
    hide MemberFits;
    var s' := Began(s, t, e, f);
    forall q | 0 <= q < |s'.members|
      ensures MemberFits(s', s'.members[q], s'.bus.queues[q])
    {
      GrownMember(s, s', s.members[q], s.bus.queues[q]);
    }
  }

  lemma GrownDelivery(s: World, s': World, d: Delivery)
    requires DeliveryFits(s, d) && s'.members == s.members && forall e :: LogOf(s, e) <= LogOf(s', e)
    ensures DeliveryFits(s', d)
  {
    hide Distinct;
    assert LogOf(s, d.exec) <= LogOf(s', d.exec);
    forall k | 0 <= k < |d.remaining|
      ensures Owed(s', s.members[d.remaining[k]], d.index)
    {
      assert Owed(s, s.members[d.remaining[k]], d.index);
      assert LogOf(s, s.members[d.remaining[k]].exec) <= LogOf(s', s.members[d.remaining[k]].exec);
    }
  }

  lemma BeginFlights(s: World, t: nat, e: string, f: Frame)
    requires Inv(s) && Enabled(s, Begin(t, e, f))
    ensures FlightsFit(Began(s, t, e, f))
  {
    hide AllOnce, MemberFits, HistoriesFit;
    var s' := Began(s, t, e, f);
    var d' := s'.flying[t];
    forall x
      ensures LogOf(s, x) <= LogOf(s', x)
    {
    }
    assert DeliveryFits(s', d') by {
      forall k | 0 <= k < |d'.remaining|
        ensures var q := d'.remaining[k]; q < |s'.members| && s'.members[q].exec == e && Owed(s', s'.members[q], d'.index)
      {
        var q := d'.remaining[k];
        assert q in SubscribersOf(s.bus, e);
        Listed(s, e, q);
        assert MemberFits(s, s.members[q], s.bus.queues[q]);
        JoinedBefore(s, s.members[q], s.bus.queues[q]);
      }
      assert Distinct(SubscribersOf(s.bus, e));
    }
    forall u | u in s'.flying
      ensures DeliveryFits(s', s'.flying[u])
    {
      if u != t {
        GrownDelivery(s, s', s.flying[u]);
      }
    }
    BeginNoTwins(s, t, e, f);
  }

  lemma JoinedBefore(s: World, m: Member, queue: seq<Frame>)
    requires MemberFits(s, m, queue)
    ensures m.joined <= EndOf(s, m) <= |LogOf(s, m.exec)|
  {
  }

  lemma BeginNoTwins(s: World, t: nat, e: string, f: Frame)
    requires FlightsFit(s) && Enabled(s, Begin(t, e, f))
    ensures NoTwins(Began(s, t, e, f))
  {
    var s' := Began(s, t, e, f);
    forall u, v | u in s'.flying && v in s'.flying && u != v && s'.flying[u].exec == s'.flying[v].exec
      ensures s'.flying[u].index != s'.flying[v].index
    {
      if u != t {
        assert DeliveryFits(s, s.flying[u]);
      }
      if v != t {
        assert DeliveryFits(s, s.flying[v]);
      }
    }
  }

  lemma BeginOnce(s: World, t: nat, e: string, f: Frame)
    requires Inv(s) && Enabled(s, Begin(t, e, f))
    ensures AllOnce(Began(s, t, e, f))
  {
    hide LastOf, Remember, FlightsFit, HistoriesFit, ListsDistinct, InFlight, MemberFits;
    var s' := Began(s, t, e, f);
    forall q, i | 0 <= q < |s'.members| && Owed(s', s'.members[q], i)
      ensures Once(s', q, i)
    {
      var m := s.members[q];
      JoinedBefore(s, m, s.bus.queues[q]);
      if Owed(s, m, i) {
        assert Once(s, q, i);
        BeginInFlight(s, t, e, f, q, i);
      } else {
        assert i == |LogOf(s, e)| && m.exec == e && m.left == None;
        Listed(s, e, q);
        NewFlight(s', t, q, i);
        NotYet(s, m, s.bus.queues[q], i);
      }
    }
  }

  lemma NewFlight(s: World, t: nat, q: nat, i: nat)
    requires q < |s.members| && t in s.flying && s.flying[t].exec == s.members[q].exec
    requires s.flying[t].index == i && q in s.flying[t].remaining
    ensures InFlight(s, q, i)
  {
  }

  /** A frame that is not owed yet was neither delivered nor dropped. */
  lemma NotYet(s: World, m: Member, queue: seq<Frame>, i: nat)
    requires MemberFits(s, m, queue) && !Owed(s, m, i)
    ensures i !in m.delivered && i !in m.dropped
  {
    hide LastOf, Distinct;
  }

  lemma BeginInFlight(s: World, t: nat, e: string, f: Frame, q: nat, i: nat)
    requires Enabled(s, Begin(t, e, f)) && q < |s.members|
    requires s.members[q].exec == e ==> i < |LogOf(s, e)|
    ensures InFlight(Began(s, t, e, f), q, i) <==> InFlight(s, q, i)
  {
    var s' := Began(s, t, e, f);
    if InFlight(s, q, i) {
      var u :| u in s.flying && s.flying[u].exec == s.members[q].exec && s.flying[u].index == i && q in s.flying[u].remaining;
      assert u in s'.flying && s'.flying[u] == s.flying[u];
    }
    if InFlight(s', q, i) {
      var u :| u in s'.flying && s'.flying[u].exec == s'.members[q].exec && s'.flying[u].index == i && q in s'.flying[u].remaining;
      assert u != t && s'.flying[u] == s.flying[u];
    }
  }

  // ---- delivering -------------------------------------------------------------------------------

  /** The frame that is put was not dealt with before. */
  lemma PutIsNew(s: World, t: nat)
    requires AllOnce(s) && FlightsFit(s) && Enabled(s, Put(t))
    ensures var d := s.flying[t];
            var m := s.members[d.remaining[0]];
            && d.index !in m.delivered && d.index !in m.dropped && Owed(s, m, d.index) && m.exec == d.exec
            && d.index < |LogOf(s, d.exec)| && LogOf(s, d.exec)[d.index] == d.frame
  {
    var d := s.flying[t];
    var q := d.remaining[0];
    assert DeliveryFits(s, d);
    NewFlight(s, t, q, d.index);
    assert Once(s, q, d.index);
  }

  lemma QuietPut(s: World, t: nat)
    requires Enabled(s, Put(t))
    ensures Quiet(s, WasPut(s, t))
  {
  }

  lemma PutMember(s: World, t: nat)
    requires Inv(s) && Enabled(s, Put(t))
    ensures var q := s.flying[t].remaining[0]; MemberFits(WasPut(s, t), WasPut(s, t).members[q], WasPut(s, t).bus.queues[q])
  {
    hide LastOf, AllOnce, ListsExact, ListsDistinct, FlightsFit, HistoriesFit;
    PutIsNew(s, t);
    QuietPut(s, t);
    var q := s.flying[t].remaining[0];
    assert MemberFits(s, s.members[q], s.bus.queues[q]);
  }

  lemma PutFlights(s: World, t: nat)
    requires FlightsFit(s) && Enabled(s, Put(t))
    ensures FlightsFit(WasPut(s, t))
  {
    hide DeliveryFits, Quiet;
    QuietPut(s, t);
    var s' := WasPut(s, t);
    forall u | u in s'.flying
      ensures DeliveryFits(s', s'.flying[u])
    {
      QuietFlight(s, s', s.flying[u], s'.flying[u]);
    }
  }

  lemma PutOnce(s: World, t: nat)
    requires Inv(s) && Enabled(s, Put(t))
    ensures AllOnce(WasPut(s, t))
  {
    hide MembersFit, FlightsFit, ListsExact, ListsDistinct, HistoriesFit, InFlight;
    var s' := WasPut(s, t);
    PutIsNew(s, t);
    forall q, i | 0 <= q < |s'.members| && Owed(s', s'.members[q], i)
      ensures Once(s', q, i)
    {
      assert Owed(s, s.members[q], i);
      assert Once(s, q, i);
      PutInFlight(s, t, q, i);
    }
  }

  lemma PutInFlight(s: World, t: nat, q: nat, i: nat)
    requires FlightsFit(s) && Enabled(s, Put(t)) && q < |s.members|
    ensures InFlight(WasPut(s, t), q, i) <==>
            InFlight(s, q, i) && !(q == s.flying[t].remaining[0] && i == s.flying[t].index && s.members[q].exec == s.flying[t].exec)
  {
    var s' := WasPut(s, t);
    var d := s.flying[t];
    assert DeliveryFits(s, d);
    assert s'.members[q].exec == s.members[q].exec;
    hide DeliveryFits, WasPut, FlightsFit, Enabled;
    PutFlying(s, t);
    if InFlight(s, q, i) && !(q == d.remaining[0] && i == d.index && s.members[q].exec == d.exec) {
      var u :| u in s.flying && s.flying[u].exec == s.members[q].exec && s.flying[u].index == i && q in s.flying[u].remaining;
      assert u in s'.flying && q in s'.flying[u].remaining;
    }
    if InFlight(s', q, i) {
      var u :| u in s'.flying && s'.flying[u].exec == s'.members[q].exec && s'.flying[u].index == i && q in s'.flying[u].remaining;
      assert u in s.flying && q in s.flying[u].remaining;
    }
  }

  lemma PutFlying(s: World, t: nat)
    requires FlightsFit(s) && Enabled(s, Put(t))
    ensures var s' := WasPut(s, t);
            var d := s.flying[t];
            && s'.flying == s.flying[t := d.(remaining := d.remaining[1..])]
            && d.remaining[0] !in d.remaining[1..]
            && forall q :: q in d.remaining <==> q == d.remaining[0] || q in d.remaining[1..]
  {
    var d := s.flying[t];
    assert DeliveryFits(s, d);
    assert d.remaining == [d.remaining[0]] + d.remaining[1..];
  }

  lemma PutLists(s: World, t: nat)
    requires ListsDistinct(s) && ListsExact(s) && HistoriesFit(s) && Enabled(s, Put(t))
    ensures ListsDistinct(WasPut(s, t)) && ListsExact(WasPut(s, t)) && HistoriesFit(WasPut(s, t))
  {
    hide LastOf, Distinct;
    SameLists(s, WasPut(s, t));
  }

  lemma SameLists(s: World, s': World)
    requires ListsDistinct(s) && ListsExact(s) && HistoriesFit(s)
    requires s'.log == s.log && s'.bus.history == s.bus.history && s'.bus.subscribers == s.bus.subscribers
    requires |s'.members| == |s.members| && forall q | 0 <= q < |s.members| ::
               s'.members[q].exec == s.members[q].exec && s'.members[q].left == s.members[q].left
    ensures ListsDistinct(s') && ListsExact(s') && HistoriesFit(s')
  {
    hide LastOf, Distinct;
    forall e
      ensures SubscribersOf(s'.bus, e) == SubscribersOf(s.bus, e) && HistoryOf(s'.bus, e) == HistoryOf(s.bus, e)
      ensures LogOf(s', e) == LogOf(s, e)
    {
    }
    forall e, q: nat
      ensures IsListed(s', e, q) <==> IsActive(s', e, q)
    {
      Listed(s, e, q);
    }
  }

  lemma PutKeeps(s: World, t: nat)
    requires Inv(s) && Enabled(s, Put(t))
    ensures Inv(WasPut(s, t))
  {
    hide MemberFits, AllOnce, FlightsFit, ListsExact, ListsDistinct, HistoriesFit, Quiet;
    PutMember(s, t);
    PutFlights(s, t);
    PutOnce(s, t);
    PutLists(s, t);
    QuietPut(s, t);
    QuietMembers(s, WasPut(s, t), {s.flying[t].remaining[0]});
  }

  // ---- the other steps --------------------------------------------------------------------------

  lemma EndKeeps(s: World, t: nat)
    requires Inv(s) && Enabled(s, End(t))
    ensures Inv(s.(flying := s.flying - {t}))
  {
    hide MemberFits, AllOnce, FlightsFit, ListsExact, ListsDistinct, HistoriesFit;
    var s' := s.(flying := s.flying - {t});
    QuietFlights(s, s');
    QuietOnce(s, s');
    QuietMembers(s, s', {});
    SameLists(s, s');
  }

  lemma JoinKeeps(s: World, e: string)
    requires Inv(s)
    ensures Inv(HasJoined(s, e))
  {
    hide MemberFits, AllOnce, FlightsFit, ListsExact, ListsDistinct, HistoriesFit;
    var s' := HasJoined(s, e);
    QuietFlights(s, s');
    QuietOnce(s, s');
    NewMemberFits(s, e);
    QuietMembers(s, s', {|s.members|});
    JoinLists(s, e);
  }

  lemma NewMemberFits(s: World, e: string)
    requires HistoriesFit(s)
    ensures MemberFits(HasJoined(s, e), Member(e, |LogOf(s, e)|, None, HistoryOf(s.bus, e), [], {}, 0), [])
  {
    hide LastOf;
    assert LogOf(s, e)[..|LogOf(s, e)|] == LogOf(s, e);
  }

  lemma JoinLists(s: World, e: string)
    requires ListsDistinct(s) && ListsExact(s) && HistoriesFit(s) && |s.members| == |s.bus.queues|
    ensures ListsDistinct(HasJoined(s, e)) && ListsExact(HasJoined(s, e)) && HistoriesFit(HasJoined(s, e))
  {
    hide LastOf;
    var s' := HasJoined(s, e);
    Listed(s, e, |s.members|);
    forall x
      ensures SubscribersOf(s'.bus, x) == if x == e then SubscribersOf(s.bus, e) + [|s.members|] else SubscribersOf(s.bus, x)
      ensures Distinct(SubscribersOf(s'.bus, x)) && HistoryOf(s'.bus, x) == HistoryOf(s.bus, x) && LogOf(s', x) == LogOf(s, x)
    {
      assert Distinct(SubscribersOf(s.bus, x));
    }
    forall x, p: nat
      ensures IsListed(s', x, p) <==> IsActive(s', x, p)
    {
      Listed(s, x, p);
    }
  }

  lemma {:induction false} WithoutIsDistinct(xs: seq<nat>, q: nat)
    requires Distinct(xs)
    ensures Distinct(Without(xs, q)) && q !in Without(xs, q)
  {
    if xs == [] {
    } else {
      var tail := xs[1..];
      assert forall k | 0 <= k < |tail| :: tail[k] == xs[k + 1];
      WithoutIsDistinct(tail, q);
      if xs[0] != q {
        DistinctCons(xs[0], Without(tail, q));
      }
    }
  }

  lemma DistinctCons(x: nat, xs: seq<nat>)
    requires Distinct(xs) && x !in xs
    ensures Distinct([x] + xs)
  {
    var r := [x] + xs;
    forall j, k | 0 <= j < k < |r|
      ensures r[j] != r[k]
    {
      assert r[k] == xs[k - 1] && (j > 0 ==> r[j] == xs[j - 1]);
    }
  }

  lemma LeaveLists(s: World, e: string, q: nat)
    requires ListsDistinct(s) && ListsExact(s) && HistoriesFit(s) && q < |s.members|
    ensures ListsDistinct(HasLeft(s, e, q)) && ListsExact(HasLeft(s, e, q)) && HistoriesFit(HasLeft(s, e, q))
  {
    hide LastOf, Without, Distinct;
    var s' := HasLeft(s, e, q);
    assert Distinct(SubscribersOf(s.bus, e));
    WithoutIsDistinct(SubscribersOf(s.bus, e), q);
    forall x
      ensures SubscribersOf(s'.bus, x) == if x == e then Without(SubscribersOf(s.bus, e), q) else SubscribersOf(s.bus, x)
      ensures HistoryOf(s'.bus, x) == HistoryOf(s.bus, x) && LogOf(s', x) == LogOf(s, x)
    {
    }
    forall x
      ensures Distinct(SubscribersOf(s'.bus, x))
    {
      assert Distinct(SubscribersOf(s.bus, x));
    }
    forall x, p: nat
      ensures IsListed(s', x, p) <==> IsActive(s', x, p)
    {
      Listed(s, x, p);
      Listed(s, e, q);
    }
  }

  lemma LeaveKeeps(s: World, e: string, q: nat)
    requires Inv(s) && q < |s.members|
    ensures Inv(HasLeft(s, e, q))
  {
    hide MemberFits, AllOnce, FlightsFit, ListsDistinct, HistoriesFit, Without;
    var s' := HasLeft(s, e, q);
    LeaveLists(s, e, q);
    QuietLeave(s, e, q);
    QuietFlights(s, s');
    QuietOnce(s, s');
    QuietMembers(s, s', {});
  }

  lemma QuietLeave(s: World, e: string, q: nat)
    requires ListsExact(s) && q < |s.members|
    ensures Quiet(s, HasLeft(s, e, q))
  {
    hide Left;
    Listed(s, e, q);
  }

  lemma TakeMember(s: World, m: Member, queue: seq<Frame>)
    requires MemberFits(s, m, queue) && queue != []
    ensures MemberFits(s, m.(taken := m.taken + 1), queue[1..])
  {
    hide LastOf, Distinct;
  }

  lemma TakeKeeps(s: World, q: nat)
    requires Inv(s) && Enabled(s, Take(q))
    ensures Inv(HasTaken(s, q))
  {
    hide MemberFits, AllOnce, FlightsFit, ListsExact, ListsDistinct, HistoriesFit;
    var s' := HasTaken(s, q);
    TakeMember(s, s.members[q], s.bus.queues[q]);
    QuietMember(s, s', s'.members[q], s'.members[q], s'.bus.queues[q]);
    QuietFlights(s, s');
    QuietOnce(s, s');
    QuietMembers(s, s', {q});
    SameLists(s, s');
  }

  // ---- every run --------------------------------------------------------------------------------

  lemma StepKeeps(s: World, step: Step)
    requires Inv(s) && Enabled(s, step)
    ensures Inv(Apply(s, step))
  {
    hide MembersFit, AllOnce, FlightsFit, ListsExact, ListsDistinct, HistoriesFit;
    match step
    case Begin(t, e, f) =>
      BeginMembers(s, t, e, f);
      BeginLists(s, t, e, f);
      BeginFlights(s, t, e, f);
      BeginOnce(s, t, e, f);
    case Put(t) => PutKeeps(s, t);
    case End(t) => EndKeeps(s, t);
    case Subscribing(e) => JoinKeeps(s, e);
    case Unsubscribing(e, q) => LeaveKeeps(s, e, q);
    case Take(q) => TakeKeeps(s, q);
  }

  lemma {:induction false} RunKeeps(from: World, steps: seq<Step>, s: World)
    requires Inv(from) && Reaches(from, steps, s)
    ensures Inv(s)
    decreases |steps|
  {
    hide Inv, Apply, Enabled;
    if steps == [] {
    } else {
      StepKeeps(from, steps[0]);
      RunKeeps(Apply(from, steps[0]), steps[1..], s);
    }
  }

  lemma StartFits()
    ensures Inv(START)
  {
  }

  /** Delivery under every interleaving: what a subscriber was given at the start is the last 500 frames
      published before it joined; each later frame, until it leaves, is delivered once, dropped once, or
      still in flight, and never two of these; nothing else is delivered; what it reads next is what was
      delivered and not yet read, in the order of delivery. */
  lemma EveryFrameOnce(steps: seq<Step>, s: World, q: nat)
    requires Reaches(START, steps, s) && q < |s.members|
    ensures var m := s.members[q];
            var l := LogOf(s, m.exec);
            && m.joined <= EndOf(s, m) <= |l|
            && m.snapshot == LastOf(l[..m.joined])
            && (forall i | m.joined <= i < EndOf(s, m) :: Once(s, q, i))
            && Distinct(m.delivered)
            && (forall k | 0 <= k < |m.delivered| :: m.joined <= m.delivered[k] < EndOf(s, m))
            && (forall i <- m.dropped :: m.joined <= i < EndOf(s, m))
            && q < |s.bus.queues| && m.taken <= |m.delivered|
            && s.bus.queues[q] == FramesAt(l, m.delivered[m.taken..])
  {
    hide LastOf, FlightsFit, ListsExact, ListsDistinct, HistoriesFit, Once;
    StartFits();
    RunKeeps(START, steps, s);
    var m := s.members[q];
    assert MemberFits(s, m, s.bus.queues[q]);
    forall i | m.joined <= i < EndOf(s, m)
      ensures Once(s, q, i)
    {
      assert Owed(s, m, i);
    }
    forall k | 0 <= k < |m.delivered|
      ensures m.joined <= m.delivered[k] < EndOf(s, m)
    {
      assert Owed(s, m, m.delivered[k]);
    }
  }

  function Dropped(s: World, q: nat): set<nat> { if q < |s.members| then s.members[q].dropped else {} }

  /** Only an offer to a full queue drops a frame. */
  lemma StepDrops(s: World, step: Step, q: nat, i: nat)
    requires Enabled(s, step) && |s.members| == |s.bus.queues|
    requires i in Dropped(Apply(s, step), q) && i !in Dropped(s, q)
    ensures step.Put? && q < |s.bus.queues| && |s.bus.queues[q]| >= QUEUE_SIZE
    ensures var d := s.flying[step.thread]; d.index == i && d.remaining != [] && d.remaining[0] == q
  {
  }

  /** Every frame that a subscriber has lost was offered to it at a moment when 1000 frames were waiting
      in its queue. */
  lemma {:induction false} DropMeansFull(from: World, steps: seq<Step>, s: World, q: nat, i: nat) returns (n: nat, w: World)
    requires Inv(from) && Reaches(from, steps, s) && i in Dropped(s, q) && i !in Dropped(from, q)
    ensures n < |steps| && Reaches(from, steps[..n], w) && Enabled(w, steps[n]) && steps[n].Put?
    ensures var d := w.flying[steps[n].thread]; d.index == i && d.remaining != [] && d.remaining[0] == q
    ensures q < |w.bus.queues| && |w.bus.queues[q]| == 1000
    decreases |steps|
  {
    hide Inv, Enabled, Apply;
    assert steps != [];
    var next := Apply(from, steps[0]);
    StepKeeps(from, steps[0]);
    if i in Dropped(next, q) {
      FullAtMost(from);
      StepDrops(from, steps[0], q, i);
      n, w := 0, from;
    } else {
      n, w := DropMeansFull(next, steps[1..], s, q, i);
      assert steps[..n + 1][0] == steps[0] && steps[..n + 1][1..] == steps[1..][..n];
      n := n + 1;
    }
  }

  lemma FullAtMost(s: World)
    requires Inv(s)
    ensures |s.members| == |s.bus.queues| && forall q | 0 <= q < |s.bus.queues| :: |s.bus.queues[q]| <= QUEUE_SIZE
  {
    forall q | 0 <= q < |s.bus.queues|
      ensures |s.bus.queues[q]| <= QUEUE_SIZE
    {
      assert MemberFits(s, s.members[q], s.bus.queues[q]);
    }
  }

  function FramesAt(l: seq<Frame>, at: seq<nat>): seq<Frame> {
    seq(|at|, k requires 0 <= k < |at| => if at[k] < |l| then l[at[k]] else Frame("", false))
  }

  // ---- the sizes --------------------------------------------------------------------------------

  /** The snapshot is the last 500 frames before joining, or all when there were fewer; at most 1000 frames
      wait in a queue, and a frame is put into one exactly when fewer are waiting. */
  lemma SizesAreExact(steps: seq<Step>, s: World, q: nat, f: Frame)
    requires Reaches(START, steps, s) && q < |s.members|
    ensures var m := s.members[q];
            var l := LogOf(s, m.exec);
            var from := if m.joined <= 500 then 0 else m.joined - 500;
            && from <= m.joined <= |l| && m.snapshot == l[from..m.joined]
            && q < |s.bus.queues| && |s.bus.queues[q]| <= 1000
            && Offered(s.bus, q, f).queues[q] == if |s.bus.queues[q]| < 1000 then s.bus.queues[q] + [f] else s.bus.queues[q]
  {
    hide FlightsFit, ListsExact, ListsDistinct, HistoriesFit, AllOnce;
    StartFits();
    RunKeeps(START, steps, s);
    var m := s.members[q];
    assert MemberFits(s, m, s.bus.queues[q]);
    var l := LogOf(s, m.exec);
    assert l[..m.joined][if m.joined <= 500 then 0 else m.joined - 500..] == l[if m.joined <= 500 then 0 else m.joined - 500..m.joined];
  }

  /** One publication that nothing interrupts reaches every subscriber of its execution, in whatever order,
      unless its queue is full, and no other queue. */
  lemma {:induction false} PublicationReachesAll(b: Bus, qs: seq<nat>, f: Frame, q: nat)
    requires Distinct(qs) && (forall i | 0 <= i < |qs| :: qs[i] < |b.queues|) && q < |b.queues|
    ensures var r := OfferAll(b, qs, f);
            && |r.queues| == |b.queues| && r.history == b.history && r.subscribers == b.subscribers
            && r.queues[q] == if q in qs && |b.queues[q]| < 1000 then b.queues[q] + [f] else b.queues[q]
    decreases |qs|
  {
    if qs == [] {
    } else {
      var rest := qs[1..];
      assert forall i | 0 <= i < |rest| :: rest[i] == qs[i + 1];
      assert q in qs <==> q == qs[0] || q in rest;
      assert qs[0] !in rest;
      PublicationReachesAll(Offered(b, qs[0], f), rest, f, q);
    }
  }
}
