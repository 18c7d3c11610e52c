/** The order of delivery: publish order when one thread publishes an execution, and not otherwise. */
module EventOrder {
  import opened EventBus
  import opened EventDelivery

  /** Only thread `t` publishes execution `e`. */
  ghost predicate OnePublisher(steps: seq<Step>, e: string, t: nat) {
    forall k | 0 <= k < |steps| && steps[k].Begin? && steps[k].exec == e :: steps[k].thread == t
  }

  ghost predicate Increasing(xs: seq<nat>) { forall j, k | 0 <= j < k < |xs| :: xs[j] < xs[k] }

  ghost predicate OnlyNewest(s: World, e: string, t: nat) {
    forall u | u in s.flying && s.flying[u].exec == e :: u == t && s.flying[u].index == |LogOf(s, e)| - 1
  }

  ghost predicate AllIncreasing(s: World, e: string) {
    forall q | 0 <= q < |s.members| && s.members[q].exec == e :: Increasing(s.members[q].delivered)
  }

  lemma PutAppends(s: World, e: string, t: nat)
    requires Inv(s) && OnlyNewest(s, e, t) && AllIncreasing(s, e) && Enabled(s, Put(t)) && s.flying[t].exec == e
    ensures AllIncreasing(WasPut(s, t), e)
  {
    hide ListsExact, ListsDistinct, HistoriesFit, LastOf;
    var d := s.flying[t];
    var q := d.remaining[0];
    PutIsNew(s, t);
    var m := s.members[q];
    assert MemberFits(s, m, s.bus.queues[q]);
    forall k | 0 <= k < |m.delivered|
      ensures m.delivered[k] < d.index
    {
      assert Owed(s, m, m.delivered[k]) && m.delivered[k] != d.index;
    }
  }

  lemma StepInOrder(s: World, step: Step, e: string, t: nat)
    requires Inv(s) && Enabled(s, step) && OnlyNewest(s, e, t) && AllIncreasing(s, e)
    requires step.Begin? && step.exec == e ==> step.thread == t
    ensures OnlyNewest(Apply(s, step), e, t) && AllIncreasing(Apply(s, step), e)
  {
    hide ListsExact, ListsDistinct, HistoriesFit, LastOf, MembersFit, FlightsFit, AllOnce;
    match step
    case Begin(_, _, _) =>
    case Put(u) =>
      if s.flying[u].exec == e {
        PutAppends(s, e, t);
      } else {
        PutElsewhere(s, u, e);
      }
    case End(_) =>
    case Subscribing(_) =>
    case Unsubscribing(_, _) =>
    case Take(_) =>
  }

  lemma PutElsewhere(s: World, u: nat, e: string)
    requires Inv(s) && Enabled(s, Put(u)) && s.flying[u].exec != e && AllIncreasing(s, e)
    ensures AllIncreasing(WasPut(s, u), e)
  {
    hide ListsExact, ListsDistinct, HistoriesFit, LastOf, MembersFit, Increasing;
    PutIsNew(s, u);
  }

  lemma {:induction false} RunInOrder(from: World, steps: seq<Step>, s: World, e: string, t: nat)
    requires Inv(from) && OnlyNewest(from, e, t) && AllIncreasing(from, e)
    requires Reaches(from, steps, s) && OnePublisher(steps, e, t)
    ensures Inv(s) && OnlyNewest(s, e, t) && AllIncreasing(s, e)
    decreases |steps|
  {
    hide Inv, OnlyNewest, AllIncreasing, Apply, Enabled;
    if steps == [] {
    } else {
      assert steps[0].Begin? && steps[0].exec == e ==> steps[0].thread == t;
      StepKeeps(from, steps[0]);
      StepInOrder(from, steps[0], e, t);
      var rest := steps[1..];
      assert forall k | 0 <= k < |rest| :: rest[k] == steps[k + 1];
      RunInOrder(Apply(from, steps[0]), rest, s, e, t);
    }
  }

  lemma StartInOrder(e: string, t: nat)
    ensures Inv(START) && OnlyNewest(START, e, t) && AllIncreasing(START, e)
  {
    StartFits();
  }

  /** With one publishing thread, under every interleaving, a subscriber is given frames in the order in
      which they were published. */
  lemma OnePublisherInOrder(steps: seq<Step>, s: World, q: nat, t: nat)
    requires Reaches(START, steps, s) && q < |s.members| && OnePublisher(steps, s.members[q].exec, t)
    ensures Increasing(s.members[q].delivered)
  {
    hide Inv;
    StartInOrder(s.members[q].exec, t);
    RunInOrder(START, steps, s, s.members[q].exec, t);
  }

  lemma {:induction false} IncreasingGrows(xs: seq<nat>, low: nat, k: nat)
    requires Increasing(xs) && k < |xs| && xs[0] >= low
    ensures xs[k] >= low + k
  {
    if k == 0 {
    } else {
      IncreasingGrows(xs, low, k - 1);
    }
  }

  /** If nothing was dropped, the `k`-th delivered frame is the `k`-th one published after joining. */
  lemma NoGap(s: World, q: nat, t: nat, k: nat)
    requires Inv(s) && q < |s.members| && OnlyNewest(s, s.members[q].exec, t) && AllIncreasing(s, s.members[q].exec)
    requires s.members[q].dropped == {} && k < |s.members[q].delivered|
    ensures s.members[q].delivered[k] == s.members[q].joined + k
    decreases k
  {
    hide ListsExact, ListsDistinct, HistoriesFit, FlightsFit, LastOf;
    var m := s.members[q];
    assert MemberFits(s, m, s.bus.queues[q]);
    assert Owed(s, m, m.delivered[0]) && Owed(s, m, m.delivered[k]);
    IncreasingGrows(m.delivered, m.joined, k);
    if m.delivered[k] <= m.joined + k {
    } else {
      var i := m.joined + k;
      if k > 0 {
        NoGap(s, q, t, k - 1);
      }
      assert Owed(s, m, i);
      assert Once(s, q, i);
      Skipped(m.delivered, k, i);
    }
  }

  lemma Skipped(xs: seq<nat>, k: nat, i: nat)
    requires Increasing(xs) && k < |xs| && i < xs[k] && (k > 0 ==> xs[k - 1] < i)
    ensures i !in xs
  {
    forall j | 0 <= j < |xs|
      ensures xs[j] != i
    {
      assert j < k - 1 ==> xs[j] < xs[k - 1];
      assert j > k ==> xs[k] < xs[j];
    }
  }

  /** One publisher and no drop: what a subscriber was given at the start, followed by what it has read,
      is one gapless stretch of the log that starts at most 500 frames before it joined. */
  lemma StreamIsContiguous(steps: seq<Step>, s: World, q: nat, t: nat)
    requires Reaches(START, steps, s) && q < |s.members| && OnePublisher(steps, s.members[q].exec, t)
    requires s.members[q].dropped == {}
    ensures var m := s.members[q];
            var l := LogOf(s, m.exec);
            var from := if m.joined <= HISTORY_SIZE then 0 else m.joined - HISTORY_SIZE;
            && m.taken <= |m.delivered| && m.joined + m.taken <= |l|
            && m.snapshot + FramesAt(l, m.delivered[..m.taken]) == l[from..m.joined + m.taken]
  {
    var m := s.members[q];
    StartInOrder(m.exec, t);
    RunInOrder(START, steps, s, m.exec, t);
    EveryFrameOnce(steps, s, q);
    var l := LogOf(s, m.exec);
    assert |l[..m.joined]| == m.joined;
    if m.taken > 0 {
      NoGap(s, q, t, m.taken - 1);
    }
    hide Inv;
    forall k | 0 <= k < m.taken
      ensures m.delivered[k] == m.joined + k
    {
      NoGap(s, q, t, k);
    }
    ReadStretch(l, m);
  }

  lemma ReadStretch(l: seq<Frame>, m: Member)
    requires m.taken <= |m.delivered| && m.joined + m.taken <= |l|
    requires forall k | 0 <= k < m.taken :: m.delivered[k] == m.joined + k
    requires m.snapshot == LastOf(l[..m.joined])
    ensures var from := if m.joined <= HISTORY_SIZE then 0 else m.joined - HISTORY_SIZE;
            m.snapshot + FramesAt(l, m.delivered[..m.taken]) == l[from..m.joined + m.taken]
  {
    assert FramesAt(l, m.delivered[..m.taken]) == l[m.joined..m.joined + m.taken];
    var from := if m.joined <= HISTORY_SIZE then 0 else m.joined - HISTORY_SIZE;
    assert m.snapshot == l[from..m.joined];
  }

  /** Two publications are in flight and nothing is delivered yet. */
  ghost predicate BothInFlight(s: World, f: Frame, g: Frame) {
    && LogOf(s, "x") == [f, g] && HistoryOf(s.bus, "x") == [f, g]
    && |s.members| == |s.bus.queues| == 1 && s.bus.queues[0] == [] && s.members[0].delivered == []
    && 1 in s.flying && s.flying[1] == Delivery("x", 0, f, [0])
    && 2 in s.flying && s.flying[2] == Delivery("x", 1, g, [0])
  }

  lemma BothBegin(f: Frame, g: Frame)
    ensures BothInFlight(Began(Began(HasJoined(START, "x"), 1, "x", f), 2, "x", g), f, g)
    ensures Enabled(START, Subscribing("x")) && Enabled(HasJoined(START, "x"), Begin(1, "x", f))
    ensures Enabled(Began(HasJoined(START, "x"), 1, "x", f), Begin(2, "x", g))
  {
    var s1 := HasJoined(START, "x");
    var s2 := Began(s1, 1, "x", f);
    assert SubscribersOf(s1.bus, "x") == [0];
    assert LogOf(s2, "x") == [f] && HistoryOf(s2.bus, "x") == [f];
  }

  lemma SecondIsPutFirst(s: World, f: Frame, g: Frame)
    requires BothInFlight(s, f, g)
    ensures Enabled(s, Put(2)) && Enabled(WasPut(s, 2), Put(1))
    ensures var r := WasPut(WasPut(s, 2), 1);
            && |r.members| == |r.bus.queues| == 1 && LogOf(r, "x") == [f, g] && HistoryOf(r.bus, "x") == [f, g]
            && r.bus.queues[0] == [g, f] && r.members[0].delivered == [1, 0]
  {
  }

  /** Two publishing threads can be overtaken between the locked part and the delivery: the subscriber
      then sees the frames in the other order than the history does. */
  lemma TwoPublishersSwap(f: Frame, g: Frame) returns (steps: seq<Step>, s: World)
    ensures Reaches(START, steps, s) && |s.members| == |s.bus.queues| == 1 && LogOf(s, "x") == [f, g]
    ensures HistoryOf(s.bus, "x") == [f, g] && s.bus.queues[0] == [g, f] && s.members[0].delivered == [1, 0]
  {
    hide HasJoined, Began, WasPut, Enabled, LogOf, HistoryOf, BothInFlight, Reaches;
    BothBegin(f, g);
    var s1 := HasJoined(START, "x");
    var s2 := Began(s1, 1, "x", f);
    var s3 := Began(s2, 2, "x", g);
    SecondIsPutFirst(s3, f, g);
    var s4 := WasPut(s3, 2);
    s := WasPut(s4, 1);
    ReachesItself(s);
    steps := Prefixed(s4, Put(1), [], s);
    steps := Prefixed(s3, Put(2), steps, s);
    steps := Prefixed(s2, Begin(2, "x", g), steps, s);
    steps := Prefixed(s1, Begin(1, "x", f), steps, s);
    steps := Prefixed(START, Subscribing("x"), steps, s);
  }

  lemma ReachesItself(s: World)
    ensures Reaches(s, [], s)
  {
  }

  lemma Prefixed(from: World, step: Step, rest: seq<Step>, s: World) returns (steps: seq<Step>)
    requires Enabled(from, step) && Reaches(Apply(from, step), rest, s)
    ensures steps == [step] + rest && Reaches(from, steps, s)
  {
    hide Enabled, Apply;
    steps := [step] + rest;
    assert steps[1..] == rest;
  }
}
