/** The execution event bus (execution_event_bus.py): a bounded history and the subscriber queues of
    each execution. Queues are named by their position in `queues`. */
module EventBus {
  import opened PyText

  /** The text of one server-sent event, and whether it announces the end of the execution. */
  datatype Frame = Frame(text: string, finish: bool)

  const HISTORY_SIZE := 500
  const QUEUE_SIZE := 1000

  datatype Bus = Bus(history: map<string, seq<Frame>>, subscribers: map<string, seq<nat>>, queues: seq<seq<Frame>>)

  function HistoryOf(b: Bus, e: string): seq<Frame> { if e in b.history then b.history[e] else [] }

  function SubscribersOf(b: Bus, e: string): seq<nat> { if e in b.subscribers then b.subscribers[e] else [] }

  /** Appending to a deque of bounded length. */
  function Remember(xs: seq<Frame>, f: Frame): (r: seq<Frame>)
    ensures |xs| <= HISTORY_SIZE ==> |r| <= HISTORY_SIZE
  {
    if |xs| < HISTORY_SIZE then xs + [f] else xs[1..] + [f]
  }

  function Recorded(b: Bus, e: string, f: Frame): Bus {
    b.(history := b.history[e := Remember(HistoryOf(b, e), f)])
  }

  /** `put_nowait`, which drops the frame when the queue is full. */
  function Offered(b: Bus, q: nat, f: Frame): (r: Bus)
    requires q < |b.queues|
    ensures |r.queues| == |b.queues|
  {
    if |b.queues[q]| < QUEUE_SIZE then b.(queues := b.queues[q := b.queues[q] + [f]]) else b
  }

  function Joined(b: Bus, e: string): Bus {
    b.(subscribers := b.subscribers[e := SubscribersOf(b, e) + [|b.queues|]], queues := b.queues + [[]])
  }

  /** `list.remove`. */
  function Without(xs: seq<nat>, q: nat): (r: seq<nat>)
    ensures forall x :: x in r ==> x in xs
    ensures forall x | x != q :: x in r <==> x in xs
  {
    if xs == [] then [] else if xs[0] == q then xs[1..] else [xs[0]] + Without(xs[1..], q)
  }

  function Left(b: Bus, e: string, q: nat): Bus {
    var rest := Without(SubscribersOf(b, e), q);
    b.(subscribers := if rest == [] then b.subscribers - {e} else b.subscribers[e := rest])
  }

  function Taken(b: Bus, q: nat): Bus
    requires q < |b.queues| && b.queues[q] != []
  {
    b.(queues := b.queues[q := b.queues[q][1..]])
  }

  /** The unlocked part of a publication, with nothing in between. */
  function OfferAll(b: Bus, qs: seq<nat>, f: Frame): Bus
    requires forall i | 0 <= i < |qs| :: qs[i] < |b.queues|
    decreases |qs|
  {
    if qs == [] then b else OfferAll(Offered(b, qs[0], f), qs[1..], f)
  }

  ghost predicate QueuesExist(b: Bus) {
    forall e, i | e in b.subscribers && 0 <= i < |b.subscribers[e]| :: b.subscribers[e][i] < |b.queues|
  }

  class ExecutionEventBus {
    var history: map<string, seq<Frame>>
    var subscribers: map<string, seq<nat>>
    var queues: seq<seq<Frame>>

    function State(): Bus
      reads this
    {
      Bus(history, subscribers, queues)
    }

    /** The locked part of a publication: records the frame and copies the list of subscribers. */
    method Record(executionId: string, frame: Frame) returns (snapshot: seq<nat>)
      modifies this`history
      ensures State() == Recorded(old(State()), executionId, frame)
      ensures snapshot == SubscribersOf(State(), executionId) == SubscribersOf(old(State()), executionId)
    {
      var past := HistoryOf(State(), executionId);
      var deque := past + [frame];
      if |deque| > HISTORY_SIZE {
        deque := deque[1..];
        assert deque == past[1..] + [frame];
      }
      history := history[executionId := deque];
      snapshot := SubscribersOf(State(), executionId);
    }

    method PutNowait(q: nat, frame: Frame)
      requires q < |queues|
      modifies this`queues
      ensures State() == Offered(old(State()), q, frame)
    {
      if |queues[q]| < QUEUE_SIZE {
        queues := queues[q := queues[q] + [frame]];
      }
    }

    /** One publication that no other thread interrupts. */
    method PublishExecutionEvent(executionId: string, frame: Frame)
      requires QueuesExist(State())
      modifies this`history, this`queues
      ensures executionId == [] ==> State() == old(State())
      ensures executionId != [] ==>
                State() == OfferAll(Recorded(old(State()), executionId, frame), SubscribersOf(old(State()), executionId), frame)
    {
      if executionId == [] {
        return;
      }
      var snapshot := Record(executionId, frame);
      ghost var recorded := State();
      for i := 0 to |snapshot|
        invariant |queues| == |recorded.queues|
        invariant OfferAll(recorded, snapshot, frame) == OfferAll(State(), snapshot[i..], frame)
      {
        assert snapshot[i..][0] == snapshot[i] && snapshot[i..][1..] == snapshot[i + 1..];
        PutNowait(snapshot[i], frame);
      }
    }

    method Subscribe(executionId: string) returns (q: nat, snapshot: seq<Frame>)
      modifies this`subscribers, this`queues
      ensures State() == Joined(old(State()), executionId)
      ensures q == |old(queues)| && snapshot == HistoryOf(old(State()), executionId)
    {
      q := |queues|;
      queues := queues + [[]];
      subscribers := subscribers[executionId := SubscribersOf(State(), executionId) + [q]];
      snapshot := HistoryOf(State(), executionId);
    }

    method Unsubscribe(executionId: string, q: nat)
      modifies this`subscribers
      ensures State() == Left(old(State()), executionId, q)
    {
      var rest := SubscribersOf(State(), executionId);
      if q in rest {
        rest := Without(rest, q);
      } else {
        NothingToRemove(rest, q);
      }
      if rest == [] {
        subscribers := subscribers - {executionId};
      } else {
        subscribers := subscribers[executionId := rest];
      }
    }

    method Get(q: nat) returns (frame: Frame)
      requires q < |queues| && queues[q] != []
      modifies this`queues
      ensures State() == Taken(old(State()), q) && frame == old(queues)[q][0]
    {
      frame := queues[q][0];
      queues := queues[q := queues[q][1..]];
    }
  }

  lemma {:induction false} NothingToRemove(xs: seq<nat>, q: nat)
    requires q !in xs
    ensures Without(xs, q) == xs
  {
    if xs == [] {
    } else {
      NothingToRemove(xs[1..], q);
    }
  }

  // ---- the stream -------------------------------------------------------------------------------

  datatype Shown = Event(frame: Frame) | Heartbeat

  function Events(frames: seq<Frame>): seq<Shown> { seq(|frames|, i requires 0 <= i < |frames| => Event(frames[i])) }

  /** What the stream shows of the answers of `queue.get`, where `None` is a timeout; it stops after
      the frame that ends the execution. */
  function ShownOf(gets: seq<Option<Frame>>): seq<Shown> {
    if gets == [] then []
    else match gets[0]
      case None => [Heartbeat] + ShownOf(gets[1..])
      case Some(f) => if f.finish then [Event(f)] else [Event(f)] + ShownOf(gets[1..])
  }

  /** `stream_execution_events`, given the snapshot and the answers of `queue.get` until the client
      goes away. */
  method StreamExecutionEvents(snapshot: seq<Frame>, gets: seq<Option<Frame>>) returns (shown: seq<Shown>)
    ensures (exists i :: 0 <= i < |snapshot| && snapshot[i].finish) ==> shown == Events(snapshot)
    ensures (forall i | 0 <= i < |snapshot| :: !snapshot[i].finish) ==> shown == Events(snapshot) + ShownOf(gets)
  {
    shown := [];
    var finished := false;
    for i := 0 to |snapshot|
      invariant shown == Events(snapshot[..i])
      invariant finished <==> exists j :: 0 <= j < i && snapshot[j].finish
    {
      shown := shown + [Event(snapshot[i])];
      if snapshot[i].finish {
        finished := true;
      }
    }
    assert snapshot[..|snapshot|] == snapshot;
    if finished {
      return;
    }
    var k := 0;
    assert gets[0..] == gets;
    while k < |gets|
      invariant k <= |gets|
      invariant Events(snapshot) + ShownOf(gets) == shown + ShownOf(gets[k..])
    {
      assert gets[k..][0] == gets[k] && gets[k..][1..] == gets[k + 1..];
      match gets[k] {
        case None =>
          shown := shown + [Heartbeat];
        case Some(f) =>
          shown := shown + [Event(f)];
          if f.finish {
            return;
          }
      }
      k := k + 1;
    }
  }

  /** A live stream shows every answer of the queue in turn, a heartbeat for a timeout, up to and including
      the first frame that ends the execution, and nothing after it. */
  lemma {:induction false} LiveStreamEnds(gets: seq<Option<Frame>>)
    ensures var shown := ShownOf(gets);
            && |shown| <= |gets|
            && (forall i | 0 <= i < |shown| :: shown[i] == match gets[i] case None => Heartbeat case Some(f) => Event(f))
            && (forall i | 0 <= i < |shown| - 1 :: gets[i].Some? ==> !gets[i].value.finish)
            && (|shown| < |gets| ==> shown != [] && gets[|shown| - 1].Some? && gets[|shown| - 1].value.finish)
    decreases |gets|
  {
    if gets == [] || (gets[0].Some? && gets[0].value.finish) {
    } else {
      var rest := gets[1..];
      LiveStreamEnds(rest);
      var shown, tail := ShownOf(gets), ShownOf(rest);
      assert forall i | 0 < i < |shown| :: shown[i] == tail[i - 1] && gets[i] == rest[i - 1];
    }
  }
}
