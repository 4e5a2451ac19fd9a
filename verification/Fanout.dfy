// Fan-out of messages to independent forwarders, each with a bounded retry queue.
// A forwarder's `is_connected` and `send` are an oracle: their answers are inputs.
module Fanout {
  import opened Common

  /** Retry messages tried per housekeeping tick. */
  const MAX_RETRY_DRAIN_PER_TICK: nat := 500

  /** One forwarder: what waits for it, what it has taken, what was dropped. */
  datatype Lane<T> = Lane(queue: seq<T>, delivered: seq<T>, evicted: seq<T>)

  /** What a forwarder does with a live message. */
  datatype Answer = Offline | Accepts | Fails

  /** What a tick finds: connected both times it is asked or not, and how many sends succeed before one fails. */
  datatype Link = Down | Up(still: bool, accepts: nat)

  datatype LaneEvent<T> = Message(m: T, answer: Answer) | Tick(link: Link)

  function EmptyLane<T>(): Lane<T> {
    Lane([], [], [])
  }

  function PushBack<T>(lane: Lane<T>, m: T): Lane<T> {
    lane.(queue := lane.queue + [m])
  }

  /** `pop_front` on a full queue, whose result is dropped. */
  function DropOldest<T>(lane: Lane<T>): Lane<T> {
    if lane.queue == [] then lane
    else lane.(queue := lane.queue[1..], evicted := lane.evicted + [lane.queue[0]])
  }

  /** Queues a message, dropping the oldest if the queue is full. */
  function Enqueue<T>(lane: Lane<T>, cap: nat, m: T): Lane<T> {
    if |lane.queue| < cap then PushBack(lane, m) else PushBack(DropOldest(lane), m)
  }

  function Forward<T>(lane: Lane<T>, cap: nat, m: T, answer: Answer): Lane<T> {
    if answer.Accepts? then lane.(delivered := lane.delivered + [m]) else Enqueue(lane, cap, m)
  }

  /** The number of messages a drain gets through. */
  function Drained<T>(lane: Lane<T>, most: nat, accepts: nat): (k: nat)
    ensures k <= |lane.queue|
  {
    Min(|lane.queue|, Min(most, accepts))
  }

  function Drain<T>(lane: Lane<T>, most: nat, accepts: nat): Lane<T> {
    var k := Drained(lane, most, accepts);
    lane.(queue := lane.queue[k..], delivered := lane.delivered + lane.queue[..k])
  }

  lemma DrainEmpty<T>(lane: Lane<T>, most: nat, accepts: nat)
    requires lane.queue == []
    ensures Drain(lane, most, accepts) == lane
  {
    assert lane.delivered + lane.queue[..0] == lane.delivered;
  }

  function LaneStep<T>(lane: Lane<T>, cap: nat, e: LaneEvent<T>): Lane<T> {
    match e
    case Message(m, answer) => Forward(lane, cap, m, answer)
    case Tick(Up(true, accepts)) => Drain(lane, MAX_RETRY_DRAIN_PER_TICK, accepts)
    case Tick(_) => lane
  }

  function LaneRun<T>(lane: Lane<T>, cap: nat, es: seq<LaneEvent<T>>): Lane<T> {
    if es == [] then lane else LaneStep(LaneRun(lane, cap, es[..|es| - 1]), cap, es[|es| - 1])
  }

  lemma LaneRunSnoc<T>(lane: Lane<T>, cap: nat, es: seq<LaneEvent<T>>, e: LaneEvent<T>)
    ensures LaneRun(lane, cap, es + [e]) == LaneStep(LaneRun(lane, cap, es), cap, e)
  {
    assert (es + [e])[..|es|] == es;
  }

  /**
   * What one event does. A live message is delivered if it is taken and queued last
   * otherwise; only a full queue loses a message, its oldest. A tick that finds the
   * forwarder connected delivers from the front until a send fails or 500 went out.
   */
  lemma StepMeans<T>(lane: Lane<T>, cap: nat, e: LaneEvent<T>)
    ensures var r, queue := LaneStep(lane, cap, e), lane.queue;
      match e
      case Message(m, answer) =>
        && r.delivered == (if answer == Accepts then lane.delivered + [m] else lane.delivered)
        && r.queue == (if answer == Accepts then queue
                       else if queue != [] && |queue| >= cap then queue[1..] + [m] else queue + [m])
        && r.evicted == (if answer != Accepts && queue != [] && |queue| >= cap
                         then lane.evicted + [queue[0]] else lane.evicted)
      case Tick(link) =>
        var k := if link.Down? || !link.still then 0
                 else if |queue| <= link.accepts && |queue| <= 500 then |queue|
                 else if link.accepts <= 500 then link.accepts else 500;
        r == Lane(queue[k..], lane.delivered + queue[..k], lane.evicted)
  {
    assert lane.queue[0..] == lane.queue && lane.delivered + lane.queue[..0] == lane.delivered;
  }

  /** Nothing is taken: live messages find the forwarder offline or fail, and ticks deliver nothing. */
  predicate Outage<T>(es: seq<LaneEvent<T>>) {
    forall k | 0 <= k < |es| ::
      match es[k]
      case Message(_, answer) => answer != Accepts
      case Tick(link) => link.Down? || !link.still || link.accepts == 0
  }

  /** A queue never outgrows its cap, except that a cap of 0 still holds one message. */
  lemma {:induction false} QueueIsBounded<T>(cap: nat, es: seq<LaneEvent<T>>)
    ensures |LaneRun(EmptyLane(), cap, es).queue| <= Max(1, cap)
  {
    if es != [] {
      QueueIsBounded(cap, es[..|es| - 1]);
    }
  }

  /** ... and it does hold one: the bound `cap` itself fails exactly for cap 0. */
  lemma CapZeroHoldsOne<T>(cap: nat, m: T)
    ensures |LaneRun(EmptyLane(), cap, [Message(m, Offline)]).queue| <= cap <==> cap > 0
  {
    var e := Message(m, Offline);
    assert [e][..0] == [];
    assert LaneRun(EmptyLane(), cap, [e]) == LaneStep(EmptyLane(), cap, e);
  }

  // --------------------------------------------------- conservation and order

  function Arrived<T>(es: seq<LaneEvent<T>>): seq<T> {
    if es == [] then []
    else Arrived(es[..|es| - 1]) + match es[|es| - 1] { case Message(m, _) => [m] case Tick(_) => [] }
  }

  /** A lane that has kept the newest of some messages, as many as the cap allows and at least one. */
  ghost predicate KeepsNewest<T>(lane: Lane<T>, cap: nat, all: seq<T>) {
    var n := if |all| <= 1 || |all| <= cap then 0 else |all| - Max(1, cap);
    lane == Lane(all[n..], [], all[..n])
  }

  lemma MessageKeepsNewest<T>(lane: Lane<T>, cap: nat, all: seq<T>, m: T, answer: Answer)
    requires KeepsNewest(lane, cap, all) && answer != Accepts
    ensures KeepsNewest(LaneStep(lane, cap, Message(m, answer)), cap, all + [m])
  {
    StepMeans(lane, cap, Message(m, answer));
    hide LaneStep;
    var n := if |all| <= 1 || |all| <= cap then 0 else |all| - Max(1, cap);
    if lane.queue != [] && |lane.queue| >= cap {
      assert all[n..][1..] + [m] == (all + [m])[n + 1..];
      assert all[..n] + [all[n..][0]] == (all + [m])[..n + 1];
    } else {
      assert n == 0;
      assert all[0..] + [m] == (all + [m])[0..];
    }
  }

  lemma NothingToKeep<T>(cap: nat)
    ensures KeepsNewest<T>(EmptyLane(), cap, [])
  {
  }

  lemma TickKeepsLane<T>(lane: Lane<T>, cap: nat, link: Link)
    requires link.Down? || !link.still || link.accepts == 0
    ensures LaneStep(lane, cap, Tick(link)) == lane
  {
    StepMeans(lane, cap, Tick(link));
  }

  lemma {:induction false} OutageRun<T>(cap: nat, es: seq<LaneEvent<T>>)
    requires Outage(es)
    ensures KeepsNewest(LaneRun(EmptyLane(), cap, es), cap, Arrived(es))
  {
    hide LaneStep, KeepsNewest;
    if es == [] {
      NothingToKeep<T>(cap);
    } else {
      var n := |es| - 1;
      OutageRun(cap, es[..n]);
      var before := LaneRun(EmptyLane(), cap, es[..n]);
      match es[n]
      case Message(m, answer) => MessageKeepsNewest(before, cap, Arrived(es[..n]), m, answer);
      case Tick(link) =>
        TickKeepsLane(before, cap, link);
        assert Arrived(es) == Arrived(es[..n]);
    }
  }

  /**
   * An outage of any length keeps exactly the newest messages, as many as the cap
   * allows and at least one, in order; the older ones are dropped, in order.
   */
  lemma OutageKeepsNewest<T>(cap: nat, es: seq<LaneEvent<T>>)
    requires Outage(es)
    ensures var all := Arrived(es);
      var kept := Min(|all|, Max(1, cap));
      LaneRun(EmptyLane(), cap, es) == Lane(all[|all| - kept..], [], all[..|all| - kept])
  {
    OutageRun(cap, es);
  }

  /** The same run, with each message replaced by its arrival number. */
  function Numbered<T>(es: seq<LaneEvent<T>>): seq<LaneEvent<nat>> {
    if es == [] then []
    else
      var n := |es| - 1;
      Numbered(es[..n]) + match es[n] {
        case Message(_, answer) => [Message(|Arrived(es[..n])|, answer)]
        case Tick(link) => [Tick(link)]
      }
  }

  ghost predicate Increasing(s: seq<nat>) {
    forall i, j | 0 <= i < j < |s| :: s[i] < s[j]
  }

  function UpTo(n: nat): seq<nat> {
    seq(n, i => i)
  }

  /** Each of the first `n` messages is exactly one of delivered, queued or evicted. */
  ghost predicate Conserved(lane: Lane<nat>, n: nat) {
    multiset(lane.delivered) + multiset(lane.queue) + multiset(lane.evicted) == multiset(UpTo(n))
  }

  /** The queue and the evictions are in arrival order, and evictions are older than the queue. */
  ghost predicate Ordered(lane: Lane<nat>, n: nat) {
    && Increasing(lane.queue)
    && Increasing(lane.evicted)
    && (forall i, j | 0 <= i < |lane.evicted| && 0 <= j < |lane.queue| :: lane.evicted[i] < lane.queue[j])
    && (forall i | 0 <= i < |lane.queue| :: lane.queue[i] < n)
    && (forall i | 0 <= i < |lane.delivered| :: lane.delivered[i] < n)
    && (forall i | 0 <= i < |lane.evicted| :: lane.evicted[i] < n)
  }

  ghost predicate Accounted(lane: Lane<nat>, n: nat) {
    Conserved(lane, n) && Ordered(lane, n)
  }

  lemma DropOldestConserves(lane: Lane<nat>, n: nat)
    requires Conserved(lane, n)
    ensures Conserved(DropOldest(lane), n)
  {
    hide UpTo;
    if lane.queue != [] {
      assert lane.queue == [lane.queue[0]] + lane.queue[1..];
      assert multiset(lane.queue) == multiset{lane.queue[0]} + multiset(lane.queue[1..]);
    }
  }

  lemma DropOldestKeepsOrder(lane: Lane<nat>, n: nat)
    requires Ordered(lane, n)
    ensures Ordered(DropOldest(lane), n)
  {
  }

  lemma AddConserves(lane: Lane<nat>, n: nat)
    requires Conserved(lane, n)
    ensures Conserved(PushBack(lane, n), n + 1)
    ensures Conserved(lane.(delivered := lane.delivered + [n]), n + 1)
  {
    assert UpTo(n + 1) == UpTo(n) + [n];
  }

  lemma AddKeepsOrder(lane: Lane<nat>, n: nat)
    requires Ordered(lane, n)
    ensures Ordered(PushBack(lane, n), n + 1)
    ensures Ordered(lane.(delivered := lane.delivered + [n]), n + 1)
  {
  }

  lemma ForwardAccounts(lane: Lane<nat>, cap: nat, n: nat, answer: Answer)
    requires Accounted(lane, n)
    ensures Accounted(Forward(lane, cap, n, answer), n + 1)
  {
    hide Conserved, Ordered, PushBack, DropOldest;
    AddConserves(lane, n);
    AddKeepsOrder(lane, n);
    DropOldestConserves(lane, n);
    DropOldestKeepsOrder(lane, n);
    AddConserves(DropOldest(lane), n);
    AddKeepsOrder(DropOldest(lane), n);
  }

  lemma DrainConserves(lane: Lane<nat>, most: nat, accepts: nat, n: nat)
    requires Conserved(lane, n)
    ensures Conserved(Drain(lane, most, accepts), n)
  {
    var k := Drained(lane, most, accepts);
    assert lane.queue == lane.queue[..k] + lane.queue[k..];
  }

  lemma DrainKeepsOrder(lane: Lane<nat>, most: nat, accepts: nat, n: nat)
    requires Ordered(lane, n)
    ensures Ordered(Drain(lane, most, accepts), n)
  {
    var k := Drained(lane, most, accepts);
    assert forall i | 0 <= i < |lane.queue[..k]| :: lane.queue[..k][i] == lane.queue[i];
  }

  lemma NothingToAccount()
    ensures Accounted(EmptyLane(), 0)
  {
  }

  lemma {:induction false} RunAccounts<T>(cap: nat, es: seq<LaneEvent<T>>)
    ensures Accounted(LaneRun(EmptyLane(), cap, Numbered(es)), |Arrived(es)|)
  {
    hide Conserved, Ordered;
    if es == [] {
      NothingToAccount();
    } else {
      var n := |es| - 1;
      RunAccounts(cap, es[..n]);
      var before, a := LaneRun(EmptyLane(), cap, Numbered(es[..n])), |Arrived(es[..n])|;
      match es[n]
      case Message(_, answer) =>
        LaneRunSnoc(EmptyLane(), cap, Numbered(es[..n]), Message(a, answer));
        ForwardAccounts(before, cap, a, answer);
      case Tick(link) =>
        LaneRunSnoc(EmptyLane(), cap, Numbered(es[..n]), Tick(link));
        if link.Up? {
          DrainConserves(before, MAX_RETRY_DRAIN_PER_TICK, link.accepts, a);
          DrainKeepsOrder(before, MAX_RETRY_DRAIN_PER_TICK, link.accepts, a);
        }
    }
  }

  /**
   * Delivery is in arrival order only as long as nothing waits: a live message
   * that is taken overtakes the queue exactly when there is one.
   */
  lemma OvertakesIffBacklog(lane: Lane<nat>, cap: nat, n: nat)
    requires Ordered(lane, n) && Increasing(lane.delivered + lane.queue)
    ensures var r := Forward(lane, cap, n, Accepts);
      Increasing(r.delivered + r.queue) <==> lane.queue == []
  {
    var r := Forward(lane, cap, n, Accepts);
    var all := r.delivered + r.queue;
    if lane.queue == [] {
      assert all == lane.delivered + [n] && lane.delivered + lane.queue == lane.delivered;
    } else {
      var k := |lane.delivered|;
      assert all[k] == n && all[k + 1] == lane.queue[0];
    }
  }

  /** Overtaking from an empty start: the later message is delivered first. */
  lemma LiveMessageOvertakes<T>(cap: nat, m: T, n: T)
    ensures LaneRun(EmptyLane(), cap, [Message(m, Offline), Message(n, Accepts), Tick(Up(true, 1))])
         == Lane([], [n, m], [])
  {
    var first, second, tick := Message(m, Offline), Message(n, Accepts), Tick(Up(true, 1));
    LaneRunSnoc(EmptyLane(), cap, [], first);
    LaneRunSnoc(EmptyLane(), cap, [first], second);
    LaneRunSnoc(EmptyLane(), cap, [first, second], tick);
    assert [] + [first] == [first] && [first] + [second] == [first, second];
    assert [first, second] + [tick] == [first, second, tick];
    var one: Lane<T> := LaneRun(EmptyLane(), cap, []);
    assert one == EmptyLane();
    assert LaneRun(EmptyLane(), cap, [first]) == Lane([m], [], []);
    assert LaneRun(EmptyLane(), cap, [first, second]) == Lane([m], [n], []);
  }

  /** Arrival numbers turned back into messages. */
  function Labels<T>(messages: seq<T>, ids: seq<nat>): seq<T>
    requires forall i | 0 <= i < |ids| :: ids[i] < |messages|
  {
    seq(|ids|, i requires 0 <= i < |ids| => messages[ids[i]])
  }

  ghost predicate Named<T>(s: seq<T>, messages: seq<T>, ids: seq<nat>) {
    (forall i | 0 <= i < |ids| :: ids[i] < |messages|) && s == Labels(messages, ids)
  }

  ghost predicate Labelled<T>(lane: Lane<T>, messages: seq<T>, numbers: Lane<nat>) {
    && Named(lane.queue, messages, numbers.queue)
    && Named(lane.delivered, messages, numbers.delivered)
    && Named(lane.evicted, messages, numbers.evicted)
  }

  lemma NamedGrows<T>(s: seq<T>, messages: seq<T>, ids: seq<nat>, m: T)
    requires Named(s, messages, ids)
    ensures Named(s, messages + [m], ids)
    ensures Named(s + [m], messages + [m], ids + [|messages|])
  {
  }

  lemma DropOldestLabels<T>(lane: Lane<T>, messages: seq<T>, numbers: Lane<nat>)
    requires Labelled(lane, messages, numbers)
    ensures Labelled(DropOldest(lane), messages, DropOldest(numbers))
  {
  }

  lemma AddLabels<T>(lane: Lane<T>, messages: seq<T>, numbers: Lane<nat>, m: T)
    requires Labelled(lane, messages, numbers)
    ensures Labelled(PushBack(lane, m), messages + [m], PushBack(numbers, |messages|))
    ensures Labelled(lane.(delivered := lane.delivered + [m]), messages + [m],
                     numbers.(delivered := numbers.delivered + [|messages|]))
  {
    hide Named;
    NamedGrows(lane.queue, messages, numbers.queue, m);
    NamedGrows(lane.delivered, messages, numbers.delivered, m);
    NamedGrows(lane.evicted, messages, numbers.evicted, m);
  }

  lemma ForwardLabels<T>(lane: Lane<T>, cap: nat, messages: seq<T>, numbers: Lane<nat>, m: T, answer: Answer)
    requires Labelled(lane, messages, numbers)
    ensures Labelled(Forward(lane, cap, m, answer), messages + [m], Forward(numbers, cap, |messages|, answer))
  {
    assert |lane.queue| == |numbers.queue|;
    hide Labelled, PushBack, DropOldest;
    AddLabels(lane, messages, numbers, m);
    DropOldestLabels(lane, messages, numbers);
    AddLabels(DropOldest(lane), messages, DropOldest(numbers), m);
  }

  lemma DrainLabels<T>(lane: Lane<T>, messages: seq<T>, numbers: Lane<nat>, accepts: nat)
    requires Labelled(lane, messages, numbers)
    ensures Labelled(Drain(lane, MAX_RETRY_DRAIN_PER_TICK, accepts), messages,
                     Drain(numbers, MAX_RETRY_DRAIN_PER_TICK, accepts))
  {
  }

  lemma NothingToLabel<T>()
    ensures Labelled<T>(EmptyLane(), [], EmptyLane())
  {
  }

  /**
   * Conservation and order, over every run: the lane holds exactly the messages
   * that arrived, each in one place, in the order the numbered run accounts for.
   */
  lemma {:induction false} EveryMessageIsSomewhere<T>(cap: nat, es: seq<LaneEvent<T>>)
    ensures Labelled(LaneRun(EmptyLane(), cap, es), Arrived(es), LaneRun(EmptyLane(), cap, Numbered(es)))
    ensures Accounted(LaneRun(EmptyLane(), cap, Numbered(es)), |Arrived(es)|)
  {
    RunAccounts(cap, es);
    hide Accounted, Labelled;
    if es == [] {
      assert Labelled<T>(EmptyLane(), [], EmptyLane()) by { NothingToLabel<T>(); }
    } else {
      var n := |es| - 1;
      EveryMessageIsSomewhere(cap, es[..n]);
      var before, numbers := LaneRun(EmptyLane(), cap, es[..n]), LaneRun(EmptyLane(), cap, Numbered(es[..n]));
      var messages := Arrived(es[..n]);
      match es[n]
      case Message(m, answer) =>
        LaneRunSnoc(EmptyLane(), cap, Numbered(es[..n]), Message(|messages|, answer));
        ForwardLabels(before, cap, messages, numbers, m, answer);
      case Tick(link) =>
        LaneRunSnoc(EmptyLane(), cap, Numbered(es[..n]), Tick(link));
        assert Arrived(es) == messages;
        if link.Up? && link.still {
          DrainLabels(before, messages, numbers, link.accepts);
        }
    }
  }

  // ------------------------------------------------------------------ recovery

  predicate GoesWell<T>(e: LaneEvent<T>) {
    match e
    case Message(_, answer) => answer.Accepts?
    case Tick(link) => link.Up? && link.still && link.accepts >= MAX_RETRY_DRAIN_PER_TICK
  }

  /** A healthy stretch: live messages are taken, and every tick finds the forwarder up. */
  predicate Healthy<T>(es: seq<LaneEvent<T>>) {
    forall k | 0 <= k < |es| :: GoesWell(es[k])
  }

  function Ticks<T>(es: seq<LaneEvent<T>>): nat {
    if es == [] then 0 else Ticks(es[..|es| - 1]) + if es[|es| - 1].Tick? then 1 else 0
  }

  /** A healthy forwarder works its backlog off in order, 500 messages a tick. */
  lemma {:induction false} BacklogShrinks<T>(lane: Lane<T>, cap: nat, es: seq<LaneEvent<T>>)
    requires Healthy(es)
    ensures LaneRun(lane, cap, es).queue == lane.queue[Min(|lane.queue|, MAX_RETRY_DRAIN_PER_TICK * Ticks(es))..]
    ensures LaneRun(lane, cap, es).evicted == lane.evicted
  {
    if es != [] {
      BacklogShrinks(lane, cap, es[..|es| - 1]);
    }
  }

  /** A backlog of n messages is gone after ceil(n / 500) ticks, and not before. */
  lemma BacklogEmpties<T>(lane: Lane<T>, cap: nat, es: seq<LaneEvent<T>>)
    requires Healthy(es)
    ensures LaneRun(lane, cap, es).queue == []
       <==> Ticks(es) >= (|lane.queue| + MAX_RETRY_DRAIN_PER_TICK - 1) / MAX_RETRY_DRAIN_PER_TICK
  {
    BacklogShrinks(lane, cap, es);
  }

  // ----------------------------------------------------------------- isolation

  /** A step of the client, seen by all its forwarders. */
  datatype Event<T> = Broadcast(m: T, answers: seq<Answer>) | Housekeeping(links: seq<Link>)

  function Width<T>(e: Event<T>): nat {
    match e
    case Broadcast(_, answers) => |answers|
    case Housekeeping(links) => |links|
  }

  function Project<T>(e: Event<T>, i: nat): LaneEvent<T>
    requires i < Width(e)
  {
    match e
    case Broadcast(m, answers) => Message(m, answers[i])
    case Housekeeping(links) => Tick(links[i])
  }

  ghost predicate OfWidth<T>(n: nat, es: seq<Event<T>>) {
    forall k | 0 <= k < |es| :: Width(es[k]) == n
  }

  function Projection<T>(n: nat, es: seq<Event<T>>, i: nat): (r: seq<LaneEvent<T>>)
    requires i < n && OfWidth(n, es)
    ensures |r| == |es|
  {
    seq(|es|, k requires 0 <= k < |es| => Project(es[k], i))
  }

  /** The client's lanes and its retry-queue gauge. */
  datatype Fan<T> = Fan(lanes: seq<Lane<T>>, gauge: nat)

  function Total<T>(lanes: seq<Lane<T>>): nat {
    if lanes == [] then 0 else Total(lanes[..|lanes| - 1]) + |lanes[|lanes| - 1].queue|
  }

  /** The forwarder's queue is worked on, so the gauge is set again. */
  predicate Touches<T>(lane: Lane<T>, e: LaneEvent<T>) {
    match e
    case Message(_, answer) => !answer.Accepts?
    case Tick(link) => link.Up? && link.still && lane.queue != []
  }

  /** One forwarder's turn. */
  function Turn<T>(f: Fan<T>, cap: nat, e: LaneEvent<T>, i: nat): Fan<T>
    requires i < |f.lanes|
  {
    var lanes := f.lanes[i := LaneStep(f.lanes[i], cap, e)];
    Fan(lanes, if Touches(f.lanes[i], e) then Total(lanes) else f.gauge)
  }

  /** The first `i` forwarders take their turns, in order. */
  function Turns<T>(f: Fan<T>, cap: nat, e: Event<T>, i: nat): (r: Fan<T>)
    requires i <= |f.lanes| == Width(e)
    ensures |r.lanes| == |f.lanes|
  {
    if i == 0 then f else Turn(Turns(f, cap, e, i - 1), cap, Project(e, i - 1), i - 1)
  }

  function FanRun<T>(f: Fan<T>, cap: nat, es: seq<Event<T>>): (r: Fan<T>)
    requires OfWidth(|f.lanes|, es)
    ensures |r.lanes| == |f.lanes|
  {
    if es == [] then f
    else
      var n := |es| - 1;
      Turns(FanRun(f, cap, es[..n]), cap, es[n], |f.lanes|)
  }

  lemma {:induction false} TurnsAreLaneSteps<T>(f: Fan<T>, cap: nat, e: Event<T>, i: nat)
    requires i <= |f.lanes| == Width(e)
    ensures forall j | 0 <= j < |f.lanes| ::
      Turns(f, cap, e, i).lanes[j] == if j < i then LaneStep(f.lanes[j], cap, Project(e, j)) else f.lanes[j]
  {
    if i > 0 {
      TurnsAreLaneSteps(f, cap, e, i - 1);
    }
  }

  /** Fan-out isolation: each forwarder fares as it would alone, over every run. */
  lemma {:induction false} ForwardersAreIsolated<T>(f: Fan<T>, cap: nat, es: seq<Event<T>>, i: nat)
    requires i < |f.lanes| && OfWidth(|f.lanes|, es)
    ensures FanRun(f, cap, es).lanes[i] == LaneRun(f.lanes[i], cap, Projection(|f.lanes|, es, i))
  {
    if es != [] {
      var n := |es| - 1;
      ForwardersAreIsolated(f, cap, es[..n], i);
      TurnsAreLaneSteps(FanRun(f, cap, es[..n]), cap, es[n], |f.lanes|);
      assert Projection(|f.lanes|, es, i)[..n] == Projection(|f.lanes|, es[..n], i);
    }
  }

  /** Every waiting message, as a pair of forwarder and place in its queue. */
  ghost function Waiting<T>(lanes: seq<Lane<T>>): set<(int, int)> {
    set i, j | 0 <= i < |lanes| && 0 <= j < |lanes[i].queue| :: (i, j)
  }

  lemma {:induction false} RowCount(i: int, n: nat)
    ensures |set j | 0 <= j < n :: (i, j)| == n
  {
    if n > 0 {
      RowCount(i, n - 1);
      assert (set j | 0 <= j < n :: (i, j)) == (set j | 0 <= j < n - 1 :: (i, j)) + {(i, n - 1)};
    }
  }

  /** The total counts the waiting messages of all forwarders. */
  lemma {:induction false} TotalCountsWaiting<T>(lanes: seq<Lane<T>>)
    ensures Total(lanes) == |Waiting(lanes)|
  {
    if lanes == [] {
      assert Waiting(lanes) == {};
    } else {
      var n := |lanes| - 1;
      var rest, last := Waiting(lanes[..n]), set j | 0 <= j < |lanes[n].queue| :: (n, j);
      TotalCountsWaiting(lanes[..n]);
      RowCount(n, |lanes[n].queue|);
      assert Waiting(lanes) == rest + last;
      assert rest !! last;
    }
  }

  lemma {:induction false} TotalUpdate<T>(lanes: seq<Lane<T>>, i: nat, lane: Lane<T>)
    requires i < |lanes|
    ensures Total(lanes[i := lane]) == Total(lanes) - |lanes[i].queue| + |lane.queue|
  {
    var n := |lanes| - 1;
    if i < n {
      TotalUpdate(lanes[..n], i, lane);
      assert lanes[i := lane][..n] == lanes[..n][i := lane];
    } else {
      assert lanes[i := lane][..n] == lanes[..n];
    }
  }

  lemma TurnKeepsGauge<T>(f: Fan<T>, cap: nat, e: LaneEvent<T>, i: nat)
    requires i < |f.lanes| && f.gauge == Total(f.lanes)
    ensures Turn(f, cap, e, i).gauge == Total(Turn(f, cap, e, i).lanes)
  {
    hide Total;
    TotalUpdate(f.lanes, i, LaneStep(f.lanes[i], cap, e));
  }

  lemma {:induction false} TurnsKeepGauge<T>(f: Fan<T>, cap: nat, e: Event<T>, i: nat)
    requires i <= |f.lanes| == Width(e) && f.gauge == Total(f.lanes)
    ensures Turns(f, cap, e, i).gauge == Total(Turns(f, cap, e, i).lanes)
  {
    hide Total, Turn;
    if i > 0 {
      TurnsKeepGauge(f, cap, e, i - 1);
      TurnKeepsGauge(Turns(f, cap, e, i - 1), cap, Project(e, i - 1), i - 1);
    }
  }

  /** The retry-queue metric is the sum of the queue lengths, over every run. */
  lemma {:induction false} GaugeIsTotal<T>(f: Fan<T>, cap: nat, es: seq<Event<T>>)
    requires OfWidth(|f.lanes|, es) && f.gauge == Total(f.lanes)
    ensures FanRun(f, cap, es).gauge == Total(FanRun(f, cap, es).lanes)
  {
    if es != [] {
      var n := |es| - 1;
      GaugeIsTotal(f, cap, es[..n]);
      TurnsKeepGauge(FanRun(f, cap, es[..n]), cap, es[n], |f.lanes|);
    }
  }
}
