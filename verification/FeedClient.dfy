// The feed client: line buffer, forwarders, retry queues and metrics.
module FeedClient {
  import opened Common
  import opened LineFraming
  import opened Fanout

  type Message = seq<byte>

  function Failures(answers: seq<Answer>): nat {
    if answers == [] then 0
    else Failures(answers[..|answers| - 1]) + if answers[|answers| - 1].Fails? then 1 else 0
  }

  /** The sends that fail while the first `n` messages of a read are forwarded. */
  function AllFailures(answers: nat -> seq<Answer>, n: nat): nat {
    if n == 0 then 0 else AllFailures(answers, n - 1) + Failures(answers(n - 1))
  }

  /** Lanes gathered from the client's parallel vectors. */
  function LanesOf(queues: seq<seq<Message>>, delivered: seq<seq<Message>>, evicted: seq<seq<Message>>)
    : (lanes: seq<Lane<Message>>)
    requires |queues| == |delivered| == |evicted|
    ensures |lanes| == |queues|
    ensures forall i | 0 <= i < |lanes| :: lanes[i] == Lane(queues[i], delivered[i], evicted[i])
  {
    seq(|queues|, i requires 0 <= i < |queues| => Lane(queues[i], delivered[i], evicted[i]))
  }

  function SumLengths(queues: seq<seq<Message>>): nat {
    if queues == [] then 0 else SumLengths(queues[..|queues| - 1]) + |queues[|queues| - 1]|
  }

  lemma {:induction false} TotalIsSum(lanes: seq<Lane<Message>>, queues: seq<seq<Message>>, n: nat)
    requires n <= |lanes| == |queues| && forall i | 0 <= i < |queues| :: lanes[i].queue == queues[i]
    ensures Total(lanes[..n]) == SumLengths(queues[..n])
  {
    if n > 0 {
      TotalIsSum(lanes, queues, n - 1);
      assert lanes[..n][..n - 1] == lanes[..n - 1] && queues[..n][..n - 1] == queues[..n - 1];
    }
  }

  /** The messages of one read as broadcast steps. */
  function Broadcasts(messages: seq<Message>, answers: nat -> seq<Answer>): (es: seq<Event<Message>>)
    ensures |es| == |messages|
    ensures forall k | 0 <= k < |es| :: es[k] == Broadcast(messages[k], answers(k))
  {
    seq(|messages|, k requires 0 <= k < |messages| => Broadcast(messages[k], answers(k)))
  }

  class Client {
    const limit: nat
    const cap: nat
    const testMode: bool

    var lineBuffer: seq<byte>
    var retryQueues: seq<seq<Message>>
    var retryQueueSize: nat
    var messagesSent: nat
    var errors: nat

    // What the backends have taken, and what was dropped for them.
    ghost var delivered: seq<seq<Message>>
    ghost var evicted: seq<seq<Message>>

    ghost predicate Valid()
      reads this
    {
      |retryQueues| == |delivered| == |evicted|
    }

    ghost function Forwarders(): Fan<Message>
      requires Valid()
      reads this
    {
      Fan(LanesOf(retryQueues, delivered, evicted), retryQueueSize)
    }

    constructor (limit: nat, cap: nat, testMode: bool, forwarders: nat)
      ensures Valid() && lineBuffer == [] && messagesSent == errors == 0
      ensures this.limit == limit && this.cap == cap && this.testMode == testMode
      ensures Forwarders() == Fan(seq(forwarders, _ => EmptyLane()), 0)
    {
      this.limit, this.cap, this.testMode := limit, cap, testMode;
      lineBuffer := [];
      retryQueues := seq(forwarders, _ => []);
      retryQueueSize, messagesSent, errors := 0, 0, 0;
      delivered, evicted := seq(forwarders, _ => []), seq(forwarders, _ => []);
    }

    /** Appends received bytes and cuts off the complete lines. */
    method ProcessBuffer(data: seq<byte>) returns (r: Result<seq<Message>, Overflow>)
      modifies this`lineBuffer, this`errors
      ensures lineBuffer == BufferAfter(old(lineBuffer), limit, Chunk(data))
      ensures r == ResultOf(old(lineBuffer), limit, data)
      ensures r.Err? <==> |old(lineBuffer)| + |data| > limit
      ensures r.Err? ==> lineBuffer == [] && r.error == Overflow(0, limit)
      ensures r.Ok? ==> r.value == Messages(old(lineBuffer) + data) && lineBuffer == Residue(old(lineBuffer) + data)
      ensures errors == old(errors) + if r.Err? then 1 else 0
    {
      lineBuffer := lineBuffer + data;
      if |lineBuffer| > limit {
        lineBuffer := [];
        errors := errors + 1;
        return Err(Overflow(|lineBuffer|, limit));
      }
      var messages := CutLines();
      return Ok(messages);
    }

    /** Takes the complete lines off the front of the buffer, keeping those with text. */
    method CutLines() returns (messages: seq<Message>)
      modifies this`lineBuffer
      ensures messages == Messages(old(lineBuffer)) && lineBuffer == Residue(old(lineBuffer))
    {
      hide Messages, Residue, NewlineAt, HasText;
      ghost var whole := lineBuffer;
      messages := [];
      var at := FindNewline();
      while at < |lineBuffer|
        invariant at == NewlineAt(lineBuffer)
        invariant messages + Messages(lineBuffer) == Messages(whole)
        invariant Residue(lineBuffer) == Residue(whole)
        decreases |lineBuffer|
      {
        CutLine(lineBuffer);
        var line := lineBuffer[..at];
        lineBuffer := lineBuffer[at + 1..];
        if HasText(line) {
          messages := messages + [line];
        }
        at := FindNewline();
      }
      CutLine(lineBuffer);
    }

    /** `iter().position(|b| b == '\n')`, with the length for none. */
    method FindNewline() returns (at: nat)
      ensures at == NewlineAt(lineBuffer)
    {
      at := 0;
      while at < |lineBuffer| && lineBuffer[at] != NEWLINE
        invariant at <= |lineBuffer|
        invariant NewlineAt(lineBuffer) == at + NewlineAt(lineBuffer[at..])
      {
        assert lineBuffer[at..][1..] == lineBuffer[at + 1..];
        at := at + 1;
      }
    }

    /** A lost connection drops the partial line. */
    method Disconnected()
      modifies this`lineBuffer
      ensures lineBuffer == BufferAfter(old(lineBuffer), limit, Disconnect) == []
    {
      lineBuffer := [];
    }

    /** Sets the retry-queue metric. */
    method SetRetryQueueSize()
      requires Valid()
      modifies this`retryQueueSize
      ensures retryQueueSize == Total(old(Forwarders()).lanes)
    {
      var total := 0;
      for i := 0 to |retryQueues|
        invariant total == SumLengths(retryQueues[..i])
      {
        assert retryQueues[..i + 1][..i] == retryQueues[..i];
        total := total + |retryQueues[i]|;
      }
      TotalIsSum(Forwarders().lanes, retryQueues, |retryQueues|);
      assert retryQueues[..|retryQueues|] == retryQueues;
      assert Forwarders().lanes[..|retryQueues|] == Forwarders().lanes;
      retryQueueSize := total;
    }

    /** Queues a message at the end; only a full queue loses one, its oldest. */
    method EnqueueRetry(i: nat, m: Message)
      requires Valid() && i < |retryQueues|
      modifies this`retryQueues, this`retryQueueSize, this`evicted
      ensures Valid() && |retryQueues| == |old(retryQueues)|
      ensures forall j | 0 <= j < |retryQueues| && j != i ::
        retryQueues[j] == old(retryQueues)[j] && evicted[j] == old(evicted)[j]
      ensures var queue := old(retryQueues)[i];
        if queue == [] || |queue| < cap then retryQueues[i] == queue + [m] && evicted[i] == old(evicted)[i]
        else retryQueues[i] == queue[1..] + [m] && evicted[i] == old(evicted)[i] + [queue[0]]
      ensures var lanes := old(Forwarders()).lanes[i := Enqueue(old(Forwarders()).lanes[i], cap, m)];
        Forwarders() == Fan(lanes, Total(lanes))
    {
      var queue := retryQueues[i];
      if |queue| < cap {
        queue := queue + [m];
      } else {
        if queue != [] {
          evicted := evicted[i := evicted[i] + [queue[0]]];
          queue := queue[1..];
        }
        queue := queue + [m];
      }
      retryQueues := retryQueues[i := queue];
      assert Forwarders().lanes == old(Forwarders()).lanes[i := Enqueue(old(Forwarders()).lanes[i], cap, m)];
      SetRetryQueueSize();
    }

    /**
     * Sends one message to every forwarder. `answers` says what each does: it is
     * offline, it takes the message, or the send fails and it is disconnected.
     */
    method ForwardMessage(m: Message, answers: seq<Answer>)
      requires Valid() && |answers| == |retryQueues|
      modifies this`retryQueues, this`retryQueueSize, this`evicted, this`delivered, this`messagesSent, this`errors
      ensures Valid() && messagesSent == old(messagesSent) + 1
      ensures testMode ==> Forwarders() == old(Forwarders()) && errors == old(errors)
      ensures !testMode ==>
        && |answers| == |old(Forwarders()).lanes|
        && Forwarders() == Turns(old(Forwarders()), cap, Broadcast(m, answers), |answers|)
        && errors == old(errors) + Failures(answers)
    {
      if testMode {
        messagesSent := messagesSent + 1;
        return;
      }
      ghost var before, e := Forwarders(), Broadcast(m, answers);
      assert answers[..0] == [];
      hide Turn;
      for i := 0 to |answers|
        invariant Valid() && |retryQueues| == |answers| && messagesSent == old(messagesSent)
        invariant Forwarders() == Turns(before, cap, e, i)
        invariant errors == old(errors) + Failures(answers[..i])
      {
        assert answers[..i + 1][..i] == answers[..i];
        ForwardTo(i, m, answers[i]);
      }
      assert answers[..|answers|] == answers;
      messagesSent := messagesSent + 1;
    }

    /** One forwarder's turn at a live message. */
    method ForwardTo(i: nat, m: Message, answer: Answer)
      requires Valid() && i < |retryQueues|
      modifies this`retryQueues, this`retryQueueSize, this`evicted, this`delivered, this`errors
      ensures Valid() && Forwarders() == Turn(old(Forwarders()), cap, Message(m, answer), i)
      ensures errors == old(errors) + if answer.Fails? then 1 else 0
    {
      match answer {
        case Offline =>
          EnqueueRetry(i, m);
        case Accepts =>
          delivered := delivered[i := delivered[i] + [m]];
          ghost var before := old(Forwarders()).lanes;
          assert Forwarders().lanes == before[i := Forward(before[i], cap, m, Accepts)];
        case Fails =>
          errors := errors + 1;
          EnqueueRetry(i, m);
      }
    }

    /**
     * Tries queued messages, oldest first, until one fails or the batch is done.
     * A failed message goes back to the front. `accepts` sends succeed in a row.
     */
    method DrainRetryQueue(i: nat, most: nat, still: bool, accepts: nat)
      requires Valid() && i < |retryQueues|
      modifies this`retryQueues, this`retryQueueSize, this`delivered
      ensures Valid()
      ensures var f := old(Forwarders());
        Forwarders() ==
          if f.lanes[i].queue == [] || !still then f
          else var lanes := f.lanes[i := Drain(f.lanes[i], most, accepts)]; Fan(lanes, Total(lanes))
    {
      if retryQueues[i] == [] || !still {
        return;
      }
      var rest := SendQueued(i, most, accepts);
      retryQueues := retryQueues[i := rest];
      ghost var lane := old(Forwarders()).lanes[i];
      assert Forwarders().lanes[i] == Drain(lane, most, accepts);
      assert forall j | 0 <= j < |retryQueues| && j != i :: Forwarders().lanes[j] == old(Forwarders().lanes[j]);
      assert Forwarders().lanes == old(Forwarders()).lanes[i := Drain(lane, most, accepts)];
      SetRetryQueueSize();
    }

    /** Sends from the front of a queue, and gives back what is left of it. */
    method SendQueued(i: nat, most: nat, accepts: nat) returns (rest: seq<Message>)
      requires Valid() && i < |retryQueues|
      modifies this`delivered
      ensures var queue := retryQueues[i]; var k := Min(|queue|, Min(most, accepts));
        rest == queue[k..] && delivered == old(delivered)[i := old(delivered)[i] + queue[..k]]
    {
      var sent, queue := 0, retryQueues[i];
      ghost var all, taken := queue, delivered[i];
      var failed: seq<Message> := [];
      assert taken + all[..0] == taken && delivered[i := taken] == delivered;
      while sent < most && queue != [] && failed == []
        invariant sent <= |all| && sent <= most && sent <= accepts
        invariant failed == [] ==> queue == all[sent..]
        invariant failed != [] ==>
          sent == accepts < |all| && sent < most && failed == [all[sent]] && queue == all[sent + 1..]
        invariant delivered == old(delivered)[i := taken + all[..sent]]
        decreases |queue|
      {
        var message := queue[0];
        queue := queue[1..];
        if sent < accepts {
          assert taken + all[..sent + 1] == (taken + all[..sent]) + [message];
          delivered := delivered[i := delivered[i] + [message]];
          sent := sent + 1;
        } else {
          failed := failed + [message];
        }
      }
      rest := failed + queue;
    }

    /** The housekeeping tick: every connected forwarder gets its backlog worked on. */
    method HousekeepingTick(links: seq<Link>)
      requires Valid() && |links| == |retryQueues|
      modifies this`retryQueues, this`retryQueueSize, this`delivered
      ensures Valid()
      ensures testMode ==> Forwarders() == old(Forwarders())
      ensures !testMode ==>
        && |links| == |old(Forwarders()).lanes|
        && Forwarders() == Turns(old(Forwarders()), cap, Housekeeping(links), |links|)
    {
      if !testMode {
        ghost var before, e := Forwarders(), Housekeeping(links);
        for i := 0 to |links|
          invariant Valid() && |retryQueues| == |links|
          invariant Forwarders() == Turns(before, cap, e, i)
        {
          ghost var now := Forwarders();
          if links[i].Up? {
            DrainRetryQueue(i, MAX_RETRY_DRAIN_PER_TICK, links[i].still, links[i].accepts);
          }
          assert now.lanes[i := now.lanes[i]] == now.lanes;
          if links[i].Up? && now.lanes[i].queue == [] {
            DrainEmpty(now.lanes[i], MAX_RETRY_DRAIN_PER_TICK, links[i].accepts);
          }
          assert Forwarders() == Turn(now, cap, Project(e, i), i);
        }
      }
    }

    /** One read from the socket: frame it, then forward every message. */
    method Receive(data: seq<byte>, answers: nat -> seq<Answer>) returns (r: Result<seq<Message>, Overflow>)
      requires Valid() && forall k :: |answers(k)| == |retryQueues|
      modifies this
      ensures Valid() && lineBuffer == BufferAfter(old(lineBuffer), limit, Chunk(data))
      ensures r == ResultOf(old(lineBuffer), limit, data)
      ensures messagesSent == old(messagesSent) + if r.Ok? then |r.value| else 0
      ensures errors == old(errors) + if r.Err? then 1 else if testMode then 0 else AllFailures(answers, |r.value|)
      ensures r.Err? || testMode ==> Forwarders() == old(Forwarders())
      ensures r.Ok? && !testMode ==>
        && OfWidth(|old(Forwarders()).lanes|, Broadcasts(r.value, answers))
        && Forwarders() == FanRun(old(Forwarders()), cap, Broadcasts(r.value, answers))
    {
      r := ProcessBuffer(data);
      if r.Err? {
        return;
      }
      ghost var before, es := Forwarders(), Broadcasts(r.value, answers);
      for k := 0 to |r.value|
        invariant Valid() && |retryQueues| == |before.lanes|
        invariant lineBuffer == BufferAfter(old(lineBuffer), limit, Chunk(data))
        invariant messagesSent == old(messagesSent) + k
        invariant errors == old(errors) + if testMode then 0 else AllFailures(answers, k)
        invariant testMode ==> Forwarders() == before
        invariant !testMode ==> OfWidth(|before.lanes|, es[..k]) && Forwarders() == FanRun(before, cap, es[..k])
      {
        assert es[..k + 1][..k] == es[..k];
        ForwardMessage(r.value[k], answers(k));
      }
      assert es[..|r.value|] == es;
    }
  }
}
