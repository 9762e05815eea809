/** Queued write requests, their replies, and what draining a queue in bounded cycles conserves. */
module WriteQueues {
  import opened Words
  import opened TagModel
  import opened Mappings

  datatype Option<+T> = Some(value: T) | None

  /** A client's write; `reply` names the one-shot channel of a client that waits. */
  datatype WriteRequest = WriteRequest(tagId: string, value: TagValue, reply: Option<nat>)

  datatype WriteError =
    | UnknownTag | NotWritable | UnsupportedFunction
    | ReconnectFailed | TransportFailed | TimedOut
    | SidMismatch | BadEndCode(code: Word) | ParseError
    | Exception(text: string)

  type WriteOutcome = Result<(), WriteError>

  /** What was sent on a one-shot channel. */
  datatype Reply = Reply(channel: nat, outcome: WriteOutcome)

  /** Requests one cycle takes off the queue at most. */
  const MAX_WRITES_PER_CYCLE := 64

  /** Requests a driver's queue holds. */
  const QUEUE_CAPACITY := 256

  function ReplyTo(req: WriteRequest, outcome: WriteOutcome): seq<Reply>
  {
    if req.reply.Some? then [Reply(req.reply.value, outcome)] else []
  }

  /** One reply per request that asked for one, in request order. */
  function Replies(reqs: seq<WriteRequest>, outcomes: seq<WriteOutcome>): seq<Reply>
    requires |outcomes| == |reqs|
  {
    if reqs == [] then []
    else Replies(reqs[..|reqs| - 1], outcomes[..|reqs| - 1]) + ReplyTo(reqs[|reqs| - 1], outcomes[|reqs| - 1])
  }

  lemma {:induction false} RepliesGrow(reqs: seq<WriteRequest>, outcomes: seq<WriteOutcome>, req: WriteRequest, outcome: WriteOutcome)
    requires |outcomes| == |reqs|
    ensures Replies(reqs + [req], outcomes + [outcome]) == Replies(reqs, outcomes) + ReplyTo(req, outcome)
  {
    assert (reqs + [req])[..|reqs|] == reqs && (outcomes + [outcome])[..|reqs|] == outcomes;
  }

  lemma {:induction false} RepliesGrowBy(reqs: seq<WriteRequest>, outcomes: seq<WriteOutcome>, req: WriteRequest, outcome: WriteOutcome)
    requires |outcomes| == |reqs|
    ensures Replies((reqs + [req])[..|outcomes + [outcome]|], outcomes + [outcome]) ==
            Replies(reqs[..|outcomes|], outcomes) + ReplyTo(req, outcome)
  {
    assert reqs[..|outcomes|] == reqs && (reqs + [req])[..|outcomes| + 1] == reqs + [req];
    RepliesGrow(reqs, outcomes, req, outcome);
  }

  /** What was sent on channel `c`. */
  function SentOn(replies: seq<Reply>, c: nat): seq<WriteOutcome>
  {
    if replies == [] then []
    else SentOn(replies[..|replies| - 1], c) + (if replies[|replies| - 1].channel == c then [replies[|replies| - 1].outcome] else [])
  }

  predicate DistinctChannels(reqs: seq<WriteRequest>)
  {
    forall i, j :: 0 <= i < j < |reqs| && reqs[i].reply.Some? ==> reqs[i].reply != reqs[j].reply
  }

  /** Every drained request that asked for a reply gets exactly one, its own outcome. */
  lemma {:induction false} RepliedExactlyOnce(reqs: seq<WriteRequest>, outcomes: seq<WriteOutcome>, k: nat)
    requires |outcomes| == |reqs| && DistinctChannels(reqs) && k < |reqs| && reqs[k].reply.Some?
    ensures SentOn(Replies(reqs, outcomes), reqs[k].reply.value) == [outcomes[k]]
  {
    var n, c := |reqs| - 1, reqs[k].reply.value;
    LastReply(Replies(reqs[..n], outcomes[..n]), reqs[n], outcomes[n], c);
    if k < n {
      RepliedExactlyOnce(reqs[..n], outcomes[..n], k);
    } else {
      NoReplyOn(reqs[..n], outcomes[..n], c);
    }
  }

  lemma {:induction false} LastReply(replies: seq<Reply>, req: WriteRequest, outcome: WriteOutcome, c: nat)
    ensures SentOn(replies + ReplyTo(req, outcome), c) ==
            SentOn(replies, c) + (if req.reply == Some(c) then [outcome] else [])
  {
    if req.reply.Some? {
      assert (replies + ReplyTo(req, outcome))[..|replies|] == replies;
    } else {
      assert replies + [] == replies;
    }
  }

  lemma {:induction false} NoReplyOn(reqs: seq<WriteRequest>, outcomes: seq<WriteOutcome>, c: nat)
    requires |outcomes| == |reqs| && forall i :: 0 <= i < |reqs| ==> reqs[i].reply != Some(c)
    ensures SentOn(Replies(reqs, outcomes), c) == []
  {
    if reqs != [] {
      var n := |reqs| - 1;
      NoReplyOn(reqs[..n], outcomes[..n], c);
      LastReply(Replies(reqs[..n], outcomes[..n]), reqs[n], outcomes[n], c);
    }
  }

  /** Requests a cycle takes off the queue: all, but at most 64. */
  function Taken(queue: seq<WriteRequest>): (n: nat)
    ensures n == if |queue| <= 64 then |queue| else 64
  {
    Min(MAX_WRITES_PER_CYCLE, |queue|)
  }

  /** The first mapping of tag `id`. */
  function FindMapping(ms: seq<Mapping>, id: string): (r: Option<Mapping>)
    ensures r.Some? ==> r.value in ms && r.value.tagId == id
    ensures r.None? <==> forall i :: 0 <= i < |ms| ==> ms[i].tagId != id
  {
    if ms == [] then None else if ms[0].tagId == id then Some(ms[0]) else FindMapping(ms[1..], id)
  }

  /** With distinct ids the first mapping is the only one. */
  lemma {:induction false} FoundMapping(ms: seq<Mapping>, m: Mapping)
    requires DistinctIds(ms) && m in ms
    ensures FindMapping(ms, m.tagId) == Some(m)
  {
    if ms[0] != m {
      var k :| 0 <= k < |ms| && ms[k] == m;
      assert ms[0].tagId != ms[k].tagId;
      FoundMapping(ms[1..], m);
    }
  }

  lemma {:induction false} NextTaken(all: seq<WriteRequest>, k: nat)
    requires k < |all|
    ensures all[k..][0] == all[k] && all[k..][1..] == all[k + 1..] && all[..k] + [all[k]] == all[..k + 1]
  {
  }

  // ----- runs of arrivals and cycles -----

  /** A client's request arrives, or a cycle answers the oldest `count` requests. */
  datatype QueueEvent = Arrival(req: WriteRequest) | CycleDone(count: nat)

  /** A driver's queue with its history: all requests taken in, all answered, those still waiting. */
  datatype QueueState = QueueState(accepted: seq<WriteRequest>, answered: seq<WriteRequest>, waiting: seq<WriteRequest>)

  /** A cycle that answers requests: at most 64, and at least one if a request waits. */
  predicate Progresses(q: QueueState, e: QueueEvent)
  {
    e.CycleDone? ==> e.count <= Min(MAX_WRITES_PER_CYCLE, |q.waiting|) && (q.waiting != [] ==> e.count >= 1)
  }

  function QueueStep(q: QueueState, e: QueueEvent): QueueState
    requires Progresses(q, e)
  {
    match e
    case Arrival(req) =>
      if |q.waiting| < QUEUE_CAPACITY then q.(accepted := q.accepted + [req], waiting := q.waiting + [req]) else q
    case CycleDone(n) => q.(answered := q.answered + q.waiting[..n], waiting := q.waiting[n..])
  }

  /** Every event of the run is possible where it happens. */
  predicate Possible(q: QueueState, es: seq<QueueEvent>)
    decreases |es|
  {
    es == [] || (Progresses(q, es[0]) && Possible(QueueStep(q, es[0]), es[1..]))
  }

  function QueueRun(q: QueueState, es: seq<QueueEvent>): QueueState
    requires Possible(q, es)
    decreases |es|
  {
    if es == [] then q else QueueRun(QueueStep(q, es[0]), es[1..])
  }

  function CyclesIn(es: seq<QueueEvent>): nat
  {
    if es == [] then 0 else (if es[0].CycleDone? then 1 else 0) + CyclesIn(es[1..])
  }

  /** Nothing is lost, doubled or reordered: what was taken in is what was answered, then what waits. */
  predicate Conserved(q: QueueState)
  {
    q.accepted == q.answered + q.waiting && |q.waiting| <= 256
  }

  lemma {:induction false} QueueConserves(q: QueueState, es: seq<QueueEvent>)
    requires Conserved(q) && Possible(q, es)
    ensures Conserved(QueueRun(q, es))
    decreases |es|
  {
    if es != [] {
      StepConserves(q, es[0]);
      QueueConserves(QueueStep(q, es[0]), es[1..]);
    }
  }

  lemma {:induction false} StepConserves(q: QueueState, e: QueueEvent)
    requires Conserved(q) && Progresses(q, e)
    ensures Conserved(QueueStep(q, e))
  {
    match e
    case Arrival(req) => assert q.answered + (q.waiting + [req]) == (q.answered + q.waiting) + [req];
    case CycleDone(n) => SplitWaiting(q.answered, q.waiting, n);
  }

  lemma {:induction false} SplitWaiting(answered: seq<WriteRequest>, waiting: seq<WriteRequest>, n: nat)
    requires n <= |waiting|
    ensures (answered + waiting[..n]) + waiting[n..] == answered + waiting
  {
    assert waiting == waiting[..n] + waiting[n..];
  }

  /** What was answered stays answered. */
  lemma {:induction false} AnswersStay(q: QueueState, es: seq<QueueEvent>)
    requires Possible(q, es)
    ensures q.answered <= QueueRun(q, es).answered
    decreases |es|
  {
    if es != [] {
      AnswersStay(QueueStep(q, es[0]), es[1..]);
    }
  }

  /** The request waiting at position `p` is answered, as number `|answered| + p`, within `p + 1` cycles. */
  lemma {:induction false} PositionIsAnswered(q: QueueState, es: seq<QueueEvent>, p: nat)
    requires Possible(q, es) && p < |q.waiting| && CyclesIn(es) > p
    ensures var done := QueueRun(q, es).answered;
            |q.answered| + p < |done| && done[|q.answered| + p] == q.waiting[p]
    decreases |es|
  {
    var next := QueueStep(q, es[0]);
    if es[0].Arrival? {
      PositionIsAnswered(next, es[1..], p);
    } else if p < es[0].count {
      AnswersStay(next, es[1..]);
      assert next.answered[|q.answered| + p] == q.waiting[p];
    } else {
      PositionIsAnswered(next, es[1..], p - es[0].count);
    }
  }

  /** Every cycle of the run answers as many requests as it may. */
  predicate FullCycles(q: QueueState, es: seq<QueueEvent>)
    requires Possible(q, es)
    decreases |es|
  {
    es == [] || ((es[0].CycleDone? ==> es[0].count == Min(MAX_WRITES_PER_CYCLE, |q.waiting|)) && FullCycles(QueueStep(q, es[0]), es[1..]))
  }

  /** When no cycle gives up early, as with FINS, 64 requests a cycle are answered. */
  lemma {:induction false} PositionIsAnsweredSooner(q: QueueState, es: seq<QueueEvent>, p: nat)
    requires Possible(q, es) && FullCycles(q, es) && p < |q.waiting| && CyclesIn(es) > p / 64
    ensures var done := QueueRun(q, es).answered;
            |q.answered| + p < |done| && done[|q.answered| + p] == q.waiting[p]
    decreases |es|
  {
    var next := QueueStep(q, es[0]);
    if es[0].Arrival? {
      PositionIsAnsweredSooner(next, es[1..], p);
    } else if p < es[0].count {
      AnswersStay(next, es[1..]);
      assert next.answered[|q.answered| + p] == q.waiting[p];
    } else {
      assert es[0].count == 64;
      assert (p - 64) / 64 == p / 64 - 1;
      PositionIsAnsweredSooner(next, es[1..], p - 64);
    }
  }

  // ----- runs, one event at a time -----

  /** One more event of a run. */
  lemma {:induction false} OneMoreEvent(q: QueueState, es: seq<QueueEvent>, e: QueueEvent)
    requires Possible(q, es) && Progresses(QueueRun(q, es), e)
    ensures Possible(q, es + [e]) && QueueRun(q, es + [e]) == QueueStep(QueueRun(q, es), e)
    ensures CyclesIn(es + [e]) == CyclesIn(es) + if e.CycleDone? then 1 else 0
    decreases |es|
  {
    if es == [] {
      assert [] + [e] == [e] && [e][1..] == [];
    } else {
      OneMoreEvent(QueueStep(q, es[0]), es[1..], e);
      assert (es + [e])[0] == es[0] && (es + [e])[1..] == es[1..] + [e];
    }
  }

  lemma {:induction false} OneMoreFullCycle(q: QueueState, es: seq<QueueEvent>, e: QueueEvent)
    requires Possible(q, es) && Progresses(QueueRun(q, es), e) && FullCycles(q, es)
    requires e.CycleDone? ==> e.count == Taken(QueueRun(q, es).waiting)
    ensures Possible(q, es + [e]) && FullCycles(q, es + [e])
    decreases |es|
  {
    if es == [] {
      assert [] + [e] == [e] && [e][1..] == [];
    } else {
      OneMoreFullCycle(QueueStep(q, es[0]), es[1..], e);
      assert (es + [e])[0] == es[0] && (es + [e])[1..] == es[1..] + [e];
    }
  }

  lemma {:induction false} RepliesConcat(a: seq<WriteRequest>, x: seq<WriteOutcome>, b: seq<WriteRequest>, y: seq<WriteOutcome>)
    requires |x| == |a| && |y| == |b|
    ensures Replies(a + b, x + y) == Replies(a, x) + Replies(b, y)
    decreases |b|
  {
    if b == [] {
      assert a + b == a && x + y == x;
    } else {
      var n := |b| - 1;
      RepliesConcat(a, x, b[..n], y[..n]);
      assert (a + b)[..|a + b| - 1] == a + b[..n] && (x + y)[..|x + y| - 1] == x + y[..n];
      assert (Replies(a, x) + Replies(b[..n], y[..n])) + ReplyTo(b[n], y[n]) ==
             Replies(a, x) + (Replies(b[..n], y[..n]) + ReplyTo(b[n], y[n]));
    }
  }

  /** A queue at the start of a run. */
  function StartOf(queue: seq<WriteRequest>): QueueState
  {
    QueueState(queue, [], queue)
  }

  /** The events are those of a run from `start`, after which the queue and the replies are as they are. */
  ghost predicate Recorded(start: seq<WriteRequest>, es: seq<QueueEvent>, outcomes: seq<WriteOutcome>, queue: seq<WriteRequest>,
                           replies0: seq<Reply>, replies: seq<Reply>)
  {
    && Possible(StartOf(start), es)
    && var q := QueueRun(StartOf(start), es);
       && Conserved(q) && queue == q.waiting
       && |outcomes| == |q.answered| && replies == replies0 + Replies(q.answered, outcomes)
  }

  /** The request at position `p` of the queue at the start was answered, in its place. */
  ghost predicate AnsweredInTurn(start: seq<WriteRequest>, es: seq<QueueEvent>, p: nat)
    requires Possible(StartOf(start), es) && p < |start|
  {
    var done := QueueRun(StartOf(start), es).answered;
    p < |done| && done[p] == start[p]
  }

  lemma {:induction false} NothingRecorded(start: seq<WriteRequest>, replies: seq<Reply>)
    requires |start| <= QUEUE_CAPACITY
    ensures Recorded(start, [], [], start, replies, replies)
  {
    assert replies + [] == replies && [] + start == start;
  }

  /** An offered request is taken in, or refused by a full queue. */
  lemma {:induction false} RecordArrival(start: seq<WriteRequest>, es: seq<QueueEvent>, outcomes: seq<WriteOutcome>, queue: seq<WriteRequest>,
                                         replies0: seq<Reply>, replies: seq<Reply>, req: WriteRequest, next: seq<WriteRequest>)
    requires Recorded(start, es, outcomes, queue, replies0, replies)
    requires next == if |queue| < QUEUE_CAPACITY then queue + [req] else queue
    ensures Recorded(start, es + [Arrival(req)], outcomes, next, replies0, replies)
    ensures CyclesIn(es + [Arrival(req)]) == CyclesIn(es)
    ensures FullCycles(StartOf(start), es) ==> FullCycles(StartOf(start), es + [Arrival(req)])
  {
    OneMoreEvent(StartOf(start), es, Arrival(req));
    StepConserves(QueueRun(StartOf(start), es), Arrival(req));
    if FullCycles(StartOf(start), es) {
      OneMoreFullCycle(StartOf(start), es, Arrival(req));
    }
  }

  /** A cycle answers the oldest requests. */
  lemma {:induction false} RecordCycle(start: seq<WriteRequest>, es: seq<QueueEvent>, outcomes: seq<WriteOutcome>, queue: seq<WriteRequest>,
                                       replies0: seq<Reply>, replies: seq<Reply>, more: seq<WriteOutcome>)
    requires Recorded(start, es, outcomes, queue, replies0, replies)
    requires |more| <= Taken(queue) && (queue != [] ==> more != [])
    ensures Recorded(start, es + [CycleDone(|more|)], outcomes + more, queue[|more|..], replies0, replies + Replies(queue[..|more|], more))
    ensures CyclesIn(es + [CycleDone(|more|)]) == CyclesIn(es) + 1
  {
    var q, n := QueueRun(StartOf(start), es), |more|;
    OneMoreEvent(StartOf(start), es, CycleDone(n));
    StepConserves(q, CycleDone(n));
    RepliesConcat(q.answered, outcomes, queue[..n], more);
    Associate(replies0, Replies(q.answered, outcomes), Replies(queue[..n], more));
  }

  /** A cycle that answers all it may keeps the run one of full cycles. */
  lemma {:induction false} RecordFullCycle(start: seq<WriteRequest>, es: seq<QueueEvent>, outcomes: seq<WriteOutcome>, queue: seq<WriteRequest>,
                                           replies0: seq<Reply>, replies: seq<Reply>)
    requires Recorded(start, es, outcomes, queue, replies0, replies) && FullCycles(StartOf(start), es)
    ensures Possible(StartOf(start), es + [CycleDone(Taken(queue))]) && FullCycles(StartOf(start), es + [CycleDone(Taken(queue))])
  {
    OneMoreFullCycle(StartOf(start), es, CycleDone(Taken(queue)));
  }
}
