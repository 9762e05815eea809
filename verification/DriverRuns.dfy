/** Either driver over any run: clients queue writes, cycles answer them, in any order and on any network. */
module DriverRuns {
  import opened WriteQueues
  import opened FinsDrivers
  import opened ModbusDrivers
  import FinsCycles
  import ModbusCycles

  /** A client's write is offered, or a poll cycle meets some network behaviour. */
  datatype FinsTurn = OfferFins(req: WriteRequest) | PollFins(wire: FinsCycles.Wire, connects: bool)

  /**
   * A FINS driver over a run. Cycles that get a connection answer as many requests as they may, the
   * others answer none; `es` tells the run as a run of its queue, `outcomes` what each request got. A
   * cycle that panics is the last one: the poll task is gone, and later turns to poll do nothing.
   */
  method RunFins(driver: FinsDriver, turns: seq<FinsTurn>)
    returns (completed: nat, alive: bool, ghost es: seq<QueueEvent>, ghost outcomes: seq<WriteOutcome>)
    requires driver.Valid() && |driver.queue| <= 256
    modifies driver, driver.registry.tags
    ensures driver.Valid()
    ensures Recorded(old(driver.queue), es, outcomes, driver.queue, old(driver.replies), driver.replies)
    ensures CyclesIn(es) == completed && FullCycles(StartOf(old(driver.queue)), es)
    ensures forall p :: 0 <= p < |old(driver.queue)| && completed > p / 64 ==> AnsweredInTurn(old(driver.queue), es, p)
  {
    ghost var start, replies0 := driver.queue, driver.replies;
    completed, alive, es, outcomes := 0, true, [], [];
    NothingRecorded(start, replies0);
    for i := 0 to |turns|
      invariant driver.Valid() && Recorded(start, es, outcomes, driver.queue, replies0, driver.replies)
      invariant CyclesIn(es) == completed && FullCycles(StartOf(start), es)
    {
      match turns[i]
      case OfferFins(req) =>
        ghost var queue := driver.queue;
        var _ := driver.Enqueue(req);
        RecordArrival(start, es, outcomes, queue, replies0, driver.replies, req, driver.queue);
        es := es + [Arrival(req)];
      case PollFins(wire, connects) =>
        if alive {
          ghost var more;
          var done;
          done, alive, more := PollFinsOnce(driver, wire, connects, start, es, outcomes, replies0);
          if done {
            es, outcomes := es + [CycleDone(|more|)], outcomes + more;
            completed := completed + 1;
          }
        }
    }
    forall p | 0 <= p < |start| && completed > p / 64 ensures AnsweredInTurn(start, es, p) {
      PositionIsAnsweredSooner(StartOf(start), es, p);
    }
  }

  /** One cycle of the run. */
  method PollFinsOnce(driver: FinsDriver, wire: FinsCycles.Wire, connects: bool, ghost start: seq<WriteRequest>, ghost es: seq<QueueEvent>,
                      ghost outcomes: seq<WriteOutcome>, ghost replies0: seq<Reply>)
    returns (done: bool, alive: bool, ghost more: seq<WriteOutcome>)
    requires driver.Valid() && Recorded(start, es, outcomes, driver.queue, replies0, driver.replies) && FullCycles(StartOf(start), es)
    modifies driver, driver.registry.tags
    ensures driver.Valid()
    ensures alive <==> !done || !FinsCycles.Cycle(driver.config.mappings, driver.registry.definitions, driver.config.dates, driver.readGroups, wire,
                                                  old(driver.Now()), old(driver.queue)[..Taken(old(driver.queue))]).polled.panicked
    ensures !done ==> Recorded(start, es, outcomes, driver.queue, replies0, driver.replies)
    ensures done ==> Recorded(start, es + [CycleDone(|more|)], outcomes + more, driver.queue, replies0, driver.replies)
    ensures done ==> FullCycles(StartOf(start), es + [CycleDone(|more|)]) && CyclesIn(es + [CycleDone(|more|)]) == CyclesIn(es) + 1
  {
    ghost var queue, replies := driver.queue, driver.replies;
    ghost var n := Taken(queue);
    more := FinsCycles.Cycle(driver.config.mappings, driver.registry.definitions, driver.config.dates, driver.readGroups, wire,
                             driver.Now(), queue[..n]).drained.outcomes;
    RecordCycle(start, es, outcomes, queue, replies0, replies, more);
    RecordFullCycle(start, es, outcomes, queue, replies0, replies);
    var r, panicked := driver.RunReadCycle(wire, connects);
    done, alive := r.Ok?, !panicked;
  }

  datatype ModbusTurn = OfferModbus(req: WriteRequest) | PollModbus(net: ModbusCycles.Network)

  /**
   * A Modbus driver over a run. Every cycle, also one that ends early, answers a request if one waits, so
   * the request at position `p` is answered within `p + 1` cycles.
   */
  method RunModbus(driver: ModbusDriver, turns: seq<ModbusTurn>)
    returns (cycles: nat, ghost es: seq<QueueEvent>, ghost outcomes: seq<WriteOutcome>)
    requires driver.Valid() && |driver.queue| <= 256
    modifies driver, driver.registry.tags
    ensures driver.Valid()
    ensures Recorded(old(driver.queue), es, outcomes, driver.queue, old(driver.replies), driver.replies)
    ensures CyclesIn(es) == cycles
    ensures forall p :: 0 <= p < |old(driver.queue)| && cycles > p ==> AnsweredInTurn(old(driver.queue), es, p)
  {
    ghost var start, replies0 := driver.queue, driver.replies;
    cycles, es, outcomes := 0, [], [];
    NothingRecorded(start, replies0);
    for i := 0 to |turns|
      invariant driver.Valid() && Recorded(start, es, outcomes, driver.queue, replies0, driver.replies)
      invariant CyclesIn(es) == cycles
    {
      match turns[i]
      case OfferModbus(req) =>
        ghost var queue := driver.queue;
        var _ := driver.Enqueue(req);
        RecordArrival(start, es, outcomes, queue, replies0, driver.replies, req, driver.queue);
        es := es + [Arrival(req)];
      case PollModbus(net) =>
        ghost var more := PollModbusOnce(driver, net, start, es, outcomes, replies0);
        es, outcomes := es + [CycleDone(|more|)], outcomes + more;
        cycles := cycles + 1;
    }
    forall p | 0 <= p < |start| && cycles > p ensures AnsweredInTurn(start, es, p) {
      PositionIsAnswered(StartOf(start), es, p);
    }
  }

  /** One cycle of the run. */
  method PollModbusOnce(driver: ModbusDriver, net: ModbusCycles.Network, ghost start: seq<WriteRequest>, ghost es: seq<QueueEvent>,
                        ghost outcomes: seq<WriteOutcome>, ghost replies0: seq<Reply>)
    returns (ghost more: seq<WriteOutcome>)
    requires driver.Valid() && Recorded(start, es, outcomes, driver.queue, replies0, driver.replies)
    modifies driver, driver.registry.tags
    ensures driver.Valid()
    ensures Recorded(start, es + [CycleDone(|more|)], outcomes + more, driver.queue, replies0, driver.replies)
    ensures CyclesIn(es + [CycleDone(|more|)]) == CyclesIn(es) + 1
  {
    ghost var queue, replies := driver.queue, driver.replies;
    more := ModbusCycles.WriteAll(driver.config.mappings, net, driver.Now(), queue[..Taken(queue)]).outcomes;
    assert queue[..Taken(queue)][..|more|] == queue[..|more|];
    RecordCycle(start, es, outcomes, queue, replies0, replies, more);
    var _, _, _ := driver.RunReadCycle(net);
  }
}
