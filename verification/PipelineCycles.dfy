/** The pipeline's driver events, put together: the cycles of the two drivers. */
module PipelineCycles {
  import opened Words
  import opened WriteQueues
  import opened WritePipelines
  import FinsCycles
  import ModbusCycles

  /** `n` requests of driver `d` are drained. */
  function Drains(d: nat, n: nat): seq<Event>
  {
    if n == 0 then [] else Drains(d, n - 1) + [Drain(d)]
  }

  /** The events are possible from `s` on and lead to `t`. */
  ghost predicate Leads(site: Site, s: Pipeline, es: seq<Event>, t: Pipeline)
  {
    WritePipelines.Possible(site, s, es) && Run(site, s, es) == t
  }

  lemma {:induction false} LeadsOn(site: Site, s: Pipeline, es: seq<Event>, t: Pipeline, e: Event)
    requires Leads(site, s, es, t) && Enabled(site, t, e)
    ensures Leads(site, s, es + [e], Step(site, t, e))
  {
    OneMore(site, s, es, e);
  }

  /** What waits in the queue of driver `d`. */
  function Queue(s: Pipeline, d: nat): seq<WriteRequest>
    requires d < |s.drivers|
  {
    var x := s.drivers[d];
    if |x.executions| <= |x.received| then x.received[|x.executions|..] else []
  }

  /** From `s` to `t` driver `d` answered its oldest requests with these outcomes, in order, and got no request. */
  predicate Answers(s: Pipeline, t: Pipeline, d: nat, outcomes: seq<WriteOutcome>)
    requires d < |s.drivers|
  {
    && |t.drivers| == |s.drivers|
    && t.drivers[d].received == s.drivers[d].received
    && |t.drivers[d].executions| == |s.drivers[d].executions| + |outcomes|
    && t.drivers[d].executions[..|s.drivers[d].executions|] == s.drivers[d].executions
    && forall i :: 0 <= i < |outcomes| ==> t.drivers[d].executions[|s.drivers[d].executions| + i].outcome == outcomes[i]
  }

  /** Driver `d` can drain its oldest request, and answers it as its own code does. */
  lemma {:induction false} DrainsNext(site: Site, s: Pipeline, t: Pipeline, d: nat, outcomes: seq<WriteOutcome>, p: Plc, x: DriverState, req: WriteRequest)
    requires Reachable(site, t) && d < |s.drivers| && Answers(s, t, d, outcomes) && |outcomes| < |Queue(s, d)|
    requires d < |site.plant| && p == site.plant[d] && x == t.drivers[d].state && Runnable(p, x) && req == Queue(s, d)[|outcomes|]
    ensures Enabled(site, t, Drain(d))
    ensures var u, done := Step(site, t, Drain(d)), Execute(p, x, req);
            && Reachable(site, u) && u.drivers[d].state == done.state && Answers(s, u, d, outcomes + [done.outcome])
  {
    ReachableIsOk(site, t);
    var n := |t.drivers[d].executions|;
    assert RequestOk(t, d, n);
    assert t.drivers[d].received[n] == req;
    ReachableStep(site, t, Drain(d));
  }

  /** Driver `d` connects or polls: it moves on, and its queue is as it was. */
  lemma {:induction false} Moves(site: Site, s: Pipeline, d: nat, e: Event, outcomes: seq<WriteOutcome>, before: Pipeline)
    requires Reachable(site, s) && Running(site, s, d) && (e == Connect(d) || e == Poll(d))
    requires d < |before.drivers| && Answers(before, s, d, outcomes)
    ensures Enabled(site, s, e) && Reachable(site, Step(site, s, e))
    ensures var t, p, x := Step(site, s, e), site.plant[d], s.drivers[d].state;
            && Answers(before, t, d, outcomes) && Queue(t, d) == Queue(s, d)
            && t.drivers[d].state == if e == Connect(d) then Connected(p, x) else Polled(p, x)
  {
    ReachableStep(site, s, e);
  }

  lemma {:induction false} AnswersOnTop(s: Pipeline, t: Pipeline, u: Pipeline, d: nat, outcomes: seq<WriteOutcome>)
    requires d < |s.drivers| && Answers(s, t, d, []) && Answers(t, u, d, outcomes)
    ensures Answers(s, u, d, outcomes)
  {
    var n := |s.drivers[d].executions|;
    assert t.drivers[d].executions == t.drivers[d].executions[..n];
  }

  // ----- the FINS driver -----

  /** Behind the drains of the first `n` requests driver `d` is where the drain of the FINS cycle is. */
  ghost predicate FinsDrained(site: Site, s: Pipeline, d: nat, n: nat, t: Pipeline)
    requires Running(site, s, d) && site.plant[d].FinsPlc? && n <= |Queue(s, d)|
  {
    var p := site.plant[d];
    var run := FinsCycles.WriteAll(p.ms, p.wire, s.drivers[d].state.station, Queue(s, d)[..n]);
    Reachable(site, t) && Answers(s, t, d, run.outcomes) && t.drivers[d].state == OnFins(run.station)
  }

  lemma {:induction false} FinsDrainsNext(site: Site, s: Pipeline, d: nat, n: nat, t: Pipeline)
    requires Running(site, s, d) && site.plant[d].FinsPlc? && n < |Queue(s, d)| && FinsDrained(site, s, d, n, t)
    ensures Enabled(site, t, Drain(d)) && FinsDrained(site, s, d, n + 1, Step(site, t, Drain(d)))
  {
    var p, reqs, station := site.plant[d], Queue(s, d), s.drivers[d].state.station;
    var before := FinsCycles.WriteAll(p.ms, p.wire, station, reqs[..n]);
    DrainsNext(site, s, t, d, before.outcomes, p, t.drivers[d].state, reqs[n]);
    FinsCycles.WriteNext(p.ms, p.wire, station, reqs[..n], reqs[n]);
    assert reqs[..n + 1] == reqs[..n] + [reqs[n]];
  }

  /** Draining `n` requests one by one is the drain of the FINS cycle. */
  lemma {:induction false} FinsDrain(site: Site, s: Pipeline, d: nat, n: nat) returns (t: Pipeline)
    requires Reachable(site, s) && Running(site, s, d) && site.plant[d].FinsPlc? && n <= |Queue(s, d)|
    ensures Leads(site, s, Drains(d, n), t) && FinsDrained(site, s, d, n, t)
  {
    if n == 0 {
      t := s;
    } else {
      var u := FinsDrain(site, s, d, n - 1);
      FinsDrainsNext(site, s, d, n - 1, u);
      LeadsOn(site, s, Drains(d, n - 1), u, Drain(d));
      t := Step(site, u, Drain(d));
    }
  }

  /**
   * A cycle of the FINS driver is a run of the machine: it connects, drains what the cycle takes off the
   * queue, and polls. Behind it the driver has answered as the cycle does and is where the cycle leaves it.
   */
  lemma {:induction false} FinsCycleIsRun(site: Site, s: Pipeline, d: nat) returns (t: Pipeline)
    requires Reachable(site, s) && Running(site, s, d) && site.plant[d].FinsPlc?
    ensures Leads(site, s, [Connect(d)] + Drains(d, Taken(Queue(s, d))) + [Poll(d)], t)
    ensures var p, queue := site.plant[d], Queue(s, d);
            var run := FinsCycles.Cycle(p.ms, p.defs, p.dates, p.groups, p.wire, s.drivers[d].state.station, queue[..Taken(queue)]);
            && Answers(s, t, d, run.drained.outcomes)
            && t.drivers[d].state == if run.polled.panicked then Dead else OnFins(run.polled.station)
  {
    var p, queue, n := site.plant[d], Queue(s, d), Taken(Queue(s, d));
    var c := Step(site, s, Connect(d));
    Moves(site, s, d, Connect(d), [], s);
    var u := FinsDrain(site, c, d, n);
    var drained := FinsCycles.WriteAll(p.ms, p.wire, c.drivers[d].state.station, queue[..n]);
    ConnectFirst(site, s, d, Drains(d, n), u);
    AnswersOnTop(s, c, u, d, drained.outcomes);
    Moves(site, u, d, Poll(d), drained.outcomes, s);
    LeadsOn(site, s, [Connect(d)] + Drains(d, n), u, Poll(d));
    t := Step(site, u, Poll(d));
  }

  lemma {:induction false} ConnectFirst(site: Site, s: Pipeline, d: nat, es: seq<Event>, t: Pipeline)
    requires Running(site, s, d) && Leads(site, Step(site, s, Connect(d)), es, t)
    ensures Leads(site, s, [Connect(d)] + es, t)
  {
    var all := [Connect(d)] + es;
    assert all[0] == Connect(d) && all[1..] == es;
  }

  // ----- the Modbus driver -----

  /** The drain of the Modbus cycle over the first `n` requests. */
  function ModbusRun(site: Site, s: Pipeline, d: nat, n: nat): ModbusCycles.DrainRun
    requires Running(site, s, d) && site.plant[d].ModbusPlc? && n <= |Queue(s, d)|
  {
    ModbusCycles.WriteAll(site.plant[d].ms, site.plant[d].net, s.drivers[d].state.client, Queue(s, d)[..n])
  }

  ghost predicate ModbusDrained(site: Site, s: Pipeline, d: nat, run: ModbusCycles.DrainRun, t: Pipeline)
    requires d < |s.drivers|
  {
    Reachable(site, t) && Answers(s, t, d, run.outcomes) && t.drivers[d].state == OnModbus(run.client)
  }

  lemma {:induction false} ModbusDrainsNext(site: Site, s: Pipeline, d: nat, n: nat, t: Pipeline)
    requires Running(site, s, d) && site.plant[d].ModbusPlc? && n < |Queue(s, d)|
    requires !ModbusRun(site, s, d, n).aborted && ModbusDrained(site, s, d, ModbusRun(site, s, d, n), t)
    ensures Enabled(site, t, Drain(d)) && ModbusDrained(site, s, d, ModbusRun(site, s, d, n + 1), Step(site, t, Drain(d)))
    ensures Leads(site, s, Drains(d, n), t) ==> Leads(site, s, Drains(d, |ModbusRun(site, s, d, n + 1).outcomes|), Step(site, t, Drain(d)))
  {
    var p, reqs, client := site.plant[d], Queue(s, d), s.drivers[d].state.client;
    DrainsNext(site, s, t, d, ModbusRun(site, s, d, n).outcomes, p, t.drivers[d].state, reqs[n]);
    ModbusCycles.WriteNext(p.ms, p.net, client, reqs[..n], reqs[n]);
    assert reqs[..n + 1] == reqs[..n] + [reqs[n]];
    if Leads(site, s, Drains(d, n), t) {
      LeadsOn(site, s, Drains(d, n), t, Drain(d));
    }
  }

  lemma {:induction false} ModbusStays(site: Site, s: Pipeline, d: nat, n: nat)
    requires Running(site, s, d) && site.plant[d].ModbusPlc? && n < |Queue(s, d)| && ModbusRun(site, s, d, n).aborted
    ensures ModbusRun(site, s, d, n + 1) == ModbusRun(site, s, d, n)
  {
    var reqs := Queue(s, d);
    ModbusCycles.WriteNext(site.plant[d].ms, site.plant[d].net, s.drivers[d].state.client, reqs[..n], reqs[n]);
    assert reqs[..n + 1] == reqs[..n] + [reqs[n]];
  }

  /** Likewise for Modbus, as far as nothing ends the drain. */
  lemma {:induction false} ModbusDrain(site: Site, s: Pipeline, d: nat, n: nat) returns (t: Pipeline)
    requires Reachable(site, s) && Running(site, s, d) && site.plant[d].ModbusPlc? && n <= |Queue(s, d)|
    ensures Leads(site, s, Drains(d, |ModbusRun(site, s, d, n).outcomes|), t) && ModbusDrained(site, s, d, ModbusRun(site, s, d, n), t)
  {
    if n == 0 {
      t := s;
    } else {
      t := ModbusDrain(site, s, d, n - 1);
      if ModbusRun(site, s, d, n - 1).aborted {
        ModbusStays(site, s, d, n - 1);
      } else {
        ModbusDrainsNext(site, s, d, n - 1, t);
        t := Step(site, t, Drain(d));
      }
    }
  }

  /** The reads of a Modbus cycle, unless its drain ended it. */
  function PollsUnless(d: nat, aborted: bool): seq<Event>
  {
    if aborted then [] else [Poll(d)]
  }

  /** A cycle of the Modbus driver is a run of the machine: it drains up to the write that ends the drain, and polls if there is none. */
  lemma {:induction false} ModbusCycleIsRun(site: Site, s: Pipeline, d: nat) returns (t: Pipeline)
    requires Reachable(site, s) && Running(site, s, d) && site.plant[d].ModbusPlc?
    ensures var p, queue, c := site.plant[d], Queue(s, d), s.drivers[d].state.client;
            var aborted := ModbusCycles.WriteAll(p.ms, p.net, c, queue[..Taken(queue)]).aborted;
            var run := ModbusCycles.Cycle(p.ms, p.defs, p.dates, p.groups, p.net, c, queue[..Taken(queue)]);
            && Leads(site, s, [Connect(d)] + Drains(d, |run.outcomes|) + PollsUnless(d, aborted), t)
            && Answers(s, t, d, run.outcomes) && t.drivers[d].state == OnModbus(run.client)
  {
    var p, queue, c := site.plant[d], Queue(s, d), s.drivers[d].state.client;
    var drained := ModbusCycles.WriteAll(p.ms, p.net, c, queue[..Taken(queue)]);
    var b := Step(site, s, Connect(d));
    Moves(site, s, d, Connect(d), [], s);
    var u := ModbusDrain(site, b, d, Taken(queue));
    var es := Drains(d, |drained.outcomes|);
    ConnectFirst(site, s, d, es, u);
    AnswersOnTop(s, b, u, d, drained.outcomes);
    if drained.aborted {
      t := u;
      Neutral([Connect(d)] + es);
    } else {
      Moves(site, u, d, Poll(d), drained.outcomes, s);
      LeadsOn(site, s, [Connect(d)] + es, u, Poll(d));
      t := Step(site, u, Poll(d));
    }
  }
}
