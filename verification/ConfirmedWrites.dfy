/** From a client's confirmation to the device's memory. */
module ConfirmedWrites {
  import opened Words
  import opened TagModel
  import opened Mappings
  import opened Scatter
  import opened RoundTrip
  import opened WriteQueues
  import opened WriteBacks
  import opened WritePipelines
  import opened FinsDevices
  import opened FinsCycles
  import ModbusCycles
  import ModbusLaws

  /** Execution number `k` of driver `d` is the one of the write that client `c` saw confirmed. */
  ghost predicate ConfirmedBy(site: Site, s: Pipeline, c: nat, d: nat, k: nat)
  {
    && Reachable(site, s) && c < |s.clients| && s.clients[c].view == Saw(Confirmed)
    && ExecutedFor(s, s.clients[c].write, d, k)
  }

  /** The one execution of a confirmed write is the acknowledged one. */
  lemma {:induction false} ConfirmedExecution(site: Site, s: Pipeline, c: nat, d: nat, k: nat)
    requires ConfirmedBy(site, s, c, d, k)
    ensures d < |site.plant| && Runnable(site.plant[d], s.drivers[d].executions[k].from)
    ensures AcknowledgedFrom(site.plant[d], s.drivers[d].executions[k].from, s.drivers[d].received[k])
    ensures var w := s.clients[c].write;
            w < |s.submitted| && s.drivers[d].received[k].tagId == s.submitted[w].tagId && s.drivers[d].received[k].value == s.submitted[w].value
  {
    var e, l := ConfirmedMeansAcknowledged(site, s, c);
    NoWriteExecutesTwice(site, s, s.clients[c].write, d, k, e, l);
  }

  /**
   * A client that saw its write of a FINS tag confirmed: if the network brings only answers less than
   * 256 exchanges old, the device holds exactly the words of the client's value at the tag's address.
   */
  lemma {:induction false} ConfirmedFinsWriteIsStored(site: Site, s: Pipeline, c: nat, d: nat, k: nat, m: Mapping, mem: Memory,
                                                      frame: seq<Byte>, lag: nat)
    requires ConfirmedBy(site, s, c, d, k)
    requires d < |site.plant| && site.plant[d].FinsPlc? && s.drivers[d].executions[k].from.OnFins?
    requires s.clients[c].write < |s.submitted|
    requires FindMapping(site.plant[d].ms, s.submitted[s.clients[c].write].tagId) == Some(m) && m.space.Area?
    requires var t := s.drivers[d].executions[k].from.station;
             GenuineAnswer(site.plant[d].wire, t, WriteCommand(t.sid, m, s.submitted[s.clients[c].write].value), mem, frame, lag)
    ensures lag == 0
    ensures React(mem, frame).memory ==
            Written(mem, m.space, m.address % 0x100_0000, Stored(s.submitted[s.clients[c].write].value, m.order))
  {
    ConfirmedExecution(site, s, c, d, k);
    var req := s.drivers[d].received[k];
    GenuineAcknowledgementIsStored(site.plant[d].ms, site.plant[d].wire, s.drivers[d].executions[k].from.station, req, m, mem, frame, lag);
  }

  /** The write call number `n`, if it is acknowledged, takes a server's registers from `before` to the same with the words in them. */
  ghost predicate StoredIfAcknowledged(net: ModbusCycles.Network, n: nat, a: Word, ws: seq<Word>, before: Memory, after: Memory)
  {
    net.serves(n, ModbusCycles.WriteRegisters(a, ws)).Success? ==> after == Written(before, Table(HoldingRegisters), a, ws)
  }

  /**
   * Likewise for Modbus, where the library matches answers to calls: a server that stores what it
   * acknowledges holds the value behind the one call that was made for it.
   */
  lemma {:induction false} ConfirmedModbusWriteIsStored(site: Site, s: Pipeline, c: nat, d: nat, k: nat, m: Mapping, before: Memory, after: Memory)
    requires ConfirmedBy(site, s, c, d, k)
    requires d < |site.plant| && site.plant[d].ModbusPlc? && s.drivers[d].executions[k].from.OnModbus?
    requires s.clients[c].write < |s.submitted| && m.address <= 0xFFFF
    requires FindMapping(site.plant[d].ms, s.submitted[s.clients[c].write].tagId) == Some(m)
    requires StoredIfAcknowledged(site.plant[d].net, s.drivers[d].executions[k].from.client.called,
                                  m.address, Stored(s.submitted[s.clients[c].write].value, m.order), before, after)
    ensures m.space == Table(HoldingRegisters)
    ensures after == Written(before, m.space, m.address, Stored(s.submitted[s.clients[c].write].value, m.order))
  {
    ConfirmedExecution(site, s, c, d, k);
    AcknowledgedCall(site.plant[d].ms, site.plant[d].net, s.drivers[d].executions[k].from.client, s.drivers[d].received[k], m);
    ModbusCycles.WriteCallIs(m, s.submitted[s.clients[c].write].value);
  }

  lemma {:induction false} AcknowledgedCall(ms: seq<Mapping>, net: ModbusCycles.Network, c: ModbusCycles.Client, req: WriteRequest, m: Mapping)
    requires FindMapping(ms, req.tagId) == Some(m) && ModbusLaws.Acknowledged(ms, net, c, req)
    ensures m.space == Table(HoldingRegisters) && net.serves(c.called, ModbusCycles.WriteCall(m, req.value)).Success?
  {
  }
}
