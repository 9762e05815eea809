/** What one exchange of the FINS driver leaves behind, told from the bytes received. */
module FinsOutcomes {
  import opened Words
  import opened TagModel
  import opened Codec
  import opened Mappings
  import opened Planner
  import opened Registries
  import opened Scatter
  import opened FinsFrames
  import opened WriteQueues
  import opened FinsCycles
  import opened FinsLaws

  // ----- one exchange -----

  /** The length a frame header announces. */
  function Announced(got: seq<Byte>): nat
  {
    if |got| < 8 then 0
    else 0x100_0000 * (got[4] as int) + 0x1_0000 * (got[5] as int) + 0x100 * (got[6] as int) + got[7] as int
  }

  /**
   * An exchange succeeds exactly if there is a stream or a new one, the request goes out, and a whole frame
   * is there, unread bytes first: then the payload is behind the eight header bytes and the rest stays
   * unread. Every failure drops the stream.
   */
  lemma {:induction false} ExchangeInBytes(link: Link, ev: WireEvent)
    ensures var x, got := Exchange(link, ev), (if link.Up? then link.unread else []) + ev.arrives;
            if (link.Up? || ev.connects) && ev.sends && |got| >= 8 && |got| >= 8 + Announced(got) then
              x == Exchanged(Up(got[8 + Announced(got)..]), Ok(got[8..8 + Announced(got)]))
            else
              x == Exchanged(Down, Err(if link.Down? && !ev.connects then ConnectFailed else StreamFailed))
  {
    var got := (if link.Up? then link.unread else []) + ev.arrives;
    if |got| >= 8 {
      NumberOfFour(got[4..8]);
    }
  }

  /** A reply in bytes: session id at offset 9, end code at 12, data from 14 on. */
  lemma {:induction false} ReplyInBytes(p: seq<Byte>)
    ensures ParseFinsResponse(p) ==
            if |p| < 14 then Err(ParseFailed) else Ok(Response(p[9], 0x100 * (p[12] as int) + p[13] as int, p[14..]))
  {
  }

  /** A cycle without groups and requests does no more than connect. */
  lemma {:induction false} IdleCycleConnects(ms: seq<Mapping>, defs: Definitions, dates: DateRange, wire: Wire, s: Station)
    ensures var run := Cycle(ms, defs, dates, [], wire, s, []);
            run.polled.station == Station(if s.link.Down? then Up([]) else s.link, s.sid, s.sent) && run.drained.outcomes == []
  {
  }

  // ----- writes -----

  /** A payload of at least 14 bytes with this session id and this end code. */
  predicate Replies(p: Result<seq<Byte>, IoError>, sid: Byte, code: Word)
  {
    p.Ok? && |p.value| >= 14 && p.value[9] == sid && 0x100 * (p.value[12] as int) + p.value[13] as int == code
  }

  /**
   * What a write sent under session id `sid` leaves of its tag, and what it is answered, by the payload
   * received. The value stays unless the write is confirmed.
   */
  predicate Leaves(sid: Byte, p: Result<seq<Byte>, IoError>, outcome: WriteOutcome, before: Cell, after: Cell)
  {
    && (p == Err(ConnectFailed) ==> outcome == Err(ReconnectFailed) && after == Cell(before.value, CommLost))
    && (p == Err(StreamFailed) ==> outcome == Err(TransportFailed) && after == Cell(before.value, CommLost))
    && (p.Ok? && |p.value| < 14 ==> outcome == Err(ParseError) && after == Cell(before.value, Error(ParseFailed)))
    && (p.Ok? && |p.value| >= 14 && p.value[9] != sid ==> outcome == Err(SidMismatch) && after == Cell(before.value, CommLost))
    && (forall code: Word :: Replies(p, sid, code) && code != 0 ==>
          outcome == Err(BadEndCode(code)) && after == Cell(before.value, Error(EndCode(code))))
    && (Replies(p, sid, 0) <==> outcome.Ok?)
  }

  /** What the request, sent from station `t`, does to tag `id`, and how it is answered. */
  ghost predicate WriteLeaves(ms: seq<Mapping>, defs: Definitions, wire: Wire, t: Station, req: WriteRequest, id: string,
                              outcome: WriteOutcome, before: Cell, after: Cell)
  {
    match FindMapping(ms, req.tagId)
    case None => outcome == Err(UnknownTag) && after == before
    case Some(m) =>
      if !m.writable then outcome == Err(NotWritable) && after == before
      else
        var p := t.Sends(wire, WriteFrame(t.sid, m, req.value)).payload;
        && (id != req.tagId ==> after == before && (outcome.Ok? <==> Replies(p, t.sid, 0)))
        && (id == req.tagId ==>
              && Leaves(t.sid, p, outcome, before, after)
              && (Replies(p, t.sid, 0) ==>
                    after == if id in defs && req.value.DataType() == defs[id].dataType then Cell(req.value, Good) else before))
  }

  lemma {:induction false} OneWriteLeaves(ms: seq<Mapping>, defs: Definitions, wire: Wire, t: Station, req: WriteRequest, cells: Cells, id: string)
    requires id in cells
    ensures var step := WriteOne(ms, wire, t, req);
            var after := ApplyAll(defs, cells, step.effects);
            id in after && WriteLeaves(ms, defs, wire, t, req, id, step.outcome, cells[id], after[id])
  {
    var found := FindMapping(ms, req.tagId);
    if found.Some? && found.value.writable {
      var p := t.Sends(wire, WriteFrame(t.sid, found.value, req.value)).payload;
      OneApplied(defs, cells, WriteEffect(req, WriteVerdict(t.sid, p)));
      VerdictInBytes(t.sid, p, defs, cells[id], req, id);
    }
  }

  lemma {:induction false} VerdictInBytes(sid: Byte, p: Result<seq<Byte>, IoError>, defs: Definitions, c: Cell, req: WriteRequest, id: string)
    ensures WriteEffect(req, WriteVerdict(sid, p)).tagId == req.tagId
    ensures Leaves(sid, p, WriteVerdict(sid, p), c, OnCell(defs, c, WriteEffect(req, WriteVerdict(sid, p))))
    ensures Replies(p, sid, 0) ==> WriteEffect(req, WriteVerdict(sid, p)) == Publish(req.tagId, req.value)
  {
    if p.Ok? {
      ReplyInBytes(p.value);
    }
  }

  /** The tags behind the first `k` requests of a drain. */
  function CellsBehind(ms: seq<Mapping>, defs: Definitions, wire: Wire, s: Station, reqs: seq<WriteRequest>, k: nat, cells: Cells): Cells
    requires k <= |reqs|
  {
    ApplyAll(defs, cells, WriteAll(ms, wire, s, reqs[..k]).effects)
  }

  /** Over a whole drain, on any network: every request in turn is answered, and changes the tags, by the payload it received. */
  lemma {:induction false} DrainLeaves(ms: seq<Mapping>, defs: Definitions, wire: Wire, s: Station, reqs: seq<WriteRequest>, k: nat, cells: Cells, id: string)
    requires k < |reqs| && id in cells
    ensures var before, after := CellsBehind(ms, defs, wire, s, reqs, k, cells), CellsBehind(ms, defs, wire, s, reqs, k + 1, cells);
            && id in before && id in after
            && WriteLeaves(ms, defs, wire, WriteAll(ms, wire, s, reqs[..k]).station, reqs[k], id,
                           WriteAll(ms, wire, s, reqs).outcomes[k], before[id], after[id])
  {
    var init := WriteAll(ms, wire, s, reqs[..k]);
    var before := CellsBehind(ms, defs, wire, s, reqs, k, cells);
    OnlyOwnEffectsMatter(defs, cells, init.effects, id);
    OneWriteLeaves(ms, defs, wire, init.station, reqs[k], before, id);
    assert reqs[..k + 1] == reqs[..k] + [reqs[k]];
    WriteNext(ms, wire, s, reqs[..k], reqs[k]);
    ApplyConcat(defs, cells, init.effects, WriteOne(ms, wire, init.station, reqs[k]).effects);
    OutcomeStays(ms, wire, s, reqs, k);
  }

  /** A request's outcome is the last one of the drain up to it. */
  lemma {:induction false} OutcomeStays(ms: seq<Mapping>, wire: Wire, s: Station, reqs: seq<WriteRequest>, k: nat)
    requires k < |reqs|
    ensures WriteAll(ms, wire, s, reqs).outcomes[k] == WriteOne(ms, wire, WriteAll(ms, wire, s, reqs[..k]).station, reqs[k]).outcome
  {
    var init := reqs[..|reqs| - 1];
    if k < |init| {
      OutcomeStays(ms, wire, s, init, k);
      assert init[..k] == reqs[..k] && init[k] == reqs[k];
    }
  }

  /** A request that is not sent leaves the station as it was; one that is sent makes one exchange. */
  lemma {:induction false} RefusedIsNotSent(ms: seq<Mapping>, wire: Wire, t: Station, req: WriteRequest)
    ensures var next := WriteOne(ms, wire, t, req).station;
            if exists m :: FindMapping(ms, req.tagId) == Some(m) && m.writable then next.sent == t.sent + 1 && next.sid as int == (t.sid + 1) % 0x100
            else next == t
  {
    var found := FindMapping(ms, req.tagId);
    assert found.Some? ==> found == Some(found.value);
  }

  // ----- short replies -----

  /** Some mapping of the tag shares words with the group. */
  predicate SharesWords(g: ReadGroup, id: string)
  {
    exists i :: 0 <= i < |g.members| && g.members[i].tagId == id
                && g.members[i].address < g.start + g.count && g.start < g.members[i].address + g.members[i].count
  }

  /** An accepted reply with fewer bytes than the group has: exactly the tags that share words with the group are marked as short. */
  lemma {:induction false} ShortReplyLeaves(defs: Definitions, dates: DateRange, g: ReadGroup, sid: Byte, p: seq<Byte>, cells: Cells, id: string)
    requires 14 <= |p| < 14 + 2 * g.count && p[9] == sid && p[12] == 0 && p[13] == 0 && id in cells
    ensures var answered := OnAnswer(defs, dates, g, sid, p);
            var after := ApplyAll(defs, cells, answered.effects);
            && answered.next == GoOn
            && id in after && after[id] == if SharesWords(g, id) then Cell(cells[id].value, Error(ShortPayload)) else cells[id]
  {
    ReplyInBytes(p);
    ShortMarksLeave(defs, g.members, g, cells, id);
  }

  lemma {:induction false} ShortMarksLeave(defs: Definitions, members: seq<Mapping>, g: ReadGroup, cells: Cells, id: string)
    requires id in cells
    ensures var after := ApplyAll(defs, cells, ShortMarks(members, g));
            id in after && after[id] == if SharesWords(g.(members := members), id) then Cell(cells[id].value, Error(ShortPayload)) else cells[id]
    decreases |members|
  {
    if members != [] {
      var first := if Touches(members[0], g) then [Mark(members[0].tagId, Error(ShortPayload))] else [];
      var next := ApplyAll(defs, cells, first);
      assert id in next && next[id] == if first != [] && members[0].tagId == id then Cell(cells[id].value, Error(ShortPayload)) else cells[id] by {
        if first != [] {
          OneApplied(defs, cells, first[0]);
        }
      }
      ApplyConcat(defs, cells, first, ShortMarks(members[1..], g));
      ShortMarksLeave(defs, members[1..], g, next, id);
      FirstShares(members, g, id);
    }
  }

  lemma {:induction false} FirstShares(members: seq<Mapping>, g: ReadGroup, id: string)
    requires members != []
    ensures SharesWords(g.(members := members), id) <==>
            (members[0].tagId == id && Touches(members[0], g)) || SharesWords(g.(members := members[1..]), id)
  {
    if SharesWords(g.(members := members), id) {
      var i :| 0 <= i < |members| && members[i].tagId == id
               && members[i].address < g.start + g.count && g.start < members[i].address + members[i].count;
      assert i > 0 ==> members[1..][i - 1] == members[i];
    }
    if SharesWords(g.(members := members[1..]), id) {
      var i :| 0 <= i < |members[1..]| && members[1..][i].tagId == id
               && members[1..][i].address < g.start + g.count && g.start < members[1..][i].address + members[1..][i].count;
      assert members[i + 1] == members[1..][i];
    }
  }
}
