/** Several queued writes in one cycle: what they leave in device memory. */
module WriteLists {
  import opened Words
  import opened TagModel
  import opened Codec
  import opened Mappings
  import opened Planner
  import opened Validation
  import opened Scatter
  import opened GroupedReads
  import opened RoundTrip
  import opened WriteQueues
  import opened WriteBacks

  /** Spaces the drivers can write: FINS areas and holding registers. */
  predicate WritableSpace(s: Space)
  {
    s.Area? || s == Table(HoldingRegisters)
  }

  /** The mapping a request is written to, if it is written at all. */
  function Target(ms: seq<Mapping>, req: WriteRequest): (r: Option<Mapping>)
    ensures r.Some? ==> r.value in ms && r.value.tagId == req.tagId && r.value.writable
  {
    var found := FindMapping(ms, req.tagId);
    if found.Some? && found.value.writable && WritableSpace(found.value.space) then found else None
  }

  /** Memory after a device carried out the requests in order. */
  function MemoryAfter(ms: seq<Mapping>, mem: Memory, reqs: seq<WriteRequest>): Memory
  {
    if reqs == [] then mem
    else
      var n := |reqs| - 1;
      match Target(ms, reqs[n])
      case None => MemoryAfter(ms, mem, reqs[..n])
      case Some(m) => AfterWrite(MemoryAfter(ms, mem, reqs[..n]), m, reqs[n].value)
  }

  /** No request from number `k` on stores words of mapping `n`. */
  predicate Spared(ms: seq<Mapping>, reqs: seq<WriteRequest>, k: nat, n: Mapping)
  {
    forall i :: k <= i < |reqs| && Target(ms, reqs[i]).Some? ==> !ReachesInto(Target(ms, reqs[i]).value, reqs[i].value, n)
  }

  function WordsOf(n: Mapping, mem: Memory): seq<Word>
  {
    WordsAt(mem, n.space, n.address, n.count)
  }

  /** Requests that spare a mapping leave its words alone. */
  lemma {:induction false} SparedWordsStay(ms: seq<Mapping>, mem: Memory, reqs: seq<WriteRequest>, k: nat, n: Mapping)
    requires k <= |reqs| && Spared(ms, reqs, k, n)
    ensures WordsOf(n, MemoryAfter(ms, mem, reqs)) == WordsOf(n, MemoryAfter(ms, mem, reqs[..k]))
    decreases |reqs|
  {
    if k == |reqs| {
      assert reqs[..k] == reqs;
    } else {
      var init, last := reqs[..|reqs| - 1], reqs[|reqs| - 1];
      assert init[..k] == reqs[..k];
      SparedWordsStay(ms, mem, init, k, n);
      if Target(ms, last).Some? {
        UnreachedWordsStay(MemoryAfter(ms, mem, init), Target(ms, last).value, last.value, n);
      }
    }
  }

  lemma {:induction false} UnreachedWordsStay(mem: Memory, m: Mapping, v: TagValue, n: Mapping)
    requires !ReachesInto(m, v, n)
    ensures WordsOf(n, AfterWrite(mem, m, v)) == WordsOf(n, mem)
  {
    if n.count > 0 && Encode(v) != [] {
      OtherWordsStay(mem, m.space, m.address, Stored(v, m.order), n.space, n.address, n.count);
    } else {
      NothingWritten(mem, m.space, m.address, Stored(v, m.order), n.space, n.address, n.count);
    }
  }

  lemma {:induction false} NothingWritten(mem: Memory, s: Space, a: int, ws: seq<Word>, t: Space, b: int, n: nat)
    requires ws == [] || n == 0
    ensures WordsAt(Written(mem, s, a, ws), t, b, n) == WordsAt(mem, t, b, n)
  {
    if n > 0 {
      NothingWritten(mem, s, a, ws, t, b, n - 1);
    }
  }

  /** No request names the tag. */
  predicate Unnamed(reqs: seq<WriteRequest>, id: string)
  {
    forall i :: 0 <= i < |reqs| ==> reqs[i].tagId != id
  }

  /** Every written value fits its mapping. */
  predicate AllFit(ms: seq<Mapping>, reqs: seq<WriteRequest>)
  {
    forall i :: 0 <= i < |reqs| && Target(ms, reqs[i]).Some? ==> |Encode(reqs[i].value)| <= Target(ms, reqs[i]).value.count
  }

  /** Request `k` is the last one written to mapping `m`. */
  predicate LastWriteTo(ms: seq<Mapping>, reqs: seq<WriteRequest>, k: nat, m: Mapping)
  {
    && k < |reqs| && Target(ms, reqs[k]) == Some(m)
    && forall i :: k < i < |reqs| ==> Target(ms, reqs[i]) != Some(m)
  }

  /** A configuration whose mappings passed validation and end below its top. */
  ghost predicate Validated(ms: seq<Mapping>, top: nat)
  {
    Plannable(ms, top) && ClearBelow(ms, top)
  }

  /** Validated mappings are spared by fitting writes to others. */
  lemma {:induction false} OthersAreSpared(ms: seq<Mapping>, reqs: seq<WriteRequest>, k: nat, n: Mapping, top: nat)
    requires Validated(ms, top) && AllFit(ms, reqs) && n in ms
    requires forall i :: k <= i < |reqs| ==> Target(ms, reqs[i]) != Some(n)
    ensures Spared(ms, reqs, k, n)
  {
    forall i | k <= i < |reqs| && Target(ms, reqs[i]).Some? ensures !ReachesInto(Target(ms, reqs[i]).value, reqs[i].value, n) {
      var m := Target(ms, reqs[i]).value;
      HasWords(ms, m, top);
      HasWords(ms, n, top);
      if m.space == n.space {
        ValidatedAreDisjoint(ms, top, m, n);
      }
      FittingWritesStayInside(m, reqs[i].value, n);
    }
  }

  /**
   * The last write wins: after any list of fitting writes to validated mappings, a mapping reads as the
   * value last written to it, if that value survives its encoding.
   */
  lemma {:induction false} LastWriteIsRead(style: Style, ms: seq<Mapping>, top: nat, reqs: seq<WriteRequest>, k: nat, m: Mapping,
                                           mem: Memory, dates: DateRange)
    requires Validated(ms, top) && AllFit(ms, reqs) && LastWriteTo(ms, reqs, k, m)
    requires dates.Valid() && m.bitOffset < 16 && IsText(reqs[k].value) && reqs[k].value.Matches(m.dataType)
    requires Survives(reqs[k].value, m.order, m.count - |Encode(reqs[k].value)|, m.bitOffset, FirstDate(style, dates), dates.last)
    ensures DirectRead(style, m, MemoryAfter(ms, mem, reqs), dates) == Ok(reqs[k].value)
  {
    OthersAreSpared(ms, reqs, k + 1, m, top);
    SparedWordsStay(ms, mem, reqs, k + 1, m);
    assert reqs[..k + 1][..k] == reqs[..k];
    ReadYourWrites(style, m, reqs[k].value, dates);
    assert DirectRead(style, m, AfterWrite(MemoryAfter(ms, mem, reqs[..k]), m, reqs[k].value), dates) == Ok(reqs[k].value);
    assert DirectRead(style, m, MemoryAfter(ms, mem, reqs), dates) == DirectRead(style, m, MemoryAfter(ms, mem, reqs[..k + 1]), dates);
  }

  /** A mapping nothing was written to reads as before. */
  lemma {:induction false} UnwrittenIsReadAsBefore(style: Style, ms: seq<Mapping>, top: nat, reqs: seq<WriteRequest>, n: Mapping,
                                                   mem: Memory, dates: DateRange)
    requires Validated(ms, top) && AllFit(ms, reqs) && n in ms
    requires forall i :: 0 <= i < |reqs| ==> Target(ms, reqs[i]) != Some(n)
    ensures DirectRead(style, n, MemoryAfter(ms, mem, reqs), dates) == DirectRead(style, n, mem, dates)
  {
    OthersAreSpared(ms, reqs, 0, n, top);
    SparedWordsStay(ms, mem, reqs, 0, n);
    assert reqs[..0] == [];
  }
}
