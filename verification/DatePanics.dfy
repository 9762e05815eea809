/** When a FINS cycle ends in a panic: exactly on dates behind the last one the date library represents. */
module DatePanics {
  import opened Words
  import opened TagModel
  import opened Codec
  import opened Mappings
  import opened Planner
  import opened Registries
  import opened Scatter
  import opened GroupedReads
  import opened RoundTrip
  import WordOrders

  /** The words hold a date, and one behind the library's last. */
  predicate DateTooLate(dates: DateRange, m: Mapping, ws: seq<Word>)
  {
    m.dataType == DateTimeType && |ws| >= 4 && First64(Fetched(ws, m.order)) > dates.last
  }

  lemma {:induction false} DecodePanics(dates: DateRange, m: Mapping, ws: seq<Word>)
    ensures DecodeAs(Fins, m, ToBytes(ws), dates) == Err(DatePanics) <==> DateTooLate(dates, m, ws)
  {
    if m.dataType == DateTimeType && |ws| >= 4 {
      FinsDates(Fetched(ws, m.order), m.bitOffset, dates);
    } else {
      OthersDoNotPanic(m.dataType, Fetched(ws, m.order), m.bitOffset, dates);
    }
  }

  lemma {:induction false} OthersDoNotPanic(t: TagDataType, bs: seq<Byte>, bitOffset: Byte, dates: DateRange)
    requires t != DateTimeType || |bs| < 8
    ensures DecodeFins(t, bs, bitOffset, dates) != Err(DatePanics)
  {
  }

  /** A mapping's piece of a word-backed group panics exactly if it holds a date that is too late. */
  lemma {:induction false} PiecePanicsExactly(defs: Definitions, dates: DateRange, m: Mapping, g: ReadGroup, mem: Memory)
    requires WordSpace(g.space)
    ensures MemberPanics(Fins, defs, dates, m, g, Answer(g, mem)) <==>
            Touches(m, g) && m.tagId in defs && DateTooLate(dates, m, PieceWords(m, g, mem))
  {
    if Touches(m, g) {
      SliceHoldsTheWords(m, g, mem);
      DecodePanics(dates, m, PieceWords(m, g, mem));
    }
  }

  predicate AllWordBacked(gs: seq<ReadGroup>)
  {
    forall i :: 0 <= i < |gs| ==> WordSpace(gs[i].space)
  }

  /** Group `k` gives the defined date tag of `m` words that are too late. */
  predicate LateDateAt(defs: Definitions, dates: DateRange, gs: seq<ReadGroup>, mem: Memory, k: nat, m: Mapping)
  {
    k < |gs| && m in gs[k].members && m.tagId in defs && Touches(m, gs[k]) && DateTooLate(dates, m, PieceWords(m, gs[k], mem))
  }

  /**
   * For every configuration and every memory: a FINS cycle answered from memory runs to its end if and
   * only if no date it decodes lies behind the last one the library represents.
   */
  lemma {:induction false} CycleEndsExactly(defs: Definitions, dates: DateRange, gs: seq<ReadGroup>, mem: Memory)
    requires AllWordBacked(gs)
    ensures !CyclePanics(Fins, defs, dates, gs, mem) <==> forall k: nat, m: Mapping :: !LateDateAt(defs, dates, gs, mem, k, m)
  {
    CyclePanicsExactly(Fins, defs, dates, gs, mem);
    forall k: nat, m: Mapping | k < |gs| ensures PanicAt(Fins, defs, dates, gs, mem, k, m) <==> LateDateAt(defs, dates, gs, mem, k, m) {
      PiecePanicsExactly(defs, dates, m, gs[k], mem);
    }
  }

  /** A date tag of the plan that is given four words or more by some group. */
  predicate DateAt(defs: Definitions, gs: seq<ReadGroup>, k: nat, m: Mapping)
  {
    && k < |gs| && m in gs[k].members && m.tagId in defs && m.dataType == DateTimeType
    && Touches(m, gs[k]) && OverlapEnd(m, gs[k]) - OverlapStart(m, gs[k]) >= 4
  }

  /** Memory of all ones. */
  function AllOnes(): Memory
  {
    (s: Space, a: int) => 0xFFFF
  }

  lemma {:induction false} OnesAreLate(dates: DateRange, m: Mapping, s: Space, a: int, n: nat)
    requires m.dataType == DateTimeType && n >= 4
    ensures DateTooLate(dates, m, WordsAt(AllOnes(), s, a, n))
  {
    var ws := WordsAt(AllOnes(), s, a, n);
    forall i | 0 <= i < n ensures ws[i] == 0xFFFF {
      WordAtOffset(AllOnes(), s, a, n, i);
    }
    OneBytes(ws);
    WordOrders.ConstantIsFixed(m.order, ToBytes(ws), 0xFF);
    FirstOfOnes(ToBytes(ws));
  }

  lemma {:induction false} OneBytes(ws: seq<Word>)
    requires forall i :: 0 <= i < |ws| ==> ws[i] == 0xFFFF
    ensures forall i :: 0 <= i < 2 * |ws| ==> ToBytes(ws)[i] == 0xFF
  {
    if ws != [] {
      OneBytes(ws[1..]);
    }
  }

  lemma {:induction false} FirstOfOnes(bs: seq<Byte>)
    requires |bs| >= 8 && forall i :: 0 <= i < |bs| ==> bs[i] == 0xFF
    ensures First64(bs) == 0xFFFF_FFFF_FFFF_FFFF
  {
    assert WordAt(bs, 0) == 0xFFFF && WordAt(bs, 1) == 0xFFFF && WordAt(bs, 2) == 0xFFFF && WordAt(bs, 3) == 0xFFFF;
  }

  /** Some memory ends the poll task exactly if some date tag gets the words of a date. */
  lemma {:induction false} SomeMemoryPanics(defs: Definitions, dates: DateRange, gs: seq<ReadGroup>)
    requires AllWordBacked(gs)
    ensures (exists mem: Memory :: CyclePanics(Fins, defs, dates, gs, mem)) <==> exists k: nat, m: Mapping :: DateAt(defs, gs, k, m)
  {
    if k: nat, m: Mapping :| DateAt(defs, gs, k, m) {
      OnesAreLate(dates, m, gs[k].space, OverlapStart(m, gs[k]), OverlapEnd(m, gs[k]) - OverlapStart(m, gs[k]));
      CycleEndsExactly(defs, dates, gs, AllOnes());
      assert LateDateAt(defs, dates, gs, AllOnes(), k, m);
    }
    if mem: Memory :| CyclePanics(Fins, defs, dates, gs, mem) {
      CycleEndsExactly(defs, dates, gs, mem);
      var k: nat, m: Mapping :| LateDateAt(defs, dates, gs, mem, k, m);
      assert DateAt(defs, gs, k, m);
    }
  }
}
