/** What a write does to device memory, and what later reads of the written and of other mappings give. */
module WriteBacks {
  import opened Words
  import opened WordOrders
  import opened TagModel
  import opened Codec
  import opened Mappings
  import opened Scatter
  import opened GroupedReads
  import opened RoundTrip

  /** Memory after `ws` was stored from address `a` of space `s`. */
  function Written(mem: Memory, s: Space, a: int, ws: seq<Word>): Memory
  {
    (t: Space, b: int) => if t == s && a <= b < a + |ws| then ws[b - a] else mem(t, b)
  }

  /** Memory after a driver stored `v` for mapping `m`. */
  function AfterWrite(mem: Memory, m: Mapping, v: TagValue): Memory
  {
    Written(mem, m.space, m.address, Stored(v, m.order))
  }

  lemma {:induction false} StoredWordsAreRead(mem: Memory, s: Space, a: int, ws: seq<Word>, n: nat)
    requires n <= |ws|
    ensures WordsAt(Written(mem, s, a, ws), s, a, n) == ws[..n]
  {
    if n > 0 {
      StoredWordsAreRead(mem, s, a, ws, n - 1);
      assert ws[..n] == ws[..n - 1] + [ws[n - 1]];
    }
  }

  lemma {:induction false} OtherWordsStay(mem: Memory, s: Space, a: int, ws: seq<Word>, t: Space, b: int, n: nat)
    requires t != s || b + n <= a || a + |ws| <= b
    ensures WordsAt(Written(mem, s, a, ws), t, b, n) == WordsAt(mem, t, b, n)
  {
    if n > 0 {
      OtherWordsStay(mem, s, a, ws, t, b, n - 1);
    }
  }

  /** The words of a stretch after a write to its start: the stored words, then what was there before. */
  lemma {:induction false} WordsAfterWrite(mem: Memory, s: Space, a: int, ws: seq<Word>, spare: nat)
    ensures WordsAt(Written(mem, s, a, ws), s, a, |ws| + spare) == ws + WordsAt(mem, s, a + |ws|, spare)
  {
    WholeIsRead(mem, s, a, ws);
    OtherWordsStay(mem, s, a, ws, s, a + |ws|, spare);
    WordsAtConcat(Written(mem, s, a, ws), s, a, |ws|, spare);
  }

  lemma {:induction false} WholeIsRead(mem: Memory, s: Space, a: int, ws: seq<Word>)
    ensures WordsAt(Written(mem, s, a, ws), s, a, |ws|) == ws
  {
    StoredWordsAreRead(mem, s, a, ws, |ws|);
    assert ws[..|ws|] == ws;
  }

  // ----- read your writes -----

  /** Earliest date a driver's decoder gives back. */
  function FirstDate(style: Style, dates: DateRange): int
  {
    match style
    case Fins => 0
    case Modbus => dates.first
  }

  function ReadBackAs(style: Style, v: TagValue, order: WordOrder, rest: seq<Word>, bitOffset: Byte, dates: DateRange): Decoded
  {
    match style
    case Fins => ReadBackFins(v, order, rest, bitOffset, dates)
    case Modbus => ReadBack(v, order, rest, bitOffset, dates)
  }

  /** Reading a mapping after a write to it. */
  lemma {:induction false} ReadAfterWrite(style: Style, m: Mapping, v: TagValue, mem: Memory, dates: DateRange)
    requires v.Matches(m.dataType) && |Encode(v)| <= m.count
    ensures DirectRead(style, m, AfterWrite(mem, m, v), dates) ==
            ReadBackAs(style, v, m.order, Beyond(m, v, mem), m.bitOffset, dates)
  {
    StoredThenBeyond(m, v, mem);
    ReadingBack(style, m, v, Beyond(m, v, mem), dates);
  }

  lemma {:induction false} StoredThenBeyond(m: Mapping, v: TagValue, mem: Memory)
    requires |Encode(v)| <= m.count
    ensures WordsAt(AfterWrite(mem, m, v), m.space, m.address, m.count) == Stored(v, m.order) + Beyond(m, v, mem)
  {
    var ws := Stored(v, m.order);
    WordsAfterWrite(mem, m.space, m.address, ws, m.count - |ws|);
  }

  lemma {:induction false} ReadingBack(style: Style, m: Mapping, v: TagValue, rest: seq<Word>, dates: DateRange)
    requires v.Matches(m.dataType)
    ensures DecodeAs(style, m, ToBytes(Stored(v, m.order) + rest), dates) ==
            ReadBackAs(style, v, m.order, rest, m.bitOffset, dates)
  {
    match style
    case Fins =>
    case Modbus =>
  }

  /** The words of a mapping behind those a write of `v` stores. */
  function Beyond(m: Mapping, v: TagValue, mem: Memory): (ws: seq<Word>)
    requires |Encode(v)| <= m.count
    ensures |ws| == m.count - |Encode(v)|
  {
    WordsAt(mem, m.space, m.address + |Encode(v)|, m.count - |Encode(v)|)
  }

  /**
   * Read-your-writes, exactly: a value of the mapping's type that fits the mapping is read back as
   * itself from every device memory if and only if it survives its own encoding.
   */
  lemma {:induction false} ReadYourWrites(style: Style, m: Mapping, v: TagValue, dates: DateRange)
    requires dates.Valid() && m.bitOffset < 16 && IsText(v)
    requires v.Matches(m.dataType) && |Encode(v)| <= m.count
    ensures (forall mem: Memory :: DirectRead(style, m, AfterWrite(mem, m, v), dates) == Ok(v)) <==>
            Survives(v, m.order, m.count - |Encode(v)|, m.bitOffset, FirstDate(style, dates), dates.last)
  {
    if Survives(v, m.order, m.count - |Encode(v)|, m.bitOffset, FirstDate(style, dates), dates.last) {
      forall mem: Memory ensures DirectRead(style, m, AfterWrite(mem, m, v), dates) == Ok(v) {
        ReadAfterWrite(style, m, v, mem, dates);
        SurvivorIsReadBack(style, v, m.order, Beyond(m, v, mem), m.bitOffset, dates);
      }
    } else {
      var mem := LosingMemory(style, m, v, dates);
    }
  }

  lemma {:induction false} BeyondIs(m: Mapping, v: TagValue, rest: seq<Word>)
    requires |Encode(v)| + |rest| == m.count
    ensures Beyond(m, v, Written(Blank(), m.space, m.address + |Encode(v)|, rest)) == rest
  {
    WholeIsRead(Blank(), m.space, m.address + |Encode(v)|, rest);
  }

  lemma {:induction false} LosingMemory(style: Style, m: Mapping, v: TagValue, dates: DateRange) returns (mem: Memory)
    requires dates.Valid() && m.bitOffset < 16 && IsText(v)
    requires v.Matches(m.dataType) && |Encode(v)| <= m.count
    requires !Survives(v, m.order, m.count - |Encode(v)|, m.bitOffset, FirstDate(style, dates), dates.last)
    ensures DirectRead(style, m, AfterWrite(mem, m, v), dates) != Ok(v)
  {
    var rest := LostBehind(style, v, m.order, m.count - |Encode(v)|, m.bitOffset, dates);
    mem := Written(Blank(), m.space, m.address + |Encode(v)|, rest);
    BeyondIs(m, v, rest);
    ReadAfterWrite(style, m, v, mem, dates);
  }

  function Blank(): Memory
  {
    (s: Space, a: int) => 0
  }

  lemma {:induction false} SurvivorIsReadBack(style: Style, v: TagValue, order: WordOrder, rest: seq<Word>, bitOffset: Byte, dates: DateRange)
    requires dates.Valid() && bitOffset < 16 && IsText(v)
    requires Survives(v, order, |rest|, bitOffset, FirstDate(style, dates), dates.last)
    ensures ReadBackAs(style, v, order, rest, bitOffset, dates) == Ok(v)
  {
    if style.Fins? {
      RoundTripFins(v, order, |rest|, bitOffset, dates);
    } else {
      RoundTripModbus(v, order, |rest|, bitOffset, dates);
    }
  }

  lemma {:induction false} LostBehind(style: Style, v: TagValue, order: WordOrder, spare: nat, bitOffset: Byte,
                                      dates: DateRange) returns (rest: seq<Word>)
    requires dates.Valid() && bitOffset < 16 && IsText(v)
    requires !Survives(v, order, spare, bitOffset, FirstDate(style, dates), dates.last)
    ensures |rest| == spare && ReadBackAs(style, v, order, rest, bitOffset, dates) != Ok(v)
  {
    if style.Fins? {
      rest := FinsSpoiler(v, order, spare, bitOffset, dates);
    } else {
      rest := Spoiler(v, order, spare, bitOffset, dates);
    }
  }

  // ----- non-interference -----

  /** The words stored for `v` at mapping `m` reach into mapping `n`. */
  predicate ReachesInto(m: Mapping, v: TagValue, n: Mapping)
  {
    n.space == m.space && n.address < m.address + |Encode(v)| && m.address < n.End()
  }

  /**
   * Non-interference, exactly: a write leaves another mapping's words alone in every device memory if
   * and only if the words stored do not reach into it.
   */
  lemma {:induction false} WriteLeavesOthersAlone(m: Mapping, v: TagValue, n: Mapping)
    requires n.count >= 1 && Encode(v) != []
    ensures (forall mem: Memory :: WordsAt(AfterWrite(mem, m, v), n.space, n.address, n.count) == WordsAt(mem, n.space, n.address, n.count))
            <==> !ReachesInto(m, v, n)
  {
    var ws := Stored(v, m.order);
    if !ReachesInto(m, v, n) {
      forall mem: Memory
        ensures WordsAt(AfterWrite(mem, m, v), n.space, n.address, n.count) == WordsAt(mem, n.space, n.address, n.count)
      {
        OtherWordsStay(mem, m.space, m.address, ws, n.space, n.address, n.count);
      }
    } else {
      ReachedWordChanges(m, v, n, ws);
    }
  }

  /** Memory whose every word differs from `w`. */
  function Avoiding(w: Word): Memory
  {
    (s: Space, a: int) => if w == 0 then 1 else 0
  }

  lemma {:induction false} ReachedWordChanges(m: Mapping, v: TagValue, n: Mapping, ws: seq<Word>)
    requires n.count >= 1 && Encode(v) != [] && ReachesInto(m, v, n) && ws == Stored(v, m.order)
    ensures exists mem: Memory :: WordsAt(AfterWrite(mem, m, v), n.space, n.address, n.count) != WordsAt(mem, n.space, n.address, n.count)
  {
    var i := if m.address < n.address then n.address - m.address else 0;
    var mem := WrittenDiffers(n.space, m.address, ws, i, n.address, n.count);
    assert AfterWrite(mem, m, v) == Written(mem, n.space, m.address, ws);
  }

  /** A stretch that holds a written word is changed in some memory. */
  lemma {:induction false} WrittenDiffers(s: Space, a: nat, ws: seq<Word>, i: nat, b: nat, n: nat) returns (mem: Memory)
    requires i < |ws| && b <= a + i < b + n
    ensures WordsAt(Written(mem, s, a, ws), s, b, n) != WordsAt(mem, s, b, n)
  {
    mem := Avoiding(ws[i]);
    assert Written(mem, s, a, ws)(s, a + i) == ws[i];
    StretchesDiffer(Written(mem, s, a, ws), mem, s, b, n, a + i - b);
  }

  lemma {:induction false} StretchesDiffer(x: Memory, y: Memory, s: Space, a: int, n: nat, i: nat)
    requires i < n && x(s, a + i) != y(s, a + i)
    ensures WordsAt(x, s, a, n) != WordsAt(y, s, a, n)
  {
    WordAtOffset(x, s, a, n, i);
    WordAtOffset(y, s, a, n, i);
  }

  /** Between mappings that do not overlap, a value that fits its mapping reaches into no other. */
  lemma {:induction false} FittingWritesStayInside(m: Mapping, v: TagValue, n: Mapping)
    requires |Encode(v)| <= m.count && (m.space != n.space || !Overlap(m, n))
    ensures !ReachesInto(m, v, n)
  {
  }

  /** Nothing limits a text to its mapping: one of `2 * m.count + 1` letters reaches into the mapping behind. */
  lemma {:induction false} LongTextReachesNext(m: Mapping, n: Mapping, text: seq<Byte>)
    requires n.space == m.space && n.address == m.End() && n.count >= 1
    ensures ReachesInto(m, String(text), n) <==> |text| > 2 * m.count
  {
  }
}
