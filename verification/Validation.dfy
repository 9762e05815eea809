/** Pre-flight validation of a driver's mappings, and exactly which configurations it accepts. */
module Validation {
  import opened Words
  import opened WordOrders
  import opened TagModel
  import opened Mappings
  import opened Planner

  datatype MappingError =
    | ZeroCount(tagId: string)
    | BadBitOffset(tagId: string)
    | TooNarrow(tagId: string)
    | WritableReadOnly(tagId: string)
    | OrderNeedsTwoWords(tagId: string)
    | Overlapping(first: string, second: string)

  // ----- checks on one mapping -----

  predicate WideEnough(m: Mapping)
  {
    match m.dataType
    case FloatType => m.count >= 2
    case Int32Type => m.count >= 2
    case UInt32Type => m.count >= 2
    case DoubleType => m.count >= 4
    case _ => true
  }

  predicate ReadOnlySpace(s: Space)
  {
    s == Table(InputRegisters) || s == Table(DiscreteInputs)
  }

  /** A mapping both drivers accept on its own; read-only tables exist for Modbus only. */
  predicate Acceptable(m: Mapping)
  {
    && m.count >= 1
    && m.bitOffset < 16
    && WideEnough(m)
    && !(m.writable && ReadOnlySpace(m.space))
    && (m.order == CDAB || m.order == DCBA ==> m.count >= 2)
  }

  /** The error names the first of the five checks that fails, in the order they are made. */
  predicate Rejects(m: Mapping, e: MappingError)
  {
    if m.count == 0 then e == ZeroCount(m.tagId)
    else if m.bitOffset > 15 then e == BadBitOffset(m.tagId)
    else if (m.count < 2 && m.dataType in {FloatType, Int32Type, UInt32Type}) || (m.count < 4 && m.dataType == DoubleType) then
      e == TooNarrow(m.tagId)
    else if m.writable && m.space in {Table(InputRegisters), Table(DiscreteInputs)} then e == WritableReadOnly(m.tagId)
    else m.count == 1 && m.order in {CDAB, DCBA} && e == OrderNeedsTwoWords(m.tagId)
  }

  method CheckMapping(m: Mapping) returns (r: Result<(), MappingError>)
    ensures r.Ok? <==> Acceptable(m)
    ensures r.Err? ==> Rejects(m, r.error)
    ensures r.Ok? ==> forall e :: !Rejects(m, e)
  {
    if m.count == 0 {
      return Err(ZeroCount(m.tagId));
    }
    if m.bitOffset >= 16 {
      return Err(BadBitOffset(m.tagId));
    }
    if !WideEnough(m) {
      return Err(TooNarrow(m.tagId));
    }
    if m.writable && ReadOnlySpace(m.space) {
      return Err(WritableReadOnly(m.tagId));
    }
    if (m.order == CDAB || m.order == DCBA) && m.count < 2 {
      return Err(OrderNeedsTwoWords(m.tagId));
    }
    r := Ok(());
  }

  // ----- the adjacent-pair overlap check -----

  /** Number of mappings of the list that cover address `a`. */
  function Claims(ms: seq<Mapping>, a: int): nat
  {
    if ms == [] then 0
    else Claims(ms[..|ms| - 1], a) + if ms[|ms| - 1].Covers(a) then 1 else 0
  }

  /** Last address of a mapping, the end saturating at `top` (u16 or u32 arithmetic). */
  function SaturatedLast(m: Mapping, top: nat): int
  {
    Min(m.address + m.count, top) - 1
  }

  /** Mapping `w + 1` starts before the end of mapping `w`. */
  predicate Collide(sorted: seq<Mapping>, w: nat, top: nat)
    requires w + 1 < |sorted|
  {
    sorted[w + 1].address <= SaturatedLast(sorted[w], top)
  }

  /** Every mapping starts behind the saturated last address of the one before. */
  predicate AdjacentClear(sorted: seq<Mapping>, top: nat)
  {
    forall w :: 0 <= w < |sorted| - 1 ==> SaturatedLast(sorted[w], top) < sorted[w + 1].address
  }

  method CheckAdjacent(sorted: seq<Mapping>, top: nat) returns (r: Result<(), MappingError>)
    ensures r.Ok? <==> AdjacentClear(sorted, top)
    ensures r.Err? ==> exists w :: 0 <= w < |sorted| - 1 && Collide(sorted, w, top) && r.error == Overlapping(sorted[w].tagId, sorted[w + 1].tagId)
  {
    for w := 0 to |sorted| - (if |sorted| == 0 then 0 else 1)
      invariant forall v :: 0 <= v < w ==> SaturatedLast(sorted[v], top) < sorted[v + 1].address
    {
      if sorted[w + 1].address <= SaturatedLast(sorted[w], top) {
        assert Collide(sorted, w, top);
        return Err(Overlapping(sorted[w].tagId, sorted[w + 1].tagId));
      }
    }
    r := Ok(());
  }

  /** In a sorted list that passes, any two mappings are clear of each other below `top`. */
  lemma {:induction false} AdjacentIsPairwise(sorted: seq<Mapping>, top: nat, i: nat, j: nat)
    requires Sorted(sorted) && AdjacentClear(sorted, top) && i < j < |sorted|
    ensures SaturatedLast(sorted[i], top) < sorted[j].address
  {
    assert SaturatedLast(sorted[i], top) < sorted[i + 1].address;
  }

  lemma {:induction false} ClaimsPositive(ms: seq<Mapping>, a: int)
    ensures Claims(ms, a) > 0 <==> Mapped(ms, a)
  {
    if ms != [] {
      var init, m := ms[..|ms| - 1], ms[|ms| - 1];
      ClaimsPositive(init, a);
      if Mapped(init, a) {
        var i :| 0 <= i < |init| && init[i].Covers(a);
        assert ms[i].Covers(a);
      }
      if Mapped(ms, a) && !m.Covers(a) {
        var i :| 0 <= i < |ms| && ms[i].Covers(a);
        assert init[i].Covers(a);
      }
    }
  }

  lemma {:induction false} ClaimedTwice(ms: seq<Mapping>, a: int)
    ensures Claims(ms, a) >= 2 <==> exists i, j :: 0 <= i < j < |ms| && ms[i].Covers(a) && ms[j].Covers(a)
  {
    if ms != [] {
      var init, m := ms[..|ms| - 1], ms[|ms| - 1];
      ClaimedTwice(init, a);
      ClaimsPositive(init, a);
      if Claims(init, a) >= 2 {
        var i, j :| 0 <= i < j < |init| && init[i].Covers(a) && init[j].Covers(a);
        assert ms[i].Covers(a) && ms[j].Covers(a);
      } else if Claims(ms, a) >= 2 {
        var i :| 0 <= i < |init| && init[i].Covers(a);
        assert ms[i].Covers(a) && ms[|ms| - 1].Covers(a);
      }
      if i, j :| 0 <= i < j < |ms| && ms[i].Covers(a) && ms[j].Covers(a) {
        assert init[i].Covers(a);
        if j < |init| {
          assert init[j].Covers(a);
        }
      }
    }
  }

  lemma {:induction false} SortKeepsClaims(ms: seq<Mapping>, a: int)
    ensures Claims(SortByAddress(ms), a) == Claims(ms, a)
  {
    if ms != [] {
      SortKeepsClaims(ms[..|ms| - 1], a);
      InsertAddsClaim(SortByAddress(ms[..|ms| - 1]), ms[|ms| - 1], a);
    }
  }

  lemma {:induction false} InsertAddsClaim(ms: seq<Mapping>, m: Mapping, a: int)
    ensures Claims(InsertByAddress(ms, m), a) == Claims(ms, a) + if m.Covers(a) then 1 else 0
  {
    if ms != [] && m.address < ms[|ms| - 1].address {
      InsertAddsClaim(ms[..|ms| - 1], m, a);
      assert InsertByAddress(ms, m)[..|ms|] == InsertByAddress(ms[..|ms| - 1], m);
    } else {
      assert InsertByAddress(ms, m)[..|ms|] == ms;
    }
  }

  /**
   * The adjacent-pair check on the sorted list is exact below the top address: it accepts exactly
   * when no address below `top` is claimed by two mappings. It is blind at `top` itself.
   */
  lemma {:induction false} AdjacentCheckIsExact(ms: seq<Mapping>, top: nat)
    requires forall i :: 0 <= i < |ms| ==> ms[i].count >= 1
    ensures AdjacentClear(SortByAddress(ms), top) <==> forall a :: a < top ==> Claims(ms, a) <= 1
  {
    var sorted := SortByAddress(ms);
    SortSorts(ms);
    if AdjacentClear(sorted, top) {
      forall a | a < top ensures Claims(ms, a) <= 1 {
        SortKeepsClaims(ms, a);
        ClearHasOneClaim(sorted, top, a);
      }
    }
    if w :| 0 <= w < |sorted| - 1 && sorted[w + 1].address <= SaturatedLast(sorted[w], top) {
      var a := sorted[w + 1].address;
      assert sorted[w + 1] in sorted;
      SortKeepsClaims(ms, a);
      assert sorted[w].Covers(a) && sorted[w + 1].Covers(a);
      ClaimedTwice(sorted, a);
    }
  }

  lemma {:induction false} ClearHasOneClaim(sorted: seq<Mapping>, top: nat, a: int)
    requires Sorted(sorted) && AdjacentClear(sorted, top) && a < top
    ensures Claims(sorted, a) <= 1
  {
    ClaimedTwice(sorted, a);
    if i, j :| 0 <= i < j < |sorted| && sorted[i].Covers(a) && sorted[j].Covers(a) {
      AdjacentIsPairwise(sorted, top, i, j);
    }
  }

  // ----- the whole validation -----

  /** The mappings of each address space that occurs, in configuration order. */
  method GroupBySpace(ms: seq<Mapping>) returns (grouped: map<Space, seq<Mapping>>)
    ensures forall s :: s in grouped <==> InSpace(ms, s) != []
    ensures forall s :: s in grouped ==> grouped[s] == InSpace(ms, s)
  {
    grouped := map[];
    for i := 0 to |ms|
      invariant forall s :: s in grouped <==> InSpace(ms[..i], s) != []
      invariant forall s :: s in grouped ==> grouped[s] == InSpace(ms[..i], s)
    {
      var m := ms[i];
      assert ms[..i + 1][..i] == ms[..i];
      grouped := grouped[m.space := (if m.space in grouped then grouped[m.space] else []) + [m]];
    }
    assert ms[..|ms|] == ms;
  }

  /** No address below `top` is claimed by two mappings of one space. */
  ghost predicate ClearBelow(ms: seq<Mapping>, top: nat)
  {
    forall s: Space, a: int :: a < top ==> Claims(InSpace(ms, s), a) <= 1
  }

  /** Mapping `i` is the first that fails on its own. */
  predicate RejectedAt(ms: seq<Mapping>, i: nat, e: MappingError)
  {
    i < |ms| && Rejects(ms[i], e) && forall k :: 0 <= k < i ==> Acceptable(ms[k])
  }

  predicate FirstRejected(ms: seq<Mapping>, e: MappingError)
  {
    exists i :: 0 <= i < |ms| && RejectedAt(ms, i, e)
  }

  /** All mappings are acceptable, and the error names neighbours of a space of which the second starts before the end of the first. */
  ghost predicate OverlapFound(ms: seq<Mapping>, top: nat, e: MappingError)
  {
    (forall i :: 0 <= i < |ms| ==> Acceptable(ms[i])) && exists s :: OverlapIn(ms, s, top, e)
  }

  predicate OverlapIn(ms: seq<Mapping>, s: Space, top: nat, e: MappingError)
  {
    var sorted := SortByAddress(InSpace(ms, s));
    exists w :: 0 <= w < |sorted| - 1 && Collide(sorted, w, top) && e == Overlapping(sorted[w].tagId, sorted[w + 1].tagId)
  }

  /**
   * A driver's `validate`: every mapping on its own, then the overlap check of each space, the
   * spaces in hash-map order. It accepts exactly the acceptable mappings that claim no address below
   * the top of the address type twice.
   */
  method Validate(ms: seq<Mapping>, top: nat) returns (r: Result<(), MappingError>)
    ensures r.Ok? <==> (forall i :: 0 <= i < |ms| ==> Acceptable(ms[i])) && ClearBelow(ms, top)
    ensures r.Err? ==> FirstRejected(ms, r.error) || OverlapFound(ms, top, r.error)
  {
    for i := 0 to |ms|
      invariant forall k :: 0 <= k < i ==> Acceptable(ms[k])
    {
      var c := CheckMapping(ms[i]);
      if c.Err? {
        assert RejectedAt(ms, i, c.error);
        return Err(c.error);
      }
    }
    r := CheckSpaces(ms, top);
  }

  method CheckSpaces(ms: seq<Mapping>, top: nat) returns (r: Result<(), MappingError>)
    requires forall i :: 0 <= i < |ms| ==> Acceptable(ms[i])
    ensures r.Ok? <==> ClearBelow(ms, top)
    ensures r.Err? ==> OverlapFound(ms, top, r.error)
  {
    var grouped := GroupBySpace(ms);
    var todo := grouped.Keys;
    while todo != {}
      invariant todo <= grouped.Keys
      invariant forall s, a: int :: s !in todo && a < top ==> Claims(InSpace(ms, s), a) <= 1
      decreases todo
    {
      var s :| s in todo;
      SpaceCheckIsExact(ms, s, top);
      var sorted := SortByAddress(grouped[s]);
      var c := CheckAdjacent(sorted, top);
      if c.Err? {
        assert OverlapIn(ms, s, top, c.error);
        return Err(c.error);
      }
      todo := todo - {s};
    }
    r := Ok(());
  }

  lemma {:induction false} SpaceCheckIsExact(ms: seq<Mapping>, s: Space, top: nat)
    requires forall i :: 0 <= i < |ms| ==> Acceptable(ms[i])
    ensures AdjacentClear(SortByAddress(InSpace(ms, s)), top) <==> forall a: int :: a < top ==> Claims(InSpace(ms, s), a) <= 1
  {
    var own := InSpace(ms, s);
    InSpaceMembers(ms, s);
    forall i | 0 <= i < |own| ensures own[i].count >= 1 {
      assert own[i] in own;
      var k :| 0 <= k < |ms| && ms[k] == own[i];
    }
    AdjacentCheckIsExact(own, top);
  }

  /**
   * Two mappings of the same single word at the top of the address range pass validation: the
   * saturating end of the first lies before its own address.
   */
  lemma {:induction false} TopAddressIsNotChecked(m: Mapping, n: Mapping, top: nat)
    requires m.address == n.address == top && m.count == n.count == 1
    requires m.space == n.space && Acceptable(m) && Acceptable(n)
    ensures ClearBelow([m, n], top)
    ensures Claims(InSpace([m, n], m.space), top) == 2
  {
    forall s: Space, a: int | a < top ensures Claims(InSpace([m, n], s), a) <= 1 {
      PairOfMappings(m, n, s, a);
    }
    PairOfMappings(m, n, m.space, top);
  }

  lemma {:induction false} PairOfMappings(m: Mapping, n: Mapping, s: Space, a: int)
    requires m.space == n.space
    ensures InSpace([m, n], s) == if m.space == s then [m, n] else []
    ensures Claims([m, n], a) == (if m.Covers(a) then 1 else 0) + (if n.Covers(a) then 1 else 0)
  {
    var pair, one := [m, n], [m];
    assert pair[..|pair| - 1] == one && one[..|one| - 1] == [];
    assert InSpace(one, s) == if m.space == s then one else [];
    assert Claims(one, a) == if m.Covers(a) then 1 else 0;
  }

  // ----- what validation gives the drivers -----

  /** Validated mappings of one space that end below the top address share no word. */
  lemma {:induction false} ValidatedAreDisjoint(ms: seq<Mapping>, top: nat, m: Mapping, n: Mapping)
    requires ClearBelow(ms, top) && m in ms && n in ms && m != n && m.space == n.space
    requires m.count >= 1 && n.count >= 1 && m.End() <= top && n.End() <= top
    ensures !Overlap(m, n)
  {
    if Overlap(m, n) {
      SharedWordIsClaimedTwice(ms, m, n, Max(m.address, n.address));
    }
  }

  lemma {:induction false} SharedWordIsClaimedTwice(ms: seq<Mapping>, m: Mapping, n: Mapping, a: int)
    requires m in ms && n in ms && m != n && m.space == n.space && m.Covers(a) && n.Covers(a)
    ensures Claims(InSpace(ms, m.space), a) >= 2
  {
    var own := InSpace(ms, m.space);
    InSpaceMembers(ms, m.space);
    assert m in own && n in own;
    var i :| 0 <= i < |own| && own[i] == m;
    var j :| 0 <= j < |own| && own[j] == n;
    assert own[i].Covers(a) && own[j].Covers(a);
    ClaimedTwice(own, a);
  }

  function WordSum(ms: seq<Mapping>): nat
  {
    if ms == [] then 0 else WordSum(ms[..|ms| - 1]) + ms[|ms| - 1].count
  }

  /** The run has as many words as its mappings together. */
  predicate NoWordShared(r: Run)
  {
    r.last - r.first + 1 == WordSum(r.members)
  }

  /** In a validated space the words of a run are the words of its mappings, each counted once. */
  lemma {:induction false} ValidRunsHoldNoOverlap(ms: seq<Mapping>, limit: nat)
    requires Sorted(ms) && Plannable(ms, limit)
    requires forall a: int :: Claims(ms, a) <= 1
    ensures forall i :: 0 <= i < |Runs(ms)| ==> NoWordShared(Runs(ms)[i])
  {
    if ms != [] {
      var init, m := ms[..|ms| - 1], ms[|ms| - 1];
      forall a: int ensures Claims(init, a) <= 1 {
        assert Claims(ms, a) <= 1;
      }
      ValidRunsHoldNoOverlap(init, limit);
      assert ms == init + [m];
      if Runs(init) != [] {
        NextStartsBehind(init, m, limit);
      }
      AbsorbSharesNothing(Runs(init), m);
    }
  }

  lemma {:induction false} AbsorbSharesNothing(runs: seq<Run>, m: Mapping)
    requires m.count >= 1
    requires runs != [] ==> runs[|runs| - 1].last < m.address
    requires forall i :: 0 <= i < |runs| ==> NoWordShared(runs[i])
    ensures forall i :: 0 <= i < |Absorb(runs, m)| ==> NoWordShared(Absorb(runs, m)[i])
  {
    if runs != [] {
      var members := runs[|runs| - 1].members;
      assert (members + [m])[..|members|] == members;
    }
    assert [m][..0] == [];
    assert WordSum([m]) == m.count;
  }

  lemma {:induction false} NextStartsBehind(init: seq<Mapping>, m: Mapping, limit: nat)
    requires Sorted(init + [m]) && Plannable(init + [m], limit)
    requires forall a: int :: Claims(init + [m], a) <= 1
    requires Runs(init) != []
    ensures m.address > Runs(init)[|Runs(init)| - 1].last
  {
    if m.address <= Runs(init)[|Runs(init)| - 1].last {
      OverlapIsClaimedTwice(init, m, limit);
    }
  }

  lemma {:induction false} OverlapIsClaimedTwice(init: seq<Mapping>, m: Mapping, limit: nat)
    requires Sorted(init + [m]) && Plannable(init + [m], limit)
    requires Runs(init) != [] && m.address <= Runs(init)[|Runs(init)| - 1].last
    ensures Claims(init + [m], m.address) >= 2
  {
    var ms, runs := init + [m], Runs(init);
    assert ms[..|init|] == init && ms[|init|] == m;
    assert forall i :: 0 <= i < |init| ==> init[i] == ms[i];
    RunsAreGood(init, limit);
    assert init != [] && init[|init| - 1] == ms[|init| - 1];
    assert runs[|runs| - 1].first <= m.address <= runs[|runs| - 1].last;
    InRunsIsMapped(init, runs, m.address);
    ClaimsPositive(init, m.address);
  }
}
