/**
 * The batched read planner: address-sorted mappings are merged into contiguous runs, runs are cut
 * into request-sized chunks. Written twice in the program, with two indices and as a fold.
 */
module Planner {
  import opened Words
  import opened Mappings

  /** A maximal stretch of adjacent or overlapping mappings: addresses `first..last`, both included. */
  datatype Run = Run(first: nat, last: int, members: seq<Mapping>)

  /** One read request: `count` words from `start`, and the mappings of the run it belongs to. */
  datatype ReadGroup = ReadGroup(space: Space, start: nat, count: nat, members: seq<Mapping>)
  {
    predicate Reads(a: int)
    {
      start <= a < start + count
    }
  }

  /** What the planner's unchecked arithmetic relies on: no empty mapping, no end above `limit`. */
  predicate Plannable(ms: seq<Mapping>, limit: nat)
  {
    forall i :: 0 <= i < |ms| ==> ms[i].count >= 1 && ms[i].End() <= limit
  }

  // ----- runs -----

  /** Extend the last run by `m`, or start a new one behind a gap. */
  function Absorb(runs: seq<Run>, m: Mapping): seq<Run>
  {
    if runs != [] && m.address <= runs[|runs| - 1].last + 1 then
      var r := runs[|runs| - 1];
      runs[..|runs| - 1] + [Run(r.first, Max(r.last, m.End() - 1), r.members + [m])]
    else runs + [Run(m.address, m.End() - 1, [m])]
  }

  function Runs(ms: seq<Mapping>): seq<Run>
  {
    if ms == [] then [] else Absorb(Runs(ms[..|ms| - 1]), ms[|ms| - 1])
  }

  /** The run is exactly the addresses its members cover. */
  ghost predicate Tight(r: Run)
  {
    && r.members != []
    && r.first <= r.last
    && (forall m :: m in r.members ==> r.first <= m.address && m.End() - 1 <= r.last)
    && (forall a :: r.first <= a <= r.last ==> Mapped(r.members, a))
  }

  /** Between two runs lies at least one address that no run contains. */
  ghost predicate Apart(runs: seq<Run>)
  {
    forall i, j :: 0 <= i < j < |runs| ==> runs[i].last + 1 < runs[j].first
  }

  ghost predicate GoodRuns(ms: seq<Mapping>, runs: seq<Run>)
  {
    && (forall i :: 0 <= i < |runs| ==> Tight(runs[i]))
    && Apart(runs)
    && (forall i, m :: 0 <= i < |runs| && m in runs[i].members ==> m in ms)
    && (forall m :: m in ms ==> exists i :: 0 <= i < |runs| && m in runs[i].members)
    && (ms != [] ==> runs != [])
  }

  lemma {:induction false} RunsAreGood(ms: seq<Mapping>, limit: nat)
    requires Sorted(ms) && Plannable(ms, limit)
    ensures GoodRuns(ms, Runs(ms))
    ensures ms != [] ==> Runs(ms)[|Runs(ms)| - 1].first <= ms[|ms| - 1].address
  {
    if ms != [] {
      var init, m := ms[..|ms| - 1], ms[|ms| - 1];
      WithoutLast(ms, limit);
      RunsAreGood(init, limit);
      AbsorbKeepsGood(init, Runs(init), m);
    }
  }

  /** The facts about a sorted list that its list without the last mapping inherits. */
  lemma {:induction false} WithoutLast(ms: seq<Mapping>, limit: nat)
    requires ms != [] && Sorted(ms) && Plannable(ms, limit)
    ensures var init, m := ms[..|ms| - 1], ms[|ms| - 1];
            && ms == init + [m] && Sorted(init) && Plannable(init, limit) && m.count >= 1
            && (init != [] ==> init[|init| - 1].address <= m.address)
            && (init == [] ==> Runs(init) == [])
  {
  }

  lemma {:induction false} AbsorbKeepsGood(ms: seq<Mapping>, runs: seq<Run>, m: Mapping)
    requires GoodRuns(ms, runs) && m.count >= 1
    requires runs != [] ==> runs[|runs| - 1].first <= m.address
    ensures GoodRuns(ms + [m], Absorb(runs, m))
    ensures var rs := Absorb(runs, m); rs[|rs| - 1].first <= m.address
  {
    if runs != [] && m.address <= runs[|runs| - 1].last + 1 {
      ExtendedRunIsTight(runs[|runs| - 1], m);
      LastReplaced(runs, Absorb(runs, m));
    } else {
      SingleRunIsTight(m);
      LastAppended(runs, Absorb(runs, m));
    }
    AbsorbMembers(ms, runs, m);
  }

  lemma {:induction false} LastReplaced(runs: seq<Run>, rs: seq<Run>)
    requires runs != [] && |rs| == |runs| && rs[..|runs| - 1] == runs[..|runs| - 1]
    requires rs[|runs| - 1].first == runs[|runs| - 1].first && Tight(rs[|runs| - 1])
    requires Apart(runs) && forall i :: 0 <= i < |runs| ==> Tight(runs[i])
    ensures Apart(rs) && forall i :: 0 <= i < |rs| ==> Tight(rs[i])
  {
    assert forall i :: 0 <= i < |runs| - 1 ==> rs[i] == rs[..|runs| - 1][i] == runs[i];
  }

  lemma {:induction false} LastAppended(runs: seq<Run>, rs: seq<Run>)
    requires |rs| == |runs| + 1 && rs[..|runs|] == runs && Tight(rs[|runs|])
    requires runs != [] ==> runs[|runs| - 1].last + 1 < rs[|runs|].first
    requires Apart(runs) && forall i :: 0 <= i < |runs| ==> Tight(runs[i])
    ensures Apart(rs) && forall i :: 0 <= i < |rs| ==> Tight(rs[i])
  {
    assert forall i :: 0 <= i < |runs| ==> rs[i] == rs[..|runs|][i] == runs[i];
    forall i | 0 <= i < |runs| ensures runs[i].last + 1 < rs[|runs|].first {
      if i < |runs| - 1 {
        assert runs[i].last + 1 < runs[|runs| - 1].first && Tight(runs[|runs| - 1]);
      }
    }
  }

  lemma {:induction false} SingleRunIsTight(m: Mapping)
    requires m.count >= 1
    ensures Tight(Run(m.address, m.End() - 1, [m]))
  {
    var n := Run(m.address, m.End() - 1, [m]);
    forall a | n.first <= a <= n.last ensures Mapped(n.members, a) {
      assert n.members[0].Covers(a);
    }
  }

  lemma {:induction false} AbsorbMembers(ms: seq<Mapping>, runs: seq<Run>, m: Mapping)
    requires GoodRuns(ms, runs)
    ensures var rs := Absorb(runs, m);
            && (forall i, x :: 0 <= i < |rs| && x in rs[i].members ==> x in ms + [m])
            && (forall x :: x in ms + [m] ==> exists i :: 0 <= i < |rs| && x in rs[i].members)
  {
    var rs := Absorb(runs, m);
    forall x | x in ms + [m] ensures exists i :: 0 <= i < |rs| && x in rs[i].members {
      if x == m {
        assert x in rs[|rs| - 1].members;
      } else {
        var i :| 0 <= i < |runs| && x in runs[i].members;
        assert x in rs[i].members;
      }
    }
  }

  lemma {:induction false} ExtendedRunIsTight(r: Run, m: Mapping)
    requires Tight(r) && m.count >= 1 && r.first <= m.address <= r.last + 1
    ensures Tight(Run(r.first, Max(r.last, m.End() - 1), r.members + [m]))
  {
    var n := Run(r.first, Max(r.last, m.End() - 1), r.members + [m]);
    forall a | n.first <= a <= n.last ensures Mapped(n.members, a) {
      if a <= r.last {
        assert Mapped(r.members, a);
        var i :| 0 <= i < |r.members| && r.members[i].Covers(a);
        assert n.members[i].Covers(a);
      } else {
        assert n.members[|r.members|].Covers(a);
      }
    }
  }

  ghost predicate InRuns(runs: seq<Run>, a: int)
  {
    exists i :: 0 <= i < |runs| && runs[i].first <= a <= runs[i].last
  }

  /** An address is mapped exactly when one of the runs contains it. */
  lemma {:induction false} RunsCoverMapped(ms: seq<Mapping>, limit: nat, a: int)
    requires Sorted(ms) && Plannable(ms, limit)
    ensures Mapped(ms, a) <==> InRuns(Runs(ms), a)
  {
    RunsAreGood(ms, limit);
    if Mapped(ms, a) {
      MappedIsInRuns(ms, Runs(ms), a);
    }
    if InRuns(Runs(ms), a) {
      InRunsIsMapped(ms, Runs(ms), a);
    }
  }

  lemma {:induction false} MappedIsInRuns(ms: seq<Mapping>, runs: seq<Run>, a: int)
    requires GoodRuns(ms, runs) && Mapped(ms, a)
    ensures InRuns(runs, a)
  {
    var k :| 0 <= k < |ms| && ms[k].Covers(a);
    var m := ms[k];
    assert m in ms;
    var i :| 0 <= i < |runs| && m in runs[i].members;
    assert Tight(runs[i]);
    assert runs[i].first <= a <= runs[i].last;
  }

  lemma {:induction false} InRunsIsMapped(ms: seq<Mapping>, runs: seq<Run>, a: int)
    requires GoodRuns(ms, runs) && InRuns(runs, a)
    ensures Mapped(ms, a)
  {
    var i :| 0 <= i < |runs| && runs[i].first <= a <= runs[i].last;
    assert Tight(runs[i]);
    assert Mapped(runs[i].members, a);
    var k :| 0 <= k < |runs[i].members| && runs[i].members[k].Covers(a);
    var m := runs[i].members[k];
    assert m in runs[i].members;
    assert m in ms;
    var j :| 0 <= j < |ms| && ms[j] == m;
    assert ms[j].Covers(a);
  }

  // ----- chunks -----

  /** The requests for `total` words from `start`, each of at most `max` words. */
  function Chunks(space: Space, start: nat, total: nat, max: nat, members: seq<Mapping>): seq<ReadGroup>
    requires max >= 1
    decreases total
  {
    if total == 0 then []
    else
      var n := Min(total, max);
      [ReadGroup(space, start, n, members)] + Chunks(space, start + n, total - n, max, members)
  }

  /** Groups that tile `total` words from `start`: each starts where the one before ends, all but the last are full. */
  ghost predicate Tiling(cs: seq<ReadGroup>, start: nat, total: nat, max: nat)
  {
    && (forall i :: 0 <= i < |cs| - 1 ==> cs[i].count == max && cs[i].start + max == cs[i + 1].start)
    && (total == 0 <==> cs == [])
    && (total > 0 ==>
          cs[0].start == start && 1 <= cs[|cs| - 1].count <= max && cs[|cs| - 1].start + cs[|cs| - 1].count == start + total)
  }

  lemma {:induction false} ChunksTile(space: Space, start: nat, total: nat, max: nat, members: seq<Mapping>)
    requires max >= 1
    ensures Tiling(Chunks(space, start, total, max, members), start, total, max)
    decreases total
  {
    if total > 0 {
      var n := Min(total, max);
      ChunksTile(space, start + n, total - n, max, members);
      var rest := Chunks(space, start + n, total - n, max, members);
      TilingStep(ReadGroup(space, start, n, members), rest, start, total, max);
    }
  }

  lemma {:induction false} TilingStep(g: ReadGroup, rest: seq<ReadGroup>, start: nat, total: nat, max: nat)
    requires total > 0 && max >= 1 && g.start == start && g.count == Min(total, max)
    requires Tiling(rest, start + g.count, total - g.count, max)
    ensures Tiling([g] + rest, start, total, max)
  {
    var cs := [g] + rest;
    forall i | 0 <= i < |cs| - 1 ensures cs[i].count == max && cs[i].start + max == cs[i + 1].start {
      if i > 0 {
        assert cs[i] == rest[i - 1] && cs[i + 1] == rest[i];
      }
    }
  }

  /** In a tiling, later groups start at least a full request later, and all stay inside the stretch. */
  lemma {:induction false} TilingSpacing(cs: seq<ReadGroup>, start: nat, total: nat, max: nat, i: nat, j: nat)
    requires Tiling(cs, start, total, max) && i <= j < |cs|
    ensures start <= cs[i].start && cs[i].start + (if i < j then max else 0) <= cs[j].start
    ensures cs[j].start + cs[j].count <= start + total
    ensures 1 <= max ==> 1 <= cs[j].count <= max
    decreases j - i, |cs| - j, i
  {
    if i < j {
      TilingSpacing(cs, start, total, max, i, j - 1);
      assert cs[j - 1].start + max == cs[j].start;
      TilingSpacing(cs, start, total, max, j, j);
    } else {
      TilingStart(cs, start, total, max, i);
      TilingEnd(cs, start, total, max, i);
    }
  }

  lemma {:induction false} TilingStart(cs: seq<ReadGroup>, start: nat, total: nat, max: nat, i: nat)
    requires Tiling(cs, start, total, max) && i < |cs|
    ensures start <= cs[i].start
  {
    if i > 0 {
      TilingStart(cs, start, total, max, i - 1);
      assert cs[i - 1].start + max == cs[i].start;
    }
  }

  lemma {:induction false} TilingEnd(cs: seq<ReadGroup>, start: nat, total: nat, max: nat, i: nat)
    requires Tiling(cs, start, total, max) && i < |cs|
    ensures cs[i].start + cs[i].count <= start + total
    decreases |cs| - i
  {
    if i < |cs| - 1 {
      TilingEnd(cs, start, total, max, i + 1);
      assert cs[i].start + max == cs[i + 1].start;
    }
  }

  lemma {:induction false} ChunkFields(space: Space, start: nat, total: nat, max: nat, members: seq<Mapping>)
    requires max >= 1
    ensures forall g :: g in Chunks(space, start, total, max, members) ==> g.space == space && g.members == members
    decreases total
  {
    if total > 0 {
      var n := Min(total, max);
      ChunkFields(space, start + n, total - n, max, members);
    }
  }

  /** Every address of the stretch is read by exactly one chunk. */
  lemma {:induction false} ChunkOf(space: Space, start: nat, total: nat, max: nat, members: seq<Mapping>, a: int)
    returns (k: nat)
    requires max >= 1 && start <= a < start + total
    ensures var cs := Chunks(space, start, total, max, members); k < |cs| && cs[k].Reads(a)
    decreases total
  {
    var n := Min(total, max);
    if a < start + n {
      k := 0;
    } else {
      k := ChunkOf(space, start + n, total - n, max, members, a);
      k := k + 1;
    }
  }

  // ----- the plan of one address space -----

  function RunChunks(space: Space, r: Run, max: nat): seq<ReadGroup>
    requires max >= 1
  {
    Chunks(space, r.first, if r.last < r.first then 0 else r.last - r.first + 1, max, r.members)
  }

  /** All chunks of a list of runs, in order. */
  function GroupsOf(space: Space, runs: seq<Run>, max: nat): seq<ReadGroup>
    requires max >= 1
  {
    if runs == [] then []
    else GroupsOf(space, runs[..|runs| - 1], max) + RunChunks(space, runs[|runs| - 1], max)
  }

  /** The read requests planned for the mappings of one address space. */
  function Plan(space: Space, ms: seq<Mapping>, max: nat): seq<ReadGroup>
    requires max >= 1
  {
    GroupsOf(space, Runs(SortByAddress(ms)), max)
  }

  /** Group `g` is a chunk of run `r`. */
  ghost predicate WithinRun(g: ReadGroup, r: Run)
  {
    g.members == r.members && r.first <= g.start && g.start + g.count <= r.last + 1
  }

  ghost predicate InSomeRun(g: ReadGroup, runs: seq<Run>)
  {
    exists j :: 0 <= j < |runs| && WithinRun(g, runs[j])
  }

  /** Two requests of one plan: a full request apart, or with an address of no run between their starts. */
  ghost predicate Separate(runs: seq<Run>, g: ReadGroup, h: ReadGroup, max: nat)
  {
    && g.start + g.count <= h.start
    && (g.start + max <= h.start || exists a :: g.start < a < h.start && OutsideRuns(runs, a))
  }

  ghost predicate OutsideRuns(runs: seq<Run>, a: int)
  {
    forall i :: 0 <= i < |runs| ==> a < runs[i].first || runs[i].last < a
  }

  ghost predicate GoodGroups(space: Space, runs: seq<Run>, max: nat, gs: seq<ReadGroup>)
  {
    && (forall i :: 0 <= i < |gs| ==> gs[i].space == space && 1 <= gs[i].count <= max)
    && (forall i :: 0 <= i < |gs| ==> InSomeRun(gs[i], runs))
    && (forall i, j :: 0 <= i < j < |gs| ==> Separate(runs, gs[i], gs[j], max))
  }

  ghost predicate ProperRuns(runs: seq<Run>)
  {
    Apart(runs) && forall i :: 0 <= i < |runs| ==> runs[i].first <= runs[i].last
  }

  lemma {:induction false} GroupsAreGood(space: Space, runs: seq<Run>, max: nat)
    requires max >= 1 && ProperRuns(runs)
    ensures GoodGroups(space, runs, max, GroupsOf(space, runs, max))
  {
    if runs != [] {
      var init, r := runs[..|runs| - 1], runs[|runs| - 1];
      GroupsAreGood(space, init, max);
      RunChunksAreGood(space, r, max);
      JoinGroups(space, init, r, max, GroupsOf(space, init, max), RunChunks(space, r, max));
      assert runs == init + [r];
    }
  }

  ghost predicate GoodChunks(space: Space, r: Run, max: nat, cs: seq<ReadGroup>)
  {
    && (forall i :: 0 <= i < |cs| ==> cs[i].space == space && 1 <= cs[i].count <= max && WithinRun(cs[i], r))
    && (forall i, j :: 0 <= i < j < |cs| ==> cs[i].start + max <= cs[j].start)
  }

  lemma {:induction false} RunChunksAreGood(space: Space, r: Run, max: nat)
    requires max >= 1 && r.first <= r.last
    ensures GoodChunks(space, r, max, RunChunks(space, r, max))
  {
    var total := r.last - r.first + 1;
    var cs := RunChunks(space, r, max);
    ChunksTile(space, r.first, total, max, r.members);
    ChunkFields(space, r.first, total, max, r.members);
    forall i | 0 <= i < |cs| ensures cs[i].space == space && 1 <= cs[i].count <= max && WithinRun(cs[i], r) {
      assert cs[i] in cs;
      TilingSpacing(cs, r.first, total, max, i, i);
    }
    forall i, j | 0 <= i < j < |cs| ensures cs[i].start + max <= cs[j].start {
      TilingSpacing(cs, r.first, total, max, i, j);
    }
  }

  lemma {:induction false} JoinGroups(space: Space, init: seq<Run>, r: Run, max: nat, gs: seq<ReadGroup>, cs: seq<ReadGroup>)
    requires ProperRuns(init + [r]) && GoodGroups(space, init, max, gs) && GoodChunks(space, r, max, cs)
    ensures GoodGroups(space, init + [r], max, gs + cs)
  {
    var runs, all := init + [r], gs + cs;
    forall i | 0 <= i < |all| ensures InSomeRun(all[i], runs) {
      if i < |gs| {
        assert InSomeRun(gs[i], init);
        var j :| 0 <= j < |init| && WithinRun(gs[i], init[j]);
        assert WithinRun(all[i], runs[j]);
      } else {
        assert WithinRun(all[i], runs[|init|]);
      }
    }
    forall i, j | 0 <= i < j < |all| ensures Separate(runs, all[i], all[j], max) {
      if j < |gs| {
        assert Separate(init, gs[i], gs[j], max) && InSomeRun(gs[j], init);
        StillSeparate(init, r, gs[i], gs[j], max);
      } else if i < |gs| {
        assert InSomeRun(gs[i], init);
        GapBefore(init, r, gs[i], cs[j - |gs|], max);
      }
    }
  }

  lemma {:induction false} StillSeparate(init: seq<Run>, r: Run, g: ReadGroup, h: ReadGroup, max: nat)
    requires ProperRuns(init + [r]) && Separate(init, g, h, max)
    requires InSomeRun(h, init)
    requires h.count >= 1
    ensures Separate(init + [r], g, h, max)
  {
    if g.start + max > h.start {
      var a :| g.start < a < h.start && OutsideRuns(init, a);
      var j :| 0 <= j < |init| && WithinRun(h, init[j]);
      var runs := init + [r];
      assert runs[j].last + 1 < runs[|init|].first;
      assert OutsideRuns(runs, a);
    }
  }

  lemma {:induction false} GapBefore(init: seq<Run>, r: Run, g: ReadGroup, h: ReadGroup, max: nat)
    requires ProperRuns(init + [r]) && g.count >= 1
    requires InSomeRun(g, init)
    requires WithinRun(h, r)
    ensures Separate(init + [r], g, h, max)
  {
    var j :| 0 <= j < |init| && WithinRun(g, init[j]);
    var runs := init + [r];
    assert runs[j].last + 1 < runs[|init|].first;
    var a := runs[j].last + 1;
    forall i | 0 <= i < |runs| ensures a < runs[i].first || runs[i].last < a {
      if i < j {
        assert runs[i].last + 1 < runs[j].first;
      } else if j < i {
        assert runs[j].last + 1 < runs[i].first;
      }
    }
    assert OutsideRuns(runs, a);
  }

  /** Every address of a run is read by a group with that run's mappings. */
  lemma {:induction false} GroupReading(space: Space, runs: seq<Run>, max: nat, i: nat, a: int) returns (k: nat)
    requires max >= 1 && i < |runs| && runs[i].first <= a <= runs[i].last
    ensures var gs := GroupsOf(space, runs, max);
            k < |gs| && gs[k].Reads(a) && gs[k].members == runs[i].members
  {
    var init, r := runs[..|runs| - 1], runs[|runs| - 1];
    if i < |init| {
      k := GroupReading(space, init, max, i, a);
    } else {
      k := ChunkOf(space, r.first, r.last - r.first + 1, max, r.members, a);
      ChunkFields(space, r.first, r.last - r.first + 1, max, r.members);
      assert RunChunks(space, r, max)[k] in RunChunks(space, r, max);
      k := k + |GroupsOf(space, init, max)|;
    }
  }

  /** Facts about the runs and groups behind a plan. */
  lemma {:induction false} PlanShape(space: Space, ms: seq<Mapping>, max: nat, limit: nat)
    requires max >= 1 && Plannable(ms, limit)
    ensures var sorted := SortByAddress(ms);
            && Sorted(sorted) && Plannable(sorted, limit)
            && GoodRuns(sorted, Runs(sorted))
            && GoodGroups(space, Runs(sorted), max, Plan(space, ms, max))
  {
    var sorted := SortByAddress(ms);
    SortedIsPlannable(ms, limit);
    RunsAreGood(sorted, limit);
    assert forall i :: 0 <= i < |Runs(sorted)| ==> Tight(Runs(sorted)[i]);
    GroupsAreGood(space, Runs(sorted), max);
  }

  ghost predicate ReadBy(gs: seq<ReadGroup>, a: int)
  {
    exists i :: 0 <= i < |gs| && gs[i].Reads(a)
  }

  lemma {:induction false} PlanReadsExactlyMapped(space: Space, ms: seq<Mapping>, max: nat, limit: nat, a: int)
    requires max >= 1 && Plannable(ms, limit)
    ensures Mapped(ms, a) <==> ReadBy(Plan(space, ms, max), a)
  {
    var sorted := SortByAddress(ms);
    var runs, gs := Runs(sorted), Plan(space, ms, max);
    PlanShape(space, ms, max, limit);
    SortKeepsMapped(ms, a);
    RunsCoverMapped(sorted, limit, a);
    if InRuns(runs, a) {
      var i :| 0 <= i < |runs| && runs[i].first <= a <= runs[i].last;
      var k := GroupReading(space, runs, max, i, a);
      assert gs[k].Reads(a);
    }
    if ReadBy(gs, a) {
      var i :| 0 <= i < |gs| && gs[i].Reads(a);
      assert InSomeRun(gs[i], runs);
      var j :| 0 <= j < |runs| && WithinRun(gs[i], runs[j]);
      assert runs[j].first <= a <= runs[j].last;
    }
  }

  /**
   * The plan reads every mapped word exactly once and nothing else: the groups are within the
   * limit, pairwise disjoint and ascending, and their union is the set of mapped addresses.
   */
  lemma {:induction false} PlanReadsMappedWordsOnce(space: Space, ms: seq<Mapping>, max: nat, limit: nat)
    requires max >= 1 && Plannable(ms, limit)
    ensures var gs := Plan(space, ms, max);
            && (forall i :: 0 <= i < |gs| ==> gs[i].space == space && 1 <= gs[i].count <= max)
            && (forall i, j :: 0 <= i < j < |gs| ==> gs[i].start + gs[i].count <= gs[j].start)
            && (forall a :: Mapped(ms, a) <==> ReadBy(gs, a))
  {
    var gs := Plan(space, ms, max);
    PlanShape(space, ms, max, limit);
    forall i, j | 0 <= i < j < |gs| ensures gs[i].start + gs[i].count <= gs[j].start {
      assert Separate(Runs(SortByAddress(ms)), gs[i], gs[j], max);
    }
    forall a ensures Mapped(ms, a) <==> ReadBy(gs, a) {
      PlanReadsExactlyMapped(space, ms, max, limit, a);
    }
  }

  /** The mappings listed with a group are configured mappings. */
  lemma {:induction false} PlanMembers(space: Space, ms: seq<Mapping>, max: nat, limit: nat, i: nat, m: Mapping)
    requires max >= 1 && Plannable(ms, limit)
    requires i < |Plan(space, ms, max)| && m in Plan(space, ms, max)[i].members
    ensures m in ms
  {
    var sorted := SortByAddress(ms);
    PlanShape(space, ms, max, limit);
    assert InSomeRun(Plan(space, ms, max)[i], Runs(sorted));
    var j :| 0 <= j < |Runs(sorted)| && WithinRun(Plan(space, ms, max)[i], Runs(sorted)[j]);
    assert m in Runs(sorted)[j].members;
    SortSorts(ms);
  }

  lemma {:induction false} SortedIsPlannable(ms: seq<Mapping>, limit: nat)
    requires Plannable(ms, limit)
    ensures Plannable(SortByAddress(ms), limit) && Sorted(SortByAddress(ms))
  {
    SortSorts(ms);
    var s := SortByAddress(ms);
    forall i | 0 <= i < |s| ensures s[i].count >= 1 && s[i].End() <= limit {
      assert s[i] in s;
      var k :| 0 <= k < |ms| && ms[k] == s[i];
    }
  }

  lemma {:induction false} SortKeepsMapped(ms: seq<Mapping>, a: int)
    ensures Mapped(SortByAddress(ms), a) <==> Mapped(ms, a)
  {
    SortSorts(ms);
    var s := SortByAddress(ms);
    if i :| 0 <= i < |s| && s[i].Covers(a) {
      assert s[i] in s;
      var k :| 0 <= k < |ms| && ms[k] == s[i];
      assert ms[k].Covers(a);
    }
    if i :| 0 <= i < |ms| && ms[i].Covers(a) {
      assert ms[i] in s;
      var k :| 0 <= k < |s| && s[k] == ms[i];
      assert s[k].Covers(a);
    }
  }

  // ----- optimality -----

  /** A request for `count` words from `start`. */
  datatype Request = Request(start: nat, count: nat)

  predicate Holds(q: Request, a: int)
  {
    q.start <= a < q.start + q.count
  }

  /** Requests within the limit that read every mapped word and no other. */
  ghost predicate Serves(reqs: seq<Request>, ms: seq<Mapping>, max: nat)
  {
    && (forall i :: 0 <= i < |reqs| ==> reqs[i].count <= max)
    && (forall i, a :: 0 <= i < |reqs| && Holds(reqs[i], a) ==> Mapped(ms, a))
    && (forall a :: Mapped(ms, a) ==> exists i :: 0 <= i < |reqs| && Holds(reqs[i], a))
  }

  /** No set of requests that reads exactly the mapped words has fewer members than the plan. */
  lemma {:induction false} PlanIsMinimal(space: Space, ms: seq<Mapping>, max: nat, limit: nat, reqs: seq<Request>)
    requires max >= 1 && Plannable(ms, limit) && Serves(reqs, ms, max)
    ensures |Plan(space, ms, max)| <= |reqs|
  {
    var gs := Plan(space, ms, max);
    PlanReadsMappedWordsOnce(space, ms, max, limit);
    var chosen := Choose(gs, reqs, ms, max, |gs|);
    forall i, j | 0 <= i < j < |chosen| ensures chosen[i] != chosen[j] {
      if chosen[i] == chosen[j] {
        NoRequestHoldsTwoStarts(space, ms, max, limit, reqs, chosen[i], i, j);
      }
    }
    Pigeonhole(chosen, |reqs|);
  }

  /** For each of the first `n` groups, a request that reads the group's first word. */
  lemma {:induction false} Choose(gs: seq<ReadGroup>, reqs: seq<Request>, ms: seq<Mapping>, max: nat, n: nat)
    returns (chosen: seq<nat>)
    requires n <= |gs| && Serves(reqs, ms, max)
    requires forall i :: 0 <= i < |gs| ==> gs[i].count >= 1
    requires forall a :: ReadBy(gs, a) ==> Mapped(ms, a)
    ensures |chosen| == n
    ensures forall i :: 0 <= i < n ==>
              chosen[i] < |reqs| && Holds(reqs[chosen[i]], gs[i].start)
  {
    if n == 0 {
      chosen := [];
    } else {
      chosen := Choose(gs, reqs, ms, max, n - 1);
      var a := gs[n - 1].start;
      assert gs[n - 1].Reads(a);
      assert ReadBy(gs, a);
      var k :| 0 <= k < |reqs| && Holds(reqs[k], a);
      chosen := chosen + [k];
    }
  }

  lemma {:induction false} NoRequestHoldsTwoStarts(space: Space, ms: seq<Mapping>, max: nat, limit: nat, reqs: seq<Request>, k: nat, i: nat, j: nat)
    requires max >= 1 && Plannable(ms, limit) && Serves(reqs, ms, max) && k < |reqs|
    requires i < j < |Plan(space, ms, max)|
    ensures !Holds(reqs[k], Plan(space, ms, max)[i].start) || !Holds(reqs[k], Plan(space, ms, max)[j].start)
  {
    var runs, gs := Runs(SortByAddress(ms)), Plan(space, ms, max);
    PlanShape(space, ms, max, limit);
    var q, g, h := reqs[k], gs[i], gs[j];
    assert Separate(runs, g, h, max);
    if h.start < g.start + max {
      var a :| g.start < a < h.start && OutsideRuns(runs, a);
      OutsideIsUnmapped(ms, limit, a);
      assert !Holds(q, a);
    }
  }

  lemma {:induction false} OutsideIsUnmapped(ms: seq<Mapping>, limit: nat, a: int)
    requires Plannable(ms, limit) && OutsideRuns(Runs(SortByAddress(ms)), a)
    ensures !Mapped(ms, a)
  {
    SortedIsPlannable(ms, limit);
    SortKeepsMapped(ms, a);
    RunsCoverMapped(SortByAddress(ms), limit, a);
  }

  /** Distinct numbers below `n` are at most `n` many. */
  lemma {:induction false} Pigeonhole(s: seq<nat>, n: nat)
    requires forall i :: 0 <= i < |s| ==> s[i] < n
    requires forall i, j :: 0 <= i < j < |s| ==> s[i] != s[j]
    ensures |s| <= n
  {
    if s != [] {
      assert s[0] < n;
      if i :| 0 <= i < |s| && s[i] == n - 1 {
        var t := s[..i] + s[i + 1..];
        assert forall k :: 0 <= k < |t| ==> t[k] == if k < i then s[k] else s[k + 1];
        Pigeonhole(t, n - 1);
      } else {
        Pigeonhole(s, n - 1);
      }
    }
  }

  // ----- the two planners as the drivers write them -----

  /** The FINS planner of one area: two indices over the sorted mappings, then the chunk loop, in u32. */
  method PlanTwoIndex(area: Space, maps: seq<Mapping>, maxWords: U32) returns (groups: seq<ReadGroup>)
    requires Sorted(maps) && Plannable(maps, 0xFFFF_FFFF)
    requires 1 <= maxWords <= 0xFFFF
    ensures groups == GroupsOf(area, Runs(maps), maxWords)
  {
    groups := [];
    var i := 0;
    while i < |maps|
      invariant 0 <= i <= |maps|
      invariant groups == GroupsOf(area, Runs(maps[..i]), maxWords)
      invariant i < |maps| ==> Gap(Runs(maps[..i]), maps[i])
    {
      var chunks, j := PlanRun(area, maps, i, maxWords);
      groups := groups + chunks;
      i := j;
    }
    assert maps[..i] == maps;
  }

  /** Gather the run that starts with mapping `i`, and cut it into requests. */
  method PlanRun(area: Space, maps: seq<Mapping>, i: nat, maxWords: U32) returns (chunks: seq<ReadGroup>, j: nat)
    requires Sorted(maps) && Plannable(maps, 0xFFFF_FFFF) && i < |maps| && Gap(Runs(maps[..i]), maps[i])
    requires 1 <= maxWords <= 0xFFFF
    ensures i < j <= |maps| && (j < |maps| ==> Gap(Runs(maps[..j]), maps[j]))
    ensures GroupsOf(area, Runs(maps[..j]), maxWords) == GroupsOf(area, Runs(maps[..i]), maxWords) + chunks
  {
    ghost var done := Runs(maps[..i]);
    var startAddr := maps[i].address;
    var endAddr, members, next := ExtendRun(maps, i, done);
    j := next;
    GroupsGrow(area, done, Run(startAddr, endAddr, members), maxWords);
    var totalWords: U32 := endAddr - startAddr + 1;
    chunks := ChunkLoop(area, startAddr, totalWords, maxWords, members);
  }

  /** `m` lies behind the last run with a gap between. */
  predicate Gap(runs: seq<Run>, m: Mapping)
  {
    runs != [] ==> m.address > runs[|runs| - 1].last + 1
  }

  lemma {:induction false} GroupsGrow(space: Space, done: seq<Run>, r: Run, max: nat)
    requires max >= 1
    ensures GroupsOf(space, done + [r], max) == GroupsOf(space, done, max) + RunChunks(space, r, max)
  {
    assert (done + [r])[..|done|] == done;
  }

  /** The inner loop: gather the mappings from `i` on that touch the run growing from mapping `i`. */
  method ExtendRun(maps: seq<Mapping>, i: nat, ghost done: seq<Run>) returns (endAddr: U32, members: seq<Mapping>, j: nat)
    requires Sorted(maps) && Plannable(maps, 0xFFFF_FFFF) && i < |maps| && done == Runs(maps[..i])
    requires Gap(done, maps[i])
    ensures i < j <= |maps| && maps[i].address <= endAddr < 0xFFFF_FFFF
    ensures Runs(maps[..j]) == done + [Run(maps[i].address, endAddr, members)]
    ensures j < |maps| ==> Gap(Runs(maps[..j]), maps[j])
  {
    endAddr := maps[i].address + maps[i].count - 1;
    members := [maps[i]];
    j := i + 1;
    RunsStep(maps, i);
    ghost var run := Run(maps[i].address, endAddr, members);
    while j < |maps|
      invariant i < j <= |maps|
      invariant maps[i].address <= endAddr < 0xFFFF_FFFF
      invariant run == Run(maps[i].address, endAddr, members)
      invariant Runs(maps[..j]) == done + [run]
    {
      var next := maps[j];
      if next.address > endAddr + 1 {
        GapBehind(done, run, next);
        break;
      }
      AbsorbIntoLast(maps, j, done, run);
      run := Run(run.first, Max(run.last, next.End() - 1), run.members + [next]);
      var candidateEnd: U32 := next.address + next.count - 1;
      if candidateEnd > endAddr {
        endAddr := candidateEnd;
      }
      members := members + [next];
      j := j + 1;
    }
  }

  lemma {:induction false} GapBehind(done: seq<Run>, r: Run, m: Mapping)
    requires m.address > r.last + 1
    ensures Gap(done + [r], m)
  {
  }

  lemma {:induction false} RunsStep(maps: seq<Mapping>, j: nat)
    requires j < |maps|
    ensures Runs(maps[..j + 1]) == Absorb(Runs(maps[..j]), maps[j])
  {
    assert maps[..j + 1][..j] == maps[..j];
  }

  lemma {:induction false} AbsorbIntoLast(maps: seq<Mapping>, j: nat, done: seq<Run>, r: Run)
    requires j < |maps| && maps[j].address <= r.last + 1 && Runs(maps[..j]) == done + [r]
    ensures Runs(maps[..j + 1]) == done + [Run(r.first, Max(r.last, maps[j].End() - 1), r.members + [maps[j]])]
  {
    RunsStep(maps, j);
    assert (done + [r])[..|done|] == done;
  }

  /** Split `total` words into requests of at most `maxWords`; the count is truncated to u16. */
  method ChunkLoop(area: Space, start: U32, total: U32, maxWords: U32, members: seq<Mapping>) returns (groups: seq<ReadGroup>)
    requires 1 <= maxWords <= 0xFFFF && start + total <= 0xFFFF_FFFF
    ensures groups == Chunks(area, start, total, maxWords, members)
  {
    groups := [];
    var chunkStart := start;
    var remaining := total;
    while remaining > 0
      invariant 0 <= remaining && chunkStart + remaining == start + total
      invariant groups + Chunks(area, chunkStart, remaining, maxWords, members) == Chunks(area, start, total, maxWords, members)
    {
      var chunkWords: Word := Min(remaining, maxWords) % 0x1_0000;
      ghost var g := ReadGroup(area, chunkStart, chunkWords, members);
      NextGroup(groups, g, Chunks(area, chunkStart + chunkWords, remaining - chunkWords, maxWords, members));
      groups := groups + [ReadGroup(area, chunkStart, chunkWords, members)];
      chunkStart := chunkStart + chunkWords;
      remaining := if remaining < chunkWords then 0 else remaining - chunkWords;
    }
  }

  lemma {:induction false} NextGroup(groups: seq<ReadGroup>, g: ReadGroup, rest: seq<ReadGroup>)
    ensures groups + ([g] + rest) == (groups + [g]) + rest
  {
  }

  /** Words the chunk loop advances by, with the truncation to u16. */
  function Advance(remaining: nat, maxWords: nat): nat
  {
    Min(remaining, maxWords) % 0x1_0000
  }

  /**
   * The request limit is read from the configuration unchecked. Every non-empty run makes progress
   * exactly when the limit is between 1 and 65535; otherwise some run repeats an empty chunk forever.
   */
  lemma {:induction false} ChunkLoopProgresses(maxWords: nat)
    ensures (forall remaining: nat :: remaining > 0 ==> Advance(remaining, maxWords) > 0) <==> 1 <= maxWords <= 0xFFFF
  {
    if maxWords == 0 {
      assert Advance(1, maxWords) == 0;
    } else if maxWords > 0xFFFF {
      assert Advance(0x1_0000, maxWords) == 0;
    }
  }

  /** A contiguous group of the Modbus planner: start address, quantity, mappings. */
  datatype RegisterGroup = RegisterGroup(start: Word, quantity: Word, members: seq<Mapping>)

  function Wrap16(x: int): Word
  {
    x % 0x1_0000
  }

  /** The run a register group stands for. */
  function AsRun(g: RegisterGroup): Run
  {
    Run(g.start, g.start + g.quantity - 1, g.members)
  }

  function AsRuns(gs: seq<RegisterGroup>): (rs: seq<Run>)
    ensures |rs| == |gs|
  {
    seq(|gs|, i requires 0 <= i < |gs| => AsRun(gs[i]))
  }

  /** Mutating the last group in place absorbs a touching mapping. */
  lemma {:induction false} FoldExtends(groups: seq<RegisterGroup>, m: Mapping, g: RegisterGroup)
    requires groups != [] && m.address <= AsRun(groups[|groups| - 1]).last + 1
    requires var r := AsRun(groups[|groups| - 1]);
             AsRun(g) == Run(r.first, Max(r.last, m.End() - 1), r.members + [m])
    ensures AsRuns(groups[..|groups| - 1] + [g]) == Absorb(AsRuns(groups), m)
  {
  }

  lemma {:induction false} FoldAppends(groups: seq<RegisterGroup>, m: Mapping)
    requires groups != [] ==> m.address > AsRun(groups[|groups| - 1]).last + 1
    requires m.count >= 1 && m.End() <= 0xFFFF
    ensures AsRuns(groups + [RegisterGroup(m.address, m.count, [m])]) == Absorb(AsRuns(groups), m)
  {
  }

  /** No quantity is zero and no group reaches the top register. */
  predicate InRegisters(gs: seq<RegisterGroup>)
  {
    forall k :: 0 <= k < |gs| ==> gs[k].quantity >= 1 && gs[k].start + gs[k].quantity <= 0xFFFF
  }

  /** Below the top register the wrapping end arithmetic does not wrap. */
  lemma {:induction false} NoWrap(g: RegisterGroup)
    requires g.quantity >= 1 && g.start + g.quantity <= 0xFFFF
    ensures var end := Wrap16(Wrap16(g.start + g.quantity) - 1);
            end == AsRun(g).last && Wrap16(end + 1) == end + 1
  {
  }

  lemma {:induction false} InRegistersReplace(gs: seq<RegisterGroup>, g: RegisterGroup)
    requires InRegisters(gs) && InRegisters([g])
    ensures InRegisters(gs + [g])
    ensures gs != [] ==> InRegisters(gs[..|gs| - 1] + [g])
  {
    assert [g][0] == g;
  }

  /** One step of the fold: the last group grows over a touching mapping, or a new group starts. */
  method FoldStep(groups: seq<RegisterGroup>, m: Mapping) returns (next: seq<RegisterGroup>)
    requires InRegisters(groups) && m.count >= 1 && m.End() <= 0xFFFF
    requires groups != [] ==> groups[|groups| - 1].start <= m.address
    ensures AsRuns(next) == Absorb(AsRuns(groups), m) && InRegisters(next)
    ensures next != [] && next[|next| - 1].start <= m.address
  {
    var single := RegisterGroup(m.address, m.count, [m]);
    if |groups| > 0 {
      var last := groups[|groups| - 1];
      var end: Word := Wrap16(Wrap16(last.start + last.quantity) - 1);
      NoWrap(last);
      if m.address <= Wrap16(end + 1) {
        var newEnd: Word := Max(end, m.address + m.count - 1);
        var g := RegisterGroup(last.start, newEnd - last.start + 1, last.members + [m]);
        FoldExtends(groups, m, g);
        InRegistersReplace(groups, g);
        return groups[..|groups| - 1] + [g];
      }
    }
    FoldAppends(groups, m);
    InRegistersReplace(groups, single);
    next := groups + [single];
  }

  /** The Modbus planner of one function: a fold over the sorted mappings in u16, the last group mutated in place. */
  method GroupFold(maps: seq<Mapping>) returns (groups: seq<RegisterGroup>)
    requires Sorted(maps) && Plannable(maps, 0xFFFF)
    ensures AsRuns(groups) == Runs(maps) && InRegisters(groups)
  {
    groups := [];
    for i := 0 to |maps|
      invariant AsRuns(groups) == Runs(maps[..i]) && InRegisters(groups)
      invariant groups != [] ==> i > 0 && groups[|groups| - 1].start <= maps[i - 1].address
    {
      RunsStep(maps, i);
      groups := FoldStep(groups, maps[i]);
    }
    assert maps[..|maps|] == maps;
  }
}
