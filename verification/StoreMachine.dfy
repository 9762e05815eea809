/**
 * The tag store under concurrency: any number of threads, each taking the load and store steps of its
 * operation one at a time, in any interleaving.
 */
module StoreMachines {
  import opened TagModel
  import opened TagStores

  /** The configured type of every tag. */
  type Types = map<string, TagDataType>

  datatype Operation =
    | Insert(id: string, tag: Tag)
    | Update(id: string, value: TagValue, quality: TagQuality, sourceTs: Timestamp)
    | Requalify(id: string, quality: TagQuality)

  /**
   * How far a thread is: not begun, found no slot and about to take the write lock, holding a slot's
   * handle, holding a handle and a snapshot of the tag in it, finished.
   */
  datatype Thread =
    | Ready(op: Operation)
    | Locking(op: Operation)
    | Holding(op: Operation, slot: nat)
    | Loaded(op: Operation, slot: nat, seen: Tag)
    | Finished

  /** A value and the source timestamp it came with. */
  datatype Supply = Supply(id: string, value: TagValue, sourceTs: Timestamp)

  /** `supplied` is the history of pairs that inserts and updates brought in. */
  datatype Machine = Machine(store: Store, threads: seq<Thread>, supplied: set<Supply>)

  /** A thread starts an operation, or takes its next step. */
  datatype Event = Start(op: Operation) | Advance(thread: nat, now: Timestamp)

  /** Values of tags are inserted with the configured type, as at start-up; nothing else is asked of callers. */
  predicate Enabled(types: Types, m: Machine, e: Event)
  {
    match e
    case Start(Insert(id, tag)) => id in types && tag.value.Matches(types[id])
    case Start(_) => true
    case Advance(t, _) => t < |m.threads| && CanAdvance(m.store, m.threads[t])
  }

  predicate CanAdvance(s: Store, t: Thread)
  {
    match t
    case Finished => false
    case Ready(op) => op.id in s.index ==> s.index[op.id] < |s.tags|
    case Locking(op) => op.Insert? && (op.id in s.index ==> s.index[op.id] < |s.tags|)
    case Holding(_, k) => k < |s.tags|
    case Loaded(op, k, _) => k < |s.tags| && !op.Insert?
  }

  /** The pair an operation brings in. */
  function Supplies(op: Operation): set<Supply>
  {
    match op
    case Insert(id, tag) => {Supply(id, tag.value, tag.sourceTimestamp)}
    case Update(id, v, _, ts) => {Supply(id, v, ts)}
    case Requalify(_, _) => {}
  }

  /** An update is refused without definition, or for a value of another type. */
  predicate Refused(types: Types, op: Operation)
  {
    op.Update? && (op.id !in types || !op.value.Matches(types[op.id]))
  }

  /** The tag an update or a quality change stores, made from the snapshot it loaded. */
  function Renewed(op: Operation, seen: Tag, now: Timestamp): Tag
    requires !op.Insert?
  {
    match op
    case Update(_, v, q, ts) => seen.ApplyRead(v, q, ts, now)
    case Requalify(_, q) => seen.SetQuality(q, now)
  }

  function Step(types: Types, m: Machine, e: Event): Machine
    requires Enabled(types, m, e)
  {
    match e
    case Start(op) =>
      if Refused(types, op) then m.(threads := m.threads + [Finished])
      else m.(threads := m.threads + [Ready(op)], supplied := m.supplied + Supplies(op))
    case Advance(t, now) =>
      m.(store := StoreAfter(m.store, m.threads[t], now), threads := m.threads[t := ThreadAfter(m.store, m.threads[t])])
  }

  function StoreAfter(s: Store, t: Thread, now: Timestamp): Store
    requires CanAdvance(s, t)
  {
    match t
    case Ready(_) => s
    case Locking(op) => if op.id in s.index then s.Put(s.index[op.id], op.tag) else s.Append(op.id, op.tag)
    case Holding(op, k) => if op.Insert? then s.Put(k, op.tag) else s
    case Loaded(op, k, seen) => s.Put(k, Renewed(op, seen, now))
  }

  function ThreadAfter(s: Store, t: Thread): Thread
    requires CanAdvance(s, t)
  {
    match t
    case Ready(op) =>
      if op.id in s.index then Holding(op, s.index[op.id]) else if op.Insert? then Locking(op) else Finished
    case Locking(_) => Finished
    case Holding(op, k) => if op.Insert? then Finished else Loaded(op, k, s.tags[k])
    case Loaded(_, _, _) => Finished
  }

  const START := Machine(EMPTY, [], {})

  predicate Possible(types: Types, m: Machine, es: seq<Event>)
    decreases |es|
  {
    es == [] || (Enabled(types, m, es[0]) && Possible(types, Step(types, m, es[0]), es[1..]))
  }

  function Run(types: Types, m: Machine, es: seq<Event>): Machine
    requires Possible(types, m, es)
    decreases |es|
  {
    if es == [] then m else Run(types, Step(types, m, es[0]), es[1..])
  }

  // ----- the invariant -----

  /** A tag's value has the configured type and came together with its source timestamp. */
  predicate Sound(types: Types, supplied: set<Supply>, id: string, tag: Tag)
  {
    id in types && tag.value.Matches(types[id]) && Supply(id, tag.value, tag.sourceTimestamp) in supplied
  }

  predicate SoundOperation(types: Types, supplied: set<Supply>, op: Operation)
  {
    match op
    case Insert(id, tag) => Sound(types, supplied, id, tag)
    case Update(id, v, _, ts) => id in types && v.Matches(types[id]) && Supply(id, v, ts) in supplied
    case Requalify(_, _) => true
  }

  /** A thread's handle is its own tag's slot, and its snapshot a tag that once was in it. */
  predicate SoundThread(types: Types, m: Machine, t: Thread)
  {
    match t
    case Ready(op) => SoundOperation(types, m.supplied, op)
    case Locking(op) => op.Insert? && SoundOperation(types, m.supplied, op)
    case Holding(op, k) => SoundOperation(types, m.supplied, op) && op.id in m.store.index && m.store.index[op.id] == k
    case Loaded(op, k, seen) =>
      && SoundOperation(types, m.supplied, op) && op.id in m.store.index && m.store.index[op.id] == k
      && !op.Insert? && Sound(types, m.supplied, op.id, seen)
    case Finished => true
  }

  predicate SoundTags(types: Types, m: Machine)
    requires forall id :: id in m.store.index ==> m.store.index[id] < |m.store.tags|
  {
    forall id :: id in m.store.Tags() ==> Sound(types, m.supplied, id, m.store.Tags()[id])
  }

  ghost predicate Invariant(types: Types, m: Machine)
  {
    && m.store.Valid()
    && SoundTags(types, m)
    && forall t :: 0 <= t < |m.threads| ==> SoundThread(types, m, m.threads[t])
  }

  lemma {:induction false} InvariantOverRuns(types: Types, m: Machine, es: seq<Event>)
    requires Invariant(types, m) && Possible(types, m, es)
    ensures Invariant(types, Run(types, m, es)) && Grows(m.store, Run(types, m, es).store)
    decreases |es|
  {
    if es != [] {
      StepKeeps(types, m, es[0]);
      InvariantOverRuns(types, Step(types, m, es[0]), es[1..]);
      GrowthIsTransitive(m.store, Step(types, m, es[0]).store, Run(types, m, es).store);
    }
  }

  lemma {:induction false} GrowthIsTransitive(a: Store, b: Store, c: Store)
    requires Grows(a, b) && Grows(b, c)
    ensures Grows(a, c)
  {
  }

  lemma {:induction false} StepKeeps(types: Types, m: Machine, e: Event)
    requires Invariant(types, m) && Enabled(types, m, e)
    ensures Invariant(types, Step(types, m, e)) && Grows(m.store, Step(types, m, e).store)
  {
    match e
    case Start(op) => StartKeeps(types, m, op);
    case Advance(t, now) => AdvanceKeeps(types, m, t, now);
  }

  lemma {:induction false} StartKeeps(types: Types, m: Machine, op: Operation)
    requires Invariant(types, m) && Enabled(types, m, Start(op))
    ensures Invariant(types, Step(types, m, Start(op))) && Grows(m.store, Step(types, m, Start(op)).store)
  {
    var n := Step(types, m, Start(op));
    forall t | 0 <= t < |n.threads| ensures SoundThread(types, n, n.threads[t]) {
      if t < |m.threads| {
        assert SoundThread(types, m, m.threads[t]);
      }
    }
  }

  /** From `s` to `t` nothing was stored, or a sound tag in the slot of its id. */
  ghost predicate StoredSoundly(types: Types, supplied: set<Supply>, s: Store, t: Store)
    requires s.Valid()
  {
    && t.Valid() && Grows(s, t)
    && (t.Tags() == s.Tags() || exists id, tag :: Sound(types, supplied, id, tag) && t.Tags() == s.Tags()[id := tag])
  }

  lemma {:induction false} StoreStep(types: Types, m: Machine, t: nat, now: Timestamp)
    requires Invariant(types, m) && Enabled(types, m, Advance(t, now))
    ensures StoredSoundly(types, m.supplied, m.store, StoreAfter(m.store, m.threads[t], now))
  {
    var thread, s := m.threads[t], m.store;
    assert SoundThread(types, m, thread);
    if thread.Locking? || (thread.Holding? && thread.op.Insert?) {
      StoresSoundly(types, m.supplied, s, thread.op.id, thread.op.tag);
    } else if thread.Loaded? {
      StoresSoundly(types, m.supplied, s, thread.op.id, Renewed(thread.op, thread.seen, now));
    }
  }

  lemma {:induction false} StoresSoundly(types: Types, supplied: set<Supply>, s: Store, id: string, tag: Tag)
    requires s.Valid() && Sound(types, supplied, id, tag)
    ensures StoredSoundly(types, supplied, s, if id in s.index then s.Put(s.index[id], tag) else s.Append(id, tag))
  {
    Stores(s, id, tag);
  }

  lemma {:induction false} Stores(s: Store, id: string, tag: Tag)
    requires s.Valid()
    ensures var t := if id in s.index then s.Put(s.index[id], tag) else s.Append(id, tag);
            t.Valid() && Grows(s, t) && t.Tags() == s.Tags()[id := tag]
  {
    if id in s.index {
      PutIsUpdate(s, id, tag);
    } else {
      AppendIsUpdate(s, id, tag);
    }
  }

  lemma {:induction false} AdvanceKeeps(types: Types, m: Machine, t: nat, now: Timestamp)
    requires Invariant(types, m) && Enabled(types, m, Advance(t, now))
    ensures Invariant(types, Step(types, m, Advance(t, now))) && Grows(m.store, Step(types, m, Advance(t, now)).store)
  {
    var n := Step(types, m, Advance(t, now));
    StoreStep(types, m, t, now);
    forall k | 0 <= k < |n.threads| ensures SoundThread(types, n, n.threads[k]) {
      assert SoundThread(types, m, m.threads[k]);
      if k == t {
        ThreadStep(types, m, t, now);
      }
    }
  }

  lemma {:induction false} ThreadStep(types: Types, m: Machine, t: nat, now: Timestamp)
    requires Invariant(types, m) && Enabled(types, m, Advance(t, now))
    requires Grows(m.store, StoreAfter(m.store, m.threads[t], now))
    ensures SoundThread(types, Step(types, m, Advance(t, now)), ThreadAfter(m.store, m.threads[t]))
  {
    assert SoundThread(types, m, m.threads[t]);
    var thread := m.threads[t];
    if thread.Holding? {
      assert m.store.Tags()[thread.op.id] == m.store.tags[thread.slot];
    }
  }

  // ----- what holds in every reachable state -----

  ghost predicate Reachable(types: Types, m: Machine)
  {
    exists es: seq<Event> :: Possible(types, START, es) && m == Run(types, START, es)
  }

  /**
   * In every interleaving: the index is a bijection onto the slots, the cached ids are strictly sorted,
   * every tag has its configured type, and its value and source timestamp were supplied together, even
   * where an update was overwritten by a racing one.
   */
  lemma {:induction false} ReachableStatesAreSound(types: Types, m: Machine)
    requires Reachable(types, m)
    ensures m.store.Valid() && |m.store.tags| == |m.store.sortedIds|
    ensures forall id :: id in m.store.Tags() ==> Sound(types, m.supplied, id, m.store.Tags()[id])
  {
    var es: seq<Event> :| Possible(types, START, es) && m == Run(types, START, es);
    InvariantOverRuns(types, START, es);
    SlotCount(m.store);
  }

  /** Slots are never lost or renumbered between reachable states. */
  lemma {:induction false} SlotsAreStable(types: Types, m: Machine, es: seq<Event>)
    requires Reachable(types, m) && Possible(types, m, es)
    ensures Grows(m.store, Run(types, m, es).store)
  {
    var before: seq<Event> :| Possible(types, START, before) && m == Run(types, START, before);
    InvariantOverRuns(types, START, before);
    InvariantOverRuns(types, m, es);
  }

  // ----- races -----

  lemma {:induction false} ReachableStep(types: Types, m: Machine, e: Event)
    requires Reachable(types, m) && Enabled(types, m, e)
    ensures Reachable(types, Step(types, m, e))
  {
    var es: seq<Event> :| Possible(types, START, es) && m == Run(types, START, es);
    OneMore(types, START, es, e);
  }

  lemma {:induction false} OneMore(types: Types, m: Machine, es: seq<Event>, e: Event)
    requires Possible(types, m, es) && Enabled(types, Run(types, m, es), e)
    ensures Possible(types, m, es + [e]) && Run(types, m, es + [e]) == Step(types, Run(types, m, es), e)
    decreases |es|
  {
    if es == [] {
      assert [] + [e] == [e] && [e][1..] == [];
    } else {
      OneMore(types, Step(types, m, es[0]), es[1..], e);
      assert (es + [e])[0] == es[0] && (es + [e])[1..] == es[1..] + [e];
    }
  }

  /** The tag now in the slot of a thread that has loaded. */
  function Current(m: Machine, t: Thread): Tag
    requires t.Loaded? && t.slot < |m.store.tags|
  {
    m.store.tags[t.slot]
  }

  /**
   * The store step of an update acts as if it had loaded the current tag, whatever was stored since its
   * load. That of a quality change does so exactly when value and source timestamp are still those it
   * loaded; otherwise it brings the loaded ones back.
   */
  lemma {:induction false} OnlyQualityChangesLoseUpdates(types: Types, m: Machine, t: nat, now: Timestamp)
    requires Invariant(types, m) && Enabled(types, m, Advance(t, now)) && m.threads[t].Loaded?
    ensures var x, after, current := m.threads[t], Step(types, m, Advance(t, now)).store, Current(m, m.threads[t]);
            && after.Valid()
            && (x.op.Update? ==> after.Tags() == m.store.Tags()[x.op.id := Tag(x.op.value, x.op.quality, x.op.sourceTs, now)])
            && (x.op.Requalify? ==>
                  && after.Tags() == m.store.Tags()[x.op.id := Tag(x.seen.value, x.op.quality, x.seen.sourceTimestamp, now)]
                  && (after.Tags() == m.store.Tags()[x.op.id := Tag(current.value, x.op.quality, current.sourceTimestamp, now)]
                      <==> x.seen.value == current.value && x.seen.sourceTimestamp == current.sourceTimestamp))
  {
    var x := m.threads[t];
    assert SoundThread(types, m, x);
    Stores(m.store, x.op.id, Renewed(x.op, x.seen, now));
    DifferentUpdates(m.store.Tags(), x.op.id, Renewed(x.op, x.seen, now), Renewed(x.op, Current(m, x), now));
  }

  lemma {:induction false} DifferentUpdates(tags: map<string, Tag>, id: string, a: Tag, b: Tag)
    ensures tags[id := a] == tags[id := b] <==> a == b
  {
    assert tags[id := a][id] == a && tags[id := b][id] == b;
  }

  /** A machine in which tag `id` was inserted with value `v` and nothing is under way. */
  lemma {:induction false} OneTag(types: Types, id: string, tag: Tag) returns (m: Machine)
    requires id in types && tag.value.Matches(types[id])
    ensures Reachable(types, m) && m.store == EMPTY.Append(id, tag) && m.threads == [Finished]
  {
    assert Possible(types, START, []) && Run(types, START, []) == START;
    ReachableStep(types, START, Start(Insert(id, tag)));
    var m1 := Step(types, START, Start(Insert(id, tag)));
    ReachableStep(types, m1, Advance(0, 0));
    var m2 := Step(types, m1, Advance(0, 0));
    ReachableStep(types, m2, Advance(0, 0));
    m := Step(types, m2, Advance(0, 0));
    assert m.threads == [Finished];
  }

  /**
   * Updates can be lost: a quality change that loaded before an update stored, and stores after it,
   * brings the old value back. The reachable state then shows a value no later operation supplied.
   */
  lemma {:induction false} UpdateCanBeLost(id: string, tag: Tag, v: TagValue, ts: Timestamp) returns (types: Types, m: Machine)
    requires v.DataType() == tag.value.DataType() && v != tag.value
    ensures Reachable(types, m) && m.threads == [Finished, Finished, Finished]
    ensures Supply(id, v, ts) in m.supplied
    ensures m.store.Valid() && id in m.store.Tags() && m.store.Tags()[id].value == tag.value
  {
    types := map[id := v.DataType()];
    var m0 := OneTag(types, id, tag);
    var m3 := BothLoaded(types, m0, id, tag, Update(id, v, Good, ts), Requalify(id, CommLost));
    ReachableStep(types, m3, Advance(1, 0));
    var m4 := Step(types, m3, Advance(1, 0));
    ReachableStep(types, m4, Advance(2, 0));
    m := Step(types, m4, Advance(2, 0));
    assert m.threads == [Finished, Finished, Finished];
    ReachableStatesAreSound(types, m);
    assert m.store.Tags()[id] == m.store.tags[0];
  }

  /** Two operations on a tag have both loaded it, and neither has stored. */
  lemma {:induction false} BothLoaded(types: Types, m: Machine, id: string, tag: Tag, a: Operation, b: Operation) returns (n: Machine)
    requires Reachable(types, m) && m.store == EMPTY.Append(id, tag) && m.threads == [Finished]
    requires a.id == id && b.id == id && !a.Insert? && !b.Insert? && !Refused(types, a) && !Refused(types, b)
    ensures Reachable(types, n) && n.store == m.store && Supplies(a) <= n.supplied
    ensures n.threads == [Finished, Loaded(a, 0, tag), Loaded(b, 0, tag)]
  {
    n := OneLoaded(types, m, id, tag, a);
    n := OneLoaded(types, n, id, tag, b);
  }

  lemma {:induction false} OneLoaded(types: Types, m: Machine, id: string, tag: Tag, op: Operation) returns (n: Machine)
    requires Reachable(types, m) && m.store == EMPTY.Append(id, tag)
    requires op.id == id && !op.Insert? && !Refused(types, op)
    ensures Reachable(types, n) && n.store == m.store && m.supplied <= n.supplied && Supplies(op) <= n.supplied
    ensures n.threads == m.threads + [Loaded(op, 0, tag)]
  {
    var t := |m.threads|;
    ReachableStep(types, m, Start(op));
    var m1 := Step(types, m, Start(op));
    assert m1.threads[t] == Ready(op);
    ReachableStep(types, m1, Advance(t, 0));
    var m2 := Step(types, m1, Advance(t, 0));
    assert m2.threads[t] == Holding(op, 0);
    ReachableStep(types, m2, Advance(t, 0));
    n := Step(types, m2, Advance(t, 0));
  }

  // ----- operations that nothing disturbs -----

  /** From `m` the events lead to `n`, a reachable state. */
  ghost predicate Leads(types: Types, m: Machine, es: seq<Event>, n: Machine)
  {
    Possible(types, m, es) && Run(types, m, es) == n && Reachable(types, n)
  }

  /** The last thread takes its next step. */
  lemma {:induction false} Advances(types: Types, m: Machine, es: seq<Event>, n: Machine, rest: seq<Thread>, x: Thread, now: Timestamp)
    returns (next: Machine)
    requires Leads(types, m, es, n) && n.threads == rest + [x] && !x.Finished?
    ensures CanAdvance(n.store, x) && Leads(types, m, es + [Advance(|rest|, now)], next)
    ensures next.store == StoreAfter(n.store, x, now) && next.threads == rest + [ThreadAfter(n.store, x)]
  {
    var t := |rest|;
    var before: seq<Event> :| Possible(types, START, before) && n == Run(types, START, before);
    InvariantOverRuns(types, START, before);
    assert SoundThread(types, n, n.threads[t]);
    ReachableStep(types, n, Advance(t, now));
    OneMore(types, m, es, Advance(t, now));
    next := Step(types, n, Advance(t, now));
  }

  /** It looks for the slot of its tag. */
  lemma {:induction false} Finds(types: Types, m: Machine, es: seq<Event>, n: Machine, rest: seq<Thread>, op: Operation, now: Timestamp)
    returns (next: Machine)
    requires Leads(types, m, es, n) && n.threads == rest + [Ready(op)]
    ensures Leads(types, m, es + [Advance(|rest|, now)], next) && next.store == n.store
    ensures next.threads == rest + [if op.id in n.store.index then Holding(op, n.store.index[op.id]) else if op.Insert? then Locking(op) else Finished]
  {
    next := Advances(types, m, es, n, rest, Ready(op), now);
  }

  /** An insert stores its tag in the slot found, or in a new one. */
  lemma {:induction false} Inserts(types: Types, m: Machine, es: seq<Event>, n: Machine, rest: seq<Thread>, op: Operation, now: Timestamp)
    returns (next: Machine)
    requires Leads(types, m, es, n) && n.store.Valid() && op.Insert?
    requires n.threads == rest + [if op.id in n.store.index then Holding(op, n.store.index[op.id]) else Locking(op)]
    ensures Leads(types, m, es + [Advance(|rest|, now)], next) && next.threads == rest + [Finished]
    ensures next.store.Valid() && next.store.Tags() == n.store.Tags()[op.id := op.tag]
  {
    next := Advances(types, m, es, n, rest, if op.id in n.store.index then Holding(op, n.store.index[op.id]) else Locking(op), now);
    Stores(n.store, op.id, op.tag);
  }

  /** A change loads the tag in the slot found. */
  lemma {:induction false} Loads(types: Types, m: Machine, es: seq<Event>, n: Machine, rest: seq<Thread>, op: Operation, now: Timestamp)
    returns (next: Machine)
    requires Leads(types, m, es, n) && n.store.Valid() && !op.Insert? && op.id in n.store.index
    requires n.threads == rest + [Holding(op, n.store.index[op.id])]
    ensures Leads(types, m, es + [Advance(|rest|, now)], next) && next.store == n.store
    ensures next.threads == rest + [Loaded(op, n.store.index[op.id], n.store.Tags()[op.id])]
  {
    next := Advances(types, m, es, n, rest, Holding(op, n.store.index[op.id]), now);
  }

  /** And stores the changed tag. */
  lemma {:induction false} Changes(types: Types, m: Machine, es: seq<Event>, n: Machine, rest: seq<Thread>, op: Operation, seen: Tag, now: Timestamp)
    returns (next: Machine)
    requires Leads(types, m, es, n) && n.store.Valid() && !op.Insert? && op.id in n.store.index
    requires n.threads == rest + [Loaded(op, n.store.index[op.id], seen)]
    ensures Leads(types, m, es + [Advance(|rest|, now)], next) && next.threads == rest + [Finished]
    ensures next.store.Valid() && next.store.Tags() == n.store.Tags()[op.id := Renewed(op, seen, now)]
  {
    next := Advances(types, m, es, n, rest, Loaded(op, n.store.index[op.id], seen), now);
    Stores(n.store, op.id, Renewed(op, seen, now));
  }

  /** What an operation does to the tags in one go. */
  function AtOnce(types: Types, tags: map<string, Tag>, op: Operation, now: Timestamp): map<string, Tag>
  {
    match op
    case Insert(id, tag) => tags[id := tag]
    case Update(id, v, q, ts) =>
      if id in types && v.DataType() == types[id] && id in tags then tags[id := Tag(v, q, ts, now)] else tags
    case Requalify(id, q) =>
      if id in tags then tags[id := Tag(tags[id].value, q, tags[id].sourceTimestamp, now)] else tags
  }

  /** The thread begins its operation and takes `n` steps. */
  function Alone(op: Operation, t: nat, n: nat, now: Timestamp): seq<Event>
  {
    if n == 0 then [Start(op)] else Alone(op, t, n - 1, now) + [Advance(t, now)]
  }

  lemma {:induction false} Begins(types: Types, m: Machine, op: Operation, now: Timestamp) returns (n: Machine)
    requires Reachable(types, m) && Enabled(types, m, Start(op))
    ensures Leads(types, m, Alone(op, |m.threads|, 0, now), n) && n.store == m.store
    ensures n.threads == m.threads + [if Refused(types, op) then Finished else Ready(op)]
  {
    ReachableStep(types, m, Start(op));
    n := Step(types, m, Start(op));
    assert [Start(op)][1..] == [];
  }

  lemma {:induction false} InsertsAlone(types: Types, m: Machine, op: Operation, now: Timestamp) returns (n: Machine)
    requires Reachable(types, m) && Enabled(types, m, Start(op)) && op.Insert?
    ensures m.store.Valid() && n.store.Valid() && Leads(types, m, Alone(op, |m.threads|, 2, now), n)
    ensures n.threads == m.threads + [Finished] && n.store.Tags() == m.store.Tags()[op.id := op.tag]
  {
    var t := |m.threads|;
    ReachableStatesAreSound(types, m);
    n := Begins(types, m, op, now);
    n := Finds(types, m, Alone(op, t, 0, now), n, m.threads, op, now);
    n := Inserts(types, m, Alone(op, t, 1, now), n, m.threads, op, now);
  }

  lemma {:induction false} ChangesAlone(types: Types, m: Machine, op: Operation, now: Timestamp) returns (n: Machine)
    requires Reachable(types, m) && Enabled(types, m, Start(op)) && !op.Insert? && !Refused(types, op)
    ensures m.store.Valid() && n.store.Valid() && Leads(types, m, Alone(op, |m.threads|, if op.id in m.store.Tags() then 3 else 1, now), n)
    ensures n.threads == m.threads + [Finished]
    ensures n.store.Tags() == if op.id in m.store.Tags() then m.store.Tags()[op.id := Renewed(op, m.store.Tags()[op.id], now)] else m.store.Tags()
  {
    var t := |m.threads|;
    ReachableStatesAreSound(types, m);
    n := Begins(types, m, op, now);
    n := Finds(types, m, Alone(op, t, 0, now), n, m.threads, op, now);
    if op.id in m.store.index {
      n := Loads(types, m, Alone(op, t, 1, now), n, m.threads, op, now);
      n := Changes(types, m, Alone(op, t, 2, now), n, m.threads, op, m.store.Tags()[op.id], now);
    }
  }

  /**
   * An operation that starts in any reachable state and whose steps no other thread disturbs ends, and does
   * to the tags what the call does in one go: it inserts, it replaces value and quality of a known tag by a
   * value of the configured type, or it replaces the quality alone; otherwise it changes nothing.
   */
  lemma {:induction false} UndisturbedIsAtOnce(types: Types, m: Machine, op: Operation, now: Timestamp) returns (k: nat, n: Machine)
    requires Reachable(types, m) && Enabled(types, m, Start(op))
    ensures Leads(types, m, Alone(op, |m.threads|, k, now), n) && n.threads == m.threads + [Finished]
    ensures m.store.Valid() && n.store.Valid() && n.store.Tags() == AtOnce(types, m.store.Tags(), op, now)
  {
    ReachableStatesAreSound(types, m);
    if Refused(types, op) {
      k := 0;
      n := Begins(types, m, op, now);
    } else if op.Insert? {
      k := 2;
      n := InsertsAlone(types, m, op, now);
    } else {
      k := if op.id in m.store.Tags() then 3 else 1;
      n := ChangesAlone(types, m, op, now);
    }
  }
}
