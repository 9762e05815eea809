/** Tag definitions, the registry that pairs them with runtime tags, and the effects drivers have on it. */
module Registries {
  import opened Words
  import opened TagModel
  import opened TagStores
  import opened Ids

  /** The fields of a definition the runtime acts on. */
  datatype TagDefinition = TagDefinition(id: string, name: string, address: string, dataType: TagDataType, writable: bool)

  type Definitions = map<string, TagDefinition>

  predicate IsWhitespace(c: char)
  {
    '\t' <= c <= '\r' || c == ' ' || c == '\U{85}' || c == '\U{A0}' || c == '\U{1680}'
    || '\U{2000}' <= c <= '\U{200A}' || c == '\U{2028}' || c == '\U{2029}' || c == '\U{202F}'
    || c == '\U{205F}' || c == '\U{3000}'
  }

  /** `trim().is_empty()` */
  predicate Blank(s: string)
  {
    forall i :: 0 <= i < |s| ==> IsWhitespace(s[i])
  }

  /** Some character is none of Unicode's white space. */
  predicate HasText(s: string)
  {
    exists i :: 0 <= i < |s| && s[i] as int !in {9, 10, 11, 12, 13, 32, 0x85, 0xA0, 0x1680, 0x2000, 0x2001, 0x2002, 0x2003, 0x2004, 0x2005,
                                                 0x2006, 0x2007, 0x2008, 0x2009, 0x200A, 0x2028, 0x2029, 0x202F, 0x205F, 0x3000}
  }

  lemma {:induction false} BlankHasNoText(s: string)
    ensures Blank(s) <==> !HasText(s)
  {
    if !Blank(s) {
      var i :| 0 <= i < |s| && !IsWhitespace(s[i]);
      assert s[i] as int !in {9, 10, 11, 12, 13, 32, 0x85, 0xA0, 0x1680, 0x2000, 0x2001, 0x2002, 0x2003, 0x2004, 0x2005,
                              0x2006, 0x2007, 0x2008, 0x2009, 0x200A, 0x2028, 0x2029, 0x202F, 0x205F, 0x3000};
    }
  }

  predicate ValidDefinition(d: TagDefinition)
  {
    !Blank(d.id) && !Blank(d.name) && !Blank(d.address)
  }

  predicate Named(d: TagDefinition)
  {
    HasText(d.id) && HasText(d.name) && HasText(d.address)
  }

  lemma {:induction false} ValidIsNamed(d: TagDefinition)
    ensures ValidDefinition(d) <==> Named(d)
  {
    BlankHasNoText(d.id);
    BlankHasNoText(d.name);
    BlankHasNoText(d.address);
  }

  /** Definition `i` has all its texts, and an id of its own among those before it. */
  predicate AcceptedAt(defs: seq<TagDefinition>, i: nat)
    requires i < |defs|
  {
    Named(defs[i]) && forall j :: 0 <= j < i ==> defs[j].id != defs[i].id
  }

  predicate AllAccepted(defs: seq<TagDefinition>)
  {
    forall i :: 0 <= i < |defs| ==> AcceptedAt(defs, i)
  }

  /** The first definition that is not accepted has this id. */
  predicate FirstRefused(defs: seq<TagDefinition>, id: string)
  {
    exists i :: 0 <= i < |defs| && !AcceptedAt(defs, i) && defs[i].id == id && forall k :: 0 <= k < i ==> AcceptedAt(defs, k)
  }

  /** The definitions by id: every one valid, no id twice. */
  method DefinitionsFrom(defs: seq<TagDefinition>) returns (r: Result<Definitions, CoreError>)
    ensures r.Ok? <==> AllAccepted(defs)
    ensures r.Err? ==> r.error.InvalidConfig? && FirstRefused(defs, r.error.id)
    ensures r.Ok? ==>
              && (forall i :: 0 <= i < |defs| ==> defs[i].id in r.value && r.value[defs[i].id] == defs[i])
              && (forall id :: id in r.value ==> r.value[id].id == id && r.value[id] in defs)
  {
    var m: Definitions := map[];
    for i := 0 to |defs|
      invariant forall k :: 0 <= k < i ==> defs[k].id in m && m[defs[k].id] == defs[k]
      invariant forall k :: 0 <= k < i ==> AcceptedAt(defs, k)
      invariant forall id :: id in m ==> m[id].id == id && m[id] in defs[..i]
    {
      var d := defs[i];
      ValidIsNamed(d);
      if !ValidDefinition(d) {
        assert !AcceptedAt(defs, i);
        return Err(InvalidConfig(d.id));
      }
      if d.id in m {
        ghost var k :| 0 <= k < i && defs[k] == m[d.id];
        assert !AcceptedAt(defs, i);
        return Err(InvalidConfig(d.id));
      }
      m := m[d.id := d];
    }
    r := Ok(m);
  }

  /** All ids of a map, sorted: hash-map order first, each put in its place. */
  method SortedIds(defs: Definitions) returns (ids: seq<string>)
    ensures StrictlySorted(ids) && forall id :: id in ids <==> id in defs
  {
    ids := [];
    var todo := defs.Keys;
    while todo != {}
      invariant todo <= defs.Keys
      invariant StrictlySorted(ids)
      invariant forall id :: id in ids <==> id in defs && id !in todo
      decreases todo
    {
      var id :| id in todo;
      InsertedStaysSorted(ids, id);
      ids := Inserted(ids, id);
      todo := todo - {id};
    }
  }

  // ----- effects -----

  /** What a driver does to a tag: publish a value as good, or mark its quality. */
  datatype Effect = Publish(tagId: string, value: TagValue) | Mark(tagId: string, quality: TagQuality)

  /** A tag without its timestamps. */
  datatype Cell = Cell(value: TagValue, quality: TagQuality)

  type Cells = map<string, Cell>

  /** One effect on one tag: a value of another type than defined is not taken over. */
  function OnCell(defs: Definitions, c: Cell, e: Effect): Cell
  {
    match e
    case Publish(id, v) => if id in defs && v.Matches(defs[id].dataType) then Cell(v, Good) else c
    case Mark(_, q) => c.(quality := q)
  }

  /** An effect on an unknown tag is dropped. */
  function Apply(defs: Definitions, cells: Cells, e: Effect): Cells
  {
    if e.tagId in cells then cells[e.tagId := OnCell(defs, cells[e.tagId], e)] else cells
  }

  function ApplyAll(defs: Definitions, cells: Cells, es: seq<Effect>): Cells
  {
    if es == [] then cells else ApplyAll(defs, Apply(defs, cells, es[0]), es[1..])
  }

  lemma {:induction false} ApplyConcat(defs: Definitions, cells: Cells, a: seq<Effect>, b: seq<Effect>)
    ensures ApplyAll(defs, cells, a + b) == ApplyAll(defs, ApplyAll(defs, cells, a), b)
  {
    if a == [] {
      assert a + b == b;
    } else {
      ApplyConcat(defs, Apply(defs, cells, a[0]), a[1..], b);
      assert (a + b)[1..] == a[1..] + b;
    }
  }

  /** The effects on tag `id`, in order. */
  function Own(es: seq<Effect>, id: string): seq<Effect>
  {
    if es == [] then [] else (if es[0].tagId == id then [es[0]] else []) + Own(es[1..], id)
  }

  lemma {:induction false} OwnConcat(a: seq<Effect>, b: seq<Effect>, id: string)
    ensures Own(a + b, id) == Own(a, id) + Own(b, id)
  {
    if a == [] {
      assert a + b == b;
    } else {
      OwnConcat(a[1..], b, id);
      var ab := a + b;
      assert ab[0] == a[0] && ab[1..] == a[1..] + b;
    }
  }

  function OnCellAll(defs: Definitions, c: Cell, es: seq<Effect>): Cell
    decreases |es|
  {
    if es == [] then c else OnCellAll(defs, OnCell(defs, c, es[0]), es[1..])
  }

  /** Effects on other tags do not matter to a tag, and none creates or removes one. */
  lemma {:induction false} OnlyOwnEffectsMatter(defs: Definitions, cells: Cells, es: seq<Effect>, id: string)
    ensures ApplyAll(defs, cells, es).Keys == cells.Keys
    ensures id in cells ==> ApplyAll(defs, cells, es)[id] == OnCellAll(defs, cells[id], Own(es, id))
  {
    if es != [] {
      var next := Apply(defs, cells, es[0]);
      assert next.Keys == cells.Keys;
      OnlyOwnEffectsMatter(defs, next, es[1..], id);
      var own := Own(es[1..], id);
      if es[0].tagId == id {
        assert ([es[0]] + own)[1..] == own;
      } else {
        assert [] + own == own;
      }
    }
  }

  lemma {:induction false} OneApplied(defs: Definitions, cells: Cells, e: Effect)
    ensures ApplyAll(defs, cells, [e]) == Apply(defs, cells, e)
  {
    assert [e][1..] == [];
  }

  // ----- the registry -----

  function CellsOf(tags: map<string, Tag>): Cells
  {
    map id | id in tags :: Cell(tags[id].value, tags[id].quality)
  }

  lemma {:induction false} CellsUpdate(tags: map<string, Tag>, id: string, t: Tag)
    ensures CellsOf(tags[id := t]) == CellsOf(tags)[id := Cell(t.value, t.quality)]
  {
  }

  /** The zero-equivalent value a tag starts with. */
  function InitialValue(t: TagDataType, now: Timestamp): TagValue
  {
    match t
    case BoolType => Bool(false)
    case Int16Type => Int16(0)
    case UInt16Type => UInt16(0)
    case Int32Type => Int32(0)
    case UInt32Type => UInt32(0)
    case Int64Type => Int64(0)
    case UInt64Type => UInt64(0)
    case FloatType => Float(0)
    case DoubleType => Double(0)
    case DateTimeType => DateTime(Clamp(now))
    case ByteStringType => ByteString([])
    case StringType => String([])
  }

  function Clamp(now: Timestamp): I64
  {
    if -0x8000_0000_0000_0000 <= now < 0x8000_0000_0000_0000 then now else 0
  }

  /** Every tag has a definition, every definition a tag, and every value its definition's type. */
  ghost predicate Typed(defs: Definitions, cells: Cells)
  {
    && cells.Keys == defs.Keys
    && forall id :: id in cells && id in defs ==> cells[id].value.Matches(defs[id].dataType)
  }

  lemma {:induction false} EffectsKeepTypes(defs: Definitions, cells: Cells, es: seq<Effect>)
    requires Typed(defs, cells)
    ensures Typed(defs, ApplyAll(defs, cells, es))
  {
    if es != [] {
      assert Apply(defs, cells, es[0]).Keys == cells.Keys;
      EffectsKeepTypes(defs, Apply(defs, cells, es[0]), es[1..]);
    }
  }

  function InitialTag(d: TagDefinition, now: Timestamp): Tag
  {
    Tag(InitialValue(d.dataType, now), Initializing, now, now)
  }

  /** The tags inserted for a list of ids. */
  function InitialTags(defs: Definitions, ids: seq<string>, now: Timestamp): map<string, Tag>
    requires forall i :: 0 <= i < |ids| ==> ids[i] in defs
  {
    if ids == [] then map[]
    else InitialTags(defs, ids[..|ids| - 1], now)[ids[|ids| - 1] := InitialTag(defs[ids[|ids| - 1]], now)]
  }

  lemma {:induction false} InitialTagsAreInitial(defs: Definitions, ids: seq<string>, now: Timestamp)
    requires forall i :: 0 <= i < |ids| ==> ids[i] in defs
    ensures forall id :: id in InitialTags(defs, ids, now) <==> id in ids
    ensures forall id :: id in InitialTags(defs, ids, now) ==> InitialTags(defs, ids, now)[id] == InitialTag(defs[id], now)
  {
    if ids != [] {
      InitialTagsAreInitial(defs, ids[..|ids| - 1], now);
      assert ids == ids[..|ids| - 1] + [ids[|ids| - 1]];
    }
  }

  /** Insert an initial tag for every listed definition. */
  method FillStore(store: TagStore, defs: Definitions, ids: seq<string>, now: Timestamp)
    requires store.Valid() && store.View() == map[]
    requires forall i :: 0 <= i < |ids| ==> ids[i] in defs
    modifies store
    ensures store.Valid() && store.View() == InitialTags(defs, ids, now) && |store.subscribers| == |old(store.subscribers)|
  {
    for i := 0 to |ids|
      invariant store.Valid()
      invariant store.View() == InitialTags(defs, ids[..i], now) && |store.subscribers| == |old(store.subscribers)|
    {
      assert ids[..i + 1][..i] == ids[..i];
      store.Insert(ids[i], InitialTag(defs[ids[i]], now));
    }
    assert ids[..|ids|] == ids;
  }

  lemma {:induction false} InitialCellsAreTyped(defs: Definitions, tags: map<string, Tag>, now: Timestamp)
    requires tags.Keys == defs.Keys
    requires forall id :: id in tags ==> tags[id] == InitialTag(defs[id], now)
    ensures Typed(defs, CellsOf(tags))
  {
  }

  /** Definitions paired with the runtime store. */
  class TagRegistry {
    const definitions: Definitions
    const tags: TagStore

    ghost predicate Valid()
      reads this, tags
    {
      tags.Valid()
    }

    /** The tags without timestamps. */
    ghost function Cells(): Cells
      requires Valid()
      reads this, tags
    {
      CellsOf(tags.View())
    }

    /** Fill the store in id order with zero-equivalent tags. */
    constructor (definitions: Definitions, now: Timestamp)
      ensures Valid() && fresh(tags) && this.definitions == definitions
      ensures Typed(definitions, Cells()) && tags.subscribers == []
      ensures forall id :: id in tags.View() <==> id in definitions
      ensures forall id :: id in tags.View() ==> tags.View()[id] == InitialTag(definitions[id], now)
    {
      this.definitions := definitions;
      var store := new TagStore();
      this.tags := store;
      new;
      var ids := SortedIds(definitions);
      assert forall i :: 0 <= i < |ids| ==> ids[i] in ids;
      FillStore(store, definitions, ids, now);
      InitialTagsAreInitial(definitions, ids, now);
      InitialCellsAreTyped(definitions, store.View(), now);
    }

    method GetTag(id: string) returns (r: Result<Tag, CoreError>)
      requires Valid()
      ensures r == if id in tags.View() then Ok(tags.View()[id]) else Err(TagNotFound(id))
    {
      r := tags.Get(id);
    }

    method GetDefinition(id: string) returns (r: Result<TagDefinition, CoreError>)
      ensures r == if id in definitions then Ok(definitions[id]) else Err(DefinitionNotFound(id))
    {
      r := if id in definitions then Ok(definitions[id]) else Err(DefinitionNotFound(id));
    }

    /** Update a tag, checking the value against the configured type. */
    method UpdateTagValue(id: string, value: TagValue, quality: TagQuality, sourceTs: Timestamp, now: Timestamp)
      returns (r: Result<Tag, CoreError>)
      requires Valid()
      modifies tags
      ensures Valid()
      ensures r.Ok? <==> id in definitions && value.Matches(definitions[id].dataType) && id in old(tags.View())
      ensures r.Err? ==> r.error == if id !in definitions then DefinitionNotFound(id)
                                    else if value.DataType() != definitions[id].dataType then TypeMismatchOf(id)
                                    else TagNotFound(id)
      ensures r.Ok? ==> tags.View() == old(tags.View())[id := Tag(value, quality, sourceTs, now)]
      ensures r.Err? ==> tags.View() == old(tags.View())
      ensures quality == Good ==> Cells() == Apply(definitions, old(Cells()), Publish(id, value))
    {
      if id !in definitions {
        return Err(DefinitionNotFound(id));
      }
      CellsUpdate(tags.View(), id, Tag(value, quality, sourceTs, now));
      r := tags.UpdateValueWithExpected(id, value, quality, sourceTs, now, definitions[id].dataType);
    }

    method SetTagQuality(id: string, quality: TagQuality, now: Timestamp) returns (r: Result<(), CoreError>)
      requires Valid()
      modifies tags
      ensures Valid()
      ensures r == if id in old(tags.View()) then Ok(()) else Err(TagNotFound(id))
      ensures Cells() == Apply(definitions, old(Cells()), Mark(id, quality))
    {
      if id in tags.View() {
        CellsUpdate(tags.View(), id, tags.View()[id].SetQuality(quality, now));
      }
      r := tags.SetQuality(id, quality, now);
    }

    /** Carry out one effect at the current time; failures are ignored. */
    method Perform(e: Effect)
      requires Valid()
      modifies tags
      ensures Valid() && Cells() == Apply(definitions, old(Cells()), e)
    {
      var now: Timestamp := *;
      match e
      case Publish(id, v) => var _ := UpdateTagValue(id, v, Good, now, now);
      case Mark(id, q) => var _ := SetTagQuality(id, q, now);
    }

    /** Mark every mapping of a list, in order. */
    method MarkEach(ids: seq<string>, q: TagQuality)
      requires Valid()
      modifies tags
      ensures Valid() && Cells() == ApplyAll(definitions, old(Cells()), Marks(ids, q))
    {
      for i := 0 to |ids|
        invariant Valid()
        invariant ApplyAll(definitions, Cells(), Marks(ids[i..], q)) == ApplyAll(definitions, old(Cells()), Marks(ids, q))
      {
        assert ids[i..][1..] == ids[i + 1..];
        Perform(Mark(ids[i], q));
      }
    }
  }

  function Marks(ids: seq<string>, q: TagQuality): seq<Effect>
  {
    if ids == [] then [] else [Mark(ids[0], q)] + Marks(ids[1..], q)
  }

  /** Marking a list of tags changes their qualities, and nothing else. */
  lemma {:induction false} MarksMark(defs: Definitions, cells: Cells, ids: seq<string>, q: TagQuality, id: string)
    requires id in cells
    ensures var after := ApplyAll(defs, cells, Marks(ids, q));
            id in after && after[id] == if id in ids then cells[id].(quality := q) else cells[id]
    decreases |ids|
  {
    if ids != [] {
      var next := Apply(defs, cells, Mark(ids[0], q));
      assert id in next;
      MarksMark(defs, next, ids[1..], q, id);
      assert id in ids <==> id == ids[0] || id in ids[1..];
    }
  }

  lemma {:induction false} OwnOfMarks(ids: seq<string>, q: TagQuality, id: string)
    ensures id !in ids ==> Own(Marks(ids, q), id) == []
  {
    if ids != [] {
      OwnOfMarks(ids[1..], q, id);
    }
  }

  predicate Publishes(es: seq<Effect>, id: string, v: TagValue)
  {
    Publish(id, v) in es
  }

  /** A tag's value after some effects is its value before, or one of the values published for it. */
  lemma {:induction false} ValueComesFromPublish(defs: Definitions, cells: Cells, es: seq<Effect>, id: string)
    requires id in cells
    ensures var after := ApplyAll(defs, cells, es);
            && id in after
            && (after[id].value != cells[id].value ==> Publishes(es, id, after[id].value))
    decreases |es|
  {
    if es != [] {
      var next := Apply(defs, cells, es[0]);
      assert id in next;
      ValueComesFromPublish(defs, next, es[1..], id);
      assert next[id].value != cells[id].value ==> es[0] == Publish(id, next[id].value);
    }
  }

  lemma {:induction false} MarksPublishNothing(ids: seq<string>, q: TagQuality, id: string, v: TagValue)
    ensures !Publishes(Marks(ids, q), id, v)
  {
    if ids != [] {
      MarksPublishNothing(ids[1..], q, id, v);
    }
  }

  /** What a tag of each type starts as: zero, false or empty, and a date as the current time. */
  predicate StartsAs(t: TagDataType, v: TagValue, now: Timestamp)
  {
    && (t == BoolType ==> v == Bool(false))
    && (t == Int16Type ==> v == Int16(0)) && (t == UInt16Type ==> v == UInt16(0))
    && (t == Int32Type ==> v == Int32(0)) && (t == UInt32Type ==> v == UInt32(0))
    && (t == Int64Type ==> v == Int64(0)) && (t == UInt64Type ==> v == UInt64(0))
    && (t == FloatType ==> v == Float(0)) && (t == DoubleType ==> v == Double(0))
    && (t == StringType ==> v == String([])) && (t == ByteStringType ==> v == ByteString([]))
    && (t == DateTimeType ==> v.DateTime? && (-0x8000_0000_0000_0000 <= now < 0x8000_0000_0000_0000 ==> v.millis as int == now))
  }

  /** The tag a definition starts with: initializing, with both timestamps at the current time. */
  predicate Starts(d: TagDefinition, t: Tag, now: Timestamp)
  {
    t.quality == Initializing && t.sourceTimestamp == now && t.serverTimestamp == now && StartsAs(d.dataType, t.value, now)
  }

  lemma {:induction false} InitialTagStarts(d: TagDefinition, now: Timestamp)
    ensures Starts(d, InitialTag(d, now), now)
  {
  }

  /** The registry of a list of definitions: an error for an invalid or repeated one. */
  method FromDefinitions(defs: seq<TagDefinition>, now: Timestamp) returns (r: Result<TagRegistry, CoreError>)
    ensures r.Ok? <==> AllAccepted(defs)
    ensures r.Err? ==> r.error.InvalidConfig? && FirstRefused(defs, r.error.id)
    ensures r.Ok? ==> r.value.Valid() && Typed(r.value.definitions, r.value.Cells()) && r.value.tags.subscribers == []
    ensures r.Ok? ==> forall i :: 0 <= i < |defs| ==> defs[i].id in r.value.definitions && r.value.definitions[defs[i].id] == defs[i]
    ensures r.Ok? ==> forall i :: 0 <= i < |defs| ==>
              && defs[i].id in r.value.tags.View()
              && Starts(defs[i], r.value.tags.View()[defs[i].id], now)
  {
    var d := DefinitionsFrom(defs);
    if d.Err? {
      return Err(d.error);
    }
    var reg := new TagRegistry(d.value, now);
    forall i | 0 <= i < |defs| ensures Starts(defs[i], InitialTag(d.value[defs[i].id], now), now) {
      InitialTagStarts(defs[i], now);
    }
    r := Ok(reg);
  }
}
